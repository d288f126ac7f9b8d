/** `publish` itself, on the files it changes: pointer, journals, backups and release directories. Each method is one
    block of the original. Other packages' attempts may be under way, and act whenever this one does not hold the lock;
    the history shows that the whole is a run of the transition system. */
module PublicationVolume {
  import opened Wrappers
  import opened Publication
  import opened PublicationSafety
  import opened PublicationRecovery

  /** Where a callback leads. */
  function Called(p: Point, passed: bool): Point
    requires p.CheckCandidate? || p.CheckServing? || p.ReadBack?
  {
    match p
    case CheckCandidate => if passed then Switch else Handle
    case CheckServing => if passed then Accept else Handle
    case ReadBack => if passed then Confirm else Halt
  }

  // ---- what other attempts do meanwhile --------------------------------------------------

  lemma {:induction false} RunJoins(c: Config, s: State, a: seq<Action>, b: seq<Action>)
    requires Run(c, s, a).Some?
    ensures Run(c, s, a + b) == Run(c, Run(c, s, a).value, b)
    decreases |b|
  {
    if b == [] {
      assert a + b == a;
    } else {
      RunJoins(c, s, a, b[..|b| - 1]);
      assert (a + b)[..|a + b| - 1] == a + b[..|b| - 1];
    }
  }

  predicate Apart(actions: seq<Action>, k: Key) {
    forall a :: a in actions ==> a.k != k
  }

  /** A step moves its own attempt only. */
  lemma StepMoves(c: Config, s: State, m: Key, p: Point, passed: bool)
    requires m in c.packages && Step(c, s, m, p, passed).Some?
    ensures var t := Step(c, s, m, p, passed).value; m in t.attempts && t.attempts == s.attempts[m := t.attempts[m]]
  {
    var t := Step(c, s, m, p, passed).value;
    match p
    case Install(_) =>
    case Restore =>
    case CheckCandidate =>
    case CheckServing =>
    case ReadBack =>
    case _ =>
  }

  lemma NextApart(c: Config, s: State, a: Action, k: Key)
    requires Next(c, s, a).Some? && a.k != k && k in s.attempts
    ensures k in Next(c, s, a).value.attempts && Next(c, s, a).value.attempts[k] == s.attempts[k]
  {
    if a.Proceed? {
      StepMoves(c, s, a.k, s.attempts[a.k], a.passed);
    }
  }

  lemma {:induction false} RunApart(c: Config, s: State, actions: seq<Action>, k: Key)
    requires Run(c, s, actions).Some? && Apart(actions, k) && k in s.attempts
    ensures var t := Run(c, s, actions).value; k in t.attempts && t.attempts[k] == s.attempts[k]
    decreases |actions|
  {
    if actions != [] {
      var before := actions[..|actions| - 1];
      RunApart(c, s, before, k);
      NextApart(c, Run(c, s, before).value, actions[|actions| - 1], k);
    }
  }

  /** The actions that others can really take here, up to a point where none of them holds the lock. */
  function Possible(c: Config, s: State, actions: seq<Action>, k: Key): seq<Action> {
    if Apart(actions, k) && Run(c, s, actions).Some? && Unlocked(Run(c, s, actions).value, k) then actions else []
  }

  function After(c: Config, s: State, actions: seq<Action>, k: Key): State {
    match Run(c, s, Possible(c, s, actions, k))
    case Some(t) => t
    case None => s
  }

  /** The steps of `k` among these actions are those of one attempt, without crash or outside exception. */
  predicate Orderly(actions: seq<Action>, k: Key) {
    forall a :: a in actions && a.k == k ==> a.Begin? || a.Proceed?
  }

  /** A run went on, with orderly steps of `k`. */
  predicate Grown(before: seq<Action>, after: seq<Action>, k: Key) {
    before <= after && Orderly(after[|before|..], k)
  }

  lemma GrownJoins(a: seq<Action>, b: seq<Action>, c: seq<Action>, k: Key)
    requires Grown(a, b, k) && Grown(b, c, k)
    ensures Grown(a, c, k)
  {
    assert c[|a|..] == b[|a|..] + c[|b|..];
  }

  class Volume {
    const config: Config
    /** What others try whenever they can: anything, given the state they find. */
    const others: State -> seq<Action>
    var pointer: Bytes
    var journals: map<Key, Journal>
    var backups: map<Key, Bytes>
    var directories: map<string, Files>
    /** The protocol state these files are in, and the run that led to it. */
    var state: State
    ghost var history: seq<Action>

    ghost predicate Mirrors()
      reads this
    {
      && state.pointer == pointer && state.journals == journals
      && state.backups == backups && state.directories == directories
      && Run(config, Start(config), history) == Some(state)
    }

    /** The attempt of `k` stands at `p`, and no other one holds the lock. */
    ghost predicate Ready(k: Key, p: Point)
      reads this
    {
      Mirrors() && k in config.packages && Unlocked(state, k) && AtPoint(state, k, p)
    }

    /** Nobody else does anything. */
    ghost predicate Quiet() {
      forall s :: others(s) == []
    }

    constructor (config: Config, others: State -> seq<Action>)
      ensures Mirrors() && this.config == config && this.others == others && state == Start(config) && history == []
    {
      this.config, this.others := config, others;
      pointer, journals, backups, directories := config.initial, map[], map[], config.existing;
      state, history := Start(config), [];
    }

    /** Between two critical sections: whatever others do, if they can, is done. */
    method Meanwhile(k: Key, p: Point, w: Answers)
      requires Ready(k, p) && !Locked(p)
      modifies this
      ensures Ready(k, p) && Grown(old(history), history, k)
      ensures var actions := others(old(state)); var t := Run(config, old(state), actions);
        Apart(actions, k) && t.Some? && Unlocked(t.value, k) ==> state == t.value && history == old(history) + actions
      ensures Quiet() ==> state == old(state) && Finish(config, state, k, w) == Finish(config, old(state), k, w)
    {
      ghost var actions := Possible(config, state, others(state), k);
      RunApart(config, state, actions, k);
      RunJoins(config, Start(config), history, actions);
      state := After(config, state, others(state), k);
      pointer, journals, backups, directories := state.pointer, state.journals, state.backups, state.directories;
      history := history + actions;
    }

    /** One step of the attempt in the transition system; the end of the attempt does not move. */
    method Advance(k: Key, p: Point, w: Answers)
      requires k in config.packages && Unlocked(state, k) && AtPoint(state, k, p)
      requires Run(config, Start(config), history) == Some(state) && Step(config, state, k, p, Answer(w, p)).Some?
      modifies this`state, this`history
      ensures state == Step(config, old(state), k, p, Answer(w, p)).value && Grown(old(history), history, k)
      ensures Run(config, Start(config), history) == Some(state)
      ensures k in state.attempts && Finish(config, state, k, w) == Finish(config, old(state), k, w)
    {
      StepRank(config, state, k, p, Answer(w, p));
      OneStep(config, state, k, p, w, Step(config, state, k, p, Answer(w, p)).value);
      assert (history + [Proceed(k, Answer(w, p))])[..|history|] == history;
      history := history + [Proceed(k, Answer(w, p))];
      state := Step(config, state, k, p, Answer(w, p)).value;
    }

    /** A read and decision inside a later critical section. */
    method Decide(k: Key, p: Point, w: Answers)
      requires Ready(k, p) && (p.Switch? || p.Accept? || p.Handle? || p.Confirm?)
      modifies this`state, this`history
      ensures Ready(k, Decided(config.packages[k], pointer, p)) && Grown(old(history), history, k)
      ensures Finish(config, state, k, w) == Finish(config, old(state), k, w)
    {
      Advance(k, p, w);
    }

    /** A callback returns, or raises. */
    method Call(k: Key, p: Point, w: Answers)
      requires Ready(k, p) && (p.CheckCandidate? || p.CheckServing? || p.ReadBack?)
      modifies this`state, this`history
      ensures Ready(k, Called(p, Answer(w, p))) && Grown(old(history), history, k)
      ensures Finish(config, state, k, w) == Finish(config, old(state), k, w)
    {
      Advance(k, p, w);
    }

    method Leave(k: Key, w: Answers)
      requires Ready(k, Return)
      modifies this`state, this`history
      ensures Ready(k, Halt) && state.journals == old(state.journals) && Grown(old(history), history, k)
      ensures Finish(config, state, k, w) == Finish(config, old(state), k, w)
    {
      Advance(k, Return, w);
    }

    /** The durable journal write. */
    method Save(k: Key, stage: Stage, next: Point, w: Answers)
      requires Ready(k, Publication.Save(stage, next))
      modifies this`journals, this`state, this`history
      ensures Ready(k, next) && StageIs(state, k, stage) && Grown(old(history), history, k)
      ensures journals == old(journals)[k := Journal(k, Digest(Own(config, k)), stage)]
      ensures Finish(config, state, k, w) == Finish(config, old(state), k, w)
    {
      Advance(k, Publication.Save(stage, next), w);
      journals := journals[k := Journal(k, Digest(config.packages[k].pointer), stage)];
    }

    /** The first critical section: reconcile journal and pointer, capture the previous pointer, install the
        release. Some carries the journal stage the attempt goes on with. */
    method Prepare(k: Key, w: Answers) returns (found: Option<Stage>)
      requires Ready(k, Enter)
      modifies this
      ensures found.None? ==> Ready(k, Halt)
      ensures found.Some? ==> Ready(k, if found.value == RollbackSwitched then ReadBack else CheckCandidate)
      ensures pointer == old(pointer) && Grown(old(history), history, k)
      ensures k in state.attempts && Finish(config, state, k, w) == Finish(config, old(state), k, w)
    {
      Arrive(k, w);
      ghost var entered := history;
      found := Reconcile(k, w);
      GrownJoins(old(history), entered, history, k);
      if found.Some? {
        ghost var recorded := history;
        found := InstallFound(k, found.value, w);
        GrownJoins(old(history), recorded, history, k);
      }
    }

    /** Takes the lock, and reads journal and pointer. */
    method Arrive(k: Key, w: Answers)
      requires Ready(k, Enter)
      modifies this`state, this`history
      ensures Ready(k, Entered(config, state, k)) && Grown(old(history), history, k)
      ensures Finish(config, state, k, w) == Finish(config, old(state), k, w)
    {
      Advance(k, Enter, w);
    }

    method InstallFound(k: Key, stage: Stage, w: Answers) returns (found: Option<Stage>)
      requires Ready(k, Publication.Install(stage))
      modifies this`directories, this`state, this`history
      ensures found == None || found == Some(stage)
      ensures Ready(k, if found.None? then Halt else if stage == RollbackSwitched then ReadBack else CheckCandidate)
      ensures Finish(config, state, k, w) == Finish(config, old(state), k, w) && Grown(old(history), history, k)
    {
      var installed := Install(k, stage, w);
      found := if installed then Some(stage) else None;
    }

    /** What the journal and the pointer found allow. */
    method Reconcile(k: Key, w: Answers) returns (found: Option<Stage>)
      requires k in config.packages && Ready(k, Entered(config, state, k))
      modifies this`backups, this`journals, this`state, this`history
      ensures Ready(k, if found.Some? then Publication.Install(found.value) else Halt)
        && Grown(old(history), history, k)
      ensures Finish(config, state, k, w) == Finish(config, old(state), k, w)
    {
      if k in journals {
        found := Resume(k, w);
      } else {
        found := Record(k, w);
      }
    }

    /** No journal: the attempt needs the parent to be live, and keeps it. */
    method Record(k: Key, w: Answers) returns (found: Option<Stage>)
      requires k in config.packages && k !in journals && Ready(k, Entered(config, state, k))
      modifies this`backups, this`journals, this`state, this`history
      ensures Ready(k, if found.Some? then Publication.Install(found.value) else Halt)
        && Grown(old(history), history, k)
      ensures Finish(config, state, k, w) == Finish(config, old(state), k, w)
    {
      var package := config.packages[k];
      var current := Digest(pointer);
      if current != package.parent || current == Digest(package.pointer) {
        return None;
      }
      Advance(k, BackUp, w);
      ghost var kept := history;
      backups := backups[k := pointer];
      Save(k, Prepared, Publication.Install(Prepared), w);
      GrownJoins(old(history), kept, history, k);
      found := Some(Prepared);
    }

    /** A journal is there: it is another's or settled, or the pointer went elsewhere, or the attempt goes on. */
    method Resume(k: Key, w: Answers) returns (found: Option<Stage>)
      requires k in config.packages && k in journals && Ready(k, Entered(config, state, k))
      modifies this`journals, this`state, this`history
      ensures Ready(k, if found.Some? then Publication.Install(found.value) else Halt)
        && Grown(old(history), history, k)
      ensures Finish(config, state, k, w) == Finish(config, old(state), k, w)
    {
      var package := config.packages[k];
      var current := Digest(pointer);
      var journal := journals[k];
      if journal.package != k || journal.pointer != Digest(package.pointer) || Terminal(journal.stage) {
        return None;
      }
      if current != Digest(package.pointer)
         && (current != package.parent || journal.stage == Accepted || journal.stage == Switched) {
        Save(k, Superseded, Halt, w);
        return None;
      }
      found := Some(journal.stage);
    }

    /** The immutable release: an existing directory must hold exactly these files; otherwise a complete copy
        is made aside and renamed into place. */
    method Install(k: Key, found: Stage, w: Answers) returns (installed: bool)
      requires Ready(k, Publication.Install(found))
      modifies this`directories, this`state, this`history
      ensures installed <==> (config.packages[k].directory in old(directories) ==>
                                old(directories)[config.packages[k].directory] == config.packages[k].files)
      ensures directories == if installed
          then old(directories)[config.packages[k].directory := config.packages[k].files]
                             else old(directories)
      ensures Ready(k, if !installed then Halt else if found == RollbackSwitched then ReadBack else CheckCandidate)
      ensures Finish(config, state, k, w) == Finish(config, old(state), k, w) && Grown(old(history), history, k)
    {
      var package := config.packages[k];
      Advance(k, Publication.Install(found), w);
      if package.directory in directories {
        installed := directories[package.directory] == package.files;
        assert installed ==> directories == directories[package.directory := package.files];
        return;
      }
      var temporary := Copy(package.files);
      directories := directories[package.directory := temporary];
      return true;
    }

    method Copy(files: Files) returns (copy: Files)
      ensures copy == files
    {
      copy := map[];
      var names := files.Keys;
      while names != {}
        invariant names <= files.Keys
        invariant copy == map name | name in files && name !in names :: files[name]
        decreases names
      {
        var name :| name in names;
        copy := copy[name := files[name]];
        names := names - {name};
      }
      assert copy == files;
    }

    /** Readback of the restored pointer, and the final journal. */
    method ConfirmRollback(k: Key, readback: bool, w: Answers)
      requires Ready(k, ReadBack) && w.readback == readback
      modifies this
      ensures Ready(k, Halt) && Grown(old(history), history, k)
      ensures Quiet() ==> Finish(config, state, k, w) == Finish(config, old(state), k, w)
    {
      Call(k, ReadBack, w);
      if !readback {
        return;
      }
      ghost var called := history;
      Meanwhile(k, Confirm, w);
      GrownJoins(old(history), called, history, k);
      ghost var resumed := history;
      Settle(k, w);
      GrownJoins(old(history), resumed, history, k);
    }

    /** The last critical section of a rollback. */
    method Settle(k: Key, w: Answers)
      requires Ready(k, Confirm)
      modifies this`journals, this`state, this`history
      ensures Ready(k, Halt) && Grown(old(history), history, k)
      ensures StageIs(state, k, if Digest(pointer) == Parent(config, k) then RolledBack else Superseded)
      ensures Finish(config, state, k, w) == Finish(config, old(state), k, w)
    {
      Decide(k, Confirm, w);
      ghost var decided := history;
      if Digest(pointer) == config.packages[k].parent {
        Save(k, RolledBack, Halt, w);
      } else {
        Save(k, Superseded, Halt, w);
      }
      GrownJoins(old(history), decided, history, k);
    }

    /** The guarded block: candidate check, switch, serving check, acceptance. False stands for an exception. */
    method VerifyAndSwitch(k: Key, candidate: bool, serving: bool, w: Answers) returns (accepted: bool)
      requires Ready(k, CheckCandidate) && w.candidate == candidate && w.serving == serving
      modifies this
      ensures Ready(k, if accepted then Halt else Handle) && Grown(old(history), history, k)
      ensures accepted ==> pointer == Own(config, k) && StageIs(state, k, Accepted)
      ensures Quiet() ==> Finish(config, state, k, w) == Finish(config, old(state), k, w)
    {
      Call(k, CheckCandidate, w);
      if !candidate {
        return false;
      }
      ghost var called := history;
      Meanwhile(k, Switch, w);
      GrownJoins(old(history), called, history, k);
      ghost var resumed := history;
      accepted := SwitchPointer(k, w);
      GrownJoins(old(history), resumed, history, k);
      if accepted {
        ghost var switched := history;
        accepted := AcceptServing(k, serving, w);
        GrownJoins(old(history), switched, history, k);
      }
    }

    method AcceptServing(k: Key, serving: bool, w: Answers) returns (accepted: bool)
      requires Ready(k, CheckServing) && w.serving == serving
      modifies this
      ensures Ready(k, if accepted then Halt else Handle) && Grown(old(history), history, k)
      ensures accepted ==> pointer == Own(config, k) && StageIs(state, k, Accepted)
      ensures Quiet() ==> Finish(config, state, k, w) == Finish(config, old(state), k, w)
    {
      Call(k, CheckServing, w);
      if !serving {
        return false;
      }
      ghost var called := history;
      Meanwhile(k, Accept, w);
      GrownJoins(old(history), called, history, k);
      ghost var resumed := history;
      accepted := Admit(k, w);
      GrownJoins(old(history), resumed, history, k);
    }

    /** The critical section of acceptance. */
    method Admit(k: Key, w: Answers) returns (accepted: bool)
      requires Ready(k, Accept)
      modifies this`journals, this`state, this`history
      ensures Ready(k, if accepted then Halt else Handle) && Grown(old(history), history, k)
      ensures accepted <==> pointer == Own(config, k)
      ensures StageIs(state, k, if accepted then Accepted else Superseded)
      ensures Finish(config, state, k, w) == Finish(config, old(state), k, w)
    {
      Decide(k, Accept, w);
      ghost var decided := history;
      accepted := pointer == config.packages[k].pointer;
      if !accepted {
        Save(k, Superseded, Handle, w);
        GrownJoins(old(history), decided, history, k);
        return;
      }
      Save(k, Accepted, Return, w);
      GrownJoins(old(history), decided, history, k);
      ghost var saved := history;
      Leave(k, w);
      GrownJoins(old(history), saved, history, k);
    }

    /** The critical section of the switch. */
    method SwitchPointer(k: Key, w: Answers) returns (switched: bool)
      requires Ready(k, Switch)
      modifies this
      ensures Ready(k, if switched then CheckServing else Handle) && Grown(old(history), history, k)
      ensures switched <==> old(pointer) == Own(config, k) || Digest(old(pointer)) == Parent(config, k)
      ensures pointer == if switched then Own(config, k) else old(pointer)
      ensures Finish(config, state, k, w) == Finish(config, old(state), k, w)
    {
      var package := config.packages[k];
      Decide(k, Switch, w);
      ghost var decided := history;
      if Digest(pointer) == package.parent {
        PutNew(k, w);
        GrownJoins(old(history), decided, history, k);
        return true;
      }
      if pointer != package.pointer {
        Save(k, Superseded, Handle, w);
        GrownJoins(old(history), decided, history, k);
        return false;
      }
      return true;
    }

    /** The write of the pointer between its two journal writes. */
    method PutNew(k: Key, w: Answers)
      requires Ready(k, Publication.Save(Switching, Replace))
      modifies this
      ensures Ready(k, CheckServing) && Grown(old(history), history, k) && pointer == Own(config, k)
      ensures Finish(config, state, k, w) == Finish(config, old(state), k, w)
    {
      Save(k, Switching, Replace, w);
      ghost var saved := history;
      Advance(k, Replace, w);
      GrownJoins(old(history), saved, history, k);
      pointer := config.packages[k].pointer;
      ghost var replaced := history;
      Save(k, Switched, CheckServing, w);
      GrownJoins(old(history), replaced, history, k);
    }

    /** The exception handler. */
    method RollBack(k: Key, readback: bool, w: Answers)
      requires Ready(k, Handle) && w.readback == readback
      modifies this
      ensures Ready(k, Halt) && Grown(old(history), history, k)
      ensures Quiet() ==> Finish(config, state, k, w) == Finish(config, old(state), k, w)
    {
      Meanwhile(k, Handle, w);
      ghost var resumed := history;
      var restored := Undo(k, w);
      GrownJoins(old(history), resumed, history, k);
      if restored {
        ghost var handled := history;
        ConfirmRollback(k, readback, w);
        GrownJoins(old(history), handled, history, k);
      }
    }

    /** The critical section of the handler. It tells whether the previous pointer was restored. */
    method Undo(k: Key, w: Answers) returns (restored: bool)
      requires Ready(k, Handle)
      modifies this
      ensures Ready(k, if restored then ReadBack else Halt) && Grown(old(history), history, k)
      ensures restored ==> old(pointer) == Own(config, k) && Digest(pointer) == Parent(config, k)
                           && StageIs(state, k, RollbackSwitched)
      ensures !restored ==> pointer == old(pointer)
      ensures old(pointer) != Own(config, k) ==>
                StageIs(state, k, if Digest(old(pointer)) == Parent(config, k) then Refused else Superseded)
      ensures Finish(config, state, k, w) == Finish(config, old(state), k, w)
    {
      var package := config.packages[k];
      Decide(k, Handle, w);
      ghost var decided := history;
      if pointer == package.pointer {
        restored := PutBack(k, w);
      } else {
        Save(k, if Digest(pointer) == package.parent then Refused else Superseded, Halt, w);
        restored := false;
      }
      GrownJoins(old(history), decided, history, k);
    }

    /** The previous pointer comes back, if it is the captured parent. */
    method PutBack(k: Key, w: Answers) returns (restored: bool)
      requires Ready(k, Restore)
      modifies this
      ensures Ready(k, if restored then ReadBack else Halt) && Grown(old(history), history, k)
      ensures restored ==> Digest(pointer) == Parent(config, k) && StageIs(state, k, RollbackSwitched)
      ensures !restored ==> pointer == old(pointer)
      ensures Finish(config, state, k, w) == Finish(config, old(state), k, w)
    {
      Advance(k, Restore, w);
      restored := k in backups && Digest(backups[k]) == config.packages[k].parent;
      if restored {
        ghost var moved := history;
        pointer := backups[k];
        Save(k, RollbackSwitched, ReadBack, w);
        GrownJoins(old(history), moved, history, k);
      }
    }

    method Open(k: Key, w: Answers)
      requires Mirrors() && k in config.packages && Unlocked(state, k)
        && (k in state.attempts ==> state.attempts[k] == Halt)
      modifies this`state, this`history
      ensures Ready(k, Enter) && state == Begun(old(state), k) && Grown(old(history), history, k)
    {
      assert (history + [Begin(k)])[..|history|] == history;
      history := history + [Begin(k)];
      state := Begun(state, k);
    }

    /** A whole attempt, whatever other attempts do whenever it does not hold the lock. The files and the state end as
        a run of the transition system in which the attempt takes orderly steps, so everything proved of runs holds
        here. When nobody interferes, they end exactly as `Retry` says. */
    method Publish(k: Key, candidate: bool, serving: bool, readback: bool) returns (accepted: bool)
      requires Mirrors() && k in config.packages && Unlocked(state, k)
        && (k in state.attempts ==> state.attempts[k] == Halt)
      modifies this
      ensures Ready(k, Halt) && Grown(old(history), history, k)
      ensures accepted ==> Published(config, state, k)
      ensures ValidConfig(config) ==> Inv(config, state)
      ensures Quiet() ==> state == Retry(config, old(state), k, Answers(candidate, serving, readback))
      ensures ValidConfig(config) && Quiet() && old(Recoverable(config, state, k)) ==>
        if old(Resumes(config, state, k)) && candidate && serving then Published(config, state, k)
        else Withdrawn(config, state, k, Answers(candidate, serving, readback))
             && StageIs(state, k, old(Ending(config, state, k, Answers(candidate, serving, readback))))
    {
      var w := Answers(candidate, serving, readback);
      if ValidConfig(config) {
        Safety(config, history);
        if Recoverable(config, state, k) {
          Recovery(config, state, k, w);
        }
      }
      accepted := Attempt(k, w);
      if ValidConfig(config) {
        Safety(config, history);
      }
    }

    /** The blocks of an attempt in their order. */
    method Attempt(k: Key, w: Answers) returns (accepted: bool)
      requires Mirrors() && k in config.packages && Unlocked(state, k)
        && (k in state.attempts ==> state.attempts[k] == Halt)
      modifies this
      ensures Ready(k, Halt) && Grown(old(history), history, k)
      ensures accepted ==> Published(config, state, k)
      ensures Quiet() ==> state == Retry(config, old(state), k, w)
    {
      Open(k, w);
      ghost var begun := history;
      Meanwhile(k, Enter, w);
      GrownJoins(old(history), begun, history, k);
      ghost var resumed := history;
      var found := Prepare(k, w);
      GrownJoins(old(history), resumed, history, k);
      ghost var prepared := history;
      accepted := false;
      if found == Some(RollbackSwitched) {
        ConfirmRollback(k, w.readback, w);
        GrownJoins(old(history), prepared, history, k);
      } else if found.Some? {
        accepted := VerifyAndSwitch(k, w.candidate, w.serving, w);
        GrownJoins(old(history), prepared, history, k);
        if !accepted {
          ghost var failed := history;
          RollBack(k, w.readback, w);
          GrownJoins(old(history), failed, history, k);
        }
      }
      FromHalt(config, state, k, w);
    }
  }
}
