/** One uninterrupted attempt on a volume that may carry the traces of crashed ones: where it ends, as a
    function of the state it starts from and of the callbacks, and what that means for recovery. */
module PublicationRecovery {
  import opened Wrappers
  import opened Publication
  import opened PublicationSafety

  /** What the callbacks answer during the attempt. */
  datatype Answers = Answers(candidate: bool, serving: bool, readback: bool)

  function Answer(w: Answers, p: Point): bool {
    if p == CheckCandidate then w.candidate
    else if p == CheckServing then w.serving
    else if p == ReadBack then w.readback
    else true
  }

  /** A bound on the steps left. */
  function Rank(p: Point): (n: nat) {
    match p
    case Halt => 0
    case Save(_, next) => 1 + Rank(next)
    case Confirm => 2
    case ReadBack => 3
    case Restore => 5
    case Handle => 6
    case Return => 7
    case Accept => 9
    case CheckServing => 10
    case Replace => 12
    case Switch => 14
    case CheckCandidate => 15
    case Install(_) => 16
    case BackUp => 18
    case Enter => 19
  }

  lemma StepRank(c: Config, s: State, k: Key, p: Point, passed: bool)
    requires k in c.packages && Step(c, s, k, p, passed).Some?
    ensures var t := Step(c, s, k, p, passed).value; k in t.attempts && Rank(t.attempts[k]) < Rank(p)
  {
    if p.Enter? {
      EnteredRank(c, s, k);
    } else if Locked(p) {
      WriteRank(c, s, k, p, passed);
    } else if p.Switch? || p.Accept? || p.Handle? || p.Confirm? {
      DecidedRank(c.packages[k], s.pointer, p);
    }
  }

  lemma WriteRank(c: Config, s: State, k: Key, p: Point, passed: bool)
    requires k in c.packages && Locked(p) && Step(c, s, k, p, passed).Some?
    ensures var t := Step(c, s, k, p, passed).value; k in t.attempts && Rank(t.attempts[k]) < Rank(p)
  {
    assert Rank(Save(Prepared, Install(Prepared))) == 17;
    assert Rank(Save(Switched, CheckServing)) == 11;
    assert Rank(Save(RollbackSwitched, ReadBack)) == 4;
  }

  lemma DecidedRank(package: Package, pointer: Bytes, p: Point)
    requires p.Switch? || p.Accept? || p.Handle? || p.Confirm?
    ensures Rank(Decided(package, pointer, p)) < Rank(p)
  {
    assert Rank(Save(Superseded, Handle)) == 7 && Rank(Save(Switching, Replace)) == 13
        && Rank(Save(Accepted, Return)) == 8;
    assert Rank(Save(Superseded, Halt)) == Rank(Save(Refused, Halt)) == Rank(Save(RolledBack, Halt)) == 1;
  }

  lemma EnteredRank(c: Config, s: State, k: Key)
    requires k in c.packages
    ensures Rank(Entered(c, s, k)) < 19
  {
    assert Rank(Save(Superseded, Halt)) == 1;
  }

  /** The state in which an attempt stops when nothing interrupts it. */
  function Finish(c: Config, s: State, k: Key, w: Answers): State
    requires k in c.packages && k in s.attempts
    decreases Rank(s.attempts[k])
  {
    var p := s.attempts[k];
    match Step(c, s, k, p, Answer(w, p))
    case None => s
    case Some(t) =>
      StepRank(c, s, k, p, Answer(w, p));
      Finish(c, t, k, w)
  }

  function Begun(s: State, k: Key): State {
    Note(At(s, k, Enter), Began(k))
  }

  /** A whole retry: one uninterrupted attempt from its beginning. */
  function Retry(c: Config, s: State, k: Key, w: Answers): State
    requires k in c.packages
  {
    Finish(c, Begun(s, k), k, w)
  }

  /** No attempt other than `k` holds the lock. */
  predicate Unlocked(s: State, k: Key) {
    forall m :: m in s.attempts && m != k ==> !Locked(s.attempts[m])
  }

  predicate AtPoint(s: State, k: Key, p: Point) {
    k in s.attempts && s.attempts[k] == p
  }

  predicate StageIs(s: State, k: Key, stage: Stage) {
    k in s.journals && s.journals[k].stage == stage
  }

  predicate Settled(s: State, k: Key) {
    k in s.journals && Terminal(s.journals[k].stage)
  }

  // ---- a retry is a run of the transition system -----------------------------------------

  lemma {:induction false} FinishKeeps(c: Config, s: State, k: Key, w: Answers)
    requires ValidConfig(c) && Inv(c, s) && k in c.packages && k in s.attempts
    ensures Inv(c, Finish(c, s, k, w))
    decreases Rank(s.attempts[k])
  {
    var p := s.attempts[k];
    if Step(c, s, k, p, Answer(w, p)).Some? {
      StepRank(c, s, k, p, Answer(w, p));
      ProceedKeeps(c, s, k, Answer(w, p));
      FinishKeeps(c, Step(c, s, k, p, Answer(w, p)).value, k, w);
    }
  }

  /** The actions are steps of one attempt of `k`, without crash or outside exception. */
  predicate Uninterrupted(actions: seq<Action>, k: Key) {
    forall a :: a in actions ==> a.k == k && (a.Begin? || a.Proceed?)
  }

  lemma UninterruptedFrom(before: seq<Action>, a: Action, actions: seq<Action>, k: Key)
    requires before + [a] <= actions && a.k == k && (a.Begin? || a.Proceed?)
    requires Uninterrupted(actions[|before + [a]|..], k)
    ensures before <= actions && Uninterrupted(actions[|before|..], k)
  {
    assert actions[|before|..] == [a] + actions[|before + [a]|..];
  }

  lemma {:induction false} FinishRuns(c: Config, origin: State, before: seq<Action>, s: State, k: Key, w: Answers)
    returns (actions: seq<Action>)
    requires k in c.packages && k in s.attempts && Run(c, origin, before) == Some(s)
    ensures before <= actions && Uninterrupted(actions[|before|..], k)
    ensures Run(c, origin, actions) == Some(Finish(c, s, k, w))
    decreases Rank(s.attempts[k])
  {
    var p := s.attempts[k];
    actions := before;
    if Step(c, s, k, p, Answer(w, p)).Some? {
      StepRank(c, s, k, p, Answer(w, p));
      var longer := before + [Proceed(k, Answer(w, p))];
      assert longer[..|before|] == before;
      actions := FinishRuns(c, origin, longer, Step(c, s, k, p, Answer(w, p)).value, k, w);
      UninterruptedFrom(before, Proceed(k, Answer(w, p)), actions, k);
    }
  }

  /** After any run that left no attempt of `k` alive, a retry is a further run of the same system. */
  lemma RetryRuns(c: Config, before: seq<Action>, k: Key, w: Answers) returns (actions: seq<Action>)
    requires Run(c, Start(c), before).Some? && k in c.packages
    requires var s := Run(c, Start(c), before).value; k in s.attempts ==> s.attempts[k] == Halt
    ensures before <= actions && Uninterrupted(actions[|before|..], k)
    ensures Run(c, Start(c), actions) == Some(Retry(c, Run(c, Start(c), before).value, k, w))
  {
    var s := Run(c, Start(c), before).value;
    var longer := before + [Begin(k)];
    assert longer[..|before|] == before;
    actions := FinishRuns(c, Start(c), longer, Begun(s, k), k, w);
    UninterruptedFrom(before, Begin(k), actions, k);
  }

  // ---- where a retry ends ----------------------------------------------------------------

  /** The parent is live again, and the journal is settled, or waits for a readback that failed. */
  ghost predicate Withdrawn(c: Config, s: State, k: Key, w: Answers)
    requires k in c.packages
  {
    Digest(s.pointer) == Parent(c, k) && (Settled(s, k) || (StageIs(s, k, RollbackSwitched) && !w.readback))
  }

  /** What a readback of the rollback leaves in the journal. */
  function Rolled(w: Answers): Stage {
    if w.readback then RolledBack else RollbackSwitched
  }

  /** The journal of a retry that does not publish: REFUSED when the candidate fails while the parent is still live;
      what the readback leaves when the package had to be rolled back; SUPERSEDED when the parent is live although the
      package was switched to; and a terminal journal as it was. */
  function Ending(c: Config, s: State, k: Key, w: Answers): Stage
    requires k in c.packages
  {
    if k !in s.journals then if w.candidate then Rolled(w) else Refused
    else if Terminal(s.journals[k].stage) then s.journals[k].stage
    else if s.journals[k].stage == RollbackSwitched then Rolled(w)
    else if s.pointer == Own(c, k) then Rolled(w)
    else if s.journals[k].stage == Switched || s.journals[k].stage == Accepted then Superseded
    else if w.candidate then Rolled(w) else Refused
  }

  predicate Published(c: Config, s: State, k: Key)
    requires k in c.packages
  {
    s.pointer == Own(c, k) && StageIs(s, k, Accepted)
  }

  predicate OnOwnOrParent(c: Config, s: State, k: Key)
    requires k in c.packages
  {
    s.pointer == Own(c, k) || Digest(s.pointer) == Parent(c, k)
  }

  /** The facts that hold along an undisturbed attempt after its first critical section. */
  ghost predicate Underway(c: Config, s: State, k: Key, p: Point) {
    && k in c.packages && AtPoint(s, k, p) && Unlocked(s, k)
    && k in s.journals && Captured(c, s, k) && OnOwnOrParent(c, s, k)
  }

  lemma FromHalt(c: Config, s: State, k: Key, w: Answers)
    requires k in c.packages && AtPoint(s, k, Halt)
    ensures Finish(c, s, k, w) == s
  {
  }

  lemma OneStep(c: Config, s: State, k: Key, p: Point, w: Answers, t: State)
    requires k in c.packages && AtPoint(s, k, p) && Step(c, s, k, p, Answer(w, p)) == Some(t) && k in t.attempts
    ensures Finish(c, s, k, w) == Finish(c, t, k, w)
  {
  }

  /** The journal write of an attempt, and the point after it. */
  lemma AfterSave(c: Config, s: State, k: Key, stage: Stage, next: Point, w: Answers) returns (t: State)
    requires Underway(c, s, k, Save(stage, next))
    ensures Underway(c, t, k, next) && StageIs(t, k, stage) && t.pointer == s.pointer
    ensures Finish(c, s, k, w) == Finish(c, t, k, w)
  {
    t := Step(c, s, k, Save(stage, next), true).value;
    OneStep(c, s, k, Save(stage, next), w, t);
  }

  /** A step that only moves on, or only records a passed callback. */
  lemma AfterMove(c: Config, s: State, k: Key, p: Point, next: Point, w: Answers) returns (t: State)
    requires Underway(c, s, k, p) && Step(c, s, k, p, Answer(w, p)).Some?
    requires var u := Step(c, s, k, p, Answer(w, p)).value;
      u == At(s, k, next) || (|u.log| > 0 && u == Note(At(s, k, next), u.log[|u.log| - 1]))
    ensures Underway(c, t, k, next) && t.journals == s.journals && t.pointer == s.pointer
      && t.directories == s.directories
    ensures Finish(c, s, k, w) == Finish(c, t, k, w)
  {
    t := Step(c, s, k, p, Answer(w, p)).value;
    OneStep(c, s, k, p, w, t);
  }

  lemma SaveAndStop(c: Config, s: State, k: Key, stage: Stage, w: Answers)
    requires Underway(c, s, k, Save(stage, Halt)) && Digest(s.pointer) == Parent(c, k) && Terminal(stage)
    ensures Withdrawn(c, Finish(c, s, k, w), k, w) && StageIs(Finish(c, s, k, w), k, stage)
  {
    var t := AfterSave(c, s, k, stage, Halt, w);
    FromHalt(c, t, k, w);
  }

  lemma FromReadBack(c: Config, s: State, k: Key, w: Answers)
    requires Underway(c, s, k, ReadBack) && Digest(s.pointer) == Parent(c, k) && StageIs(s, k, RollbackSwitched)
    ensures Withdrawn(c, Finish(c, s, k, w), k, w) && StageIs(Finish(c, s, k, w), k, Rolled(w))
  {
    if w.readback {
      NoteEnd(At(s, k, Confirm), ReadbackPassed(k));
      var t := AfterMove(c, s, k, ReadBack, Confirm, w);
      var u := AfterMove(c, t, k, Confirm, Save(RolledBack, Halt), w);
      SaveAndStop(c, u, k, RolledBack, w);
    } else {
      var t := AfterMove(c, s, k, ReadBack, Halt, w);
      FromHalt(c, t, k, w);
    }
  }

  lemma NoteEnd(s: State, e: Event)
    ensures |Note(s, e).log| > 0 && Note(s, e).log[|Note(s, e).log| - 1] == e
  {
  }

  lemma FromHandle(c: Config, s: State, k: Key, w: Answers)
    requires Underway(c, s, k, Handle)
    ensures Withdrawn(c, Finish(c, s, k, w), k, w)
    ensures StageIs(Finish(c, s, k, w), k, if s.pointer == Own(c, k) then Rolled(w) else Refused)
  {
    if s.pointer == Own(c, k) {
      var t := AfterMove(c, s, k, Handle, Restore, w);
      var u := AfterRestore(c, t, k, w);
      var v := AfterSave(c, u, k, RollbackSwitched, ReadBack, w);
      FromReadBack(c, v, k, w);
    } else {
      var t := AfterMove(c, s, k, Handle, Save(Refused, Halt), w);
      SaveAndStop(c, t, k, Refused, w);
    }
  }

  lemma AfterRestore(c: Config, s: State, k: Key, w: Answers) returns (t: State)
    requires Underway(c, s, k, Restore)
    ensures Underway(c, t, k, Save(RollbackSwitched, ReadBack)) && Digest(t.pointer) == Parent(c, k)
    ensures Finish(c, s, k, w) == Finish(c, t, k, w)
  {
    t := Step(c, s, k, Restore, true).value;
    OneStep(c, s, k, Restore, w, t);
  }

  lemma FromCheckServing(c: Config, s: State, k: Key, w: Answers)
    requires Underway(c, s, k, CheckServing) && s.pointer == Own(c, k)
    ensures if w.serving then Published(c, Finish(c, s, k, w), k) else Withdrawn(c, Finish(c, s, k, w), k, w)
    ensures !w.serving ==> StageIs(Finish(c, s, k, w), k, Rolled(w))
  {
    if w.serving {
      Accepts(c, s, k, w);
    } else {
      var t := AfterMove(c, s, k, CheckServing, Handle, w);
      FromHandle(c, t, k, w);
    }
  }

  lemma Accepts(c: Config, s: State, k: Key, w: Answers)
    requires Underway(c, s, k, CheckServing) && s.pointer == Own(c, k) && w.serving
    ensures Published(c, Finish(c, s, k, w), k)
  {
    NoteEnd(At(s, k, Accept), ServingPassed(k));
    var t := AfterMove(c, s, k, CheckServing, Accept, w);
    FromAccept(c, t, k, w);
  }

  lemma FromAccept(c: Config, s: State, k: Key, w: Answers)
    requires Underway(c, s, k, Accept) && s.pointer == Own(c, k)
    ensures Published(c, Finish(c, s, k, w), k)
  {
    var u := AfterMove(c, s, k, Accept, Save(Accepted, Return), w);
    var v := AfterSave(c, u, k, Accepted, Return, w);
    FromReturn(c, v, k, w);
  }

  lemma FromReturn(c: Config, s: State, k: Key, w: Answers)
    requires Underway(c, s, k, Return) && Published(c, s, k)
    ensures Published(c, Finish(c, s, k, w), k)
  {
    var x := AfterMove(c, s, k, Return, Halt, w);
    FromHalt(c, x, k, w);
  }

  lemma FromSwitch(c: Config, s: State, k: Key, w: Answers)
    requires Underway(c, s, k, Switch)
    ensures if w.serving then Published(c, Finish(c, s, k, w), k) else Withdrawn(c, Finish(c, s, k, w), k, w)
    ensures !w.serving ==> StageIs(Finish(c, s, k, w), k, Rolled(w))
  {
    if s.pointer == Own(c, k) {
      var t := AfterMove(c, s, k, Switch, CheckServing, w);
      FromCheckServing(c, t, k, w);
    } else {
      var t := AfterMove(c, s, k, Switch, Save(Switching, Replace), w);
      var u := AfterSave(c, t, k, Switching, Replace, w);
      var v := AfterReplace(c, u, k, w);
      var x := AfterSave(c, v, k, Switched, CheckServing, w);
      FromCheckServing(c, x, k, w);
    }
  }

  lemma AfterReplace(c: Config, s: State, k: Key, w: Answers) returns (t: State)
    requires Underway(c, s, k, Replace)
    ensures Underway(c, t, k, Save(Switched, CheckServing)) && t.pointer == Own(c, k)
    ensures Finish(c, s, k, w) == Finish(c, t, k, w)
  {
    t := Step(c, s, k, Replace, true).value;
    OneStep(c, s, k, Replace, w, t);
  }

  lemma FromCheckCandidate(c: Config, s: State, k: Key, w: Answers)
    requires Underway(c, s, k, CheckCandidate)
    ensures if w.candidate && w.serving then Published(c, Finish(c, s, k, w), k)
        else Withdrawn(c, Finish(c, s, k, w), k, w)
    ensures !(w.candidate && w.serving) ==>
              StageIs(Finish(c, s, k, w), k, if w.candidate || s.pointer == Own(c, k) then Rolled(w) else Refused)
  {
    if w.candidate {
      NoteEnd(At(s, k, Switch), CandidatePassed(k));
      var t := AfterMove(c, s, k, CheckCandidate, Switch, w);
      FromSwitch(c, t, k, w);
    } else {
      var t := AfterMove(c, s, k, CheckCandidate, Handle, w);
      FromHandle(c, t, k, w);
    }
  }

  /** The release directory is free, or holds exactly this release. */
  predicate Installable(c: Config, s: State, k: Key)
    requires k in c.packages
  {
    c.packages[k].directory in s.directories ==> Complete(c, s, k)
  }

  lemma AfterInstall(c: Config, s: State, k: Key, found: Stage, w: Answers) returns (t: State)
    requires Underway(c, s, k, Install(found)) && Installable(c, s, k)
    ensures Underway(c, t, k, if found == RollbackSwitched then ReadBack else CheckCandidate)
    ensures t.journals == s.journals && t.pointer == s.pointer
    ensures Finish(c, s, k, w) == Finish(c, t, k, w)
  {
    t := Step(c, s, k, Install(found), true).value;
    OneStep(c, s, k, Install(found), w, t);
  }

  // ---- recovery --------------------------------------------------------------------------

  predicate Dead(stage: Stage) {
    Terminal(stage) || stage == RollbackSwitched
  }

  /** The attempt ends before it looks at the release directory. */
  predicate EndsEarly(c: Config, s: State, k: Key)
    requires k in c.packages
  {
    && k in s.journals
    && (Terminal(s.journals[k].stage)
        || (Digest(s.pointer) == Parent(c, k) && (s.journals[k].stage == Switched || s.journals[k].stage == Accepted)))
  }

  /** The pointer is the package's own or its parent's; the parent's when nothing is recorded, or when the rollback
      has begun or is over; and the release can be installed where the attempt gets that far. */
  predicate Recoverable(c: Config, s: State, k: Key)
    requires k in c.packages
  {
    && OnOwnOrParent(c, s, k) && Parent(c, k) != Digest(Own(c, k))
    && (k !in s.journals || Dead(s.journals[k].stage) ==> Digest(s.pointer) == Parent(c, k))
    && (Installable(c, s, k) || EndsEarly(c, s, k))
  }

  /** The attempt can still end in acceptance: its rollback has not begun. */
  predicate Resumes(c: Config, s: State, k: Key)
    requires k in c.packages
  {
    k in s.journals ==>
      && !Dead(s.journals[k].stage)
      && (s.pointer == Own(c, k) || (s.journals[k].stage != Switched && s.journals[k].stage != Accepted))
  }

  /** One uninterrupted retry from a recoverable state accepts the package exactly when its rollback has
      not begun and both checks pass; otherwise the parent is live and the journal is settled, or still
      waits for a failed rollback readback; which of these is said by `Ending`. */
  lemma Recovery(c: Config, s: State, k: Key, w: Answers)
    requires ValidConfig(c) && Inv(c, s) && k in c.packages && Unlocked(s, k) && Recoverable(c, s, k)
    ensures var t := Retry(c, s, k, w);
      if Resumes(c, s, k) && w.candidate && w.serving then Published(c, t, k)
      else Withdrawn(c, t, k, w) && StageIs(t, k, Ending(c, s, k, w))
  {
    var b := Begun(s, k);
    if k in s.journals {
      FoundJournal(c, b, k, w);
    } else {
      FreshJournal(c, b, k, w);
    }
  }

  /** What a retry should end in. */
  ghost predicate Recovered(c: Config, t: State, k: Key, w: Answers)
    requires k in c.packages
  {
    Published(c, t, k) || Withdrawn(c, t, k, w)
  }

  /** Exactly the recoverable states recover, whatever the callbacks answer. */
  lemma RecoveryExact(c: Config, s: State, k: Key)
    requires ValidConfig(c) && Inv(c, s) && k in c.packages && Unlocked(s, k)
    ensures (forall w :: Recovered(c, Retry(c, s, k, w), k, w)) <==> Recoverable(c, s, k)
  {
    if Recoverable(c, s, k) {
      forall w ensures Recovered(c, Retry(c, s, k, w), k, w) {
        Recovery(c, s, k, w);
      }
    } else {
      var w := NotRecovered(c, s, k);
    }
  }

  /** The failing input: callbacks with which the retry leaves neither outcome. */
  lemma NotRecovered(c: Config, s: State, k: Key) returns (w: Answers)
    requires ValidConfig(c) && Inv(c, s) && k in c.packages && Unlocked(s, k) && !Recoverable(c, s, k)
    ensures !Recovered(c, Retry(c, s, k, w), k, w)
  {
    var b := Begun(s, k);
    if k in s.journals && s.journals[k].stage == RollbackSwitched && OnOwnOrParent(c, s, k) {
      w := Answers(true, true, Digest(s.pointer) == Parent(c, k));
      StuckRollback(c, b, k, w);
    } else {
      w := Answers(true, true, true);
      if k in s.journals {
        OwnIsInstalled(c, s, k);
        StuckJournal(c, b, k, w);
      } else {
        StuckFresh(c, b, k, w);
      }
    }
  }

  /** Whoever is live is installed. */
  lemma OwnIsInstalled(c: Config, s: State, k: Key)
    requires ValidConfig(c) && Inv(c, s) && k in c.packages
    ensures s.pointer == Own(c, k) ==> Installable(c, s, k)
  {
    if s.pointer == Own(c, k) {
      OnChain(c, s, k);
    }
  }

  /** Without a journal, and with the parent live, the attempt captures the parent and records itself. */
  lemma Prepares(c: Config, s: State, k: Key, w: Answers) returns (t: State)
    requires k in c.packages && Unlocked(s, k) && AtPoint(s, k, Enter) && k !in s.journals
    requires Digest(s.pointer) == Parent(c, k) && Parent(c, k) != Digest(Own(c, k))
    ensures Underway(c, t, k, Install(Prepared)) && StageIs(t, k, Prepared)
    ensures t.pointer == s.pointer && t.directories == s.directories
    ensures Finish(c, s, k, w) == Finish(c, t, k, w)
  {
    var u := At(s, k, BackUp);
    OneStep(c, s, k, Enter, w, u);
    var v := Step(c, u, k, BackUp, true).value;
    OneStep(c, u, k, BackUp, w, v);
    t := Step(c, v, k, Save(Prepared, Install(Prepared)), true).value;
    OneStep(c, v, k, Save(Prepared, Install(Prepared)), w, t);
  }

  lemma StuckFresh(c: Config, s: State, k: Key, w: Answers)
    requires k in c.packages && Unlocked(s, k) && AtPoint(s, k, Enter) && k !in s.journals && !Recoverable(c, s, k)
    ensures !Recovered(c, Finish(c, s, k, w), k, w)
  {
    if Digest(s.pointer) == Parent(c, k) && Parent(c, k) != Digest(Own(c, k)) {
      var t := Prepares(c, s, k, w);
      StuckInstall(c, t, k, Prepared, w);
    } else {
      RefusedFresh(c, s, k, w);
    }
  }

  /** Without a journal the attempt is refused unless the parent is live, and differs from the package. */
  lemma RefusedFresh(c: Config, s: State, k: Key, w: Answers)
    requires k in c.packages && Unlocked(s, k) && AtPoint(s, k, Enter) && k !in s.journals
    requires Digest(s.pointer) != Parent(c, k) || Parent(c, k) == Digest(Own(c, k))
    ensures Finish(c, s, k, w) == At(s, k, Halt)
  {
    OneStep(c, s, k, Enter, w, At(s, k, Halt));
    FromHalt(c, At(s, k, Halt), k, w);
  }

  /** A foreign release directory stops the attempt. */
  lemma StuckInstall(c: Config, s: State, k: Key, found: Stage, w: Answers)
    requires k in c.packages && AtPoint(s, k, Install(found)) && !Installable(c, s, k)
    ensures Finish(c, s, k, w) == At(s, k, Halt)
  {
    OneStep(c, s, k, Install(found), w, At(s, k, Halt));
    FromHalt(c, At(s, k, Halt), k, w);
  }

  lemma StuckJournal(c: Config, s: State, k: Key, w: Answers)
    requires JournalsHold(c, s) && k in s.journals && k in c.packages && Unlocked(s, k) && AtPoint(s, k, Enter)
    requires s.pointer == Own(c, k) ==> Installable(c, s, k)
    requires !Recoverable(c, s, k) && (s.journals[k].stage == RollbackSwitched ==> !OnOwnOrParent(c, s, k))
    ensures !Recovered(c, Finish(c, s, k, w), k, w)
  {
    var p := Entered(c, s, k);
    var t := At(s, k, p);
    OneStep(c, s, k, Enter, w, t);
    if p == Halt {
      FromHalt(c, t, k, w);
    } else if p.Install? {
      StuckInstall(c, t, k, p.found, w);
    } else {
      var u := Step(c, t, k, Save(Superseded, Halt), true).value;
      OneStep(c, t, k, Save(Superseded, Halt), w, u);
      FromHalt(c, u, k, w);
    }
  }

  /** A pending rollback: its own pointer is live and the readback fails, or the directory is foreign and the readback
      would pass. */
  lemma StuckRollback(c: Config, s: State, k: Key, w: Answers)
    requires JournalsHold(c, s) && k in c.packages && Unlocked(s, k) && AtPoint(s, k, Enter)
    requires StageIs(s, k, RollbackSwitched) && OnOwnOrParent(c, s, k) && !Recoverable(c, s, k)
    requires w.readback == (Digest(s.pointer) == Parent(c, k))
    ensures !Recovered(c, Finish(c, s, k, w), k, w)
  {
    var t := At(s, k, Install(RollbackSwitched));
    RollbackFound(c, s, k, w);
    if !Installable(c, s, k) {
      StuckInstall(c, t, k, RollbackSwitched, w);
    } else {
      UnreadInstalled(c, t, k, w);
    }
  }

  lemma RollbackFound(c: Config, s: State, k: Key, w: Answers)
    requires JournalsHold(c, s) && k in c.packages && Unlocked(s, k) && AtPoint(s, k, Enter)
    requires StageIs(s, k, RollbackSwitched) && OnOwnOrParent(c, s, k)
    ensures Underway(c, At(s, k, Install(RollbackSwitched)), k, Install(RollbackSwitched))
    ensures Finish(c, s, k, w) == Finish(c, At(s, k, Install(RollbackSwitched)), k, w)
  {
    OneStep(c, s, k, Enter, w, At(s, k, Install(RollbackSwitched)));
  }

  lemma UnreadInstalled(c: Config, s: State, k: Key, w: Answers)
    requires Underway(c, s, k, Install(RollbackSwitched)) && Installable(c, s, k) && !w.readback
    ensures var t := Finish(c, s, k, w); t.pointer == s.pointer && t.journals == s.journals
  {
    var u := AfterInstall(c, s, k, RollbackSwitched, w);
    UnreadBack(c, u, k, w);
  }

  /** A failed readback ends the attempt as it stands. */
  lemma UnreadBack(c: Config, s: State, k: Key, w: Answers)
    requires Underway(c, s, k, ReadBack) && !w.readback
    ensures Finish(c, s, k, w) == At(s, k, Halt)
  {
    OneStep(c, s, k, ReadBack, w, At(s, k, Halt));
    FromHalt(c, At(s, k, Halt), k, w);
  }

  lemma FreshJournal(c: Config, s: State, k: Key, w: Answers)
    requires k in c.packages && Unlocked(s, k) && AtPoint(s, k, Enter) && k !in s.journals && Recoverable(c, s, k)
    ensures var t := Finish(c, s, k, w);
      if w.candidate && w.serving then Published(c, t, k)
      else Withdrawn(c, t, k, w) && StageIs(t, k, Ending(c, s, k, w))
  {
    var t := Prepares(c, s, k, w);
    var u := AfterInstall(c, t, k, Prepared, w);
    FromCheckCandidate(c, u, k, w);
  }

  lemma FoundJournal(c: Config, s: State, k: Key, w: Answers)
    requires JournalsHold(c, s) && k in s.journals && k in c.packages && Unlocked(s, k) && AtPoint(s, k, Enter)
    requires Recoverable(c, s, k)
    ensures var t := Finish(c, s, k, w);
      if Resumes(c, s, k) && w.candidate && w.serving then Published(c, t, k)
      else Withdrawn(c, t, k, w) && StageIs(t, k, Ending(c, s, k, w))
  {
    var stage := s.journals[k].stage;
    EnteredFound(c, s, k);
    var t := AfterMove(c, s, k, Enter, Entered(c, s, k), w);
    if Terminal(stage) {
      FromHalt(c, t, k, w);
    } else if Dead(stage) || Resumes(c, s, k) {
      FoundLive(c, t, k, stage, w);
    } else {
      SaveAndStop(c, t, k, Superseded, w);
    }
  }

  lemma EnteredFound(c: Config, s: State, k: Key)
    requires JournalsHold(c, s) && k in s.journals && k in c.packages && Recoverable(c, s, k)
    ensures var stage := s.journals[k].stage;
      Entered(c, s, k) ==
        if Terminal(stage) then Halt
        else if Dead(stage) || Resumes(c, s, k) then Install(stage)
        else Save(Superseded, Halt)
    ensures !Resumes(c, s, k) ==> Digest(s.pointer) == Parent(c, k)
  {
  }

  lemma FoundLive(c: Config, s: State, k: Key, stage: Stage, w: Answers)
    requires Underway(c, s, k, Install(stage)) && Installable(c, s, k) && StageIs(s, k, stage)
    requires stage == RollbackSwitched ==> Digest(s.pointer) == Parent(c, k)
    ensures var t := Finish(c, s, k, w);
      if stage != RollbackSwitched && w.candidate && w.serving then Published(c, t, k) else Withdrawn(c, t, k, w)
    ensures !(stage != RollbackSwitched && w.candidate && w.serving) ==>
              StageIs(Finish(c, s, k, w), k,
                      if stage == RollbackSwitched || w.candidate || s.pointer == Own(c, k) then Rolled(w) else Refused)
  {
    var u := AfterInstall(c, s, k, stage, w);
    if stage == RollbackSwitched {
      FromReadBack(c, u, k, w);
    } else {
      FromCheckCandidate(c, u, k, w);
    }
  }
}
