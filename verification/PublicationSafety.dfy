/** Every run of the publication protocol keeps the invariant: mutual exclusion, the parent chain under the
    live pointer, complete releases, captured backups, and a justification for every event. */
module PublicationSafety {
  import opened Wrappers
  import opened Publication

  lemma ChainNote(log: seq<Event>, e: Event)
    ensures Chain(log + [e]) == Extended(Chain(log), e)
  {
    assert (log + [e])[..|log|] == log;
  }

  lemma SinceNote(log: seq<Event>, e: Event, x: Event)
    ensures Since(log + [e], x) <==> e == x || (e != Began(x.k) && Since(log, x))
  {
    assert (log + [e])[..|log|] == log;
  }

  lemma JustifiedNote(c: Config, log: seq<Event>, e: Event)
    requires AllJustified(c, log) && Justified(c, log, e)
    ensures AllJustified(c, log + [e])
  {
    forall i | 0 <= i < |log + [e]| ensures Justified(c, (log + [e])[..i], (log + [e])[i]) {
      if i < |log| {
        assert (log + [e])[..i] == log[..i];
      } else {
        assert (log + [e])[..i] == log;
      }
    }
  }

  // ---- what one action of a package leaves alone -----------------------------------------

  predicate SameElsewhere<T(==)>(before: map<Key, T>, after: map<Key, T>, k: Key) {
    && (forall m :: m in before ==> m in after && (m != k ==> after[m] == before[m]))
    && (forall m :: m in after && m != k ==> m in before)
  }

  predicate Extends(before: seq<Event>, after: seq<Event>, k: Key) {
    after == before || (|after| == |before| + 1 && after[..|before|] == before && after[|before|].k == k)
  }

  /** An action of `k` touches only what belongs to `k`, adds at most one event of `k`, never changes an
      installed release, writes the pointer only under the lock, and takes the lock only when it is free. */
  ghost predicate Moves(s: State, t: State, k: Key) {
    && k in t.attempts
    && SameElsewhere(s.attempts, t.attempts, k) && SameElsewhere(s.journals, t.journals, k)
    && SameElsewhere(s.backups, t.backups, k) && Extends(s.log, t.log, k)
    && (forall d :: d in s.directories ==> d in t.directories && t.directories[d] == s.directories[d])
    && (t.pointer != s.pointer ==> k in s.attempts && Locked(s.attempts[k]))
    && (Locked(t.attempts[k]) ==> Free(s) || (k in s.attempts && Locked(s.attempts[k])))
  }

  lemma PointKept(c: Config, s: State, t: State, k: Key, m: Key, p: Point)
    requires m in c.packages && m != k && PointHolds(c, s, m, p) && Moves(s, t, k)
    requires t.pointer == s.pointer || !Locked(p)
    ensures PointHolds(c, t, m, p)
  {
    if t.log != s.log {
      assert t.log == s.log + [t.log[|s.log|]];
      forall x: Event | x.k == m ensures Since(t.log, x) <==> Since(s.log, x) {
        SinceNote(s.log, t.log[|s.log|], x);
      }
    }
  }

  lemma OthersKept(c: Config, s: State, t: State, k: Key)
    requires Exclusive(s) && PointsHold(c, s) && Moves(s, t, k)
    ensures Exclusive(t)
    ensures forall m :: m in t.attempts && m != k ==> m in c.packages && PointHolds(c, t, m, t.attempts[m])
  {
    forall m | m in t.attempts && m != k ensures m in c.packages && PointHolds(c, t, m, t.attempts[m]) {
      assert m in s.attempts && s.attempts[m] == t.attempts[m];
      PointKept(c, s, t, k, m, t.attempts[m]);
    }
  }

  /** The chain after an action that neither switches nor restores. */
  lemma ChainKept(c: Config, s: State, t: State, k: Key)
    requires ChainHolds(c, s) && Moves(s, t, k) && t.pointer == s.pointer && Chain(t.log) == Chain(s.log)
    ensures ChainHolds(c, t)
  {
  }

  // ---- what the moving package finds -----------------------------------------------------

  lemma OnChain(c: Config, s: State, k: Key)
    requires ValidConfig(c) && ChainHolds(c, s) && k in c.packages && s.pointer == Own(c, k)
    ensures Chain(s.log) != [] && Chain(s.log)[|Chain(s.log)| - 1] == k
  {
    var chain := Chain(s.log);
    assert Live(c, chain) == Own(c, k);
    if chain != [] {
      var last := chain[|chain| - 1];
      assert last in chain && Own(c, last) == Own(c, k);
    }
  }

  lemma NotOnChain(c: Config, s: State, k: Key)
    requires ValidConfig(c) && ChainHolds(c, s) && k in c.packages && Digest(s.pointer) == Parent(c, k)
    ensures k !in Chain(s.log)
  {
  }

  lemma Pushed(c: Config, chain: seq<Key>, k: Key)
    requires Linked(c, chain) && k in c.packages && k !in chain && Parent(c, k) == Digest(Live(c, chain))
    ensures Linked(c, chain + [k])
  {
    var longer := chain + [k];
    forall i | 0 <= i < |longer|
      ensures Parent(c, longer[i]) == Digest(Live(c, longer[..i]))
    {
      assert longer[..i] == chain[..i];
      assert chain[..|chain|] == chain;
    }
  }

  lemma Popped(c: Config, chain: seq<Key>)
    requires Linked(c, chain) && chain != []
    ensures var shorter := chain[..|chain| - 1];
      Linked(c, shorter) && Parent(c, chain[|chain| - 1]) == Digest(Live(c, shorter))
  {
    var shorter := chain[..|chain| - 1];
    forall i | 0 <= i < |shorter|
      ensures Parent(c, shorter[i]) == Digest(Live(c, shorter[..i]))
    {
      assert shorter[..i] == chain[..i];
    }
  }

  lemma ChainPushed(c: Config, s: State, t: State, k: Key)
    requires ValidConfig(c) && ChainHolds(c, s) && Moves(s, t, k) && k in c.packages
    requires Digest(s.pointer) == Parent(c, k) && t.pointer == Own(c, k) && Chain(t.log) == Chain(s.log) + [k]
    requires k in t.journals && Complete(c, t, k)
    ensures ChainHolds(c, t)
  {
    NotOnChain(c, s, k);
    Pushed(c, Chain(s.log), k);
  }

  lemma ChainPopped(c: Config, s: State, t: State, k: Key)
    requires ValidConfig(c) && ChainHolds(c, s) && Moves(s, t, k) && k in c.packages
    requires s.pointer == Own(c, k) && Digest(t.pointer) == Parent(c, k)
    requires Chain(s.log) != [] && Chain(t.log) == Chain(s.log)[..|Chain(s.log)| - 1]
    ensures ChainHolds(c, t)
  {
    OnChain(c, s, k);
    var chain, shorter := Chain(s.log), Chain(t.log);
    Popped(c, chain);
    assert Live(c, shorter) == t.pointer;
    forall x | x in shorter ensures x in t.journals && Complete(c, t, x) {
      assert x in chain;
      assert x in s.journals && Complete(c, s, x);
    }
  }

  lemma JournalsKept(c: Config, s: State, t: State, k: Key)
    requires JournalsHold(c, s) && Moves(s, t, k) && k in c.packages
    requires k in t.journals ==>
      t.journals[k].package == k && t.journals[k].pointer == Digest(Own(c, k)) && Captured(c, t, k)
    ensures JournalsHold(c, t)
  {
  }

  lemma Assemble(c: Config, s: State, t: State, k: Key)
    requires Exclusive(s) && PointsHold(c, s) && Moves(s, t, k)
    requires k in c.packages && PointHolds(c, t, k, t.attempts[k])
    requires JournalsHold(c, t) && ChainHolds(c, t) && AllJustified(c, t.log)
    ensures Inv(c, t)
  {
    OthersKept(c, s, t, k);
  }

  /** An action that leaves pointer, journals, backups and releases alone, and records at most one event
      that needs no justification of its own. */
  lemma QuietKeeps(c: Config, s: State, k: Key, p: Point, events: seq<Event>)
    requires Inv(c, s) && k in c.packages
    requires Locked(p) ==> Free(s) || (k in s.attempts && Locked(s.attempts[k]))
    requires events == [] || events == [Began(k)] || events == [CandidatePassed(k)] || events == [ServingPassed(k)]
      || events == [ReadbackPassed(k)]
    requires PointHolds(c, At(s, k, p).(log := s.log + events), k, p)
    ensures Inv(c, At(s, k, p).(log := s.log + events))
  {
    var t := At(s, k, p).(log := s.log + events);
    QuietMoves(s, k, p, events);
    if events != [] {
      ChainNote(s.log, events[0]);
      JustifiedNote(c, s.log, events[0]);
    } else {
      assert s.log + events == s.log;
    }
    JournalsKept(c, s, t, k);
    ChainKept(c, s, t, k);
    Assemble(c, s, t, k);
  }

  lemma QuietMoves(s: State, k: Key, p: Point, events: seq<Event>)
    requires events == [] || (|events| == 1 && events[0].k == k)
    requires Locked(p) ==> Free(s) || (k in s.attempts && Locked(s.attempts[k]))
    ensures Moves(s, At(s, k, p).(log := s.log + events), k)
  {
    var t := At(s, k, p).(log := s.log + events);
    assert events == [] ==> s.log + events == s.log;
    assert t.log[..|s.log|] == s.log;
  }

  /** A quiet action without an event. */
  lemma SilentKeeps(c: Config, s: State, k: Key, p: Point)
    requires Inv(c, s) && k in c.packages
    requires Locked(p) ==> Free(s) || (k in s.attempts && Locked(s.attempts[k]))
    requires PointHolds(c, s, k, p)
    ensures Inv(c, At(s, k, p))
  {
    assert s.log + [] == s.log;
    SamePoint(c, s, At(s, k, p), k, p);
    QuietKeeps(c, s, k, p, []);
  }

  lemma SamePoint(c: Config, s: State, t: State, k: Key, p: Point)
    requires k in c.packages && PointHolds(c, s, k, p) && t == s.(attempts := t.attempts)
    ensures PointHolds(c, t, k, p)
  {
  }

  lemma CallbackKeeps(c: Config, s: State, k: Key, p: Point, e: Event)
    requires Inv(c, s) && k in c.packages && k in s.attempts && PointHolds(c, s, k, s.attempts[k])
    requires (s.attempts[k] == CheckCandidate && p == Switch && e == CandidatePassed(k))
      || (s.attempts[k] == CheckServing && p == Accept && e == ServingPassed(k))
      || (s.attempts[k] == ReadBack && p == Confirm && e == ReadbackPassed(k))
    ensures Inv(c, Note(At(s, k, p), e))
  {
    SinceNote(s.log, e, e);
    SinceNote(s.log, e, Installed(k));
    QuietKeeps(c, s, k, p, [e]);
  }

  // ---- the steps that write --------------------------------------------------------------

  lemma BackUpKeeps(c: Config, s: State, k: Key)
    requires ValidConfig(c) && Inv(c, s) && k in c.packages && k in s.attempts && s.attempts[k] == BackUp
    requires PointHolds(c, s, k, BackUp)
    ensures Inv(c, Step(c, s, k, BackUp, false).value)
  {
    var t := Step(c, s, k, BackUp, false).value;
    WriteMoves(s, t, k);
    JournalsKept(c, s, t, k);
    ChainKept(c, s, t, k);
    Assemble(c, s, t, k);
  }

  /** The holder of the lock writes one thing of its own. */
  lemma WriteMoves(s: State, t: State, k: Key)
    requires k in s.attempts && Locked(s.attempts[k])
    requires k in t.attempts && t.attempts == s.attempts[k := t.attempts[k]]
    requires t.journals == s.journals || (k in t.journals && t.journals == s.journals[k := t.journals[k]])
    requires t.backups == s.backups || (k in t.backups && t.backups == s.backups[k := t.backups[k]])
    requires forall d :: d in s.directories ==> d in t.directories && t.directories[d] == s.directories[d]
    requires t.log == s.log || (|t.log| > 0 && t.log == s.log + [t.log[|t.log| - 1]] && t.log[|t.log| - 1].k == k)
    ensures Moves(s, t, k)
  {
  }

  lemma SaveKeeps(c: Config, s: State, k: Key, stage: Stage, next: Point)
    requires ValidConfig(c) && Inv(c, s) && k in c.packages && k in s.attempts && s.attempts[k] == Save(stage, next)
    requires PointHolds(c, s, k, Save(stage, next))
    ensures Inv(c, Step(c, s, k, Save(stage, next), false).value)
  {
    var t := Step(c, s, k, Save(stage, next), false).value;
    SaveMoves(c, s, t, k, stage, next);
    SavedJustified(c, s, k, stage, next);
    SaveCaptured(c, s, t, k, stage, next);
    SaveHolds(c, s, t, k, stage);
    SavedPoint(c, s, t, k, stage, next);
    Assemble(c, s, t, k);
  }

  lemma SaveMoves(c: Config, s: State, t: State, k: Key, stage: Stage, next: Point)
    requires k in c.packages && k in s.attempts && s.attempts[k] == Save(stage, next)
    requires t == Step(c, s, k, Save(stage, next), false).value
    ensures Moves(s, t, k) && t.pointer == s.pointer && t.log == s.log + [Saved(k, stage, s.pointer)]
  {
    WriteMoves(s, t, k);
  }

  lemma SaveHolds(c: Config, s: State, t: State, k: Key, stage: Stage)
    requires JournalsHold(c, s) && ChainHolds(c, s) && Moves(s, t, k) && k in c.packages && k in t.journals
    requires t.journals[k].package == k && t.journals[k].pointer == Digest(Own(c, k)) && Captured(c, t, k)
    requires t.pointer == s.pointer && t.log == s.log + [Saved(k, stage, s.pointer)]
    ensures JournalsHold(c, t) && ChainHolds(c, t)
  {
    ChainNote(s.log, Saved(k, stage, s.pointer));
    JournalsKept(c, s, t, k);
    ChainKept(c, s, t, k);
  }

  lemma SaveCaptured(c: Config, s: State, t: State, k: Key, stage: Stage, next: Point)
    requires k in c.packages && PointHolds(c, s, k, Save(stage, next)) && JournalsHold(c, s)
    requires t == Step(c, s, k, Save(stage, next), false).value
    ensures k in t.journals && t.journals[k].package == k && t.journals[k].pointer == Digest(Own(c, k))
      && Captured(c, t, k)
  {
  }

  lemma SavedJustified(c: Config, s: State, k: Key, stage: Stage, next: Point)
    requires k in c.packages && PointHolds(c, s, k, Save(stage, next)) && ChainHolds(c, s) && AllJustified(c, s.log)
    ensures AllJustified(c, s.log + [Saved(k, stage, s.pointer)])
  {
    JustifiedNote(c, s.log, Saved(k, stage, s.pointer));
  }

  lemma SavedPoint(c: Config, s: State, t: State, k: Key, stage: Stage, next: Point)
    requires k in c.packages && PointHolds(c, s, k, Save(stage, next))
    requires t == Step(c, s, k, Save(stage, next), false).value
    ensures k in t.attempts && PointHolds(c, t, k, t.attempts[k])
  {
    var e := Saved(k, stage, s.pointer);
    SinceNote(s.log, e, Installed(k));
    SinceNote(s.log, e, CandidatePassed(k));
    SinceNote(s.log, e, ServingPassed(k));
    SinceNote(s.log, e, ReadbackPassed(k));
  }

  lemma InstallKeeps(c: Config, s: State, k: Key, found: Stage)
    requires ValidConfig(c) && Inv(c, s) && k in c.packages && k in s.attempts && s.attempts[k] == Install(found)
    requires PointHolds(c, s, k, Install(found)) && Step(c, s, k, Install(found), false).value.log != s.log
    ensures Inv(c, Step(c, s, k, Install(found), false).value)
  {
    var t := Step(c, s, k, Install(found), false).value;
    InstallMoves(s, t, c.packages[k], k, found);
    InstalledPoint(c, s, t, k, found);
    JustifiedNote(c, s.log, Installed(k));
    InstallHolds(c, s, t, k);
    Assemble(c, s, t, k);
  }

  lemma InstallMoves(s: State, t: State, package: Package, k: Key, found: Stage)
    requires k in s.attempts && s.attempts[k] == Install(found)
    requires package.directory in s.directories ==> s.directories[package.directory] == package.files
    requires t == Note(At(s.(directories := s.directories[package.directory := package.files]), k,
                          if found == RollbackSwitched then ReadBack else CheckCandidate), Installed(k))
    ensures Moves(s, t, k) && t.pointer == s.pointer && t.journals == s.journals && t.backups == s.backups
    ensures t.log == s.log + [Installed(k)]
  {
    WriteMoves(s, t, k);
  }

  lemma InstallHolds(c: Config, s: State, t: State, k: Key)
    requires JournalsHold(c, s) && ChainHolds(c, s) && Moves(s, t, k) && k in c.packages && k in s.journals
    requires t.pointer == s.pointer && t.journals == s.journals && t.backups == s.backups
      && t.log == s.log + [Installed(k)]
    ensures JournalsHold(c, t) && ChainHolds(c, t)
  {
    ChainNote(s.log, Installed(k));
    JournalsKept(c, s, t, k);
    ChainKept(c, s, t, k);
  }

  lemma InstalledPoint(c: Config, s: State, t: State, k: Key, found: Stage)
    requires k in c.packages && PointHolds(c, s, k, Install(found))
    requires t == Step(c, s, k, Install(found), false).value && t.log != s.log
    ensures k in s.journals && k in t.attempts && PointHolds(c, t, k, t.attempts[k])
  {
    SinceNote(s.log, Installed(k), Installed(k));
  }

  lemma ReplaceKeeps(c: Config, s: State, k: Key)
    requires ValidConfig(c) && Inv(c, s) && k in c.packages && k in s.attempts && s.attempts[k] == Replace
    requires PointHolds(c, s, k, Replace)
    ensures Inv(c, Step(c, s, k, Replace, false).value)
  {
    var t := Step(c, s, k, Replace, false).value;
    WriteMoves(s, t, k);
    ChainNote(s.log, SwitchedPointer(k, s.pointer));
    NotOnChain(c, s, k);
    JustifiedNote(c, s.log, SwitchedPointer(k, s.pointer));
    JournalsKept(c, s, t, k);
    ChainPushed(c, s, t, k);
    Assemble(c, s, t, k);
  }

  lemma RestoreKeeps(c: Config, s: State, k: Key)
    requires ValidConfig(c) && Inv(c, s) && k in c.packages && k in s.attempts && s.attempts[k] == Restore
    requires PointHolds(c, s, k, Restore) && Captured(c, s, k)
    ensures Inv(c, Step(c, s, k, Restore, false).value)
  {
    var t := Step(c, s, k, Restore, false).value;
    var e := RestoredPointer(k, s.pointer, s.backups[k]);
    RestoreMoves(c, s, t, k);
    OnChain(c, s, k);
    JustifiedNote(c, s.log, e);
    RestoreHolds(c, s, t, k);
    Assemble(c, s, t, k);
  }

  lemma RestoreMoves(c: Config, s: State, t: State, k: Key)
    requires k in c.packages && k in s.attempts && s.attempts[k] == Restore && Captured(c, s, k)
    requires t == Step(c, s, k, Restore, false).value
    ensures Moves(s, t, k) && t.pointer == s.backups[k] && t.journals == s.journals && t.backups == s.backups
    ensures t.log == s.log + [RestoredPointer(k, s.pointer, s.backups[k])]
  {
    WriteMoves(s, t, k);
  }

  lemma RestoreHolds(c: Config, s: State, t: State, k: Key)
    requires ValidConfig(c) && JournalsHold(c, s) && ChainHolds(c, s) && Moves(s, t, k) && k in c.packages
    requires Captured(c, s, k) && s.pointer == Own(c, k) && t.pointer == s.backups[k]
    requires t.journals == s.journals && t.backups == s.backups
    requires t.log == s.log + [RestoredPointer(k, s.pointer, s.backups[k])]
    ensures JournalsHold(c, t) && ChainHolds(c, t)
  {
    ChainNote(s.log, RestoredPointer(k, s.pointer, s.backups[k]));
    OnChain(c, s, k);
    JournalsKept(c, s, t, k);
    ChainPopped(c, s, t, k);
  }

  // ---- every action ----------------------------------------------------------------------

  lemma EnterPoint(c: Config, s: State, k: Key)
    requires k in c.packages && JournalsHold(c, s)
    ensures PointHolds(c, s, k, Entered(c, s, k))
  {
  }

  /** What an attempt decides from the pointer it reads under the lock. */
  lemma DecidePoint(c: Config, s: State, k: Key, p: Point)
    requires k in c.packages && PointHolds(c, s, k, p) && (p.Switch? || p.Accept? || p.Handle? || p.Confirm?)
    ensures PointHolds(c, s, k, Decided(c.packages[k], s.pointer, p))
  {
  }

  lemma ProceedKeeps(c: Config, s: State, k: Key, passed: bool)
    requires ValidConfig(c) && Inv(c, s) && Next(c, s, Proceed(k, passed)).Some?
    ensures Inv(c, Next(c, s, Proceed(k, passed)).value)
  {
    var p := s.attempts[k];
    if Locked(p) {
      LockedKeeps(c, s, k);
    } else if p.CheckCandidate? || p.CheckServing? || p.ReadBack? {
      CallbackStepKeeps(c, s, k, passed);
    } else {
      DecisionKeeps(c, s, k, passed);
    }
  }

  lemma CallbackStepKeeps(c: Config, s: State, k: Key, passed: bool)
    requires ValidConfig(c) && Inv(c, s) && k in c.packages && k in s.attempts
    requires s.attempts[k].CheckCandidate? || s.attempts[k].CheckServing? || s.attempts[k].ReadBack?
    requires Step(c, s, k, s.attempts[k], passed).Some?
    ensures Inv(c, Step(c, s, k, s.attempts[k], passed).value)
  {
    var p := s.attempts[k];
    assert PointHolds(c, s, k, p);
    CallbackStep(c, s, k, p, passed);
    if passed {
      CallbackKeeps(c, s, k, Onward(p), Passed(p, k));
    } else {
      SilentKeeps(c, s, k, Failed(p));
    }
  }

  /** Where a callback that passes leads, and what it records; and where one that raises leads. */
  function Onward(p: Point): Point {
    if p.CheckCandidate? then Switch else if p.CheckServing? then Accept else Confirm
  }

  function Passed(p: Point, k: Key): Event {
    if p.CheckCandidate? then CandidatePassed(k) else if p.CheckServing? then ServingPassed(k) else ReadbackPassed(k)
  }

  function Failed(p: Point): Point {
    if p.ReadBack? then Halt else Handle
  }

  lemma CallbackStep(c: Config, s: State, k: Key, p: Point, passed: bool)
    requires k in c.packages && (p.CheckCandidate? || p.CheckServing? || p.ReadBack?)
    ensures Step(c, s, k, p, passed) ==
        Some(if passed then Note(At(s, k, Onward(p)), Passed(p, k)) else At(s, k, Failed(p)))
  {
  }

  lemma DecisionKeeps(c: Config, s: State, k: Key, passed: bool)
    requires ValidConfig(c) && Inv(c, s) && k in c.packages && k in s.attempts
    requires var p := s.attempts[k]; p.Enter? || p.Switch? || p.Accept? || p.Return? || p.Handle? || p.Confirm?
    requires Step(c, s, k, s.attempts[k], passed).Some?
    ensures Inv(c, Step(c, s, k, s.attempts[k], passed).value)
  {
    var p := s.attempts[k];
    assert PointHolds(c, s, k, p);
    DecisionStep(c, s, k, p, passed);
    ChosenPoint(c, s, k, p);
    SilentKeeps(c, s, k, Chosen(c, s, k, p));
  }

  /** The point a step chooses that only reads. */
  function Chosen(c: Config, s: State, k: Key, p: Point): Point
    requires k in c.packages && (p.Enter? || p.Switch? || p.Accept? || p.Return? || p.Handle? || p.Confirm?)
  {
    if p.Enter? then Entered(c, s, k) else if p.Return? then Halt else Decided(c.packages[k], s.pointer, p)
  }

  lemma DecisionStep(c: Config, s: State, k: Key, p: Point, passed: bool)
    requires k in c.packages && (p.Enter? || p.Switch? || p.Accept? || p.Return? || p.Handle? || p.Confirm?)
    requires Step(c, s, k, p, passed).Some?
    ensures Step(c, s, k, p, passed) == Some(At(s, k, Chosen(c, s, k, p))) && (p.Return? || Free(s))
  {
  }

  lemma ChosenPoint(c: Config, s: State, k: Key, p: Point)
    requires k in c.packages && (p.Enter? || p.Switch? || p.Accept? || p.Return? || p.Handle? || p.Confirm?)
    requires JournalsHold(c, s) && PointHolds(c, s, k, p)
    ensures PointHolds(c, s, k, Chosen(c, s, k, p))
    ensures p.Return? ==> !Locked(Chosen(c, s, k, p))
  {
    if p.Enter? {
      EnterPoint(c, s, k);
    } else if !p.Return? {
      DecidePoint(c, s, k, p);
    }
  }

  lemma LockedKeeps(c: Config, s: State, k: Key)
    requires ValidConfig(c) && Inv(c, s) && k in c.packages && k in s.attempts && Locked(s.attempts[k])
    ensures Step(c, s, k, s.attempts[k], true) == Step(c, s, k, s.attempts[k], false)
    ensures Step(c, s, k, s.attempts[k], false).Some? && Inv(c, Step(c, s, k, s.attempts[k], false).value)
  {
    var p := s.attempts[k];
    assert PointHolds(c, s, k, p);
    match p
    case BackUp => BackUpKeeps(c, s, k);
    case Save(stage, next) => SaveKeeps(c, s, k, stage, next);
    case Replace => ReplaceKeeps(c, s, k);
    case Restore => RestoreKeeps(c, s, k);
    case Install(found) =>
      if Step(c, s, k, p, false).value.log == s.log {
        SilentKeeps(c, s, k, Halt);
      } else {
        InstallKeeps(c, s, k, found);
      }
  }

  lemma NextKeeps(c: Config, s: State, a: Action)
    requires ValidConfig(c) && Inv(c, s) && Next(c, s, a).Some?
    ensures Inv(c, Next(c, s, a).value)
  {
    match a
    case Begin(k) => QuietKeeps(c, s, k, Enter, [Began(k)]);
    case Proceed(k, passed) => ProceedKeeps(c, s, k, passed);
    case Raise(k) => StopKeeps(c, s, k, Handle);
    case Crash(k) => StopKeeps(c, s, k, Halt);
  }

  lemma StopKeeps(c: Config, s: State, k: Key, p: Point)
    requires Inv(c, s) && k in s.attempts && (p == Halt || (p == Handle && Guarded(s.attempts[k])))
    ensures Inv(c, At(s, k, p))
  {
    assert PointHolds(c, s, k, s.attempts[k]);
    SilentKeeps(c, s, k, p);
  }

  /** Every reachable state of every interleaving, crashes and exceptions included, keeps the invariant. */
  lemma {:induction false} Safety(c: Config, actions: seq<Action>)
    requires ValidConfig(c) && Run(c, Start(c), actions).Some?
    ensures Inv(c, Run(c, Start(c), actions).value)
    decreases |actions|
  {
    if actions != [] {
      Safety(c, actions[..|actions| - 1]);
      var s := Run(c, Start(c), actions[..|actions| - 1]).value;
      NextKeeps(c, s, actions[|actions| - 1]);
    }
  }

  // ---- what the invariant says to an operator --------------------------------------------

  /** The live pointer is explained by the chain of switched packages, each the child of the one before
      and each completely installed; and every journal has its captured parent. */
  lemma LivePointerExplained(c: Config, actions: seq<Action>)
    requires ValidConfig(c) && Run(c, Start(c), actions).Some?
    ensures var s := Run(c, Start(c), actions).value;
      && Linked(c, Chain(s.log)) && Live(c, Chain(s.log)) == s.pointer
      && (forall k :: k in Chain(s.log) ==> Complete(c, s, k))
      && (forall k :: k in s.journals ==> k in c.packages && Captured(c, s, k))
  {
    Safety(c, actions);
  }

  /** The block whose exceptions lead to the handler: it begins with the candidate check, and is left to the handler
      or by returning. */
  lemma GuardedBlock(c: Config, s: State, k: Key, p: Point, passed: bool)
    requires k in c.packages && k in s.attempts && s.attempts[k] == p && PointHolds(c, s, k, p)
    requires Step(c, s, k, p, passed).Some?
    ensures Guarded(CheckCandidate) && k in Step(c, s, k, p, passed).value.attempts
    ensures Leaves(p, Step(c, s, k, p, passed).value.attempts[k])
  {
    if p.Enter? {
      EnterLeaves(c, s, k);
    } else if p.Switch? || p.Accept? || p.Handle? || p.Confirm? {
      DecidedLeaves(c.packages[k], s.pointer, p);
    } else if p.Save? {
      SaveLeaves(c, s, k, p.stage, p.next);
    } else if p.Install? || p.Restore? {
      FilesLeave(c, s, k, p, passed);
    }
  }

  /** The block goes on, or is left to the handler or by returning; and it is only entered at the candidate check. */
  predicate Leaves(p: Point, q: Point) {
    && (Guarded(p) ==> Guarded(q) || q == Handle || (q == Halt && p == Return))
    && (!Guarded(p) && Guarded(q) ==> q == CheckCandidate)
  }

  lemma SaveLeaves(c: Config, s: State, k: Key, stage: Stage, next: Point)
    requires k in c.packages && PointHolds(c, s, k, Save(stage, next))
    ensures Leaves(Save(stage, next), next)
  {
  }

  lemma FilesLeave(c: Config, s: State, k: Key, p: Point, passed: bool)
    requires k in c.packages && (p.Install? || p.Restore?)
    ensures var t := Step(c, s, k, p, passed).value; k in t.attempts && Leaves(p, t.attempts[k])
  {
  }

  lemma EnterLeaves(c: Config, s: State, k: Key)
    requires k in c.packages
    ensures Leaves(Enter, Entered(c, s, k))
  {
  }

  lemma DecidedLeaves(package: Package, pointer: Bytes, p: Point)
    requires p.Switch? || p.Accept? || p.Handle? || p.Confirm?
    ensures Leaves(p, Decided(package, pointer, p))
  {
  }

  /** In every run the events come in order: switches after checks, acceptance after serving, rollback
      confirmation after readback, and no rollback refused for its bytes. */
  lemma HistoryJustified(c: Config, actions: seq<Action>, i: nat)
    requires ValidConfig(c) && Run(c, Start(c), actions).Some? && i < |Run(c, Start(c), actions).value.log|
    ensures var log := Run(c, Start(c), actions).value.log;
      Justified(c, log[..i], log[i]) && !log[i].RollbackRefused?
  {
    Safety(c, actions);
  }

  /** A pointer write is a switch from the recorded parent, which pushes the package, or a rollback of the
      package's own pointer, which pops exactly that package. */
  lemma PointerWrites(c: Config, actions: seq<Action>, a: Action)
    requires ValidConfig(c) && Run(c, Start(c), actions).Some?
    requires Next(c, Run(c, Start(c), actions).value, a).Some?
    ensures var s := Run(c, Start(c), actions).value; var t := Next(c, s, a).value;
      t.pointer == s.pointer || (a.k in c.packages &&
        (if Chain(t.log) == Chain(s.log) + [a.k] then Digest(s.pointer) == Parent(c, a.k) && t.pointer == Own(c, a.k)
         else Chain(s.log) == Chain(t.log) + [a.k] && s.pointer == Own(c, a.k) && Digest(t.pointer) == Parent(c, a.k)))
  {
    Safety(c, actions);
    var s := Run(c, Start(c), actions).value;
    if Next(c, s, a).value.pointer != s.pointer {
      PointerWriter(c, s, a);
      assert PointHolds(c, s, a.k, s.attempts[a.k]);
      if s.attempts[a.k] == Replace {
        ChainNote(s.log, SwitchedPointer(a.k, s.pointer));
      } else {
        RestoreWrites(c, s, a);
      }
    }
  }

  lemma PointerWriter(c: Config, s: State, a: Action)
    requires Next(c, s, a).Some? && Next(c, s, a).value.pointer != s.pointer
    ensures a.Proceed? && a.k in c.packages && a.k in s.attempts
      && (s.attempts[a.k] == Replace || s.attempts[a.k] == Restore)
  {
  }

  lemma RestoreWrites(c: Config, s: State, a: Action)
    requires ValidConfig(c) && ChainHolds(c, s) && JournalsHold(c, s)
    requires a.Proceed? && a.k in c.packages && a.k in s.attempts && s.attempts[a.k] == Restore
    requires PointHolds(c, s, a.k, Restore)
    ensures var t := Next(c, s, a).value;
      Chain(s.log) == Chain(t.log) + [a.k] && s.pointer == Own(c, a.k) && Digest(t.pointer) == Parent(c, a.k)
  {
    OnChain(c, s, a.k);
    ChainNote(s.log, RestoredPointer(a.k, s.pointer, s.backups[a.k]));
    LastKept(Chain(s.log), a.k);
    assert Captured(c, s, a.k);
    assert Next(c, s, a).value.log == s.log + [RestoredPointer(a.k, s.pointer, s.backups[a.k])];
  }

  lemma LastKept(chain: seq<Key>, k: Key)
    requires chain != [] && chain[|chain| - 1] == k
    ensures chain == chain[..|chain| - 1] + [k]
  {
  }
}
