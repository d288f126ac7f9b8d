/** A package that nobody interferes with: whatever crashes and exceptions its attempts meet, one retry recovers.
    With interference there is a run after which no retry does. */
module PublicationSolo {
  import opened Wrappers
  import opened Publication
  import opened PublicationSafety
  import opened PublicationRecovery

  function PointOf(s: State, k: Key): Point {
    if k in s.attempts then s.attempts[k] else Halt
  }

  /** Where an attempt can stand while only this package moves the pointer. */
  ghost predicate SoloPoint(c: Config, s: State, k: Key, p: Point)
    requires k in c.packages
  {
    var atParent := Digest(s.pointer) == Parent(c, k);
    if k !in s.journals then
      atParent && (p.Enter? || p.BackUp? || p.Halt? || (p.Save? && p.stage == Prepared))
    else if Dead(s.journals[k].stage) then
      atParent && (p.Enter? || p.Halt? || p.ReadBack? || p.Confirm? || p == Install(RollbackSwitched)
          || p == Save(RolledBack, Halt))
    else
      match p
      case Install(found) => !Dead(found)
      case Save(Switched, _) => s.pointer == Own(c, k)
      case Save(Accepted, _) => s.pointer == Own(c, k)
      case CheckServing | Accept => s.pointer == Own(c, k)
      case Save(Superseded, next) => atParent && next == Halt
      case Save(stage, _) => stage != Prepared && stage != RolledBack && (Dead(stage) ==> atParent)
      case BackUp | ReadBack | Confirm => false
      case _ => true
  }

  ghost predicate Solo(c: Config, s: State, k: Key)
    requires k in c.packages
  {
    && Unlocked(s, k) && Parent(c, k) != Digest(Own(c, k))
    && OnOwnOrParent(c, s, k) && (Installable(c, s, k) || (EndsEarly(c, s, k) && EarlyPoint(PointOf(s, k))))
    && SoloPoint(c, s, k, PointOf(s, k))
  }

  /** Where an attempt that ends early can stand. */
  predicate EarlyPoint(p: Point) {
    p.Enter? || p.Halt? || p == Save(Superseded, Halt)
  }

  lemma SoloEntered(c: Config, s: State, k: Key)
    requires k in c.packages && JournalsHold(c, s) && OnOwnOrParent(c, s, k) && SoloPoint(c, s, k, Enter)
    ensures SoloPoint(c, s, k, Entered(c, s, k))
    ensures EndsEarly(c, s, k) && Parent(c, k) != Digest(Own(c, k)) ==> EarlyPoint(Entered(c, s, k))
  {
  }

  lemma SoloDecided(c: Config, s: State, k: Key, p: Point)
    requires k in c.packages && OnOwnOrParent(c, s, k) && SoloPoint(c, s, k, p)
    requires p.Switch? || p.Accept? || p.Handle? || p.Confirm?
    ensures SoloPoint(c, s, k, Decided(c.packages[k], s.pointer, p))
  {
  }

  lemma SoloSaved(c: Config, s: State, k: Key, stage: Stage, next: Point)
    requires k in c.packages && SoloPoint(c, s, k, Save(stage, next)) && PointHolds(c, s, k, Save(stage, next))
    ensures SoloPoint(c, Step(c, s, k, Save(stage, next), true).value, k, next)
  {
  }

  lemma SoloWrites(c: Config, s: State, k: Key, p: Point)
    requires k in c.packages && Solo(c, s, k) && AtPoint(s, k, p) && JournalsHold(c, s) && PointHolds(c, s, k, p)
    requires p.BackUp? || p.Install? || p.Replace? || p.Restore?
    ensures Solo(c, Step(c, s, k, p, true).value, k) && Step(c, s, k, p, true) == Step(c, s, k, p, false)
  {
    if p.Restore? {
      SoloRestores(c, s, k);
    } else if p.Install? {
      SoloInstalls(c, s, k, p.found);
    } else {
      SoloOther(c, s, k, p);
    }
  }

  lemma SoloRestores(c: Config, s: State, k: Key)
    requires k in c.packages && Solo(c, s, k) && AtPoint(s, k, Restore) && JournalsHold(c, s)
      && PointHolds(c, s, k, Restore)
    ensures Solo(c, Step(c, s, k, Restore, true).value, k)
  {
    assert Captured(c, s, k);
    var restored := At(s.(pointer := s.backups[k]), k, Save(RollbackSwitched, ReadBack));
    assert Step(c, s, k, Restore, true) == Some(Note(restored, RestoredPointer(k, s.pointer, s.backups[k])));
  }

  lemma SoloInstalls(c: Config, s: State, k: Key, found: Stage)
    requires k in c.packages && Solo(c, s, k) && AtPoint(s, k, Install(found)) && JournalsHold(c, s)
    requires PointHolds(c, s, k, Install(found))
    ensures Solo(c, Step(c, s, k, Install(found), true).value, k)
  {
  }

  lemma SoloOther(c: Config, s: State, k: Key, p: Point)
    requires k in c.packages && Solo(c, s, k) && AtPoint(s, k, p) && PointHolds(c, s, k, p) && (p.BackUp? || p.Replace?)
    ensures Solo(c, Step(c, s, k, p, true).value, k)
  {
  }

  lemma SoloProceeds(c: Config, s: State, k: Key, passed: bool)
    requires Inv(c, s) && k in c.packages && k in s.attempts && Solo(c, s, k)
    requires Step(c, s, k, s.attempts[k], passed).Some?
    ensures Solo(c, Step(c, s, k, s.attempts[k], passed).value, k)
  {
    var p := s.attempts[k];
    assert PointHolds(c, s, k, p);
    if p.Enter? {
      SoloEntered(c, s, k);
      SoloAt(c, s, k, Entered(c, s, k));
    } else if p.Save? {
      SoloSaved(c, s, k, p.stage, p.next);
    } else if Locked(p) {
      SoloWrites(c, s, k, p);
    } else if p.Switch? || p.Accept? || p.Handle? || p.Confirm? {
      SoloDecided(c, s, k, p);
      SoloAt(c, s, k, Decided(c.packages[k], s.pointer, p));
    } else {
      SoloCallback(c, s, k, passed);
    }
  }

  lemma SoloAt(c: Config, s: State, k: Key, q: Point)
    requires k in c.packages && k in s.attempts && Solo(c, s, k) && SoloPoint(c, s, k, q)
    requires Installable(c, s, k) || EarlyPoint(q)
    ensures Solo(c, At(s, k, q), k)
  {
  }

  lemma SoloCallback(c: Config, s: State, k: Key, passed: bool)
    requires k in c.packages && k in s.attempts && Solo(c, s, k)
    requires var p := s.attempts[k]; p.CheckCandidate? || p.CheckServing? || p.ReadBack? || p.Return?
    ensures Solo(c, Step(c, s, k, s.attempts[k], passed).value, k)
  {
  }

  lemma SoloStops(c: Config, s: State, k: Key, p: Point)
    requires k in c.packages && k in s.attempts && Solo(c, s, k)
    requires p == Halt || (p == Handle && Guarded(s.attempts[k]) && PointHolds(c, s, k, s.attempts[k]))
    ensures Solo(c, At(s, k, p), k)
  {
  }

  lemma SoloKeeps(c: Config, s: State, a: Action)
    requires Inv(c, s) && a.k in c.packages && Solo(c, s, a.k) && Next(c, s, a).Some?
    ensures Solo(c, Next(c, s, a).value, a.k)
  {
    match a
    case Begin(k) =>
    case Proceed(k, passed) => SoloProceeds(c, s, k, passed);
    case Raise(k) => assert PointHolds(c, s, k, s.attempts[k]); SoloStops(c, s, k, Handle);
    case Crash(k) => SoloStops(c, s, k, Halt);
  }

  lemma SoloHalts(c: Config, s: State, k: Key)
    requires k in c.packages && Unlocked(s, k) && PointOf(s, k) == Halt
    ensures Recoverable(c, s, k) <==> Solo(c, s, k)
  {
  }

  lemma {:induction false} SoloRun(c: Config, s: State, actions: seq<Action>, k: Key)
    requires ValidConfig(c) && k in c.packages && Inv(c, s) && Solo(c, s, k)
    requires Run(c, s, actions).Some? && forall a :: a in actions ==> a.k == k
    ensures Inv(c, Run(c, s, actions).value) && Solo(c, Run(c, s, actions).value, k)
    decreases |actions|
  {
    if actions != [] {
      var before := actions[..|actions| - 1];
      SoloRun(c, s, before, k);
      var t := Run(c, s, before).value;
      SoloKeeps(c, t, actions[|actions| - 1]);
      NextKeeps(c, t, actions[|actions| - 1]);
    }
  }

  /** A package that is not recorded yet is recoverable when its parent is live and its release can be installed. */
  lemma FreshRecoverable(c: Config, s: State, k: Key)
    requires ValidConfig(c) && k in c.packages && Inv(c, s) && k !in s.journals
    ensures Recoverable(c, s, k) <==> Digest(s.pointer) == Parent(c, k) && Installable(c, s, k)
  {
    if s.pointer == Own(c, k) {
      OnChain(c, s, k);
    }
  }

  /** Recovery from every crash point: from any reachable state, however many packages published before and wherever
      their attempts stand, as long as no other attempt holds the lock. If the package is recoverable there, then after
      any run of its own attempts, with crashes and exceptions anywhere, killing what is left and retrying once accepts
      the package exactly when its rollback has not begun and both checks pass; otherwise the parent is live and the
      journal is settled, or still waits for a rollback readback that failed. */
  lemma CrashRecovery(c: Config, before: seq<Action>, actions: seq<Action>, k: Key, w: Answers)
    requires ValidConfig(c) && k in c.packages && Run(c, Start(c), before).Some?
    requires var s := Run(c, Start(c), before).value;
      && Unlocked(s, k) && PointOf(s, k) == Halt && Recoverable(c, s, k)
      && Run(c, s, actions).Some? && forall a :: a in actions ==> a.k == k
    ensures var s := At(Run(c, Run(c, Start(c), before).value, actions).value, k, Halt); var t := Retry(c, s, k, w);
      && Recoverable(c, s, k) && Inv(c, t)
      && if Resumes(c, s, k) && w.candidate && w.serving then Published(c, t, k)
         else Withdrawn(c, t, k, w) && StageIs(t, k, Ending(c, s, k, w))
  {
    var start := Run(c, Start(c), before).value;
    Safety(c, before);
    SoloHalts(c, start, k);
    SoloRun(c, start, actions, k);
    var reached := Run(c, start, actions).value;
    var s := At(reached, k, Halt);
    SilentKeeps(c, reached, k, Halt);
    SoloHalted(c, reached, k);
    SoloHalts(c, s, k);
    Recovery(c, s, k, w);
    NextKeeps(c, s, Begin(k));
    FinishKeeps(c, Begun(s, k), k, w);
  }

  lemma SoloHalted(c: Config, s: State, k: Key)
    requires k in c.packages && Solo(c, s, k)
    ensures Solo(c, At(s, k, Halt), k)
  {
  }

  // ---- a run with a competitor that no retry recovers from -------------------------------

  lemma Longer(c: Config, before: seq<Action>, s: State, a: Action)
    requires Run(c, Start(c), before) == Some(s) && Next(c, s, a).Some?
    ensures Run(c, Start(c), before + [a]) == Next(c, s, a)
  {
    assert (before + [a])[..|before|] == before;
  }

  /** The next step of `k`, whose point and lock allow it. */
  lemma Proceeds(c: Config, before: seq<Action>, s: State, k: Key, p: Point, passed: bool)
    returns (actions: seq<Action>, t: State)
    requires Run(c, Start(c), before) == Some(s) && k in c.packages && AtPoint(s, k, p)
      && Step(c, s, k, p, passed).Some?
    ensures Some(t) == Step(c, s, k, p, passed) && Run(c, Start(c), actions) == Some(t)
  {
    Longer(c, before, s, Proceed(k, passed));
    actions, t := before + [Proceed(k, passed)], Step(c, s, k, p, passed).value;
  }

  lemma Saves(c: Config, before: seq<Action>, s: State, k: Key, stage: Stage, next: Point)
    returns (actions: seq<Action>, t: State)
    requires Run(c, Start(c), before) == Some(s) && k in c.packages && AtPoint(s, k, Save(stage, next))
    ensures Run(c, Start(c), actions) == Some(t)
    ensures t.pointer == s.pointer && t.attempts == s.attempts[k := next]
    ensures t.backups == s.backups && t.directories == s.directories
    ensures t.journals == s.journals[k := Journal(k, Digest(Own(c, k)), stage)]
  {
    actions, t := Proceeds(c, before, s, k, Save(stage, next), true);
  }

  lemma Decides(c: Config, before: seq<Action>, s: State, k: Key, p: Point) returns (actions: seq<Action>, t: State)
    requires Run(c, Start(c), before) == Some(s) && k in c.packages && AtPoint(s, k, p) && Free(s)
    requires p.Switch? || p.Accept? || p.Handle? || p.Confirm?
    ensures Run(c, Start(c), actions) == Some(t) && t == At(s, k, Decided(c.packages[k], s.pointer, p))
  {
    actions, t := Proceeds(c, before, s, k, p, true);
  }

  lemma Replaces(c: Config, before: seq<Action>, s: State, k: Key) returns (actions: seq<Action>, t: State)
    requires Run(c, Start(c), before) == Some(s) && k in c.packages && AtPoint(s, k, Replace)
    ensures Run(c, Start(c), actions) == Some(t)
    ensures t.pointer == Own(c, k) && t.attempts == s.attempts[k := Save(Switched, CheckServing)]
    ensures t.backups == s.backups && t.directories == s.directories && t.journals == s.journals
  {
    actions, t := Proceeds(c, before, s, k, Replace, true);
  }

  lemma Restores(c: Config, before: seq<Action>, s: State, k: Key) returns (actions: seq<Action>, t: State)
    requires Run(c, Start(c), before) == Some(s) && k in c.packages && AtPoint(s, k, Restore)
    requires k in s.backups && Digest(s.backups[k]) == Parent(c, k)
    ensures Run(c, Start(c), actions) == Some(t)
    ensures t.pointer == s.backups[k] && t.attempts == s.attempts[k := Save(RollbackSwitched, ReadBack)]
    ensures t.journals == s.journals
  {
    actions, t := Proceeds(c, before, s, k, Restore, true);
  }

  /** A callback of `k` that passes. */
  lemma Passes(c: Config, before: seq<Action>, s: State, k: Key, p: Point) returns (actions: seq<Action>, t: State)
    requires Run(c, Start(c), before) == Some(s) && k in c.packages && AtPoint(s, k, p)
    requires p == CheckCandidate || p == CheckServing
    ensures Run(c, Start(c), actions) == Some(t)
    ensures t.attempts == s.attempts[k := if p == CheckCandidate then Switch else Accept]
    ensures t.pointer == s.pointer && t.backups == s.backups && t.directories == s.directories
      && t.journals == s.journals
  {
    actions, t := Proceeds(c, before, s, k, p, true);
  }

  /** A fresh package can be prepared and installed. */
  lemma PreparesFresh(c: Config, before: seq<Action>, s: State, k: Key) returns (actions: seq<Action>, t: State)
    requires Run(c, Start(c), before) == Some(s) && k in c.packages && Free(s)
    requires k !in s.attempts && k !in s.journals && c.packages[k].directory !in s.directories
    requires Digest(s.pointer) == Parent(c, k) && Parent(c, k) != Digest(Own(c, k))
    ensures Run(c, Start(c), actions) == Some(t) && t.pointer == s.pointer
    ensures t.attempts == s.attempts[k := CheckCandidate] && t.backups == s.backups[k := s.pointer]
    ensures t.journals == s.journals[k := Journal(k, Digest(Own(c, k)), Prepared)]
    ensures t.directories == s.directories[c.packages[k].directory := c.packages[k].files]
  {
    actions, t := Records(c, before, s, k);
    actions, t := Saves(c, actions, t, k, Prepared, Install(Prepared));
    ghost var u := t;
    actions, t := Proceeds(c, actions, t, k, Install(Prepared), true);
    var package := c.packages[k];
    var installed := u.(directories := u.directories[package.directory := package.files]);
    assert t == Note(At(installed, k, CheckCandidate), Installed(k));
  }

  /** A fresh package begins and keeps its parent. */
  lemma Records(c: Config, before: seq<Action>, s: State, k: Key) returns (actions: seq<Action>, t: State)
    requires Run(c, Start(c), before) == Some(s) && k in c.packages && Free(s) && k !in s.attempts && k !in s.journals
    requires Digest(s.pointer) == Parent(c, k) && Parent(c, k) != Digest(Own(c, k))
    ensures Run(c, Start(c), actions) == Some(t) && t.pointer == s.pointer
    ensures t.attempts == s.attempts[k := Save(Prepared, Install(Prepared))] && t.backups == s.backups[k := s.pointer]
    ensures t.journals == s.journals && t.directories == s.directories
  {
    Longer(c, before, s, Begin(k));
    actions, t := before + [Begin(k)], Begun(s, k);
    actions, t := Proceeds(c, actions, t, k, Enter, true);
    actions, t := Proceeds(c, actions, t, k, BackUp, true);
  }

  /** A prepared package can pass its candidate check and take the pointer. */
  lemma SwitchesFresh(c: Config, before: seq<Action>, s: State, k: Key) returns (actions: seq<Action>, t: State)
    requires Run(c, Start(c), before) == Some(s) && k in c.packages && Free(s) && AtPoint(s, k, CheckCandidate)
    requires Digest(s.pointer) == Parent(c, k)
    ensures Run(c, Start(c), actions) == Some(t) && t.pointer == Own(c, k)
    ensures t.attempts == s.attempts[k := CheckServing] && t.backups == s.backups && t.directories == s.directories
    ensures t.journals == s.journals[k := Journal(k, Digest(Own(c, k)), Switched)]
  {
    actions, t := Passes(c, before, s, k, CheckCandidate);
    actions, t := Decides(c, actions, t, k, Switch);
    actions, t := Saves(c, actions, t, k, Switching, Replace);
    actions, t := Replaces(c, actions, t, k);
    actions, t := Saves(c, actions, t, k, Switched, CheckServing);
  }

  /** Two packages in line, with fresh release directories. */
  predicate InLine(c: Config, a: Key, b: Key) {
    && a in c.packages && b in c.packages && a != b
    && Digest(c.initial) == Parent(c, a) && Digest(Own(c, a)) == Parent(c, b)
    && c.packages[a].directory !in c.existing && c.packages[b].directory !in c.existing
    && c.packages[a].directory != c.packages[b].directory
  }

  /** Package `a` switches, `b` switches on top, `a` records that it was superseded, `b` fails its serving
      check and rolls back to `a`, and `a` dies before its handler runs: `a` is live, was never accepted,
      and its journal is settled, so every later retry of `a` refuses and leaves the pointer as it is. */
  lemma Stranded(c: Config, a: Key, b: Key) returns (actions: seq<Action>, s: State)
    requires ValidConfig(c) && InLine(c, a, b)
    ensures Run(c, Start(c), actions) == Some(s)
    ensures s.pointer == Own(c, a) && StageIs(s, a, Superseded) && AtPoint(s, a, Halt)
    ensures Inv(c, s) && Unlocked(s, a) && !Recoverable(c, s, a)
    ensures forall w :: !Recovered(c, Retry(c, s, a, w), a, w)
    ensures forall w :: var t := Retry(c, s, a, w);
      t.pointer == Own(c, a) && StageIs(t, a, Superseded) && AtPoint(t, a, Halt)
  {
    actions, s := BothSwitch(c, a, b);
    actions, s := SupersededThenRolledBack(c, actions, s, a, b);
    Longer(c, actions, s, Crash(a));
    actions, s := actions + [Crash(a)], At(s, a, Halt);
    Safety(c, actions);
    forall w
      ensures var t := Retry(c, s, a, w); t.pointer == Own(c, a) && StageIs(t, a, Superseded) && AtPoint(t, a, Halt)
      ensures !Recovered(c, Retry(c, s, a, w), a, w)
    {
      StaysStranded(c, s, a, w);
    }
  }

  lemma StaysStranded(c: Config, s: State, a: Key, w: Answers)
    requires Inv(c, s) && a in c.packages && s.pointer == Own(c, a) && StageIs(s, a, Superseded) && Free(s)
    ensures var t := Retry(c, s, a, w);
      t.pointer == Own(c, a) && StageIs(t, a, Superseded) && AtPoint(t, a, Halt) && !Recovered(c, t, a, w)
  {
    assert Captured(c, s, a);
    RetryRefused(c, s, a, w);
  }

  lemma BothSwitch(c: Config, a: Key, b: Key) returns (actions: seq<Action>, s: State)
    requires ValidConfig(c) && InLine(c, a, b)
    ensures Run(c, Start(c), actions) == Some(s)
    ensures s.attempts == map[a := Accept, b := Handle] && s.pointer == Own(c, b)
    ensures a in s.journals && b in s.backups && Digest(s.backups[b]) == Parent(c, b)
  {
    actions, s := FirstSwitches(c, a, b);
    actions, s := SecondSwitches(c, actions, s, a, b);
    ghost var t := s;
    actions, s := Proceeds(c, actions, s, b, CheckServing, false);
    assert s == At(t, b, Handle);
  }

  lemma SecondSwitches(c: Config, before: seq<Action>, start: State, a: Key, b: Key)
    returns (actions: seq<Action>, s: State)
    requires ValidConfig(c) && InLine(c, a, b) && Run(c, Start(c), before) == Some(start)
    requires start.attempts == map[a := Accept] && start.pointer == Own(c, a)
    requires start.journals == map[a := Journal(a, Digest(Own(c, a)), Switched)]
    requires start.directories == c.existing[c.packages[a].directory := c.packages[a].files]
    ensures Run(c, Start(c), actions) == Some(s)
    ensures s.attempts == start.attempts[b := CheckServing] && s.pointer == Own(c, b)
    ensures a in s.journals && b in s.backups && Digest(s.backups[b]) == Parent(c, b)
  {
    actions, s := PreparesFresh(c, before, start, b);
    assert s.attempts == start.attempts[b := CheckCandidate];
    actions, s := SwitchesFresh(c, actions, s, b);
  }

  lemma FirstSwitches(c: Config, a: Key, b: Key) returns (actions: seq<Action>, s: State)
    requires ValidConfig(c) && InLine(c, a, b)
    ensures Run(c, Start(c), actions) == Some(s)
    ensures s.attempts == map[a := Accept] && s.pointer == Own(c, a)
    ensures s.journals == map[a := Journal(a, Digest(Own(c, a)), Switched)]
    ensures s.directories == c.existing[c.packages[a].directory := c.packages[a].files]
  {
    actions, s := PreparesFresh(c, [], Start(c), a);
    actions, s := SwitchesFresh(c, actions, s, a);
    actions, s := Passes(c, actions, s, a, CheckServing);
  }

  lemma SupersededThenRolledBack(c: Config, before: seq<Action>, start: State, a: Key, b: Key)
    returns (actions: seq<Action>, s: State)
    requires ValidConfig(c) && InLine(c, a, b) && Run(c, Start(c), before) == Some(start)
    requires start.attempts == map[a := Accept, b := Handle] && start.pointer == Own(c, b)
    requires a in start.journals && b in start.backups && Digest(start.backups[b]) == Parent(c, b)
    ensures Run(c, Start(c), actions) == Some(s)
    ensures a in s.attempts && s.pointer == Own(c, a) && StageIs(s, a, Superseded)
    ensures s.journals[a].package == a && s.journals[a].pointer == Digest(Own(c, a))
    ensures forall m :: m in s.attempts ==> !Locked(s.attempts[m])
  {
    actions, s := Decides(c, before, start, a, Accept);
    actions, s := Saves(c, actions, s, a, Superseded, Handle);
    actions, s := Decides(c, actions, s, b, Handle);
    actions, s := Restores(c, actions, s, b);
    actions, s := Saves(c, actions, s, b, RollbackSwitched, ReadBack);
  }

  lemma RetryRefused(c: Config, s: State, k: Key, w: Answers)
    requires k in c.packages && Settled(s, k) && Free(s)
    requires s.journals[k].package == k && s.journals[k].pointer == Digest(Own(c, k))
    ensures var t := Retry(c, s, k, w); t.pointer == s.pointer && t.journals == s.journals && AtPoint(t, k, Halt)
  {
    var b := Begun(s, k);
    var t := At(b, k, Halt);
    OneStep(c, b, k, Enter, w, t);
    FromHalt(c, t, k, w);
  }
}
