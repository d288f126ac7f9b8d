/** The static publication protocol as a transition system: any number of packages race on one pointer,
    an action is one durable write, one read under the lock or one callback, and a crash may fall
    between any two actions. */
module Publication {
  import opened Wrappers

  type Bytes = seq<bv8>
  type Key = string
  type Files = map<string, Bytes>

  /** A collision-free digest. */
  datatype Digest = Digest(of: Bytes)

  datatype Package = Package(pointer: Bytes, parent: Digest, directory: string, files: Files)

  /** The validated packages by key, the first pointer, and the release directories that exist already. */
  datatype Config = Config(packages: map<Key, Package>, initial: Bytes, existing: map<string, Files>)

  /** Pointer bytes identify a package, and differ from the first pointer. */
  ghost predicate ValidConfig(c: Config) {
    forall k :: k in c.packages ==>
      && c.packages[k].pointer != c.initial
      && forall m :: m in c.packages && c.packages[m].pointer == c.packages[k].pointer ==> m == k
  }

  datatype Stage = Prepared | Switching | Switched | Accepted | RollbackSwitched | RolledBack | Superseded | Refused

  predicate Terminal(stage: Stage) {
    stage == RolledBack || stage == Superseded || stage == Refused
  }

  datatype Journal = Journal(package: Key, pointer: Digest, stage: Stage)

  /** Where an attempt stands. `Save(stage, next)` is about to write the journal and then be at `next`. */
  datatype Point =
    | Enter
    | BackUp
    | Save(stage: Stage, next: Point)
    | Install(found: Stage)
    | CheckCandidate
    | Switch
    | Replace
    | CheckServing
    | Accept
    | Return
    | Handle
    | Restore
    | ReadBack
    | Confirm
    | Halt

  /** Inside a critical section: this attempt holds the transaction lock. */
  predicate Locked(p: Point) {
    p.BackUp? || p.Save? || p.Install? || p.Replace? || p.Restore?
  }

  /** Inside the block whose exceptions lead to the rollback handler. */
  predicate Guarded(p: Point) {
    || p.CheckCandidate? || p.Switch? || p.Replace? || p.CheckServing? || p.Accept? || p.Return?
    || (p.Save? && (p.stage == Switching || p.stage == Switched || p.stage == Accepted || p.next == Handle))
  }

  datatype Event =
    | Began(k: Key)
    | Installed(k: Key)
    | CandidatePassed(k: Key)
    | ServingPassed(k: Key)
    | ReadbackPassed(k: Key)
    | SwitchedPointer(k: Key, before: Bytes)
    | RestoredPointer(k: Key, before: Bytes, after: Bytes)
    | Saved(k: Key, stage: Stage, live: Bytes)
    | RollbackRefused(k: Key)

  datatype State = State(
    pointer: Bytes,
    journals: map<Key, Journal>,
    backups: map<Key, Bytes>,
    directories: map<string, Files>,
    attempts: map<Key, Point>,
    log: seq<Event>)

  function Start(c: Config): State {
    State(c.initial, map[], map[], c.existing, map[], [])
  }

  /** What happens next: an attempt starts, performs its next step (a callback passes or not), sees an
      exception from outside the protocol, or dies with its process. */
  datatype Action = Begin(k: Key) | Proceed(k: Key, passed: bool) | Raise(k: Key) | Crash(k: Key)

  predicate Free(s: State) {
    forall k :: k in s.attempts ==> !Locked(s.attempts[k])
  }

  function At(s: State, k: Key, p: Point): State {
    s.(attempts := s.attempts[k := p])
  }

  function Note(s: State, e: Event): State {
    s.(log := s.log + [e])
  }

  function Own(c: Config, k: Key): Bytes
    requires k in c.packages
  {
    c.packages[k].pointer
  }

  function Parent(c: Config, k: Key): Digest
    requires k in c.packages
  {
    c.packages[k].parent
  }

  predicate Holds(s: State, directory: string, files: Files) {
    directory in s.directories && s.directories[directory] == files
  }

  /** The point an attempt reaches when it enters its first critical section and reads pointer and journal. */
  function Entered(c: Config, s: State, k: Key): Point
    requires k in c.packages
  {
    var current := Digest(s.pointer);
    if k in s.journals then
      var journal := s.journals[k];
      if journal.package != k || journal.pointer != Digest(Own(c, k)) then Halt
      else if Terminal(journal.stage) then Halt
      else if current == Digest(Own(c, k)) then Install(journal.stage)
      else if current == Parent(c, k) && journal.stage != Accepted && journal.stage != Switched then
        Install(journal.stage)
      else Save(Superseded, Halt)
    else if current != Parent(c, k) || current == Digest(Own(c, k)) then Halt
    else BackUp
  }

  /** The point an attempt chooses from the pointer it reads inside a later critical section. */
  function Decided(package: Package, pointer: Bytes, p: Point): Point
    requires p.Switch? || p.Accept? || p.Handle? || p.Confirm?
  {
    var atOwn, atParent := pointer == package.pointer, Digest(pointer) == package.parent;
    match p
    case Switch =>
      if atParent then Save(Switching, Replace) else if !atOwn then Save(Superseded, Handle) else CheckServing
    case Accept => if atOwn then Save(Accepted, Return) else Save(Superseded, Handle)
    case Handle => if atOwn then Restore else Save(if atParent then Refused else Superseded, Halt)
    case Confirm => Save(if atParent then RolledBack else Superseded, Halt)
  }

  /** One step of attempt `k` at point `p`; `passed` is the result of a callback. */
  function Step(c: Config, s: State, k: Key, p: Point, passed: bool): Option<State>
    requires k in c.packages
  {
    var package := c.packages[k];
    match p
    case Enter => if Free(s) then Some(At(s, k, Entered(c, s, k))) else None
    case BackUp => Some(At(s.(backups := s.backups[k := s.pointer]), k, Save(Prepared, Install(Prepared))))
    case Save(stage, next) =>
      Some(Note(At(s.(journals := s.journals[k := Journal(k, Digest(package.pointer), stage)]), k, next),
                Saved(k, stage, s.pointer)))
    case Install(found) =>
      if package.directory in s.directories && s.directories[package.directory] != package.files then
        Some(At(s, k, Halt))
      else
        var installed := s.(directories := s.directories[package.directory := package.files]);
        Some(Note(At(installed, k, if found == RollbackSwitched then ReadBack else CheckCandidate), Installed(k)))
    case CheckCandidate =>
      Some(if passed then Note(At(s, k, Switch), CandidatePassed(k)) else At(s, k, Handle))
    case Switch | Accept | Handle | Confirm =>
      if Free(s) then Some(At(s, k, Decided(package, s.pointer, p))) else None
    case Replace =>
      Some(Note(At(s.(pointer := package.pointer), k, Save(Switched, CheckServing)), SwitchedPointer(k, s.pointer)))
    case CheckServing =>
      Some(if passed then Note(At(s, k, Accept), ServingPassed(k)) else At(s, k, Handle))
    case Return => Some(At(s, k, Halt))
    case Restore =>
      if k !in s.backups || Digest(s.backups[k]) != package.parent then Some(Note(At(s, k, Halt), RollbackRefused(k)))
      else
        Some(Note(At(s.(pointer := s.backups[k]), k, Save(RollbackSwitched, ReadBack)),
                  RestoredPointer(k, s.pointer, s.backups[k])))
    case ReadBack =>
      Some(if passed then Note(At(s, k, Confirm), ReadbackPassed(k)) else At(s, k, Halt))
    case Halt => None
  }

  /** None when the action is not possible in this state. At most one live attempt per key. */
  function Next(c: Config, s: State, a: Action): Option<State> {
    match a
    case Begin(k) =>
      if k in c.packages && (k !in s.attempts || s.attempts[k] == Halt) then
        Some(Note(At(s, k, Enter), Began(k)))
      else None
    case Proceed(k, passed) =>
      if k in c.packages && k in s.attempts then Step(c, s, k, s.attempts[k], passed) else None
    case Raise(k) =>
      if k in s.attempts && Guarded(s.attempts[k]) then Some(At(s, k, Handle)) else None
    case Crash(k) =>
      if k in s.attempts then Some(At(s, k, Halt)) else None
  }

  /** The state after a list of actions, if every one of them is possible. */
  function Run(c: Config, s: State, actions: seq<Action>): Option<State>
    decreases |actions|
  {
    if actions == [] then Some(s)
    else
      match Run(c, s, actions[..|actions| - 1])
      case None => None
      case Some(before) => Next(c, before, actions[|actions| - 1])
  }

  // ---- the history of a run --------------------------------------------------------------

  /** The packages that switched the pointer and were not rolled back, oldest first: a switch pushes its
      package, a restore drops the last one. */
  function Chain(log: seq<Event>): seq<Key> {
    if log == [] then [] else Extended(Chain(log[..|log| - 1]), log[|log| - 1])
  }

  function Extended(chain: seq<Key>, e: Event): seq<Key> {
    if e.SwitchedPointer? then chain + [e.k]
    else if e.RestoredPointer? && chain != [] then chain[..|chain| - 1]
    else chain
  }

  /** The pointer a chain leaves live. */
  function Live(c: Config, chain: seq<Key>): Bytes
    requires forall k :: k in chain ==> k in c.packages
  {
    if chain == [] then c.initial else Own(c, chain[|chain| - 1])
  }

  /** Every package of the chain names its predecessor as parent, and the first names the first pointer. */
  ghost predicate Linked(c: Config, chain: seq<Key>) {
    && (forall k :: k in chain ==> k in c.packages)
    && (forall i :: 0 <= i < |chain| ==> Parent(c, chain[i]) == Digest(Live(c, chain[..i])))
    && (forall i, j :: 0 <= i < j < |chain| ==> chain[i] != chain[j])
  }

  /** The event happened to its package after the last time an attempt of that package began. */
  predicate Since(log: seq<Event>, e: Event) {
    log != [] && (log[|log| - 1] == e || (log[|log| - 1] != Began(e.k) && Since(log[..|log| - 1], e)))
  }

  /** What every event finds in the history before it. */
  ghost predicate Justified(c: Config, log: seq<Event>, e: Event) {
    var chain := Chain(log);
    && Linked(c, chain) && e.k in c.packages
    && match e
       case SwitchedPointer(k, before) =>
         && before == Live(c, chain) && Digest(before) == Parent(c, k) && k !in chain
         && Since(log, Installed(k)) && Since(log, CandidatePassed(k))
       case RestoredPointer(k, before, after) =>
         && chain != [] && chain[|chain| - 1] == k
         && before == Own(c, k) && Digest(after) == Parent(c, k)
       case Saved(k, stage, live) =>
         && live == Live(c, chain)
         && (stage == Switched ==> live == Own(c, k))
         && (stage == Accepted ==> live == Own(c, k) && Since(log, ServingPassed(k)))
         && (stage == RollbackSwitched || stage == Refused ==> Digest(live) == Parent(c, k))
         && (stage == RolledBack ==> Digest(live) == Parent(c, k) && Since(log, ReadbackPassed(k)))
       case RollbackRefused(_) => false
       case _ => true
  }

  ghost predicate AllJustified(c: Config, log: seq<Event>) {
    forall i :: 0 <= i < |log| ==> Justified(c, log[..i], log[i])
  }

  // ---- the invariant ---------------------------------------------------------------------

  /** Only one attempt is inside a critical section. */
  ghost predicate Exclusive(s: State) {
    forall k, m :: k in s.attempts && m in s.attempts && Locked(s.attempts[k]) && Locked(s.attempts[m]) ==> k == m
  }

  /** The captured previous pointer is the package's parent, which is not the package itself. */
  predicate Captured(c: Config, s: State, k: Key)
    requires k in c.packages
  {
    k in s.backups && Digest(s.backups[k]) == Parent(c, k) && Parent(c, k) != Digest(Own(c, k))
  }

  predicate Complete(c: Config, s: State, k: Key)
    requires k in c.packages
  {
    Holds(s, c.packages[k].directory, c.packages[k].files)
  }

  ghost predicate Checked(c: Config, s: State, k: Key)
    requires k in c.packages
  {
    Complete(c, s, k) && Since(s.log, Installed(k)) && Since(s.log, CandidatePassed(k))
  }

  ghost predicate PointHolds(c: Config, s: State, k: Key, p: Point)
    requires k in c.packages
  {
    var journaled := k in s.journals;
    var atParent := Digest(s.pointer) == Parent(c, k);
    var atOwn := s.pointer == Own(c, k);
    match p
    case Enter | Halt => true
    case BackUp => !journaled && atParent && !atOwn
    case Save(Prepared, next) => next == Install(Prepared) && Captured(c, s, k)
    case Save(Switching, next) => next == Replace && journaled && atParent && Checked(c, s, k)
    case Save(Switched, next) => next == CheckServing && journaled && atOwn
    case Save(Accepted, next) => next == Return && journaled && atOwn && Since(s.log, ServingPassed(k))
    case Save(RollbackSwitched, next) => next == ReadBack && journaled && atParent
    case Save(RolledBack, next) => next == Halt && journaled && atParent && Since(s.log, ReadbackPassed(k))
    case Save(Refused, next) => next == Halt && journaled && atParent
    case Save(Superseded, next) => (next == Halt || next == Handle) && journaled
    case CheckCandidate => journaled && Complete(c, s, k) && Since(s.log, Installed(k))
    case Switch => journaled && Checked(c, s, k)
    case Replace => journaled && atParent && Checked(c, s, k)
    case Accept => journaled && Since(s.log, ServingPassed(k))
    case Restore => journaled && atOwn
    case Confirm => journaled && Since(s.log, ReadbackPassed(k))
    case _ => journaled
  }

  ghost predicate JournalsHold(c: Config, s: State) {
    forall k :: k in s.journals ==>
      k in c.packages && s.journals[k].package == k && s.journals[k].pointer == Digest(Own(c, k)) && Captured(c, s, k)
  }

  ghost predicate ChainHolds(c: Config, s: State) {
    var chain := Chain(s.log);
    && Linked(c, chain) && Live(c, chain) == s.pointer
    && forall k :: k in chain ==> k in s.journals && Complete(c, s, k)
  }

  ghost predicate PointsHold(c: Config, s: State) {
    forall k :: k in s.attempts ==> k in c.packages && PointHolds(c, s, k, s.attempts[k])
  }

  ghost predicate Inv(c: Config, s: State) {
    Exclusive(s) && JournalsHold(c, s) && PointsHold(c, s) && ChainHolds(c, s) && AllJustified(c, s.log)
  }
}
