/** The walk over the pinned source graph: which files it visits, and what it reports about them. */
module Dependencies {
  import opened Wrappers
  import opened Pins

  /** A path to load at a commit. */
  datatype Ref = Ref(commit: string, path: string)

  function Load(s: Source, ref: Ref): Option<Node> {
    match Target(ref.path, Files(s, ref.commit))
    case Some(file) => Some(Node(ref.commit, file))
    case None => None
  }

  /** Every file the source holds. */
  ghost function Universe(s: Source): set<Node> {
    set commit, file | commit in s.proofs && s.proofs[commit].Merged?
        && file in s.proofs[commit].files :: Node(commit, file)
  }

  lemma Loaded(s: Source, ref: Ref)
    requires Load(s, ref).Some?
    ensures Load(s, ref).value in Universe(s)
  {
  }

  /** A trail through the graph, which ends in a file. */
  type Chain = chain: seq<Node> | |chain| > 0 witness [Node("", "")]

  function Tip(chain: Chain): Node {
    chain[|chain| - 1]
  }

  // ---- the graph -------------------------------------------------------------------------

  function PinRefs(s: Source, pins: seq<Pin>): seq<Ref> {
    if pins == [] then []
    else
      var last := pins[|pins| - 1];
      PinRefs(s, pins[..|pins| - 1]) + (if Names(last) then [Ref(Commit(s, last), last.path)] else [])
  }

  function LocalRefs(s: Source, commit: string, locals: seq<Local>): seq<Ref> {
    if locals == [] then []
    else
      var ref := Ref(commit, locals[|locals| - 1].path);
      LocalRefs(s, commit, locals[..|locals| - 1]) + (if Load(s, ref).Some? then [ref] else [])
  }

  /** What a file refers to, in the order it is queued. */
  function Refs(s: Source, node: Node): seq<Ref> {
    match s.texts(node)
    case Success(text) => PinRefs(s, text.pins) + LocalRefs(s, node.commit, text.locals)
    case Failure(_) => []
  }

  ghost predicate Edge(s: Source, a: Node, b: Node) {
    exists ref :: ref in Refs(s, a) && Load(s, ref) == Some(b)
  }

  /** A file is loaded by another: through a pin at the commit the pin names, or through a local reference at the
      commit of the file itself. */
  ghost predicate Refers(s: Source, a: Node, b: Node) {
    && s.texts(a).Success?
    && ((exists pin :: pin in s.texts(a).value.pins && PinLoads(s, pin, b))
        || (exists l :: l in s.texts(a).value.locals && LocalLoads(s, a, l, b)))
  }

  ghost predicate PinLoads(s: Source, pin: Pin, node: Node) {
    PinsAt(s, pin, node.commit) && LoadsFile(s, node.commit, pin.path, node.file)
  }

  ghost predicate LocalLoads(s: Source, a: Node, l: Local, b: Node) {
    b.commit == a.commit && LoadsFile(s, a.commit, l.path, b.file)
  }

  lemma LoadMeans(s: Source, ref: Ref, node: Node)
    ensures Load(s, ref) == Some(node) <==> node.commit == ref.commit && LoadsFile(s, ref.commit, ref.path, node.file)
  {
    TargetMeans(s, ref.commit, ref.path, node.file);
  }

  lemma PinMeans(s: Source, pin: Pin, node: Node)
    ensures Names(pin) && Load(s, Ref(Commit(s, pin), pin.path)) == Some(node) <==> PinLoads(s, pin, node)
  {
    CommitMeans(s, pin, node.commit);
    LoadMeans(s, Ref(Commit(s, pin), pin.path), node);
  }

  ghost predicate PinRefTo(s: Source, pins: seq<Pin>, node: Node) {
    exists ref :: ref in PinRefs(s, pins) && Load(s, ref) == Some(node)
  }

  lemma {:induction false} PinRefsMean(s: Source, pins: seq<Pin>, node: Node)
    ensures PinRefTo(s, pins, node) <==> exists pin :: pin in pins && PinLoads(s, pin, node)
  {
    if pins != [] {
      var rest, last := pins[..|pins| - 1], pins[|pins| - 1];
      PinRefsMean(s, rest, node);
      PinMeans(s, last, node);
      assert pins == rest + [last];
      var more := if Names(last) then [Ref(Commit(s, last), last.path)] else [];
      assert PinRefs(s, pins) == PinRefs(s, rest) + more;
      assert PinRefTo(s, pins, node) <==> PinRefTo(s, rest, node) || PinLoads(s, last, node);
    }
  }

  ghost predicate LocalRefTo(s: Source, commit: string, locals: seq<Local>, node: Node) {
    exists ref :: ref in LocalRefs(s, commit, locals) && Load(s, ref) == Some(node)
  }

  lemma {:induction false} LocalRefsMean(s: Source, a: Node, locals: seq<Local>, node: Node)
    ensures LocalRefTo(s, a.commit, locals, node) <==> exists l :: l in locals && LocalLoads(s, a, l, node)
  {
    if locals != [] {
      var rest, last := locals[..|locals| - 1], locals[|locals| - 1];
      var ref := Ref(a.commit, last.path);
      LocalRefsMean(s, a, rest, node);
      LoadMeans(s, ref, node);
      assert locals == rest + [last];
      var more := if Load(s, ref).Some? then [ref] else [];
      assert LocalRefs(s, a.commit, locals) == LocalRefs(s, a.commit, rest) + more;
      assert LocalRefTo(s, a.commit, locals, node) <==>
          LocalRefTo(s, a.commit, rest, node) || LocalLoads(s, a, last, node);
    }
  }

  lemma EdgeMeans(s: Source, a: Node, b: Node)
    ensures Edge(s, a, b) <==> Refers(s, a, b)
  {
    if s.texts(a).Success? {
      var text := s.texts(a).value;
      PinRefsMean(s, text.pins, b);
      LocalRefsMean(s, a, text.locals, b);
      assert Refs(s, a) == PinRefs(s, text.pins) + LocalRefs(s, a.commit, text.locals);
      assert Edge(s, a, b) <==> PinRefTo(s, text.pins, b) || LocalRefTo(s, a.commit, text.locals, b);
    }
  }

  /** A path of the graph that a pin starts: at the file it loads at the commit it names. */
  ghost predicate Path(s: Source, pin: Pin, chain: seq<Node>) {
    && |chain| > 0 && PinLoads(s, pin, chain[0])
    && forall i :: 0 <= i < |chain| - 1 ==> Refers(s, chain[i], chain[i + 1])
  }

  ghost predicate PathTo(s: Source, pin: Pin, chain: Chain, node: Node) {
    Path(s, pin, chain) && Tip(chain) == node
  }

  lemma PathMeans(s: Source, pin: Pin, chain: seq<Node>)
    ensures Names(pin) && IsChain(s, Root(s, pin), chain) <==> Path(s, pin, chain)
  {
    if |chain| > 0 {
      PinMeans(s, pin, chain[0]);
      forall i | 0 <= i < |chain| - 1 ensures Edge(s, chain[i], chain[i + 1]) <==> Refers(s, chain[i], chain[i + 1]) {
        EdgeMeans(s, chain[i], chain[i + 1]);
      }
      assert (forall i :: 0 <= i < |chain| - 1 ==> Edge(s, chain[i], chain[i + 1])) <==>
          forall i :: 0 <= i < |chain| - 1 ==> Refers(s, chain[i], chain[i + 1]);
    }
  }

  /** What a pin asks for. */
  function Root(s: Source, pin: Pin): Ref {
    Ref(Commit(s, pin), pin.path)
  }

  /** A path of the graph from the file a reference loads. */
  ghost predicate IsChain(s: Source, root: Ref, chain: seq<Node>) {
    && |chain| > 0 && Load(s, root) == Some(chain[0])
    && forall i :: 0 <= i < |chain| - 1 ==> Edge(s, chain[i], chain[i + 1])
  }

  ghost predicate ChainTo(s: Source, root: Ref, chain: Chain, node: Node) {
    IsChain(s, root, chain) && Tip(chain) == node
  }

  ghost predicate Reachable(s: Source, root: Ref, node: Node) {
    exists chain: Chain :: ChainTo(s, root, chain, node)
  }

  // ---- findings --------------------------------------------------------------------------

  datatype Fault =
    | Unreadable(error: string)
    | Pinned(fault: PinFault)
    | LocalAbsent(local: Local)

  datatype Finding = Finding(file: string, root: Pin, fault: Fault, chain: Chain)

  function AbsentLocals(s: Source, commit: string, locals: seq<Local>): seq<Local> {
    if locals == [] then []
    else
      var last := locals[|locals| - 1];
      AbsentLocals(s, commit, locals[..|locals| - 1]) + (if Load(s, Ref(commit, last.path)).None? then [last] else [])
  }

  /** What is wrong with one file. */
  function FaultsAt(s: Source, node: Node): seq<Fault> {
    match s.texts(node)
    case Failure(error) => [Unreadable(error)]
    case Success(text) =>
      var faults := Faults(s, text.pins, false);
      var absent := AbsentLocals(s, node.commit, text.locals);
      seq(|faults|, i requires 0 <= i < |faults| => Pinned(faults[i]))
      + seq(|absent|, i requires 0 <= i < |absent| => LocalAbsent(absent[i]))
  }

  /** A file is in order: readable, with valid nested pins and all its local targets. */
  ghost predicate Sound(s: Source, node: Node) {
    && s.texts(node).Success?
    && (forall pin :: pin in s.texts(node).value.pins ==> Valid(s, pin, false))
    && (forall l :: l in s.texts(node).value.locals ==> LoadsSome(s, node.commit, l.path))
  }

  /** Something is wrong with this file: it is unreadable, a pin in it is faulty, or a local target is absent. */
  ghost predicate FaultOf(s: Source, node: Node, fault: Fault) {
    match fault
    case Unreadable(error) => s.texts(node) == Failure(error)
    case Pinned(PinFault(pin, reason)) =>
      s.texts(node).Success? && pin in s.texts(node).value.pins && Faulty(s, pin, false, reason)
    case LocalAbsent(l) =>
      s.texts(node).Success? && l in s.texts(node).value.locals && !LoadsSome(s, node.commit, l.path)
  }

  lemma {:induction false} AbsentMeans(s: Source, commit: string, locals: seq<Local>, l: Local)
    ensures l in AbsentLocals(s, commit, locals) <==> l in locals && !LoadsSome(s, commit, l.path)
  {
    if locals != [] {
      var rest, last := locals[..|locals| - 1], locals[|locals| - 1];
      AbsentMeans(s, commit, rest, l);
      TargetSome(s, commit, last.path);
      assert locals == rest + [last];
    }
  }

  lemma FaultsMean(s: Source, node: Node, fault: Fault)
    ensures fault in FaultsAt(s, node) <==> FaultOf(s, node, fault)
  {
    if s.texts(node).Success? {
      var text := s.texts(node).value;
      var faults, absent := Faults(s, text.pins, false), AbsentLocals(s, node.commit, text.locals);
      var pinned := seq(|faults|, i requires 0 <= i < |faults| => Pinned(faults[i]));
      var missing := seq(|absent|, i requires 0 <= i < |absent| => LocalAbsent(absent[i]));
      assert FaultsAt(s, node) == pinned + missing;
      match fault {
        case Unreadable(_) =>
        case Pinned(f) =>
          FaultsExact(s, text.pins, false, f);
          if i :| 0 <= i < |faults| && faults[i] == f {
            assert pinned[i] == fault;
          }
          assert fault in pinned <==> f in faults;
        case LocalAbsent(l) =>
          AbsentMeans(s, node.commit, text.locals, l);
          if i :| 0 <= i < |absent| && absent[i] == l {
            assert missing[i] == fault;
          }
          assert fault in missing <==> l in absent;
      }
    }
  }

  lemma {:induction false} AbsentExact(s: Source, commit: string, locals: seq<Local>)
    ensures AbsentLocals(s, commit, locals) == [] <==> forall l :: l in locals ==> LoadsSome(s, commit, l.path)
  {
    if locals != [] {
      var rest, last := locals[..|locals| - 1], locals[|locals| - 1];
      AbsentExact(s, commit, rest);
      TargetSome(s, commit, last.path);
      assert locals == rest + [last];
    }
  }

  lemma SoundExact(s: Source, node: Node)
    ensures FaultsAt(s, node) == [] <==> Sound(s, node)
  {
    if s.texts(node).Success? {
      var text := s.texts(node).value;
      CleanExact(s, text.pins, false);
      AbsentExact(s, node.commit, text.locals);
      assert |FaultsAt(s, node)| == |Faults(s, text.pins, false)| + |AbsentLocals(s, node.commit, text.locals)|;
    }
  }

  /** A visited file, with the chain that led to it. */
  function Report(s: Source, file: string, root: Pin, chain: Chain): seq<Finding> {
    var faults := FaultsAt(s, Tip(chain));
    seq(|faults|, i requires 0 <= i < |faults| => Finding(file, root, faults[i], chain))
  }

  function Reports(s: Source, file: string, root: Pin, chains: seq<Chain>): seq<Finding> {
    if chains == [] then []
    else
      var last := |chains| - 1;
      Reports(s, file, root, chains[..last]) + Report(s, file, root, chains[last])
  }

  // ---- the walk --------------------------------------------------------------------------

  datatype Item = Item(ref: Ref, chain: seq<Node>)

  /** Every chain is a path of the graph, and no file ends two of them. */
  ghost predicate Visits(s: Source, root: Ref, chains: seq<Chain>) {
    && (forall c :: c in chains ==> IsChain(s, root, c))
    && (forall i, j :: 0 <= i < j < |chains| ==> Tip(chains[i]) != Tip(chains[j]))
  }

  ghost predicate Visited(chains: seq<Chain>, node: Node) {
    exists c :: c in chains && Tip(c) == node
  }

  /** An item was queued by the root, or by the file at the end of its chain. */
  ghost predicate Queued(s: Source, root: Ref, item: Item) {
    if item.chain == [] then item.ref == root
    else IsChain(s, root, item.chain) && item.ref in Refs(s, Tip(item.chain))
  }

  /** The queue is in order of chain length, with at most two lengths. */
  ghost predicate Level(queue: seq<Item>) {
    forall i, j :: 0 <= i < j < |queue| ==> |queue[i].chain| <= |queue[j].chain| <= |queue[i].chain| + 1
  }

  /** A reference is done with: it loads nothing, its file is visited, or it waits in the queue behind this chain. */
  ghost predicate Handled(s: Source, chains: seq<Chain>, queue: seq<Item>, ref: Ref, chain: seq<Node>) {
    Load(s, ref).None? || Visited(chains, Load(s, ref).value) || Item(ref, chain) in queue
  }

  ghost predicate Closed(s: Source, root: Ref, chains: seq<Chain>, queue: seq<Item>) {
    && Handled(s, chains, queue, root, [])
    && forall c, ref :: c in chains && ref in Refs(s, Tip(c)) ==> Handled(s, chains, queue, ref, c)
  }

  /** No chain to the end of a reported chain is shorter. */
  ghost predicate Shortest(s: Source, root: Ref, chain: Chain) {
    forall other: Chain :: ChainTo(s, root, other, Tip(chain)) ==> |chain| <= |other|
  }

  lemma ChainGrows(s: Source, root: Ref, chain: seq<Node>, ref: Ref)
    requires Queued(s, root, Item(ref, chain)) && Load(s, ref).Some?
    ensures IsChain(s, root, chain + [Load(s, ref).value])
  {
    var node := Load(s, ref).value;
    var longer := chain + [node];
    forall i | 0 <= i < |longer| - 1 ensures Edge(s, longer[i], longer[i + 1]) {
      if i == |chain| - 1 {
        assert Edge(s, Tip(chain), node);
      } else {
        assert Edge(s, chain[i], chain[i + 1]);
      }
    }
  }

  lemma Shortened(s: Source, root: Ref, chain: Chain)
    requires IsChain(s, root, chain) && |chain| > 1
    ensures IsChain(s, root, chain[..|chain| - 1])
    ensures Edge(s, chain[|chain| - 2], Tip(chain))
  {
    var shorter := chain[..|chain| - 1];
    forall i | 0 <= i < |shorter| - 1 ensures Edge(s, shorter[i], shorter[i + 1]) {
      assert Edge(s, chain[i], chain[i + 1]);
    }
    assert Edge(s, chain[|chain| - 2], chain[|chain| - 2 + 1]);
  }

  /** A chain into an unvisited file leaves the visited ones at a reference that waits in the queue, behind a
      chain shorter than this one. */
  lemma {:induction false} Waits(s: Source, root: Ref, chains: seq<Chain>, queue: seq<Item>, chain: Chain)
    returns (item: Item)
    requires Closed(s, root, chains, queue)
    requires forall c :: c in chains ==> Shortest(s, root, c)
    requires IsChain(s, root, chain) && !Visited(chains, Tip(chain))
    ensures item in queue && |item.chain| < |chain|
    decreases |chain|
  {
    if |chain| == 1 {
      item := Item(root, []);
    } else {
      var shorter: Chain := chain[..|chain| - 1];
      Shortened(s, root, chain);
      if Visited(chains, Tip(shorter)) {
        var c :| c in chains && Tip(c) == Tip(shorter);
        var ref :| ref in Refs(s, Tip(shorter)) && Load(s, ref) == Some(Tip(chain));
        assert Handled(s, chains, queue, ref, c);
        assert ChainTo(s, root, shorter, Tip(c));
        item := Item(ref, c);
      } else {
        item := Waits(s, root, chains, queue, shorter);
      }
    }
  }

  lemma FirstIsShortest(s: Source, root: Ref, chains: seq<Chain>, queue: seq<Item>)
    requires queue != [] && Level(queue) && Closed(s, root, chains, queue) && Queued(s, root, queue[0])
    requires forall c :: c in chains ==> Shortest(s, root, c)
    requires Load(s, queue[0].ref).Some? && !Visited(chains, Load(s, queue[0].ref).value)
    ensures Shortest(s, root, queue[0].chain + [Load(s, queue[0].ref).value])
  {
    var node := Load(s, queue[0].ref).value;
    forall other: Chain | ChainTo(s, root, other, node) ensures |queue[0].chain| + 1 <= |other| {
      var item := Waits(s, root, chains, queue, other);
      var k :| 0 <= k < |queue| && queue[k] == item;
    }
  }

  /** With an empty queue every reachable file is visited. */
  lemma AllVisited(s: Source, root: Ref, chains: seq<Chain>, node: Node)
    requires Closed(s, root, chains, []) && Reachable(s, root, node)
    requires forall c :: c in chains ==> Shortest(s, root, c)
    ensures Visited(chains, node)
  {
    var chain: Chain :| ChainTo(s, root, chain, node);
    if !Visited(chains, node) {
      var item := Waits(s, root, chains, [], chain);
      assert false;
    }
  }

  // ---- keeping the invariant -------------------------------------------------------------

  /** The items one file adds to the queue. */
  function Items(refs: seq<Ref>, chain: Chain): seq<Item> {
    seq(|refs|, i requires 0 <= i < |refs| => Item(refs[i], chain))
  }

  /** The first item leads nowhere new: dropping it keeps the walk closed. */
  lemma DropClosed(s: Source, root: Ref, chains: seq<Chain>, queue: seq<Item>)
    requires queue != [] && Closed(s, root, chains, queue)
    requires Load(s, queue[0].ref).Some? ==> Visited(chains, Load(s, queue[0].ref).value)
    ensures Closed(s, root, chains, queue[1..])
  {
    assert queue == [queue[0]] + queue[1..];
    forall ref, chain | Handled(s, chains, queue, ref, chain) ensures Handled(s, chains, queue[1..], ref, chain) {
    }
    assert Handled(s, chains, queue, root, []);
    forall c, ref | c in chains && ref in Refs(s, Tip(c)) ensures Handled(s, chains, queue[1..], ref, c) {
      assert Handled(s, chains, queue, ref, c);
    }
  }

  lemma LevelGrows(queue: seq<Item>, added: seq<Item>)
    requires queue != [] && Level(queue)
    requires forall item :: item in added ==> |item.chain| == |queue[0].chain| + 1
    ensures Level(queue[1..] + added)
  {
    var next := queue[1..] + added;
    forall i, j | 0 <= i < j < |next| ensures |next[i].chain| <= |next[j].chain| <= |next[i].chain| + 1 {
      if j >= |queue| - 1 {
        assert next[j] in added;
        if i >= |queue| - 1 {
          assert next[i] in added;
        } else {
          assert |queue[0].chain| <= |queue[i + 1].chain| <= |queue[0].chain| + 1;
        }
      }
    }
  }

  /** The first item leads to a new file: visiting it and queueing its references keeps the walk closed. */
  lemma VisitClosed(s: Source, root: Ref, chains: seq<Chain>, queue: seq<Item>, chain: Chain)
    requires queue != [] && Closed(s, root, chains, queue) && Load(s, queue[0].ref) == Some(Tip(chain))
    ensures Closed(s, root, chains + [chain], queue[1..] + Items(Refs(s, Tip(chain)), chain))
  {
    var more, next := chains + [chain], queue[1..] + Items(Refs(s, Tip(chain)), chain);
    assert queue == [queue[0]] + queue[1..];
    assert chain in more;
    forall ref, c | Handled(s, chains, queue, ref, c) ensures Handled(s, more, next, ref, c) {
      if Load(s, ref).Some? && Visited(chains, Load(s, ref).value) {
        var d :| d in chains && Tip(d) == Load(s, ref).value;
        assert d in more;
      }
    }
    assert Handled(s, chains, queue, root, []);
    forall c, ref | c in more && ref in Refs(s, Tip(c)) ensures Handled(s, more, next, ref, c) {
      if c in chains {
        assert Handled(s, chains, queue, ref, c);
      } else {
        var i :| 0 <= i < |Refs(s, Tip(chain))| && Refs(s, Tip(chain))[i] == ref;
        assert Items(Refs(s, Tip(chain)), chain)[i] == Item(ref, chain);
      }
    }
  }

  lemma QueuedGrows(s: Source, root: Ref, queue: seq<Item>, chain: Chain)
    requires queue != [] && (forall item :: item in queue ==> Queued(s, root, item)) && IsChain(s, root, chain)
    ensures forall item :: item in queue[1..] + Items(Refs(s, Tip(chain)), chain) ==> Queued(s, root, item)
  {
    forall item | item in queue[1..] + Items(Refs(s, Tip(chain)), chain) ensures Queued(s, root, item) {
      if item !in queue[1..] {
        assert item in Items(Refs(s, Tip(chain)), chain);
      }
    }
  }

  /** Everything the walk keeps. */
  ghost predicate Walking(s: Source, root: Ref, chains: seq<Chain>, queue: seq<Item>) {
    && Visits(s, root, chains) && Level(queue) && Closed(s, root, chains, queue)
    && (forall item :: item in queue ==> Queued(s, root, item))
    && (forall c :: c in chains ==> Shortest(s, root, c))
  }

  lemma Drops(s: Source, root: Ref, chains: seq<Chain>, queue: seq<Item>)
    requires Walking(s, root, chains, queue) && queue != []
    requires Load(s, queue[0].ref).Some? ==> Visited(chains, Load(s, queue[0].ref).value)
    ensures Walking(s, root, chains, queue[1..])
  {
    DropClosed(s, root, chains, queue);
    LevelGrows(queue, []);
    assert queue[1..] + [] == queue[1..];
  }

  lemma VisitGrows(s: Source, root: Ref, chains: seq<Chain>, chain: Chain)
    requires Visits(s, root, chains) && IsChain(s, root, chain) && !Visited(chains, Tip(chain))
    ensures Visits(s, root, chains + [chain])
  {
    var more := chains + [chain];
    forall i, j | 0 <= i < j < |more| ensures Tip(more[i]) != Tip(more[j]) {
      if j == |chains| {
        assert chains[i] in chains;
      }
    }
  }

  lemma Walks(s: Source, root: Ref, chains: seq<Chain>, queue: seq<Item>, chain: Chain)
    requires Walking(s, root, chains, queue) && queue != []
    requires Load(s, queue[0].ref).Some? && chain == queue[0].chain + [Load(s, queue[0].ref).value]
    requires !Visited(chains, Tip(chain))
    ensures Walking(s, root, chains + [chain], queue[1..] + Items(Refs(s, Tip(chain)), chain))
  {
    ChainGrows(s, root, queue[0].chain, queue[0].ref);
    FirstIsShortest(s, root, chains, queue);
    VisitGrows(s, root, chains, chain);
    VisitClosed(s, root, chains, queue, chain);
    LevelGrows(queue, Items(Refs(s, Tip(chain)), chain));
    QueuedGrows(s, root, queue, chain);
  }

  /** The outcome of a finished walk: one shortest chain to every reachable file, and nothing else. */
  ghost predicate Complete(s: Source, root: Ref, chains: seq<Chain>) {
    && Visits(s, root, chains)
    && (forall c :: c in chains ==> Shortest(s, root, c))
    && (forall node :: Reachable(s, root, node) <==> Visited(chains, node))
  }

  lemma Completed(s: Source, root: Ref, chains: seq<Chain>)
    requires Walking(s, root, chains, [])
    ensures Complete(s, root, chains)
  {
    forall node ensures Reachable(s, root, node) <==> Visited(chains, node) {
      if Reachable(s, root, node) {
        AllVisited(s, root, chains, node);
      }
      if Visited(chains, node) {
        var c :| c in chains && Tip(c) == node;
        assert ChainTo(s, root, c, node);
      }
    }
  }

  /** The files of these chains. */
  ghost function Tips(chains: seq<Chain>): set<Node> {
    set i | 0 <= i < |chains| :: Tip(chains[i])
  }

  lemma Starts(s: Source, root: Ref)
    ensures Walking(s, root, [], [Item(root, [])])
  {
  }

  lemma TipsGrow(chains: seq<Chain>, chain: Chain)
    ensures Tips(chains + [chain]) == Tips(chains) + {Tip(chain)}
  {
    var more := chains + [chain];
    forall node ensures node in Tips(more) <==> node in Tips(chains) + {Tip(chain)} {
      if i :| 0 <= i < |chains| && Tip(chains[i]) == node {
        assert more[i] == chains[i];
      }
      assert more[|chains|] == chain;
    }
  }

  lemma TipsVisited(chains: seq<Chain>, node: Node)
    ensures node in Tips(chains) <==> Visited(chains, node)
  {
    if c :| c in chains && Tip(c) == node {
      var i :| 0 <= i < |chains| && chains[i] == c;
    }
  }

  method QueuePins(s: Source, pins: seq<Pin>) returns (refs: seq<Ref>)
    ensures refs == PinRefs(s, pins)
  {
    refs := [];
    for i := 0 to |pins|
      invariant refs == PinRefs(s, pins[..i])
    {
      assert pins[..i + 1][..i] == pins[..i];
      if Names(pins[i]) {
        refs := refs + [Ref(Commit(s, pins[i]), pins[i].path)];
      }
    }
    assert pins[..|pins|] == pins;
  }

  method QueueLocals(s: Source, commit: string, locals: seq<Local>) returns (refs: seq<Ref>, absent: seq<Local>)
    ensures refs == LocalRefs(s, commit, locals) && absent == AbsentLocals(s, commit, locals)
  {
    refs, absent := [], [];
    for i := 0 to |locals|
      invariant refs == LocalRefs(s, commit, locals[..i]) && absent == AbsentLocals(s, commit, locals[..i])
    {
      assert locals[..i + 1][..i] == locals[..i];
      var ref := Ref(commit, locals[i].path);
      if Load(s, ref).Some? {
        refs := refs + [ref];
      } else {
        absent := absent + [locals[i]];
      }
    }
    assert locals[..|locals|] == locals;
  }

  /** Reads one file: what to report about it, and what to queue. */
  method Examine(s: Source, file: string, pin: Pin, chain: Chain) returns (findings: seq<Finding>, items: seq<Item>)
    ensures findings == Report(s, file, pin, chain)
    ensures items == Items(Refs(s, Tip(chain)), chain)
  {
    var read := s.texts(Tip(chain));
    if read.Failure? {
      return [Finding(file, pin, Unreadable(read.error), chain)], [];
    }
    var faults := ValidatePins(s, read.value.pins, false);
    var pinned := QueuePins(s, read.value.pins);
    var locals, absent := QueueLocals(s, Tip(chain).commit, read.value.locals);
    items := Items(pinned + locals, chain);
    findings := seq(|faults|, i requires 0 <= i < |faults| => Finding(file, pin, Pinned(faults[i]), chain))
      + seq(|absent|, i requires 0 <= i < |absent| => Finding(file, pin, LocalAbsent(absent[i]), chain));
  }

  /** Walks the source graph from one root pin and reports on every file it reaches. */
  method Inspect(s: Source, file: string, pin: Pin) returns (findings: seq<Finding>, chains: seq<Chain>)
    ensures findings == Reports(s, file, pin, chains)
    ensures Complete(s, Ref(Commit(s, pin), pin.path), chains)
  {
    var root := Ref(Commit(s, pin), pin.path);
    var queue := [Item(root, [])];
    var seen: set<Node> := {};
    findings, chains := [], [];
    Starts(s, root);
    while queue != []
      invariant Walking(s, root, chains, queue)
      invariant seen == Tips(chains) && seen <= Universe(s)
      invariant findings == Reports(s, file, pin, chains)
      decreases |Universe(s) - seen|, |queue|
    {
      var item := queue[0];
      var found := Load(s, item.ref);
      if found.None? || found.value in seen {
        Skips(s, root, chains, queue);
        queue := queue[1..];
      } else {
        var chain: Chain := item.chain + [found.value];
        var more, items := Examine(s, file, pin, chain);
        Continues(s, root, chains, queue, chain);
        ReportsGrow(s, file, pin, chains, chain);
        Loaded(s, item.ref);
        assert Universe(s) - (seen + {found.value}) < Universe(s) - seen;
        seen := seen + {found.value};
        findings := findings + more;
        chains := chains + [chain];
        queue := queue[1..] + items;
      }
    }
    Completed(s, root, chains);
  }

  lemma ReportsGrow(s: Source, file: string, pin: Pin, chains: seq<Chain>, chain: Chain)
    ensures Reports(s, file, pin, chains + [chain]) == Reports(s, file, pin, chains) + Report(s, file, pin, chain)
  {
    assert (chains + [chain])[..|chains|] == chains;
  }

  lemma Skips(s: Source, root: Ref, chains: seq<Chain>, queue: seq<Item>)
    requires Walking(s, root, chains, queue) && queue != []
    requires Load(s, queue[0].ref).Some? ==> Load(s, queue[0].ref).value in Tips(chains)
    ensures Walking(s, root, chains, queue[1..])
  {
    if Load(s, queue[0].ref).Some? {
      TipsVisited(chains, Load(s, queue[0].ref).value);
    }
    Drops(s, root, chains, queue);
  }

  lemma Continues(s: Source, root: Ref, chains: seq<Chain>, queue: seq<Item>, chain: Chain)
    requires Walking(s, root, chains, queue) && queue != []
    requires Load(s, queue[0].ref).Some? && chain == queue[0].chain + [Load(s, queue[0].ref).value]
    requires Tip(chain) !in Tips(chains)
    ensures Walking(s, root, chains + [chain], queue[1..] + Items(Refs(s, Tip(chain)), chain))
    ensures Tips(chains + [chain]) == Tips(chains) + {Tip(chain)}
  {
    TipsVisited(chains, Tip(chain));
    Walks(s, root, chains, queue, chain);
    TipsGrow(chains, chain);
  }

  // ---- all roots -------------------------------------------------------------------------

  /** A caller's file and its pins. */
  datatype Caller = Caller(file: string, pins: seq<Pin>)

  /** Every file that some path from this pin leads to is in order. */
  ghost predicate AllSound(s: Source, pin: Pin) {
    forall chain: Chain :: Path(s, pin, chain) ==> Sound(s, Tip(chain))
  }

  /** A finding is real: a shortest path from the pin to a file with that fault. */
  ghost predicate Real(s: Source, f: Finding) {
    && Path(s, f.root, f.chain) && FaultOf(s, Tip(f.chain), f.fault)
    && forall other: Chain :: PathTo(s, f.root, other, Tip(f.chain)) ==> |f.chain| <= |other|
  }

  /** A finding is about a pin of one of these callers. */
  ghost predicate From(callers: seq<Caller>, f: Finding) {
    exists c :: c in callers && c.file == f.file && f.root in c.pins
  }

  /** A fault of a reachable file is reported. */
  ghost predicate Reported(s: Source, findings: seq<Finding>, file: string, pin: Pin, node: Node, fault: Fault) {
    exists f :: f in findings && f.file == file && f.root == pin && Tip(f.chain) == node && f.fault == fault
  }

  lemma {:induction false} ReportsExact(s: Source, file: string, pin: Pin, chains: seq<Chain>, f: Finding)
    ensures f in Reports(s, file, pin, chains) <==>
            f.file == file && f.root == pin && f.chain in chains && f.fault in FaultsAt(s, Tip(f.chain))
  {
    if chains != [] {
      var rest, last := chains[..|chains| - 1], chains[|chains| - 1];
      ReportsExact(s, file, pin, rest, f);
      assert chains == rest + [last];
      ReportExact(s, file, pin, last, f);
    }
  }

  lemma ReportExact(s: Source, file: string, pin: Pin, chain: Chain, f: Finding)
    ensures f in Report(s, file, pin, chain) <==>
            f.file == file && f.root == pin && f.chain == chain && f.fault in FaultsAt(s, Tip(chain))
  {
    var faults, report := FaultsAt(s, Tip(chain)), Report(s, file, pin, chain);
    if f.fault in faults && f.file == file && f.root == pin && f.chain == chain {
      var i :| 0 <= i < |faults| && faults[i] == f.fault;
      assert report[i] == f;
    }
  }

  lemma ReportsReal(s: Source, file: string, pin: Pin, chains: seq<Chain>, f: Finding)
    requires Complete(s, Root(s, pin), chains) && Names(pin) && f in Reports(s, file, pin, chains)
    ensures f.file == file && f.root == pin && Real(s, f)
  {
    ReportsExact(s, file, pin, chains, f);
    PathMeans(s, pin, f.chain);
    FaultsMean(s, Tip(f.chain), f.fault);
    forall other: Chain | PathTo(s, pin, other, Tip(f.chain)) ensures |f.chain| <= |other| {
      PathMeans(s, pin, other);
      assert ChainTo(s, Root(s, pin), other, Tip(f.chain));
    }
  }

  lemma ReportsAll(s: Source, file: string, pin: Pin, chains: seq<Chain>, chain: Chain, fault: Fault)
    requires Complete(s, Root(s, pin), chains) && Path(s, pin, chain) && FaultOf(s, Tip(chain), fault)
    ensures Reported(s, Reports(s, file, pin, chains), file, pin, Tip(chain), fault)
  {
    var node := Tip(chain);
    PathMeans(s, pin, chain);
    FaultsMean(s, node, fault);
    assert ChainTo(s, Root(s, pin), chain, node);
    assert Reachable(s, Root(s, pin), node);
    assert Visited(chains, node);
    var c :| c in chains && Tip(c) == node;
    ReportsExact(s, file, pin, chains, Finding(file, pin, fault, c));
    assert Finding(file, pin, fault, c) in Reports(s, file, pin, chains);
  }

  /** Nothing is missed of this pin. */
  ghost predicate FullyReported(s: Source, findings: seq<Finding>, file: string, pin: Pin) {
    forall chain: Chain, fault :: Path(s, pin, chain) && FaultOf(s, Tip(chain), fault) ==>
      Reported(s, findings, file, pin, Tip(chain), fault)
  }

  lemma ReportedGrows(s: Source, before: seq<Finding>, more: seq<Finding>, after: seq<Finding>, file: string, pin: Pin)
    requires FullyReported(s, more, file, pin)
    ensures FullyReported(s, before + more + after, file, pin)
  {
    forall chain: Chain, fault | Path(s, pin, chain) && FaultOf(s, Tip(chain), fault)
      ensures Reported(s, before + more + after, file, pin, Tip(chain), fault)
    {
      assert Reported(s, more, file, pin, Tip(chain), fault);
      var f :| f in more && f.file == file && f.root == pin && Tip(f.chain) == Tip(chain) && f.fault == fault;
      assert f in before + more + after;
    }
  }

  /** The findings of one root pin; none when it names no commit. */
  method InspectPin(s: Source, file: string, pin: Pin) returns (findings: seq<Finding>)
    ensures forall f :: f in findings ==> f.file == file && f.root == pin && Real(s, f)
    ensures FullyReported(s, findings, file, pin)
  {
    if !Names(pin) {
      NoPath(s, pin);
      return [];
    }
    var chains;
    findings, chains := Inspect(s, file, pin);
    forall f | f in findings ensures f.file == file && f.root == pin && Real(s, f) {
      ReportsReal(s, file, pin, chains, f);
    }
    forall chain: Chain, fault | Path(s, pin, chain) && FaultOf(s, Tip(chain), fault)
      ensures Reported(s, findings, file, pin, Tip(chain), fault)
    {
      ReportsAll(s, file, pin, chains, chain, fault);
    }
  }

  lemma NoPath(s: Source, pin: Pin)
    requires !Names(pin)
    ensures forall chain: Chain :: !Path(s, pin, chain)
  {
    forall chain: Chain ensures !Path(s, pin, chain) {
      PathMeans(s, pin, chain);
    }
  }

  method InspectCaller(s: Source, caller: Caller) returns (findings: seq<Finding>)
    ensures forall f :: f in findings ==> Real(s, f) && f.file == caller.file && f.root in caller.pins
    ensures forall pin :: pin in caller.pins ==> FullyReported(s, findings, caller.file, pin)
  {
    findings := [];
    for i := 0 to |caller.pins|
      invariant forall f :: f in findings ==> Real(s, f) && f.file == caller.file && f.root in caller.pins
      invariant forall pin :: pin in caller.pins[..i] ==> FullyReported(s, findings, caller.file, pin)
    {
      var more := InspectPin(s, caller.file, caller.pins[i]);
      forall pin | pin in caller.pins[..i] ensures FullyReported(s, findings + more, caller.file, pin) {
        ReportedGrows(s, [], findings, more, caller.file, pin);
        assert [] + findings + more == findings + more;
      }
      ReportedGrows(s, findings, more, [], caller.file, caller.pins[i]);
      assert findings + more + [] == findings + more;
      assert caller.pins[..i + 1] == caller.pins[..i] + [caller.pins[i]];
      findings := findings + more;
    }
    assert caller.pins[..|caller.pins|] == caller.pins;
  }

  /** Nothing is missed of any pin of this caller. */
  ghost predicate CallerReported(s: Source, findings: seq<Finding>, caller: Caller) {
    forall pin :: pin in caller.pins ==> FullyReported(s, findings, caller.file, pin)
  }

  lemma CallerGrows(s: Source, before: seq<Finding>, more: seq<Finding>, after: seq<Finding>, caller: Caller)
    requires CallerReported(s, more, caller)
    ensures CallerReported(s, before + more + after, caller)
  {
    forall pin | pin in caller.pins ensures FullyReported(s, before + more + after, caller.file, pin) {
      ReportedGrows(s, before, more, after, caller.file, pin);
    }
  }

  /** Reports real findings only, misses none, and reports nothing exactly when every file reachable from every
      pin that names a commit is readable, has valid nested pins only, and has all its local targets. */
  method DependencyErrors(s: Source, callers: seq<Caller>) returns (findings: seq<Finding>)
    ensures forall f :: f in findings ==> Real(s, f) && From(callers, f)
    ensures forall c :: c in callers ==> CallerReported(s, findings, c)
    ensures findings == [] <==> forall c, pin :: c in callers && pin in c.pins ==> AllSound(s, pin)
  {
    findings := [];
    for i := 0 to |callers|
      invariant forall f :: f in findings ==> Real(s, f) && From(callers, f)
      invariant forall c :: c in callers[..i] ==> CallerReported(s, findings, c)
    {
      var more := InspectCaller(s, callers[i]);
      assert callers[i] in callers;
      forall c | c in callers[..i] ensures CallerReported(s, findings + more, c) {
        CallerGrows(s, [], findings, more, c);
        assert [] + findings + more == findings + more;
      }
      CallerGrows(s, findings, more, [], callers[i]);
      assert findings + more + [] == findings + more;
      assert callers[..i + 1] == callers[..i] + [callers[i]];
      findings := findings + more;
    }
    assert callers[..|callers|] == callers;
    forall c, pin | c in callers && pin in c.pins && !AllSound(s, pin) ensures findings != [] {
      NothingMissed(s, findings, c, pin);
    }
    if findings != [] {
      NothingInvented(s, callers, findings[0]);
    }
  }

  lemma NothingMissed(s: Source, findings: seq<Finding>, c: Caller, pin: Pin)
    requires CallerReported(s, findings, c) && pin in c.pins && !AllSound(s, pin)
    ensures findings != []
  {
    var chain: Chain :| Path(s, pin, chain) && !Sound(s, Tip(chain));
    SoundExact(s, Tip(chain));
    var fault := FaultsAt(s, Tip(chain))[0];
    FaultsMean(s, Tip(chain), fault);
    assert FullyReported(s, findings, c.file, pin);
    assert Reported(s, findings, c.file, pin, Tip(chain), fault);
  }

  lemma NothingInvented(s: Source, callers: seq<Caller>, f: Finding)
    requires Real(s, f) && From(callers, f)
    ensures exists c, pin :: c in callers && pin in c.pins && !AllSound(s, pin)
  {
    FaultsMean(s, Tip(f.chain), f.fault);
    SoundExact(s, Tip(f.chain));
    assert !AllSound(s, f.root);
  }
}
