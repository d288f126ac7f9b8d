/** The memoised walk itself, and what its findings say about call paths. */
module PermissionWalk {
  import opened Wrappers
  import opened Pins
  import opened Permissions

  // ---- finitely many visits --------------------------------------------------------------

  ghost function Places(w: World): set<Place> {
    (set file | file in w.files :: Place(None, file))
    + (set commit, file | commit in w.source.proofs && w.source.proofs[commit].Merged?
        && file in w.source.proofs[commit].files
         :: Place(Some(commit), file))
  }

  ghost function Locations(w: World): set<Option<Location>> {
    (set place, k | place in Places(w)
        && 0 <= k < |Parts(w, place)| :: Some(Location(place.file, Parts(w, place)[k].line)))
    + {None}
  }

  const CEILINGS: set<Option<Grant>> := {None, Some(0), Some(1), Some(2)}

  ghost function Visits(w: World): set<Visit> {
    set place, ceiling, location | place in Places(w) && ceiling in CEILINGS && location in Locations(w)
      :: Visit(place, ceiling, location)
  }

  lemma CeilingKnown(c: Option<Grant>)
    ensures c in CEILINGS
  {
    if c.Some? {
      assert c.value == 0 || c.value == 1 || c.value == 2;
    }
  }

  lemma OnwardKnown(w: World, u: Visit, k: nat, place: Place)
    requires u in Visits(w) && RefersByPart(w, Hop(u.place, k), place)
    ensures Onward(u, Parts(w, u.place)[k], place) in Visits(w)
  {
    var use :| use in Parts(w, u.place)[k].uses && Resolve(w, use, u.place.origin) == Some(place);
    CeilingKnown(Some(Lower(u.ceiling, Parts(w, u.place)[k].grant)));
    assert place in Places(w);
    assert Some(CallerOf(u, Parts(w, u.place)[k])) in Locations(w);
  }

  lemma RootKnown(w: World, name: string)
    requires ValidWorld(w) && name in w.roots
    ensures Visit(Place(None, name), None, None) in Visits(w)
  {
    CeilingKnown(None);
  }

  // ---- what the walk keeps ---------------------------------------------------------------

  /** An action that runs the contribution check, for a caller job, on a path that grants it nothing. */
  datatype Finding = Finding(location: Location, place: Place, chain: seq<Hop>)

  function VisitOf(f: Finding): Visit {
    Visit(f.place, Some(0), Some(f.location))
  }

  /** An action that runs the contribution check. */
  predicate Checks(w: World, place: Place) {
    !Workflow(place) && Read(w, place).checks
  }

  predicate Flagged(w: World, v: Visit) {
    Checks(w, v.place) && v.ceiling == Some(0)
  }

  ghost predicate Justified(w: World, f: Finding) {
    Leads(w, f.chain, VisitOf(f)) && Checks(w, f.place)
  }

  ghost predicate Noted(findings: seq<Finding>, v: Visit) {
    exists f :: f in findings && VisitOf(f) == v
  }

  /** Every next visit of the new visits was made. */
  ghost predicate Closed(w: World, before: set<Visit>, after: set<Visit>) {
    forall x, y :: x in after && x !in before && Next(w, x, y) ==> y in after
  }

  lemma ClosedJoins(w: World, a: set<Visit>, b: set<Visit>, c: set<Visit>)
    requires a <= b <= c && Closed(w, a, b) && Closed(w, b, c)
    ensures Closed(w, a, c)
  {
  }

  /** One visit, made before its next ones. */
  lemma ClosedAround(w: World, a: set<Visit>, v: Visit, c: set<Visit>)
    requires Closed(w, a + {v}, c) && forall y :: Next(w, v, y) ==> y in c
    ensures Closed(w, a, c)
  {
  }

  /** The visits that the first `n` references of a part lead to. */
  ghost function Targets(w: World, v: Visit, part: Part, n: nat): set<Visit>
    requires n <= |part.uses|
  {
    if n == 0 then {}
    else
      var found := Resolve(w, part.uses[n - 1], v.place.origin);
      Targets(w, v, part, n - 1) + (if found.Some? then {Onward(v, part, found.value)} else {})
  }

  /** The visits that the first `n` parts lead to. */
  ghost function PartTargets(w: World, v: Visit, n: nat): set<Visit>
    requires n <= |Parts(w, v.place)|
  {
    if n == 0 then {}
    else
      var part := Parts(w, v.place)[n - 1];
      PartTargets(w, v, n - 1) + Targets(w, v, part, |part.uses|)
  }

  lemma {:induction false} TargetsHold(w: World, v: Visit, part: Part, n: nat, i: nat)
    requires i < n <= |part.uses|
    ensures var found := Resolve(w, part.uses[i], v.place.origin);
      found.Some? ==> Onward(v, part, found.value) in Targets(w, v, part, n)
  {
    if i < n - 1 {
      TargetsHold(w, v, part, n - 1, i);
    }
  }

  lemma {:induction false} PartTargetsHold(w: World, v: Visit, n: nat, k: nat)
    requires k < n <= |Parts(w, v.place)|
    ensures var part := Parts(w, v.place)[k]; Targets(w, v, part, |part.uses|) <= PartTargets(w, v, n)
  {
    if k < n - 1 {
      PartTargetsHold(w, v, n - 1, k);
    }
  }

  lemma NextIsTarget(w: World, v: Visit, y: Visit)
    requires Next(w, v, y)
    ensures y in PartTargets(w, v, |Parts(w, v.place)|)
  {
    var k: nat :| NextBy(w, v, k, y);
    assert IsHop(w, Hop(v.place, k));
    var part := Parts(w, v.place)[k];
    var use :| use in part.uses && Resolve(w, use, v.place.origin) == Some(y.place);
    var i :| 0 <= i < |part.uses| && part.uses[i] == use;
    TargetsHold(w, v, part, |part.uses|, i);
    PartTargetsHold(w, v, |Parts(w, v.place)|, k);
  }

  /** Findings are real, name different visits that were made, and miss no visit. */
  ghost predicate Keeps(w: World, seen: set<Visit>, findings: seq<Finding>) {
    && (forall f :: f in findings ==> Justified(w, f) && VisitOf(f) in seen)
    && (forall i, j :: 0 <= i < j < |findings| ==> VisitOf(findings[i]) != VisitOf(findings[j]))
    && (forall v :: v in seen && Flagged(w, v) ==> Noted(findings, v))
  }

  lemma KeepsPlain(w: World, seen: set<Visit>, findings: seq<Finding>, v: Visit)
    requires Keeps(w, seen, findings) && !Flagged(w, v)
    ensures Keeps(w, seen + {v}, findings)
  {
  }

  lemma KeepsFlagged(w: World, seen: set<Visit>, findings: seq<Finding>, f: Finding)
    requires Keeps(w, seen, findings) && Justified(w, f) && VisitOf(f) !in seen
    ensures Keeps(w, seen + {VisitOf(f)}, findings + [f])
  {
    var more := findings + [f];
    forall i, j | 0 <= i < j < |more| ensures VisitOf(more[i]) != VisitOf(more[j]) {
      assert more[i] in findings;
    }
    forall v | v in seen + {VisitOf(f)} && Flagged(w, v) ensures Noted(more, v) {
      if v in seen {
        var g :| g in findings && VisitOf(g) == v;
        assert g in more;
      } else {
        assert more[|findings|] == f;
      }
    }
  }

  class Walker {
    const w: World
    var seen: set<Visit>
    var findings: seq<Finding>

    ghost predicate Valid()
      reads this
    {
      ValidWorld(w) && seen <= Visits(w) && Keeps(w, seen, findings)
    }

    constructor (w: World)
      requires ValidWorld(w)
      ensures Valid() && this.w == w && seen == {} && findings == []
    {
      this.w := w;
      seen, findings := {}, [];
    }

    /** Makes this visit and all that follow from it, unless it was made before. */
    method Walk(v: Visit, chain: seq<Hop>)
      requires Valid() && v in Visits(w) && Leads(w, chain, v)
      modifies this
      ensures Valid() && old(seen) + {v} <= seen && Closed(w, old(seen), seen)
      decreases |Visits(w) - seen|, 0
    {
      if v in seen {
        return;
      }
      Fewer(Visits(w), seen, v);
      Note(v, chain);
      WalkParts(v, chain);
      forall y | Next(w, v, y) ensures y in seen {
        NextIsTarget(w, v, y);
      }
      ClosedAround(w, old(seen), v, seen);
    }

    method WalkParts(v: Visit, chain: seq<Hop>)
      requires Valid() && v in Visits(w) && Leads(w, chain, v)
      modifies this
      ensures Valid() && old(seen) <= seen && Closed(w, old(seen), seen)
        && PartTargets(w, v, |Parts(w, v.place)|) <= seen
      decreases |Visits(w) - seen|, 2
    {
      for k := 0 to |Parts(w, v.place)|
        invariant Valid() && old(seen) <= seen && Closed(w, old(seen), seen)
        invariant PartTargets(w, v, k) <= seen
      {
        ghost var before := seen;
        NoMore(Visits(w), old(seen), seen);
        Follow(v, k, chain);
        ClosedJoins(w, old(seen), before, seen);
      }
    }

    /** Marks the visit, and reports it where it is flagged. */
    method Note(v: Visit, chain: seq<Hop>)
      requires Valid() && v in Visits(w) && v !in seen && Leads(w, chain, v)
      modifies this
      ensures Valid() && seen == old(seen) + {v}
    {
      if !Workflow(v.place) {
        LeadsCarries(w, chain, v);
        if Read(w, v.place).checks && v.ceiling.value < READ {
          var finding := Finding(v.location.value, v.place, chain);
          KeepsFlagged(w, seen, findings, finding);
          seen, findings := seen + {v}, findings + [finding];
          return;
        }
      }
      KeepsPlain(w, seen, findings, v);
      seen := seen + {v};
    }

    /** Follows every reference of one part. */
    method Follow(v: Visit, k: nat, chain: seq<Hop>)
      requires Valid() && v in Visits(w) && Leads(w, chain, v) && k < |Parts(w, v.place)|
      modifies this
      ensures Valid() && old(seen) <= seen && Closed(w, old(seen), seen)
      ensures var part := Parts(w, v.place)[k]; Targets(w, v, part, |part.uses|) <= seen
      decreases |Visits(w) - seen|, 1
    {
      var part := Parts(w, v.place)[k];
      for i := 0 to |part.uses|
        invariant Valid() && old(seen) <= seen && Closed(w, old(seen), seen)
        invariant Targets(w, v, part, i) <= seen
      {
        var found := Resolve(w, part.uses[i], v.place.origin);
        if found.Some? {
          ghost var before := seen;
          Steps(w, v, k, part.uses[i], found.value, chain);
          NoMore(Visits(w), old(seen), seen);
          Walk(Onward(v, part, found.value), chain + [Hop(v.place, k)]);
          ClosedJoins(w, old(seen), before, seen);
        }
      }
    }
  }

  lemma Fewer<T>(all: set<T>, seen: set<T>, v: T)
    requires v in all && v !in seen
    ensures |all - (seen + {v})| < |all - seen|
  {
    assert all - seen == (all - (seen + {v})) + {v};
  }

  lemma NoMore<T>(all: set<T>, a: set<T>, b: set<T>)
    requires a <= b
    ensures |all - b| <= |all - a|
  {
    SubsetSize(all - b, all - a);
  }

  lemma SubsetSize<T>(a: set<T>, b: set<T>)
    requires a <= b
    ensures |a| <= |b|
  {
    assert b == a + (b - a);
  }

  /** An action is only reached with a ceiling and a location. */
  lemma LeadsCarries(w: World, hops: seq<Hop>, v: Visit)
    requires ValidWorld(w) && Leads(w, hops, v) && !Workflow(v.place)
    ensures v.ceiling.Some? && v.location.Some?
  {
    if hops == [] {
      RootIsWorkflow(v.place);
    }
  }

  lemma RootIsWorkflow(place: Place)
    requires WORKFLOWS <= place.file
    ensures Workflow(place)
  {
    assert place.file[|".github"|..][..|MARK|] == MARK;
  }

  lemma Steps(w: World, v: Visit, k: nat, use: Use, place: Place, chain: seq<Hop>)
    requires v in Visits(w) && Leads(w, chain, v) && k < |Parts(w, v.place)|
    requires use in Parts(w, v.place)[k].uses && Resolve(w, use, v.place.origin) == Some(place)
    ensures var y := Onward(v, Parts(w, v.place)[k], place);
      y in Visits(w) && Leads(w, chain + [Hop(v.place, k)], y) && NextBy(w, v, k, y)
  {
    var y := Onward(v, Parts(w, v.place)[k], place);
    assert RefersByPart(w, Hop(v.place, k), place);
    OnwardKnown(w, v, k, place);
    assert (chain + [Hop(v.place, k)])[..|chain|] == chain;
    assert NextBy(w, v, k, y);
  }

  // ---- the whole check -------------------------------------------------------------------

  /** A call path, on which some job has no grant, from this caller job to an action that runs the contribution check.
      */
  ghost predicate StarvedPath(w: World, hops: seq<Hop>, location: Location, place: Place) {
    CallPath(w, hops, place) && Starved(w, hops) && StartsAt(w, hops, location) && RunsCheck(w, place)
  }

  ghost predicate RunsCheck(w: World, place: Place) {
    !LiesInWorkflows(place.file) && exists content :: Holds(w, place, content) && content.checks
  }

  /** The finding for this action and this caller job is there. */
  ghost predicate Reported(findings: seq<Finding>, location: Location, place: Place) {
    exists f :: f in findings && f.location == location && f.place == place
  }

  lemma {:induction false} AllWalked(w: World, seen: set<Visit>, hops: seq<Hop>, v: Visit)
    requires Closed(w, {}, seen) && (forall r :: RootVisit(w, r) ==> r in seen)
    requires Leads(w, hops, v)
    ensures v in seen
    decreases |hops|
  {
    if hops != [] {
      var last := hops[|hops| - 1];
      var u :| Leads(w, hops[..|hops| - 1], u) && u.place == last.place && NextBy(w, u, last.part, v);
      AllWalked(w, seen, hops[..|hops| - 1], u);
      assert Next(w, u, v);
    }
  }

  lemma ChecksMeans(w: World, hops: seq<Hop>, place: Place)
    requires CallPath(w, hops, place)
    ensures Checks(w, place) <==> RunsCheck(w, place)
  {
    WorkflowMeans(place);
    PathEnds(w, hops, place);
    ReadMeans(w, place);
    assert Holds(w, place, Read(w, place));
  }

  /** What a call path leads to is there. */
  lemma PathEnds(w: World, hops: seq<Hop>, place: Place)
    requires CallPath(w, hops, place)
    ensures place.origin.None? ==> place.file in w.files
  {
    var hop := hops[|hops| - 1];
    RefersMeans(w, hop, place);
    var use :| use in PartOf(w, hop).uses && Resolve(w, use, hop.place.origin) == Some(place);
    ResolvedThere(w, use, hop.place.origin, place);
  }

  lemma ResolvedThere(w: World, use: Use, origin: Option<string>, place: Place)
    requires Resolve(w, use, origin) == Some(place)
    ensures place.origin.None? ==> place.file in w.files
  {
    ResolveMeans(w, use, origin, place);
  }

  lemma FindingTrue(w: World, f: Finding)
    requires ValidWorld(w) && Justified(w, f)
    ensures StarvedPath(w, f.chain, f.location, f.place)
  {
    LeadsChecked(w, f);
    LeadsExact(w, f.chain, VisitOf(f));
    ChecksMeans(w, f.chain, f.place);
  }

  /** A finding is about an action, so its chain has a hop. */
  lemma LeadsChecked(w: World, f: Finding)
    requires ValidWorld(w) && Justified(w, f)
    ensures f.chain != []
  {
  }

  lemma StarvedFound(w: World, seen: set<Visit>, findings: seq<Finding>, hops: seq<Hop>, location: Location,
                     place: Place)
    requires ValidWorld(w)
    requires Keeps(w, seen, findings) && Closed(w, {}, seen) && (forall r :: RootVisit(w, r) ==> r in seen)
    requires StarvedPath(w, hops, location, place)
    ensures Reported(findings, location, place)
  {
    var v := PathLeads(w, hops, place);
    LeadsExact(w, hops, v);
    ChecksMeans(w, hops, place);
    AllWalked(w, seen, hops, v);
    assert Flagged(w, v);
    assert v.location == Some(location);
    var f :| f in findings && VisitOf(f) == v;
  }

  /** Exact: a caller job has a finding for an action that runs the contribution check if and only if some call
      path from the job to the action has a job without a grant; the finding names such a path, and there is one
      finding for each job and action. */
  method MetadataPermissionErrors(w: World) returns (findings: seq<Finding>)
    requires ValidWorld(w)
    ensures forall f :: f in findings ==> StarvedPath(w, f.chain, f.location, f.place)
    ensures forall hops, location, place :: StarvedPath(w, hops, location, place) ==>
              Reported(findings, location, place)
    ensures forall i, j :: 0 <= i < j < |findings| ==>
              (findings[i].location, findings[i].place) != (findings[j].location, findings[j].place)
  {
    var walker := new Walker(w);
    for i := 0 to |w.roots|
      invariant walker.Valid() && walker.w == w && fresh(walker)
      invariant Closed(w, {}, walker.seen)
      invariant forall j :: 0 <= j < i ==> Visit(Place(None, w.roots[j]), None, None) in walker.seen
    {
      RootKnown(w, w.roots[i]);
      ghost var before := walker.seen;
      walker.Walk(Visit(Place(None, w.roots[i]), None, None), []);
      ClosedJoins(w, {}, before, walker.seen);
    }
    findings := walker.findings;
    forall f | f in findings ensures StarvedPath(w, f.chain, f.location, f.place) {
      FindingTrue(w, f);
    }
    forall hops, location, place | StarvedPath(w, hops, location, place)
      ensures Reported(findings, location, place)
    {
      StarvedFound(w, walker.seen, findings, hops, location, place);
    }
  }
}
