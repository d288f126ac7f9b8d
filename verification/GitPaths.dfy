/** Restoration in terms of paths: what the list of omissions removes, and what a restored origin proves. */
module GitPaths {
  import opened Wrappers
  import opened GitTree
  import opened GitRestore
  import opened GitProof

  /** What stands at a path. */
  function At(n: Node, path: Path): Option<Node>
    decreases |path|
  {
    if path == [] then Some(n)
    else if n.Dir? && path[0] in n.entries then At(n.entries[path[0]], path[1..])
    else None
  }

  /** The file, link or submodule at a path. */
  function LeafAt(n: Node, path: Path): Option<Node> {
    match At(n, path)
    case Some(found) => if found.Leaf? then Some(found) else None
    case None => None
  }

  /** The object id reinserted at exactly this path. */
  function GraftAt(a: Addition, path: Path): Option<Oid>
    decreases |path|
  {
    if path == [] then (if a.Graft? then Some(a.oid) else None)
    else if a.Nest? && path[0] in a.children then GraftAt(a.children[path[0]], path[1..])
    else None
  }

  // ---- the overlay holds exactly the omissions -------------------------------------------

  predicate Overlap(p: Path, q: Path) {
    p <= q || q <= p
  }

  /** No omission lies in, or at, another one; none is the whole tree; names are Git's. */
  ghost predicate Separate(omissions: seq<Omission>) {
    && (forall i :: 0 <= i < |omissions| ==> omissions[i].path != [] && GoodPath(omissions[i].path))
    && (forall i, j :: 0 <= i < j < |omissions| ==> !Overlap(omissions[i].path, omissions[j].path))
  }

  ghost predicate GoodPath(path: Path) {
    forall i :: 0 <= i < |path| ==> GoodName(path[i])
  }

  /** Nothing is reinserted at, above or below this path yet. */
  ghost predicate Free(a: Addition, path: Path) {
    forall q: Path :: GraftAt(a, q).Some? ==> !Overlap(path, q)
  }

  lemma FreeBelow(a: Addition, path: Path)
    requires Free(a, path) && path != []
    ensures Free(Child(a, path[0]), path[1..])
  {
    var child := Child(a, path[0]);
    forall q: Path | GraftAt(child, q).Some? ensures !Overlap(path[1..], q) {
      if a.Nest? && path[0] in a.children {
        assert ([path[0]] + q)[1..] == q;
        assert GraftAt(a, [path[0]] + q).Some?;
        assert path == [path[0]] + path[1..];
      }
    }
  }

  lemma {:induction false} InsertExact(a: Addition, path: Path, oid: Oid, q: Path)
    requires Free(a, path)
    ensures GraftAt(Insert(a, path, oid), q) == if q == path then Some(oid) else GraftAt(a, q)
    decreases |path|
  {
    if path == [] {
      assert Overlap(path, q);
    } else {
      assert GraftAt(a, []).Some? ==> !Overlap(path, []);
      if q != [] && q[0] == path[0] {
        FreeBelow(a, path);
        InsertExact(Child(a, path[0]), path[1..], oid, q[1..]);
        assert q == [path[0]] + q[1..] && path == [path[0]] + path[1..];
        assert q[0] !in ChildrenOf(a) ==> GraftAt(NOTHING, q[1..]) == None;
      }
    }
  }

  /** The overlay reinserts at exactly the omitted paths. */
  lemma {:induction false} OverlayExact(omissions: seq<Omission>, path: Path, oid: Oid)
    requires Separate(omissions)
    ensures GraftAt(Overlay(omissions), path) == Some(oid) <==> Omission(path, oid) in omissions
  {
    if omissions != [] {
      var rest, last := omissions[..|omissions| - 1], omissions[|omissions| - 1];
      assert omissions == rest + [last];
      forall q: Path | GraftAt(Overlay(rest), q).Some? ensures !Overlap(last.path, q) {
        OverlayExact(rest, q, GraftAt(Overlay(rest), q).value);
      }
      InsertExact(Overlay(rest), last.path, last.oid, path);
      OverlayExact(rest, path, oid);
      if Omission(path, oid) in rest {
        var i :| 0 <= i < |rest| && rest[i] == Omission(path, oid);
        assert !Overlap(omissions[i].path, omissions[|omissions| - 1].path);
      }
    } else {
      assert path != [] ==> path[0] !in NOTHING.children;
    }
  }

  /** Every addition leads to something reinserted. */
  ghost predicate Lean(a: Addition) {
    a.Nest? ==> forall name :: name in a.children ==> a.children[name] != NOTHING && Lean(a.children[name])
  }

  lemma {:induction false} InsertLean(a: Addition, path: Path, oid: Oid)
    requires Lean(a) && NamedAddition(a) && GoodPath(path)
    ensures Lean(Insert(a, path, oid)) && NamedAddition(Insert(a, path, oid)) && Insert(a, path, oid) != NOTHING
    decreases |path|
  {
    if path != [] {
      InsertLean(Child(a, path[0]), path[1..], oid);
    }
  }

  lemma {:induction false} OverlayLean(omissions: seq<Omission>)
    requires Separate(omissions)
    ensures Overlay(omissions).Nest? && Lean(Overlay(omissions)) && NamedAddition(Overlay(omissions))
  {
    if omissions != [] {
      OverlayLean(omissions[..|omissions| - 1]);
      var last := omissions[|omissions| - 1];
      InsertLean(Overlay(omissions[..|omissions| - 1]), last.path, last.oid);
    }
  }

  lemma {:induction false} HasGraft(a: Addition) returns (path: Path)
    requires Lean(a) && a != NOTHING
    ensures GraftAt(a, path).Some?
  {
    if a.Graft? {
      path := [];
    } else {
      assert a.children != map[];
      var name :| name in a.children;
      var rest := HasGraft(a.children[name]);
      path := [name] + rest;
      assert path[1..] == rest;
    }
  }

  // ---- matching, path by path ------------------------------------------------------------

  /** A directory with this object id stands at the path. */
  ghost predicate DirectoryAt(n: Node, path: Path, oid: Oid, h: Hash)
    requires Listable(n)
    decreases |path|
  {
    n.Dir? &&
    if path == [] then OidOf(n, h) == oid
    else path[0] in n.entries && DirectoryAt(n.entries[path[0]], path[1..], oid, h)
  }

  lemma {:induction false} MatchesAt(n: Node, a: Addition, path: Path, h: Hash)
    requires Listable(n) && Matches(n, a, h) && GraftAt(a, path).Some?
    ensures DirectoryAt(n, path, GraftAt(a, path).value, h)
    decreases |path|
  {
    if path != [] {
      MatchesAt(n.entries[path[0]], a.children[path[0]], path[1..], h);
    }
  }

  lemma {:induction false} AtMatches(n: Node, a: Addition, h: Hash)
    requires Listable(n) && n.Dir? && Lean(a)
    requires forall path: Path :: GraftAt(a, path).Some? ==> DirectoryAt(n, path, GraftAt(a, path).value, h)
    ensures Matches(n, a, h)
    decreases a
  {
    if a.Graft? {
      assert GraftAt(a, []).Some?;
    } else {
      forall name | name in a.children ensures name in n.entries && Matches(n.entries[name], a.children[name], h) {
        var some := HasGraft(a.children[name]);
        GraftBelow(a, name, some);
        forall path: Path | GraftAt(a.children[name], path).Some?
          ensures name in n.entries && DirectoryAt(n.entries[name], path, GraftAt(a.children[name], path).value, h)
        {
          GraftBelow(a, name, path);
          assert ([name] + path)[1..] == path;
        }
        assert DirectoryAt(n.entries[name], some, GraftAt(a.children[name], some).value, h);
        AtMatches(n.entries[name], a.children[name], h);
      }
    }
  }

  lemma GraftBelow(a: Addition, name: Name, path: Path)
    requires a.Nest? && name in a.children
    ensures GraftAt(a, [name] + path) == GraftAt(a.children[name], path)
  {
    assert ([name] + path)[1..] == path;
  }

  /** The overlay matches the tree exactly when every omission names a directory with its object id. */
  lemma MatchesExact(n: Node, omissions: seq<Omission>, h: Hash)
    requires Listable(n) && n.Dir? && Separate(omissions)
    ensures Matches(n, Overlay(omissions), h) <==>
            forall o :: o in omissions ==> DirectoryAt(n, o.path, o.oid, h)
  {
    var a := Overlay(omissions);
    OverlayLean(omissions);
    if Matches(n, a, h) {
      forall o | o in omissions ensures DirectoryAt(n, o.path, o.oid, h) {
        OverlayExact(omissions, o.path, o.oid);
        MatchesAt(n, a, o.path, h);
      }
    }
    if forall o :: o in omissions ==> DirectoryAt(n, o.path, o.oid, h) {
      forall path: Path | GraftAt(a, path).Some? ensures DirectoryAt(n, path, GraftAt(a, path).value, h) {
        OverlayExact(omissions, path, GraftAt(a, path).value);
        assert Omission(path, GraftAt(a, path).value) in omissions;
      }
      AtMatches(n, a, h);
    }
  }

  // ---- what omitting leaves, path by path ------------------------------------------------

  /** An omitted path leads to this one. */
  predicate Covered(omissions: seq<Omission>, path: Path) {
    exists o :: o in omissions && o.path <= path
  }

  predicate Covers(a: Addition, path: Path)
    decreases |path|
  {
    a.Graft? || (path != [] && path[0] in a.children && Covers(a.children[path[0]], path[1..]))
  }

  /** Something is reinserted at this path, or above it. */
  ghost predicate GraftAbove(a: Addition, path: Path) {
    exists k: nat :: k <= |path| && GraftAt(a, path[..k]).Some?
  }

  lemma {:induction false} CoversExact(a: Addition, path: Path)
    ensures Covers(a, path) <==> GraftAbove(a, path)
    decreases |path|
  {
    if a.Graft? {
      assert GraftAt(a, path[..0]).Some?;
    } else if path != [] && path[0] in a.children {
      CoversExact(a.children[path[0]], path[1..]);
      GraftAboveBelow(a, path);
    } else {
      forall k: nat | k <= |path| ensures GraftAt(a, path[..k]).None? {
      }
    }
  }

  lemma GraftAboveBelow(a: Addition, path: Path)
    requires a.Nest? && path != [] && path[0] in a.children
    ensures GraftAbove(a, path) <==> GraftAbove(a.children[path[0]], path[1..])
  {
    forall k: nat | k < |path| ensures GraftAt(a, path[..k + 1]) == GraftAt(a.children[path[0]], path[1..][..k]) {
      assert path[..k + 1][1..] == path[1..][..k];
    }
    if k: nat :| k < |path| && GraftAt(a.children[path[0]], path[1..][..k]).Some? {
      assert GraftAt(a, path[..k + 1]).Some?;
    }
    if k: nat :| k <= |path| && GraftAt(a, path[..k]).Some? {
      assert k > 0 && GraftAt(a.children[path[0]], path[1..][..k - 1]).Some?;
    }
  }

  lemma OverlayCovers(omissions: seq<Omission>, path: Path)
    requires Separate(omissions)
    ensures Covers(Overlay(omissions), path) <==> Covered(omissions, path)
  {
    var a := Overlay(omissions);
    CoversExact(a, path);
    if k: nat :| k <= |path| && GraftAt(a, path[..k]).Some? {
      var o := Omission(path[..k], GraftAt(a, path[..k]).value);
      OverlayExact(omissions, o.path, o.oid);
      assert o in omissions && o.path <= path;
    }
    if o :| o in omissions && o.path <= path {
      OverlayExact(omissions, o.path, o.oid);
      assert path[..|o.path|] == o.path;
    }
  }

  /** Omitting removes the leaves at and below the omitted paths, and no other. */
  lemma {:induction false} OmitExact(n: Node, a: Addition, path: Path)
    requires n.Dir? && a.Nest?
    ensures LeafAt(Omit(n, a), path) == if Covers(a, path) then None else LeafAt(n, path)
    decreases |path|
  {
    if path != [] && path[0] in n.entries {
      var name := path[0];
      if name in a.children && a.children[name].Nest? && n.entries[name].Dir? {
        OmitExact(n.entries[name], a.children[name], path[1..]);
        BelowOmit(n, a, name);
        assert Stays(n, a, name) <==> Omit(n.entries[name], a.children[name]) != EMPTY;
        EmptyHasNoLeaf(path[1..]);
      } else {
        assert Stays(n, a, name) <==> name !in a.children || a.children[name].Nest?;
        assert path[1..] != [] && n.entries[name].Leaf? ==> At(n, path) == None;
      }
    }
  }

  lemma EmptyHasNoLeaf(path: Path)
    ensures LeafAt(EMPTY, path) == None
  {
    assert path != [] ==> path[0] !in EMPTY.entries;
  }

  // ---- a tree is its leaves --------------------------------------------------------------

  lemma {:induction false} HasLeaf(n: Node) returns (path: Path)
    requires Solid(n) && n != EMPTY
    ensures LeafAt(n, path).Some?
  {
    if n.Leaf? {
      path := [];
    } else {
      assert n.entries != map[];
      var name :| name in n.entries;
      var rest := HasLeaf(n.entries[name]);
      path := [name] + rest;
      assert path[1..] == rest;
    }
  }

  lemma LeafBelow(n: Node, name: Name, path: Path)
    requires n.Dir? && name in n.entries
    ensures LeafAt(n, [name] + path) == LeafAt(n.entries[name], path)
  {
    assert ([name] + path)[1..] == path;
  }

  ghost predicate SameLeaves(s: Node, t: Node) {
    forall path: Path :: LeafAt(s, path) == LeafAt(t, path)
  }

  /** Where one tree has an entry, so has the other. */
  lemma EntryShared(s: Node, t: Node, name: Name)
    requires s.Dir? && t.Dir? && Solid(s) && SameLeaves(s, t) && name in s.entries
    ensures name in t.entries
  {
    var path := HasLeaf(s.entries[name]);
    LeafBelow(s, name, path);
    assert LeafAt(t, [name] + path).Some?;
  }

  lemma {:induction false} LeavesExact(s: Node, t: Node)
    requires Solid(s) && Solid(t) && SameLeaves(s, t) && (s.Dir? <==> t.Dir?)
    ensures s == t
  {
    if s.Leaf? {
      assert LeafAt(s, []) == LeafAt(t, []);
    } else {
      forall name ensures name in s.entries <==> name in t.entries {
        if name in s.entries {
          EntryShared(s, t, name);
        }
        if name in t.entries {
          EntryShared(t, s, name);
        }
      }
      forall name | name in s.entries ensures s.entries[name] == t.entries[name] {
        LeavesBelow(s, t, name);
        LeavesExact(s.entries[name], t.entries[name]);
      }
      assert s.entries == t.entries;
    }
  }

  lemma LeavesBelow(s: Node, t: Node, name: Name)
    requires s.Dir? && t.Dir? && SameLeaves(s, t) && name in s.entries && name in t.entries
    ensures SameLeaves(s.entries[name], t.entries[name])
    ensures s.entries[name].Dir? <==> t.entries[name].Dir?
  {
    forall path: Path ensures LeafAt(s.entries[name], path) == LeafAt(t.entries[name], path) {
      LeafBelow(s, name, path);
      LeafBelow(t, name, path);
    }
    assert LeafAt(s.entries[name], []) == LeafAt(t.entries[name], []);
  }

  lemma {:induction false} OmitSolid(n: Node, a: Addition)
    requires n.Dir? && a.Nest? && Solid(n)
    ensures Solid(Omit(n, a))
    decreases a
  {
    var o := Omit(n, a);
    forall name | name in o.entries ensures o.entries[name] != EMPTY && Solid(o.entries[name]) {
      assert Stays(n, a, name);
      if name in a.children && n.entries[name].Dir? {
        OmitSolid(n.entries[name], a.children[name]);
      }
    }
  }

  // ---- the main statements ---------------------------------------------------------------

  /** The maintained tree holds the origin's leaves outside the omissions, and no others. */
  ghost predicate LeavesOutside(m: Node, t: Node, omissions: seq<Omission>) {
    forall path: Path :: LeafAt(m, path) == if Covered(omissions, path) then None else LeafAt(t, path)
  }

  lemma OmitIsOutside(m: Node, t: Node, omissions: seq<Omission>)
    requires m.Dir? && t.Dir? && Solid(m) && Solid(t) && Separate(omissions) && Overlay(omissions).Nest?
    ensures m == Omit(t, Overlay(omissions)) <==> LeavesOutside(m, t, omissions)
  {
    var o := Omit(t, Overlay(omissions));
    forall path: Path ensures LeafAt(o, path) == if Covered(omissions, path) then None else LeafAt(t, path) {
      OmitExact(t, Overlay(omissions), path);
      OverlayCovers(omissions, path);
    }
    if LeavesOutside(m, t, omissions) {
      OmitSolid(t, Overlay(omissions));
      LeavesExact(m, o);
    }
  }

  /** Without a collision between the restored tree and the origin, the maintained tree restores to the
      origin's object id if and only if every omission is a directory of the origin with the recorded
      object id, and every other path agrees on mode and object. */
  lemma OriginExact(m: Node, t: Node, omissions: seq<Omission>, h: Hash)
    requires m.Dir? && t.Dir? && Listable(m) && Listable(t) && Full(m) && Full(t) && Solid(m) && Solid(t)
    requires Separate(omissions)
    requires Overlay(omissions).Nest? && NamedAddition(Overlay(omissions)) ==> Apart(m, Overlay(omissions), t, h)
    ensures Overlay(omissions).Nest? && NamedAddition(Overlay(omissions))
    ensures RestoresTo(m, Overlay(omissions), t, h) <==>
            (forall o :: o in omissions ==> DirectoryAt(t, o.path, o.oid, h)) && LeavesOutside(m, t, omissions)
  {
    OverlayLean(omissions);
    RestorationExact(m, Overlay(omissions), t, h);
    MatchesExact(t, omissions, h);
    OmitIsOutside(m, t, omissions);
  }

  /** The tree `m` is what omitting these directories leaves of `t`. */
  ghost predicate LeftFrom(m: Node, t: Node, omissions: seq<Omission>, h: Hash) {
    && t.Dir? && Listable(t) && Overlay(omissions).Nest? && m == Omit(t, Overlay(omissions))
    && forall o :: o in omissions ==> DirectoryAt(t, o.path, o.oid, h)
  }

  method BuildOverlay(omissions: seq<Omission>) returns (overlay: Addition)
    ensures overlay == Overlay(omissions)
  {
    overlay := NOTHING;
    for i := 0 to |omissions|
      invariant overlay == Overlay(omissions[..i])
    {
      overlay := Insert(overlay, omissions[i].path, omissions[i].oid);
      assert omissions[..i + 1][..i] == omissions[..i];
    }
    assert omissions[..|omissions|] == omissions;
  }

  /** The restored object id of a maintained tree. For any origin that has the omitted directories, the
      maintained tree left after omitting them is never refused and restores to the origin's object id,
      whatever the hash function. */
  method RestoredOriginTree(m: Node, omissions: seq<Omission>, h: Hash) returns (r: Result<Oid, string>)
    requires m.Dir? && Listable(m) && Full(m) && Separate(omissions)
    ensures Overlay(omissions).Nest? && NamedAddition(Overlay(omissions))
    ensures r.Success? <==> Fits(m, Overlay(omissions))
    ensures r.Success? ==> r.value == h(TreeObject(Target(m, Overlay(omissions), h)))
    ensures forall t: Node :: LeftFrom(m, t, omissions, h) ==> r == Success(OidOf(t, h))
  {
    OverlayLean(omissions);
    var overlay := BuildOverlay(omissions);
    r := Restore(m, overlay, h);
    forall t: Node | LeftFrom(m, t, omissions, h)
      ensures r == Success(OidOf(t, h))
    {
      MatchesExact(t, omissions, h);
      OmitFits(t, overlay, h);
      RestoreUndoesOmit(t, overlay, h);
    }
  }
}
