/** Source roots of a repository: overlap of path texts, selection of the roots, and the views they cut out. */
module SourceRoots {
  import opened Wrappers
  import opened GitTree
  import opened GitRestore
  import GitProof
  import GitPaths

  // ---- path texts ------------------------------------------------------------------------

  /** The text of a path: its names with a slash between them. */
  function Join(path: Path): Bytes {
    if path == [] then []
    else if |path| == 1 then path[0]
    else path[0] + [SLASH] + Join(path[1..])
  }

  /** The second text starts with the first and a slash. */
  predicate Under(a: Bytes, b: Bytes) {
    a + [SLASH] <= b
  }

  predicate Meets(a: Bytes, b: Bytes) {
    a == b || Under(a, b) || Under(b, a)
  }

  ghost predicate Names(path: Path) {
    path != [] && GitPaths.GoodPath(path)
  }

  /** A name followed by a slash is found again at the front of a text. */
  lemma FirstName(a: Name, b: Name, s: Bytes, t: Bytes)
    requires SLASH !in a && SLASH !in b && a + [SLASH] + s == b + [SLASH] + t
    ensures a == b && s == t
  {
    CutAt(a, SLASH, s);
    CutAt(b, SLASH, t);
  }

  /** The same for prefixes. */
  lemma FirstPrefix(a: Name, b: Name, s: Bytes, t: Bytes)
    requires SLASH !in a && SLASH !in b
    ensures a + [SLASH] + s <= b + [SLASH] + t <==> a == b && s <= t
  {
    var x, y := a + [SLASH] + s, b + [SLASH] + t;
    if x <= y {
      var rest := y[|x|..];
      Assoc(a + [SLASH], s, rest);
      assert y == x + rest;
      FirstName(a, b, s + rest, t);
    }
    if a == b && s <= t {
      Assoc(a + [SLASH], s, t[|s|..]);
      assert t == s + t[|s|..];
    }
  }

  lemma Assoc(x: Bytes, y: Bytes, z: Bytes)
    ensures x + y + z == x + (y + z)
  {
  }

  lemma JoinFront(path: Path)
    requires Names(path) && |path| > 1
    ensures Join(path) + [SLASH] == path[0] + [SLASH] + (Join(path[1..]) + [SLASH])
  {
    Assoc(path[0] + [SLASH], Join(path[1..]), [SLASH]);
  }

  /** Texts followed by a slash are in prefix relation exactly when the paths are. */
  lemma {:induction false} JoinPrefix(p: Path, q: Path)
    requires Names(p) && Names(q)
    ensures Join(p) + [SLASH] <= Join(q) + [SLASH] <==> p <= q
    decreases |p|
  {
    FirstPrefix(p[0], q[0], SlashRest(p), SlashRest(q));
    TailPrefix(p, q);
    if |p| > 1 && |q| > 1 {
      JoinPrefix(p[1..], q[1..]);
    }
  }

  lemma TailPrefix(p: Path, q: Path)
    requires p != [] && q != []
    ensures p <= q <==> p[0] == q[0] && p[1..] <= q[1..]
  {
    assert p == [p[0]] + p[1..] && q == [q[0]] + q[1..];
  }

  /** What follows the first name and its slash. */
  ghost function SlashRest(path: Path): (rest: Bytes)
    requires Names(path)
    ensures Join(path) + [SLASH] == path[0] + [SLASH] + rest
    ensures |path| == 1 ==> rest == []
    ensures |path| > 1 ==> rest == Join(path[1..]) + [SLASH] && rest != []
  {
    if |path| == 1 then [] else
      JoinFront(path);
      Join(path[1..]) + [SLASH]
  }

  /** Two texts meet exactly when one path lies at or below the other. */
  lemma MeetsExact(p: Path, q: Path)
    requires Names(p) && Names(q)
    ensures Under(Join(p), Join(q)) <==> p < q
    ensures Join(p) == Join(q) <==> p == q
    ensures Meets(Join(p), Join(q)) <==> GitPaths.Overlap(p, q)
  {
    UnderExact(p, q);
    UnderExact(q, p);
  }

  lemma UnderExact(p: Path, q: Path)
    requires Names(p) && Names(q)
    ensures Under(Join(p), Join(q)) <==> p < q
    ensures Join(p) == Join(q) <==> p == q
  {
    JoinPrefix(p, q);
    JoinPrefix(q, p);
    var a, b := Join(p), Join(q);
    if a + [SLASH] <= b {
      assert a + [SLASH] <= b + [SLASH];
    }
    if a + [SLASH] <= b + [SLASH] && |a| < |b| {
      assert (b + [SLASH])[..|a| + 1] == b[..|a| + 1];
    }
    if a + [SLASH] <= b + [SLASH] && b + [SLASH] <= a + [SLASH] {
      assert a == (a + [SLASH])[..|a|] && b == (b + [SLASH])[..|b|];
    }
  }

  // ---- the check for overlapping omissions -----------------------------------------------

  predicate AtMost(a: Bytes, b: Bytes) {
    a == b || Less(a, b)
  }

  function InsertSorted(text: Bytes, texts: seq<Bytes>): seq<Bytes> {
    if texts == [] || AtMost(text, texts[0]) then [text] + texts
    else [texts[0]] + InsertSorted(text, texts[1..])
  }

  function Sorted(texts: seq<Bytes>): seq<Bytes> {
    if texts == [] then [] else InsertSorted(texts[0], Sorted(texts[1..]))
  }

  predicate Ascending(texts: seq<Bytes>) {
    forall i, j :: 0 <= i < j < |texts| ==> AtMost(texts[i], texts[j])
  }

  lemma {:induction false} InsertSortedKeeps(text: Bytes, texts: seq<Bytes>)
    requires Ascending(texts)
    ensures Ascending(InsertSorted(text, texts))
    ensures multiset(InsertSorted(text, texts)) == multiset(texts)[text := multiset(texts)[text] + 1]
  {
    if texts == [] || AtMost(text, texts[0]) {
      forall j | 0 <= j < |texts| ensures AtMost(text, texts[j]) {
        if text != texts[0] && texts[0] != texts[j] {
          LessTransitive(text, texts[0], texts[j]);
        }
      }
    } else {
      InsertSortedKeeps(text, texts[1..]);
      assert texts == [texts[0]] + texts[1..];
      LessTotal(text, texts[0]);
      var rest := InsertSorted(text, texts[1..]);
      forall j | 0 <= j < |rest| ensures AtMost(texts[0], rest[j]) {
        assert rest[j] in multiset(rest);
        assert rest[j] == text || rest[j] in multiset(texts[1..]);
        assert rest[j] == text || rest[j] in texts[1..];
      }
    }
  }

  lemma {:induction false} SortedKeeps(texts: seq<Bytes>)
    ensures Ascending(Sorted(texts)) && multiset(Sorted(texts)) == multiset(texts)
  {
    if texts != [] {
      SortedKeeps(texts[1..]);
      InsertSortedKeeps(texts[0], Sorted(texts[1..]));
      assert texts == [texts[0]] + texts[1..];
    }
  }

  lemma {:induction false} PrefixIsLess(a: Bytes, b: Bytes)
    requires a <= b && a != b
    ensures Less(a, b)
  {
    if a != [] {
      PrefixIsLess(a[1..], b[1..]);
      assert a == [a[0]] + a[1..] && b == [b[0]] + b[1..];
    }
  }

  /** Two different places hold texts that meet. */
  ghost predicate Clash(texts: seq<Bytes>) {
    exists i, j :: 0 <= i < j < |texts| && Meets(texts[i], texts[j])
  }

  /** The same, said without places. */
  ghost predicate ClashIn(texts: multiset<Bytes>) {
    exists a, b :: a in texts && b in texts - multiset{a} && Meets(a, b)
  }

  lemma Without(texts: seq<Bytes>, i: nat)
    requires i < |texts|
    ensures multiset(texts) - multiset{texts[i]} == multiset(texts[..i]) + multiset(texts[i + 1..])
  {
    assert texts == texts[..i] + [texts[i]] + texts[i + 1..];
  }

  lemma ClashHasPair(texts: seq<Bytes>)
    requires Clash(texts)
    ensures ClashIn(multiset(texts))
  {
    var i, j :| 0 <= i < j < |texts| && Meets(texts[i], texts[j]);
    Without(texts, i);
    assert texts[j] == texts[i + 1..][j - i - 1];
    assert texts[j] in multiset(texts[i + 1..]);
  }

  lemma PairHasClash(texts: seq<Bytes>)
    requires ClashIn(multiset(texts))
    ensures Clash(texts)
  {
    var a, b :| a in multiset(texts) && b in multiset(texts) - multiset{a} && Meets(a, b);
    var i :| 0 <= i < |texts| && texts[i] == a;
    Without(texts, i);
    if b in texts[..i] {
      var j :| 0 <= j < i && texts[j] == b;
      assert Meets(texts[j], texts[i]);
    } else {
      assert b in texts[i + 1..];
      var j :| i < j < |texts| && texts[j] == b;
      assert Meets(texts[i], texts[j]);
    }
  }

  lemma ClashUnordered(texts: seq<Bytes>)
    ensures Clash(texts) <==> ClashIn(multiset(texts))
  {
    if Clash(texts) {
      ClashHasPair(texts);
    }
    if ClashIn(multiset(texts)) {
      PairHasClash(texts);
    }
  }

  /** Looking only behind each text of the sorted list finds an overlap exactly when there is one. */
  method OmissionsOverlap(texts: seq<Bytes>) returns (found: bool)
    ensures found <==> Clash(texts)
  {
    var sorted := Sorted(texts);
    SortedKeeps(texts);
    ClashUnordered(texts);
    ClashUnordered(sorted);
    found := exists i :: 0 <= i < |sorted| && MeetsLater(sorted, i);
    if found {
      LaterClash(sorted);
    } else {
      NoLaterClash(sorted);
    }
  }

  /** What the check looks for behind each text. */
  predicate MeetsLater(texts: seq<Bytes>, i: nat)
    requires i < |texts|
  {
    exists j :: i < j < |texts| && (texts[j] == texts[i] || Under(texts[i], texts[j]))
  }

  lemma LaterClash(texts: seq<Bytes>)
    requires exists i :: 0 <= i < |texts| && MeetsLater(texts, i)
    ensures Clash(texts)
  {
    var i :| 0 <= i < |texts| && MeetsLater(texts, i);
    var j :| i < j < |texts| && (texts[j] == texts[i] || Under(texts[i], texts[j]));
    assert Meets(texts[i], texts[j]);
  }

  lemma NoLaterClash(texts: seq<Bytes>)
    requires Ascending(texts) && forall i :: 0 <= i < |texts| ==> !MeetsLater(texts, i)
    ensures !Clash(texts)
  {
    forall i, j | 0 <= i < j < |texts| ensures !Meets(texts[i], texts[j]) {
      assert !MeetsLater(texts, i);
      NotUnderLater(texts[i], texts[j]);
    }
  }

  lemma NotUnderLater(a: Bytes, b: Bytes)
    requires AtMost(a, b)
    ensures !Under(b, a)
  {
    if Under(b, a) {
      assert b <= a && b != a;
      PrefixIsLess(b, a);
      LessTotal(a, b);
    }
  }

  /** So an accepted list of omissions is one the restoration can use. */
  lemma AcceptedSeparate(omissions: seq<Omission>)
    requires forall i :: 0 <= i < |omissions| ==> Names(omissions[i].path)
    ensures GitPaths.Separate(omissions) <==> !Clash(Texts(omissions))
  {
    forall i, j | 0 <= i < j < |omissions|
      ensures Meets(Texts(omissions)[i], Texts(omissions)[j]) <==>
          GitPaths.Overlap(omissions[i].path, omissions[j].path)
    {
      MeetsExact(omissions[i].path, omissions[j].path);
    }
  }

  function Texts(omissions: seq<Omission>): (texts: seq<Bytes>)
    ensures |texts| == |omissions|
  {
    seq(|omissions|, i requires 0 <= i < |omissions| => Join(omissions[i].path))
  }

  // ---- selection of the roots ------------------------------------------------------------

  /** A relocation row of the policy, with the tree that stands at its prefix in the head, whether one stood there in
      the base, and whether the manifests of its omissions have their recorded content. */
  datatype Row = Row(
    ours: bool, prefix: Bytes, origin: Oid, omissions: seq<Omission>, head: Option<Node>, based: bool, manifests: bool)

  const ROOTS_OVERLAP := "source-relocation roots must not overlap"
  const DIFFERS := "initial source relocation differs from recorded origin tree"
  const MANIFEST := "generated dependency manifest differs from trusted proof"

  predicate Disjoint(prefixes: seq<Bytes>) {
    forall i, j :: 0 <= i < j < |prefixes| ==> !Meets(prefixes[i], prefixes[j])
  }

  predicate Selects(row: Row) {
    row.ours && row.head.Some?
  }

  /** The rows of this repository whose root exists at the head, in order. */
  function Chosen(rows: seq<Row>): seq<Row> {
    if rows == [] then []
    else
      var last := rows[|rows| - 1];
      Chosen(rows[..|rows| - 1]) + (if Selects(last) then [last] else [])
  }

  function Prefixes(rows: seq<Row>): (prefixes: seq<Bytes>)
    ensures |prefixes| == |rows|
  {
    seq(|rows|, i requires 0 <= i < |rows| => rows[i].prefix)
  }

  /** Accepted omissions, and a head tree as Git lists it. */
  ghost predicate GoodRow(row: Row) {
    && GitPaths.Separate(row.omissions)
    && (row.head.Some? ==> row.head.value.Dir? && Listable(row.head.value) && Full(row.head.value))
  }

  /** The head tree with the omissions reinserted has the recorded origin's object id. */
  ghost predicate Restores(row: Row, h: Hash)
    requires GoodRow(row) && row.head.Some?
  {
    var overlay := Overlay(row.omissions);
    && overlay.Nest? && NamedAddition(overlay) && Fits(row.head.value, overlay)
    && h(TreeObject(Target(row.head.value, overlay, h))) == row.origin
  }

  /** A root that is new at the head restores to its origin, with the generated parts accounted for. */
  ghost predicate Proven(row: Row, h: Hash)
    requires GoodRow(row) && row.head.Some?
  {
    row.based || (Restores(row, h) && row.manifests)
  }

  /** This tree is the row's origin; it and the head tree are as Git stores them, and no collision hides a
      difference. */
  ghost predicate IsOrigin(t: Node, row: Row, h: Hash)
    requires GoodRow(row) && row.head.Some?
  {
    var overlay := Overlay(row.omissions);
    && t.Dir? && Listable(t) && Full(t) && Solid(t) && Solid(row.head.value) && OidOf(t, h) == row.origin
    && (overlay.Nest? && NamedAddition(overlay) ==> GitProof.Apart(row.head.value, overlay, t, h))
  }

  /** The head tree holds what this tree holds outside the omissions, and the omissions are directories of this tree. */
  ghost predicate Agrees(row: Row, t: Node, h: Hash)
    requires GoodRow(row) && row.head.Some? && Listable(t)
  {
    && (forall o :: o in row.omissions ==> GitPaths.DirectoryAt(t, o.path, o.oid, h))
    && GitPaths.LeavesOutside(row.head.value, t, row.omissions)
  }

  lemma RestoresExact(row: Row, t: Node, h: Hash)
    requires GoodRow(row) && row.head.Some? && IsOrigin(t, row, h)
    ensures Restores(row, h) <==> Agrees(row, t, h)
  {
    GitPaths.OriginExact(row.head.value, t, row.omissions, h);
  }

  /** Without omissions the restored tree is the head tree. */
  lemma NoOmissions(n: Node, h: Hash)
    requires n.Dir? && Listable(n)
    ensures Fits(n, NOTHING) && Target(n, NOTHING, h) == RowsOf(n, h)
  {
    assert Grafted(n, NOTHING).entries == n.entries;
  }

  /** Why a new root is refused, if it is. */
  method CheckNew(row: Row, h: Hash) returns (error: Option<string>)
    requires GoodRow(row) && row.head.Some?
    ensures error.None? <==> Restores(row, h) && row.manifests
  {
    var restored: Result<Oid, string>;
    if row.omissions == [] {
      NoOmissions(row.head.value, h);
      restored := Success(OidOf(row.head.value, h));
    } else {
      restored := GitPaths.RestoredOriginTree(row.head.value, row.omissions, h);
    }
    if restored.Failure? {
      return Some(restored.error);
    }
    if restored.value != row.origin {
      return Some(DIFFERS);
    }
    return if row.manifests then None else Some(MANIFEST);
  }

  /** This row may follow the rows before it. */
  ghost predicate Admits(rows: seq<Row>, k: nat, h: Hash)
    requires k < |rows| && GoodRow(rows[k])
  {
    rows[k].ours ==>
      && (forall i :: 0 <= i < |Chosen(rows[..k])| ==> !Meets(Chosen(rows[..k])[i].prefix, rows[k].prefix))
      && (rows[k].head.Some? ==> Proven(rows[k], h))
  }

  /** A selected row: it is ours and at the head, and when it is new it agrees with whatever tree is its origin. */
  ghost predicate Rooted(row: Row, h: Hash)
    requires GoodRow(row)
  {
    && Selects(row) && Proven(row, h)
    && (!row.based ==> forall t :: IsOrigin(t, row, h) ==> Agrees(row, t, h))
  }

  lemma ProvenRooted(row: Row, h: Hash)
    requires GoodRow(row) && Selects(row) && Proven(row, h)
    ensures Rooted(row, h)
  {
    forall t | !row.based && IsOrigin(t, row, h) ensures Agrees(row, t, h) {
      RestoresExact(row, t, h);
    }
  }

  lemma DisjointGrows(rows: seq<Row>, row: Row)
    requires Disjoint(Prefixes(rows))
    requires forall i :: 0 <= i < |rows| ==> !Meets(rows[i].prefix, row.prefix)
    ensures Disjoint(Prefixes(rows + [row]))
  {
    var before, after := Prefixes(rows), Prefixes(rows + [row]);
    assert after == before + [row.prefix];
    forall i, j | 0 <= i < j < |after| ensures !Meets(after[i], after[j]) {
      if j == |rows| {
        assert before[i] == rows[i].prefix;
      }
    }
  }

  /** Whether the row may follow the rows selected so far. */
  method Examine(rows: seq<Row>, k: nat, selected: seq<Row>, h: Hash) returns (error: Option<string>)
    requires k < |rows| && GoodRow(rows[k]) && rows[k].ours && selected == Chosen(rows[..k])
    ensures error.None? <==> Admits(rows, k, h)
  {
    if exists i :: 0 <= i < |selected| && Meets(selected[i].prefix, rows[k].prefix) {
      return Some(ROOTS_OVERLAP);
    }
    if rows[k].head.None? || rows[k].based {
      return None;
    }
    error := CheckNew(rows[k], h);
  }

  /** The first `n` rows may follow one another. */
  ghost predicate Admitted(rows: seq<Row>, n: nat, h: Hash)
    requires n <= |rows| && forall k :: 0 <= k < n ==> GoodRow(rows[k])
  {
    n == 0 || (Admitted(rows, n - 1, h) && Admits(rows, n - 1, h))
  }

  lemma {:induction false} AdmittedExact(rows: seq<Row>, n: nat, h: Hash)
    requires n <= |rows| && forall k :: 0 <= k < n ==> GoodRow(rows[k])
    ensures Admitted(rows, n, h) <==> forall k :: 0 <= k < n ==> Admits(rows, k, h)
  {
    if n > 0 {
      AdmittedExact(rows, n - 1, h);
    }
  }

  lemma {:induction false} AdmittedRooted(rows: seq<Row>, n: nat, h: Hash, row: Row)
    requires n <= |rows| && (forall k :: 0 <= k < n ==> GoodRow(rows[k]))
    requires Admitted(rows, n, h) && row in Chosen(rows[..n])
    ensures row in rows && GoodRow(row) && Rooted(row, h)
  {
    assert rows[..n][..n - 1] == rows[..n - 1];
    if row in Chosen(rows[..n - 1]) {
      AdmittedRooted(rows, n - 1, h, row);
    } else {
      ProvenRooted(rows[n - 1], h);
    }
  }

  method Roots(rows: seq<Row>, h: Hash) returns (r: Result<seq<Row>, string>)
    requires forall k :: 0 <= k < |rows| ==> GoodRow(rows[k])
    ensures r.Success? <==> forall k :: 0 <= k < |rows| ==> Admits(rows, k, h)
    ensures r.Success? ==> r.value == Chosen(rows) && Disjoint(Prefixes(r.value))
    ensures r.Success? ==> forall row :: row in r.value ==> row in rows && GoodRow(row) && Rooted(row, h)
  {
    r := Select(rows, h);
    AdmittedExact(rows, |rows|, h);
    assert rows[..|rows|] == rows;
    if r.Success? {
      forall row | row in r.value ensures row in rows && GoodRow(row) && Rooted(row, h) {
        AdmittedRooted(rows, |rows|, h, row);
      }
    }
  }

  method Select(rows: seq<Row>, h: Hash) returns (r: Result<seq<Row>, string>)
    requires forall k :: 0 <= k < |rows| ==> GoodRow(rows[k])
    ensures r.Success? <==> Admitted(rows, |rows|, h)
    ensures r.Success? ==> r.value == Chosen(rows) && Disjoint(Prefixes(r.value))
  {
    var selected: seq<Row> := [];
    for k := 0 to |rows|
      invariant selected == Chosen(rows[..k]) && Disjoint(Prefixes(selected)) && Admitted(rows, k, h)
    {
      assert rows[..k + 1][..k] == rows[..k];
      if rows[k].ours {
        var error := Examine(rows, k, selected, h);
        if error.Some? {
          NotAdmitted(rows, k, |rows|, h);
          return Failure(error.value);
        }
        if rows[k].head.Some? {
          DisjointGrows(selected, rows[k]);
          selected := selected + [rows[k]];
        }
      }
    }
    assert rows[..|rows|] == rows;
    return Success(selected);
  }

  lemma NotAdmitted(rows: seq<Row>, k: nat, n: nat, h: Hash)
    requires k < n <= |rows| && (forall i :: 0 <= i < n ==> GoodRow(rows[i])) && !Admits(rows, k, h)
    ensures !Admitted(rows, n, h)
  {
    AdmittedExact(rows, n, h);
  }

  // ---- views -----------------------------------------------------------------------------

  /** What a view's paths start with in the whole tree. */
  function Stem(prefix: Bytes): Bytes {
    if prefix == [] then [] else prefix + [SLASH]
  }

  predicate Excluded(excluded: seq<Bytes>, path: Bytes) {
    exists i :: 0 <= i < |excluded| && (path == excluded[i] || Under(excluded[i], path))
  }

  predicate Shows(prefix: Bytes, excluded: seq<Bytes>, path: Bytes) {
    Stem(prefix) <= path && !Excluded(excluded, path)
  }

  /** The paths of a view, relative to its prefix. */
  function View(paths: seq<Bytes>, prefix: Bytes, excluded: seq<Bytes>): seq<Bytes> {
    if paths == [] then []
    else if Shows(prefix, excluded, paths[0]) then
      [paths[0][|Stem(prefix)|..]] + View(paths[1..], prefix, excluded)
    else View(paths[1..], prefix, excluded)
  }

  function Outer(paths: seq<Bytes>, prefixes: seq<Bytes>): seq<Bytes> {
    View(paths, [], prefixes)
  }

  function Count(paths: seq<Bytes>, path: Bytes): nat {
    multiset(paths)[path]
  }

  /** A view holds a path as often as the tree does when it shows it, and otherwise not at all. */
  lemma {:induction false} ViewExact(paths: seq<Bytes>, prefix: Bytes, excluded: seq<Bytes>, path: Bytes)
    ensures Count(View(paths, prefix, excluded), path)
         == if Shows(prefix, excluded, Stem(prefix) + path) then Count(paths, Stem(prefix) + path) else 0
  {
    if paths != [] {
      ViewExact(paths[1..], prefix, excluded, path);
      assert paths == [paths[0]] + paths[1..];
      if Stem(prefix) <= paths[0] {
        assert paths[0] == Stem(prefix) + paths[0][|Stem(prefix)|..];
        assert paths[0] == Stem(prefix) + path ==> paths[0][|Stem(prefix)|..] == path;
      }
      assert Stem(prefix) <= Stem(prefix) + path;
    }
  }

  /** How often the views together hold what the tree has at this path. */
  ghost function Held(paths: seq<Bytes>, prefixes: seq<Bytes>, path: Bytes): nat {
    Count(Outer(paths, prefixes), path) + HeldByRoots(paths, prefixes, path)
  }

  ghost function HeldByRoots(paths: seq<Bytes>, prefixes: seq<Bytes>, path: Bytes): nat {
    if prefixes == [] then 0
    else
      HeldByRoots(paths, prefixes[1..], path)
      + if Stem(prefixes[0]) <= path then Count(View(paths, prefixes[0], []), path[|Stem(prefixes[0])|..]) else 0
  }

  lemma UnderTwo(a: Bytes, b: Bytes, path: Bytes)
    requires Under(a, path) && Under(b, path)
    ensures Meets(a, b)
  {
    if |a| < |b| {
      assert a + [SLASH] == path[..|a| + 1] == b[..|a| + 1];
    } else if |b| < |a| {
      assert b + [SLASH] == path[..|b| + 1] == a[..|b| + 1];
    } else {
      assert a == path[..|a|] == b;
    }
  }

  lemma {:induction false} HeldByNone(paths: seq<Bytes>, prefixes: seq<Bytes>, path: Bytes)
    requires forall i :: 0 <= i < |prefixes| ==> prefixes[i] != [] && !Under(prefixes[i], path)
    ensures HeldByRoots(paths, prefixes, path) == 0
  {
    if prefixes != [] {
      HeldByNone(paths, prefixes[1..], path);
    }
  }

  lemma {:induction false} HeldByOne(paths: seq<Bytes>, prefixes: seq<Bytes>, path: Bytes, k: nat)
    requires Disjoint(prefixes) && k < |prefixes| && Under(prefixes[k], path)
    requires forall i :: 0 <= i < |prefixes| ==> prefixes[i] != []
    ensures HeldByRoots(paths, prefixes, path) == Count(paths, path)
  {
    if k == 0 {
      forall i | 0 <= i < |prefixes[1..]| ensures prefixes[1..][i] != [] && !Under(prefixes[1..][i], path) {
        if Under(prefixes[i + 1], path) {
          UnderTwo(prefixes[0], prefixes[i + 1], path);
        }
      }
      HeldByNone(paths, prefixes[1..], path);
      ViewExact(paths, prefixes[0], [], path[|Stem(prefixes[0])|..]);
      assert Stem(prefixes[0]) + path[|Stem(prefixes[0])|..] == path;
    } else {
      if Under(prefixes[0], path) {
        UnderTwo(prefixes[0], prefixes[k], path);
      }
      HeldByOne(paths, prefixes[1..], path, k - 1);
    }
  }

  lemma NoPrefixUnder(prefixes: seq<Bytes>, k: nat, i: nat)
    requires Disjoint(prefixes) && k < |prefixes| && i < |prefixes|
    ensures !Under(prefixes[k], prefixes[i])
  {
    assert i < k ==> !Meets(prefixes[i], prefixes[k]);
    assert k < i ==> !Meets(prefixes[k], prefixes[i]);
  }

  /** The views split the tree: together they hold each path exactly as often as the tree does, if and only
      if no root prefix is itself a path of a file. Such a path would be in no view. */
  lemma ViewsPartition(paths: seq<Bytes>, prefixes: seq<Bytes>, path: Bytes)
    requires Disjoint(prefixes) && path in paths
    requires forall i :: 0 <= i < |prefixes| ==> prefixes[i] != []
    ensures Held(paths, prefixes, path) == (if path in prefixes then 0 else Count(paths, path))
  {
    ViewExact(paths, [], prefixes, path);
    assert [] + path == path;
    if k :| 0 <= k < |prefixes| && Under(prefixes[k], path) {
      HeldByOne(paths, prefixes, path, k);
      if i :| 0 <= i < |prefixes| && prefixes[i] == path {
        NoPrefixUnder(prefixes, k, i);
      }
    } else {
      HeldByNone(paths, prefixes, path);
    }
  }
}
