/** Restoring an origin tree from a maintained tree and trusted omitted subtrees. */
module GitRestore {
  import opened Wrappers
  import opened GitTree

  /** An entry of the object store. A `Leaf` is a file, a link or a submodule; after restoration also a
      directory known by its object id only. */
  datatype Node = Leaf(mode: Bytes, oid: Oid) | Dir(entries: map<Name, Node>)

  const EMPTY := Dir(map[])

  function ModeOf(n: Node): Bytes {
    if n.Leaf? then n.mode else TREE
  }

  /** Names and modes are as Git writes them. */
  ghost predicate Listable(n: Node) {
    if n.Leaf? then GoodMode(n.mode)
    else forall name :: name in n.entries ==> GoodName(name) && Listable(n.entries[name])
  }

  /** Every directory is there in full. */
  ghost predicate Full(n: Node) {
    if n.Leaf? then n.mode != TREE
    else forall name :: name in n.entries ==> Full(n.entries[name])
  }

  /** No directory below this one is empty; Git records none. */
  ghost predicate Solid(n: Node) {
    n.Dir? ==> forall name :: name in n.entries ==> n.entries[name] != EMPTY && Solid(n.entries[name])
  }

  function OidOf(n: Node, h: Hash): Oid
    requires Listable(n)
    decreases n, 1
  {
    if n.Leaf? then n.oid else h(TreeObject(RowsOf(n, h)))
  }

  /** The listing of a directory. */
  function RowsOf(n: Node, h: Hash): (rows: Rows)
    requires n.Dir? && Listable(n)
    ensures rows.Keys == n.entries.Keys && GoodNames(rows.Keys)
    decreases n, 0
  {
    map name | name in n.entries :: Row(ModeOf(n.entries[name]), OidOf(n.entries[name], h))
  }

  // ---- the overlay -----------------------------------------------------------------------

  /** What to reinsert below a directory: a whole subtree by its object id, or additions further down. */
  datatype Addition = Graft(oid: Oid) | Nest(children: map<Name, Addition>)

  type Path = seq<Name>

  datatype Omission = Omission(path: Path, oid: Oid)

  const NOTHING := Nest(map[])

  function Child(a: Addition, name: Name): Addition {
    if a.Nest? && name in a.children then a.children[name] else NOTHING
  }

  function ChildrenOf(a: Addition): map<Name, Addition> {
    if a.Nest? then a.children else map[]
  }

  function Insert(a: Addition, path: Path, oid: Oid): Addition
    decreases |path|
  {
    if path == [] then Graft(oid)
    else Nest(ChildrenOf(a)[path[0] := Insert(Child(a, path[0]), path[1..], oid)])
  }

  function Overlay(omissions: seq<Omission>): Addition {
    if omissions == [] then NOTHING
    else
      var last := omissions[|omissions| - 1];
      Insert(Overlay(omissions[..|omissions| - 1]), last.path, last.oid)
  }

  /** Additions whose names Git allows. */
  ghost predicate NamedAddition(a: Addition) {
    a.Nest? ==> forall name :: name in a.children ==> GoodName(name) && NamedAddition(a.children[name])
  }

  // ---- restoration -----------------------------------------------------------------------

  /** The directory under a name, or an empty one where there is none. */
  function Below(n: Node, name: Name): (d: Node)
    requires n.Dir?
    ensures d.Dir?
  {
    if name in n.entries && n.entries[name].Dir? then n.entries[name] else EMPTY
  }

  /** The addition under one name meets nothing in its way. */
  predicate FitsAt(n: Node, a: Addition, name: Name)
    requires n.Dir? && a.Nest? && name in a.children
    decreases a, 0
  {
    if a.children[name].Graft? then name !in n.entries
    else (name in n.entries ==> n.entries[name].Dir?) && Fits(Below(n, name), a.children[name])
  }

  predicate Fits(n: Node, a: Addition)
    requires n.Dir? && a.Nest?
    decreases a
  {
    forall name :: name in a.children ==> FitsAt(n, a, name)
  }

  /** The maintained tree with the additions in place. */
  function Grafted(n: Node, a: Addition): (r: Node)
    requires n.Dir? && a.Nest?
    ensures r.Dir? && r.entries.Keys == n.entries.Keys + a.children.Keys
    decreases a
  {
    Dir(map name | name in n.entries.Keys + a.children.Keys ::
      if name !in a.children then n.entries[name]
      else if a.children[name].Graft? then Leaf(TREE, a.children[name].oid)
      else Grafted(Below(n, name), a.children[name]))
  }

  lemma {:induction false} GraftedListable(n: Node, a: Addition)
    requires n.Dir? && a.Nest? && Listable(n) && NamedAddition(a)
    ensures Listable(Grafted(n, a))
    decreases a
  {
    var g := Grafted(n, a);
    forall name | name in g.entries ensures GoodName(name) && Listable(g.entries[name]) {
      if name in a.children && a.children[name].Nest? {
        GraftedListable(Below(n, name), a.children[name]);
      }
    }
  }

  /** The rows of the restored tree. */
  ghost function Target(n: Node, a: Addition, h: Hash): (rows: Rows)
    requires n.Dir? && a.Nest? && Listable(n) && NamedAddition(a)
    ensures GoodNames(rows.Keys) && rows.Keys == n.entries.Keys + a.children.Keys
  {
    GraftedListable(n, a);
    RowsOf(Grafted(n, a), h)
  }

  lemma RowAt(n: Node, name: Name, h: Hash)
    requires n.Dir? && Listable(n) && name in n.entries
    ensures RowsOf(n, h)[name] == Row(ModeOf(n.entries[name]), OidOf(n.entries[name], h))
  {
  }

  lemma TargetElsewhere(n: Node, a: Addition, name: Name, h: Hash)
    requires n.Dir? && a.Nest? && Listable(n) && NamedAddition(a) && name in n.entries && name !in a.children
    ensures Target(n, a, h)[name] == RowsOf(n, h)[name]
  {
    GraftedListable(n, a);
    RowAt(n, name, h);
    RowAt(Grafted(n, a), name, h);
  }

  lemma TargetGraft(n: Node, a: Addition, name: Name, h: Hash)
    requires n.Dir? && a.Nest? && Listable(n) && NamedAddition(a) && name in a.children && a.children[name].Graft?
    ensures Target(n, a, h)[name] == Row(TREE, a.children[name].oid)
  {
    GraftedListable(n, a);
    RowAt(Grafted(n, a), name, h);
  }

  lemma TargetNest(n: Node, a: Addition, name: Name, h: Hash)
    requires n.Dir? && a.Nest? && Listable(n) && NamedAddition(a) && name in a.children && a.children[name].Nest?
    ensures Target(n, a, h)[name] == Row(TREE, h(TreeObject(Target(Below(n, name), a.children[name], h))))
  {
    GraftedListable(n, a);
    RowAt(Grafted(n, a), name, h);
  }

  const PRESENT := "generated omission is present in maintained tree"
  const NOT_A_TREE := "generated omission ancestor is not a tree"

  /** The restored object id of a directory, an absent one being restored from its additions alone. It
      refuses exactly when an addition meets something in its way. */
  method Restore(n: Node, a: Addition, h: Hash) returns (r: Result<Oid, string>)
    requires n.Dir? && a.Nest? && Listable(n) && Full(n) && NamedAddition(a)
    ensures r.Success? <==> Fits(n, a)
    ensures r.Success? ==> r.value == h(TreeObject(Target(n, a, h)))
    decreases a
  {
    var entries := RowsOf(n, h);
    ghost var listed, target := entries, Target(n, a, h);
    forall name | name in n.entries && name !in a.children ensures target[name] == listed[name] {
      TargetElsewhere(n, a, name, h);
    }
    ghost var misfits := set name | name in a.children && !FitsAt(n, a, name);
    var todo := a.children.Keys;
    while todo != {}
      invariant todo <= a.children.Keys
      invariant entries.Keys == n.entries.Keys + (a.children.Keys - todo)
      invariant misfits <= todo
      invariant forall name :: name in entries ==> entries[name] == if name in todo then listed[name] else target[name]
      decreases todo
    {
      var name :| name in todo;
      var row := RestoreRow(n, a, name, h);
      if row.Failure? {
        return Failure(row.error);
      }
      entries := entries[name := row.value];
      todo := todo - {name};
    }
    assert entries == target;
    return Success(h(TreeObject(entries)));
  }

  /** One addition of `Restore`. */
  method RestoreRow(n: Node, a: Addition, name: Name, h: Hash) returns (r: Result<Row, string>)
    requires n.Dir? && a.Nest? && Listable(n) && Full(n) && NamedAddition(a) && name in a.children
    ensures r.Success? <==> FitsAt(n, a, name)
    ensures r.Success? ==> r.value == Target(n, a, h)[name]
    decreases a, 0
  {
    var addition := a.children[name];
    if addition.Graft? {
      TargetGraft(n, a, name, h);
      if name in n.entries {
        return Failure(PRESENT);
      }
      return Success(Row(TREE, addition.oid));
    }
    if name in n.entries && ModeOf(n.entries[name]) != TREE {
      return Failure(NOT_A_TREE);
    }
    TargetNest(n, a, name, h);
    var below := Restore(Below(n, name), addition, h);
    if below.Failure? {
      return Failure(below.error);
    }
    return Success(Row(TREE, below.value));
  }
}
