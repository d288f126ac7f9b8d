/** What a restored object id proves: the maintained tree is the origin without the omissions. */
module GitProof {
  import opened Wrappers
  import opened GitTree
  import opened GitRestore

  /** Every addition names a directory of the tree, with its object id. */
  ghost predicate Matches(n: Node, a: Addition, h: Hash)
    requires Listable(n)
    decreases a
  {
    match a
    case Graft(oid) => n.Dir? && oid == OidOf(n, h)
    case Nest(children) =>
      n.Dir? && forall name :: name in children ==> name in n.entries && Matches(n.entries[name], children[name], h)
  }

  /** Whether omitting leaves something under a name. */
  predicate Stays(n: Node, a: Addition, name: Name)
    requires n.Dir? && a.Nest? && name in n.entries
    decreases a, 0
  {
    name in a.children ==>
      && a.children[name].Nest?
      && (n.entries[name].Dir? ==> Omit(n.entries[name], a.children[name]) != EMPTY)
  }

  /** The tree without the omitted directories, and without the directories that this leaves empty. */
  function Omit(n: Node, a: Addition): (r: Node)
    requires n.Dir? && a.Nest?
    ensures r.Dir? && r.entries.Keys <= n.entries.Keys
    decreases a
  {
    Dir(map name | name in n.entries && Stays(n, a, name) ::
      if name in a.children && n.entries[name].Dir? && a.children[name].Nest? then
        Omit(n.entries[name], a.children[name])
      else n.entries[name])
  }

  lemma {:induction false} OmitListable(n: Node, a: Addition)
    requires n.Dir? && a.Nest? && Listable(n)
    ensures Listable(Omit(n, a))
    decreases a
  {
    var o := Omit(n, a);
    forall name | name in o.entries ensures GoodName(name) && Listable(o.entries[name]) {
      assert Stays(n, a, name);
      if name in a.children && n.entries[name].Dir? {
        OmitListable(n.entries[name], a.children[name]);
      }
    }
  }

  lemma {:induction false} OmitFull(n: Node, a: Addition)
    requires n.Dir? && a.Nest? && Full(n)
    ensures Full(Omit(n, a))
    decreases a
  {
    var o := Omit(n, a);
    forall name | name in o.entries ensures Full(o.entries[name]) {
      assert Stays(n, a, name);
      if name in a.children && n.entries[name].Dir? {
        OmitFull(n.entries[name], a.children[name]);
      }
    }
  }

  lemma {:induction false} OmitFits(n: Node, a: Addition, h: Hash)
    requires n.Dir? && a.Nest? && Listable(n) && Matches(n, a, h)
    ensures Fits(Omit(n, a), a)
    decreases a
  {
    forall name | name in a.children ensures FitsAt(Omit(n, a), a, name) {
      assert Matches(n.entries[name], a.children[name], h);
      if a.children[name].Nest? {
        OmitFits(n.entries[name], a.children[name], h);
        FitsBelow(n, a, name);
      } else {
        Omitted(n, a, name);
      }
    }
  }

  lemma FitsBelow(n: Node, a: Addition, name: Name)
    requires n.Dir? && a.Nest? && name in a.children && name in n.entries
    requires n.entries[name].Dir? && a.children[name].Nest?
      && Fits(Omit(n.entries[name], a.children[name]), a.children[name])
    ensures FitsAt(Omit(n, a), a, name)
  {
    BelowOmit(n, a, name);
  }

  lemma Omitted(n: Node, a: Addition, name: Name)
    requires n.Dir? && a.Nest? && name in a.children && a.children[name].Graft?
    ensures name !in Omit(n, a).entries
  {
    assert name in n.entries ==> !Stays(n, a, name);
  }

  lemma BelowOmit(n: Node, a: Addition, name: Name)
    requires n.Dir? && a.Nest? && name in a.children && name in n.entries
    requires n.entries[name].Dir? && a.children[name].Nest?
    ensures Below(Omit(n, a), name) == Omit(n.entries[name], a.children[name])
  {
  }

  /** Omit any matching subtrees, restore, and the object id is the original one. */
  lemma {:induction false} RestoreUndoesOmit(n: Node, a: Addition, h: Hash)
    requires n.Dir? && a.Nest? && Listable(n) && NamedAddition(a) && Matches(n, a, h)
    ensures Listable(Omit(n, a)) && Target(Omit(n, a), a, h) == RowsOf(n, h)
    decreases a, 1
  {
    OmitListable(n, a);
    var target := Target(Omit(n, a), a, h);
    forall name | name in target ensures name in n.entries {
      assert name in a.children ==> Matches(n.entries[name], a.children[name], h);
    }
    forall name | name in n.entries ensures name in target && target[name] == RowsOf(n, h)[name] {
      RestoreUndoesOmitAt(n, a, name, h);
    }
  }

  lemma {:induction false} RestoreUndoesOmitAt(n: Node, a: Addition, name: Name, h: Hash)
    requires n.Dir? && a.Nest? && Listable(n) && NamedAddition(a) && Listable(Omit(n, a))
    requires name in n.entries && (name in a.children ==> Matches(n.entries[name], a.children[name], h))
    ensures name in Target(Omit(n, a), a, h) && Target(Omit(n, a), a, h)[name] == RowsOf(n, h)[name]
    decreases a, 0
  {
    if name !in a.children {
      SameElsewhere(n, a, name, h);
    } else if a.children[name].Graft? {
      SameGraft(n, a, name, h);
    } else {
      RestoreUndoesOmit(n.entries[name], a.children[name], h);
      SameNest(n, a, name, h);
    }
  }

  lemma SameElsewhere(n: Node, a: Addition, name: Name, h: Hash)
    requires n.Dir? && a.Nest? && Listable(n) && NamedAddition(a) && Listable(Omit(n, a))
    requires name in n.entries && name !in a.children
    ensures name in Target(Omit(n, a), a, h) && Target(Omit(n, a), a, h)[name] == RowsOf(n, h)[name]
  {
    KeptElsewhere(n, a, name);
    RowAt(n, name, h);
    RowAt(Omit(n, a), name, h);
    TargetElsewhere(Omit(n, a), a, name, h);
  }

  lemma SameGraft(n: Node, a: Addition, name: Name, h: Hash)
    requires n.Dir? && a.Nest? && Listable(n) && NamedAddition(a) && Listable(Omit(n, a))
    requires name in n.entries && name in a.children && a.children[name].Graft?
    requires Matches(n.entries[name], a.children[name], h)
    ensures name in Target(Omit(n, a), a, h) && Target(Omit(n, a), a, h)[name] == RowsOf(n, h)[name]
  {
    RowAt(n, name, h);
    TargetGraft(Omit(n, a), a, name, h);
  }

  lemma SameNest(n: Node, a: Addition, name: Name, h: Hash)
    requires n.Dir? && a.Nest? && Listable(n) && NamedAddition(a) && Listable(Omit(n, a))
    requires name in n.entries && name in a.children && a.children[name].Nest? && n.entries[name].Dir?
    requires var sub, c := n.entries[name], a.children[name];
             Listable(Omit(sub, c)) && Target(Omit(sub, c), c, h) == RowsOf(sub, h)
    ensures name in Target(Omit(n, a), a, h) && Target(Omit(n, a), a, h)[name] == RowsOf(n, h)[name]
  {
    BelowOmit(n, a, name);
    RowAt(n, name, h);
    TargetNest(Omit(n, a), a, name, h);
  }

  // ---- collisions ------------------------------------------------------------------------

  /** The bytes of a tree object of this tree. */
  ghost predicate HasObject(n: Node, h: Hash, bytes: Bytes)
    requires Listable(n)
    decreases n
  {
    n.Dir? &&
    (bytes == TreeObject(RowsOf(n, h))
     || exists name :: name in n.entries && HasObject(n.entries[name], h, bytes))
  }

  /** No two different tree objects, one of either tree, share an object id. */
  ghost predicate NoClash(s: Node, t: Node, h: Hash)
    requires Listable(s) && Listable(t)
  {
    forall x, y :: HasObject(s, h, x) && HasObject(t, h, y) && h(x) == h(y) ==> x == y
  }

  lemma NoClashBelow(s: Node, t: Node, name: Name, h: Hash)
    requires s.Dir? && t.Dir? && Listable(s) && Listable(t) && NoClash(s, t, h)
    requires name in s.entries && name in t.entries
    ensures NoClash(s.entries[name], t.entries[name], h)
  {
    var u, v := s.entries[name], t.entries[name];
    forall x, y | HasObject(u, h, x) && HasObject(v, h, y) && h(x) == h(y) ensures x == y {
      assert HasObject(s, h, x) && HasObject(t, h, y);
    }
  }

  /** Equal object ids, equal listings. */
  lemma SameListing(s: Node, t: Node, h: Hash)
    requires s.Dir? && t.Dir? && Listable(s) && Listable(t) && NoClash(s, t, h)
    requires OidOf(s, h) == OidOf(t, h)
    ensures RowsOf(s, h) == RowsOf(t, h)
  {
    assert HasObject(s, h, TreeObject(RowsOf(s, h))) && HasObject(t, h, TreeObject(RowsOf(t, h)));
    RowsGood(s, h);
    RowsGood(t, h);
    TreeObjectExact(RowsOf(s, h), RowsOf(t, h));
  }

  lemma RowsGood(n: Node, h: Hash)
    requires n.Dir? && Listable(n)
    ensures GoodRows(RowsOf(n, h))
  {
    forall name | name in n.entries ensures GoodMode(RowsOf(n, h)[name].mode) {
      RowAt(n, name, h);
    }
  }

  /** Equal object ids, equal trees. */
  lemma {:induction false} OidExact(s: Node, t: Node, h: Hash)
    requires Listable(s) && Listable(t) && Full(s) && Full(t) && NoClash(s, t, h)
    requires ModeOf(s) == ModeOf(t) && OidOf(s, h) == OidOf(t, h)
    ensures s == t
  {
    if s.Dir? && t.Dir? {
      SameListing(s, t, h);
      assert s.entries.Keys == t.entries.Keys;
      forall name | name in s.entries ensures s.entries[name] == t.entries[name] {
        RowAt(s, name, h);
        RowAt(t, name, h);
        NoClashBelow(s, t, name, h);
        OidExact(s.entries[name], t.entries[name], h);
      }
    }
  }

  // ---- exactness -------------------------------------------------------------------------

  /** The maintained tree `m` restores to the object id of `t`. */
  ghost predicate RestoresTo(m: Node, a: Addition, t: Node, h: Hash)
    requires m.Dir? && a.Nest? && t.Dir? && Listable(m) && Listable(t) && NamedAddition(a)
  {
    Fits(m, a) && h(TreeObject(Target(m, a, h))) == OidOf(t, h)
  }

  /** Nothing collides between the restored tree and `t`. */
  ghost predicate Apart(m: Node, a: Addition, t: Node, h: Hash)
    requires m.Dir? && a.Nest? && t.Dir? && Listable(m) && Listable(t) && NamedAddition(a)
  {
    Listable(Grafted(m, a)) && NoClash(Grafted(m, a), t, h)
  }

  lemma SameTarget(m: Node, a: Addition, t: Node, h: Hash)
    requires m.Dir? && a.Nest? && t.Dir? && Listable(m) && Listable(t) && NamedAddition(a)
    requires RestoresTo(m, a, t, h) && Apart(m, a, t, h)
    ensures Target(m, a, h) == RowsOf(t, h)
  {
    SameListing(Grafted(m, a), t, h);
  }

  /** One level down, under an addition that goes further. */
  lemma RestoresBelow(m: Node, a: Addition, t: Node, name: Name, h: Hash)
    requires m.Dir? && a.Nest? && t.Dir? && Listable(m) && Listable(t) && NamedAddition(a) && Full(t)
    requires RestoresTo(m, a, t, h) && Apart(m, a, t, h) && name in a.children && a.children[name].Nest?
    ensures name in t.entries && t.entries[name].Dir?
    ensures RestoresTo(Below(m, name), a.children[name], t.entries[name], h)
    ensures Apart(Below(m, name), a.children[name], t.entries[name], h)
  {
    SameTarget(m, a, t, h);
    TargetNest(m, a, name, h);
    assert name in RowsOf(t, h);
    RowAt(t, name, h);
    assert FitsAt(m, a, name);
    NoClashBelow(Grafted(m, a), t, name, h);
  }

  lemma FormBelow(m: Node, a: Addition, t: Node, name: Name)
    requires m.Dir? && a.Nest? && t.Dir? && name in a.children && name in t.entries
    ensures Listable(m) ==> Listable(Below(m, name))
    ensures Listable(t) ==> Listable(t.entries[name])
    ensures Full(t) ==> Full(t.entries[name])
    ensures NamedAddition(a) ==> NamedAddition(a.children[name])
  {
  }

  lemma {:induction false} ExactMatches(m: Node, a: Addition, t: Node, h: Hash)
    requires m.Dir? && a.Nest? && t.Dir? && Listable(m) && Listable(t) && NamedAddition(a) && Full(t)
    requires RestoresTo(m, a, t, h) && Apart(m, a, t, h)
    ensures Matches(t, a, h)
    decreases a, 1
  {
    forall name | name in a.children ensures name in t.entries && Matches(t.entries[name], a.children[name], h) {
      ExactMatchesAt(m, a, t, name, h);
    }
  }

  lemma {:induction false} ExactMatchesAt(m: Node, a: Addition, t: Node, name: Name, h: Hash)
    requires m.Dir? && a.Nest? && t.Dir? && Listable(m) && Listable(t) && NamedAddition(a) && Full(t)
    requires RestoresTo(m, a, t, h) && Apart(m, a, t, h) && name in a.children
    ensures name in t.entries && Matches(t.entries[name], a.children[name], h)
    decreases a, 0
  {
    if a.children[name].Nest? {
      RestoresBelow(m, a, t, name, h);
      FormBelow(m, a, t, name);
      ExactMatches(Below(m, name), a.children[name], t.entries[name], h);
    } else {
      ExactGraft(m, a, t, name, h);
    }
  }

  /** An omission names a directory of the origin, with its object id. */
  lemma ExactGraft(m: Node, a: Addition, t: Node, name: Name, h: Hash)
    requires m.Dir? && a.Nest? && t.Dir? && Listable(m) && Listable(t) && NamedAddition(a) && Full(t)
    requires RestoresTo(m, a, t, h) && Apart(m, a, t, h) && name in a.children && a.children[name].Graft?
    ensures name in t.entries && Matches(t.entries[name], a.children[name], h)
  {
    SameTarget(m, a, t, h);
    TargetGraft(m, a, name, h);
    assert name in RowsOf(t, h);
    RowAt(t, name, h);
  }

  lemma {:induction false} ExactOmit(m: Node, a: Addition, t: Node, h: Hash)
    requires m.Dir? && a.Nest? && t.Dir? && Listable(m) && Listable(t) && NamedAddition(a)
    requires Full(m) && Full(t) && Solid(m)
    requires RestoresTo(m, a, t, h) && Apart(m, a, t, h)
    ensures m == Omit(t, a)
    decreases a, 1
  {
    var o := Omit(t, a);
    SameTarget(m, a, t, h);
    assert m.entries.Keys <= Target(m, a, h).Keys == t.entries.Keys;
    forall name | name in t.entries ensures SameEntry(m, o, name) {
      ExactOmitAt(m, a, t, name, h);
    }
    SameEntries(m, o, t.entries.Keys);
  }

  /** Two directories have the same entry under a name, or both have none. */
  predicate SameEntry(m: Node, o: Node, name: Name)
    requires m.Dir? && o.Dir?
  {
    if name in m.entries then name in o.entries && m.entries[name] == o.entries[name] else name !in o.entries
  }

  lemma SameEntries(m: Node, o: Node, names: set<Name>)
    requires m.Dir? && o.Dir? && m.entries.Keys <= names && o.entries.Keys <= names
    requires forall name :: name in names ==> SameEntry(m, o, name)
    ensures m == o
  {
    assert forall name :: name in m.entries ==> SameEntry(m, o, name);
    assert forall name :: name in o.entries ==> SameEntry(m, o, name);
    assert m.entries == o.entries;
  }

  lemma {:induction false} ExactOmitAt(m: Node, a: Addition, t: Node, name: Name, h: Hash)
    requires m.Dir? && a.Nest? && t.Dir? && Listable(m) && Listable(t) && NamedAddition(a)
    requires Full(m) && Full(t) && Solid(m)
    requires RestoresTo(m, a, t, h) && Apart(m, a, t, h) && name in t.entries
    ensures SameEntry(m, Omit(t, a), name)
    decreases a, 0
  {
    if name !in a.children {
      ExactElsewhere(m, a, t, name, h);
      KeptElsewhere(t, a, name);
    } else if a.children[name].Nest? {
      RestoresBelow(m, a, t, name, h);
      FormBelow(m, a, t, name);
      SolidBelow(m, name);
      ExactOmit(Below(m, name), a.children[name], t.entries[name], h);
      OmitBelow(m, a, t, name);
    } else {
      NeitherHas(m, a, t, name);
    }
  }

  lemma SolidBelow(n: Node, name: Name)
    requires n.Dir? && Solid(n)
    ensures Solid(Below(n, name))
    ensures Full(n) ==> Full(Below(n, name))
    ensures Listable(n) ==> Listable(Below(n, name))
  {
  }

  lemma NeitherHas(m: Node, a: Addition, t: Node, name: Name)
    requires m.Dir? && a.Nest? && t.Dir? && Fits(m, a) && name in a.children && a.children[name].Graft?
    ensures name !in m.entries && name !in Omit(t, a).entries
  {
    assert FitsAt(m, a, name);
    Omitted(t, a, name);
  }

  lemma KeptElsewhere(t: Node, a: Addition, name: Name)
    requires a.Nest? && t.Dir? && name in t.entries && name !in a.children
    ensures name in Omit(t, a).entries && Omit(t, a).entries[name] == t.entries[name]
  {
    assert Stays(t, a, name);
  }

  lemma OmitBelow(m: Node, a: Addition, t: Node, name: Name)
    requires m.Dir? && a.Nest? && t.Dir? && Solid(m) && Fits(m, a)
    requires name in t.entries && t.entries[name].Dir? && name in a.children && a.children[name].Nest?
    requires Below(m, name) == Omit(t.entries[name], a.children[name])
    ensures name in m.entries <==> name in Omit(t, a).entries
    ensures name in m.entries ==> m.entries[name] == Omit(t, a).entries[name]
  {
    assert FitsAt(m, a, name);
    assert Stays(t, a, name) <==> Below(m, name) != EMPTY;
  }

  lemma ExactElsewhere(m: Node, a: Addition, t: Node, name: Name, h: Hash)
    requires m.Dir? && a.Nest? && t.Dir? && Listable(m) && Listable(t) && NamedAddition(a) && Full(m) && Full(t)
    requires RestoresTo(m, a, t, h) && Apart(m, a, t, h) && name in t.entries && name !in a.children
    ensures name in m.entries && m.entries[name] == t.entries[name]
  {
    SameTarget(m, a, t, h);
    assert name in Target(m, a, h);
    TargetElsewhere(m, a, name, h);
    RowAt(m, name, h);
    RowAt(t, name, h);
    NoClashBelow(Grafted(m, a), t, name, h);
    OidExact(m.entries[name], t.entries[name], h);
  }

  /** The proof is exact: the maintained tree restores to the origin's object id if and only if it is the
      origin without the omissions, and each omission is a directory of the origin with that object id. */
  lemma RestorationExact(m: Node, a: Addition, t: Node, h: Hash)
    requires m.Dir? && a.Nest? && t.Dir? && Listable(m) && Listable(t) && NamedAddition(a)
    requires Full(m) && Full(t) && Solid(m) && Apart(m, a, t, h)
    ensures RestoresTo(m, a, t, h) <==> Matches(t, a, h) && m == Omit(t, a)
  {
    if RestoresTo(m, a, t, h) {
      ExactMatches(m, a, t, h);
      ExactOmit(m, a, t, h);
    }
    if Matches(t, a, h) && m == Omit(t, a) {
      OmitFits(t, a, h);
      RestoreUndoesOmit(t, a, h);
    }
  }
}
