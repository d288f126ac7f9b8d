/** Git tree objects: entry order, encoding and decoding, and the object id of a tree. */
module GitTree {
  import opened Wrappers

  newtype Byte = x: int | 0 <= x < 256
  type Bytes = seq<Byte>
  type Name = Bytes

  const OID_LENGTH: nat := 20
  type Oid = o: Bytes | |o| == OID_LENGTH witness seq(OID_LENGTH, _ => 0 as Byte)

  /** Any hash function to object ids; nothing is assumed about collisions. */
  type Hash = Bytes -> Oid

  const NUL: Byte := 0
  const SPACE: Byte := 32
  const SLASH: Byte := 47

  /** The octal text of a directory mode. */
  const TREE: Bytes := [52, 48, 48, 48, 48]

  /** A listed entry: mode text without leading zeros, and object id. */
  datatype Row = Row(mode: Bytes, oid: Oid)
  type Rows = map<Name, Row>

  predicate GoodName(name: Name) {
    name != [] && NUL !in name && SLASH !in name
  }

  predicate GoodMode(mode: Bytes) {
    SPACE !in mode
  }

  ghost predicate GoodNames(names: set<Name>) {
    forall name :: name in names ==> GoodName(name)
  }

  ghost predicate GoodRows(rows: Rows) {
    GoodNames(rows.Keys) && forall name :: name in rows ==> GoodMode(rows[name].mode)
  }

  // ---- order -----------------------------------------------------------------------------

  predicate Less(a: Bytes, b: Bytes) {
    b != [] && (a == [] || a[0] < b[0] || (a[0] == b[0] && Less(a[1..], b[1..])))
  }

  lemma {:induction false} LessTotal(a: Bytes, b: Bytes)
    ensures Less(a, b) || a == b || Less(b, a)
    ensures !(Less(a, b) && Less(b, a)) && !Less(a, a)
    decreases |a| + |b|
  {
    LessIrreflexive(a);
    if a != [] && b != [] {
      LessTotal(a[1..], b[1..]);
      if a[0] == b[0] && a[1..] == b[1..] {
        assert a == [a[0]] + a[1..] && b == [b[0]] + b[1..];
      }
    }
  }

  lemma {:induction false} LessIrreflexive(a: Bytes)
    ensures !Less(a, a)
  {
    if a != [] {
      LessIrreflexive(a[1..]);
    }
  }

  lemma {:induction false} LessTransitive(a: Bytes, b: Bytes, c: Bytes)
    requires Less(a, b) && Less(b, c)
    ensures Less(a, c)
  {
    if a != [] && a[0] == b[0] == c[0] {
      LessTransitive(a[1..], b[1..], c[1..]);
    }
  }

  /** The sort key of an entry: directories sort as if their name ended in a slash. */
  function SortKey(rows: Rows, name: Name): Bytes
    requires name in rows
  {
    name + (if rows[name].mode == TREE then [SLASH] else [])
  }

  /** Git's own comparison of tree entries: byte by byte, and past the end a directory counts as a slash
      and anything else as a zero byte. */
  predicate GitBefore(a: Name, aTree: bool, b: Name, bTree: bool) {
    if a != [] && b != [] && a[0] == b[0] then GitBefore(a[1..], aTree, b[1..], bTree)
    else
      var x: Byte := if a != [] then a[0] else if aTree then SLASH else NUL;
      var y: Byte := if b != [] then b[0] else if bTree then SLASH else NUL;
      x < y
  }

  /** Sorting by key is Git's order. */
  lemma {:induction false} KeyOrderIsGitOrder(a: Name, aTree: bool, b: Name, bTree: bool)
    requires NUL !in a && SLASH !in a && NUL !in b && SLASH !in b
    ensures Less(a + (if aTree then [SLASH] else []), b + (if bTree then [SLASH] else []))
        <==> GitBefore(a, aTree, b, bTree)
  {
    var ka, kb := a + (if aTree then [SLASH] else []), b + (if bTree then [SLASH] else []);
    if a != [] && b != [] && a[0] == b[0] {
      KeyOrderIsGitOrder(a[1..], aTree, b[1..], bTree);
      assert ka[1..] == a[1..] + (if aTree then [SLASH] else []);
      assert kb[1..] == b[1..] + (if bTree then [SLASH] else []);
    } else {
      assert ka != [] ==> ka[0] == (if a != [] then a[0] else SLASH);
      assert kb != [] ==> kb[0] == (if b != [] then b[0] else SLASH);
    }
  }

  lemma KeysDiffer(rows: Rows, a: Name, b: Name)
    requires a in rows && b in rows && SortKey(rows, a) == SortKey(rows, b) && GoodName(a) && GoodName(b)
    ensures a == b
  {
    var ka, kb := SortKey(rows, a), SortKey(rows, b);
    if |a| == |b| {
      assert a == ka[..|a|] && b == kb[..|b|];
    } else if |a| < |b| {
      LastIsSlash(b, ka);
    } else {
      LastIsSlash(a, kb);
    }
  }

  /** A name without slashes is no other name with a slash appended. */
  lemma LastIsSlash(name: Name, key: Bytes)
    requires SLASH !in name && |key| >= |name| > 0 && key[|name| - 1] == SLASH
    ensures key[..|name|] != name
  {
    assert key[..|name|][|name| - 1] == SLASH;
  }

  predicate Least(rows: Rows, names: set<Name>, a: Name)
    requires names <= rows.Keys
  {
    a in names && forall o :: o in names && o != a ==> Less(SortKey(rows, a), SortKey(rows, o))
  }

  /** The names in the order of their keys. */
  function Order(rows: Rows, names: set<Name>): (order: seq<Name>)
    requires GoodNames(rows.Keys) && names <= rows.Keys
    ensures |order| == |names| && (forall name :: name in order <==> name in names)
    decreases names
  {
    if names == {} then []
    else
      LeastExists(rows, names);
      LeastUnique(rows, names);
      var least :| Least(rows, names, least);
      [least] + Order(rows, names - {least})
  }

  lemma LeastUnique(rows: Rows, names: set<Name>)
    requires names <= rows.Keys
    ensures forall a, b :: Least(rows, names, a) && Least(rows, names, b) ==> a == b
  {
    forall a, b | a in names && b in names && a != b
      ensures !(Less(SortKey(rows, a), SortKey(rows, b)) && Less(SortKey(rows, b), SortKey(rows, a)))
    {
      LessTotal(SortKey(rows, a), SortKey(rows, b));
    }
  }

  lemma {:induction false} LeastExists(rows: Rows, names: set<Name>)
    requires GoodNames(rows.Keys) && names <= rows.Keys && names != {}
    ensures exists least :: Least(rows, names, least)
    decreases names
  {
    var a :| a in names;
    var rest := names - {a};
    var least := a;
    if rest != {} {
      LeastExists(rows, rest);
      var b :| Least(rows, rest, b);
      LessTotal(SortKey(rows, a), SortKey(rows, b));
      if SortKey(rows, a) == SortKey(rows, b) {
        KeysDiffer(rows, a, b);
      }
      if Less(SortKey(rows, b), SortKey(rows, a)) {
        least := b;
      } else {
        assert Less(SortKey(rows, a), SortKey(rows, b));
        forall o | o in rest && o != b ensures Less(SortKey(rows, a), SortKey(rows, o)) {
          LessTransitive(SortKey(rows, a), SortKey(rows, b), SortKey(rows, o));
        }
      }
    }
    forall o | o in names && o != least ensures Less(SortKey(rows, least), SortKey(rows, o)) {
      assert least == a ==> o in rest;
      assert least != a && o != a ==> o in rest;
    }
    assert Least(rows, names, least);
  }

  /** Each entry stands before all later ones in Git's order. */
  lemma {:induction false} OrderIsGitOrder(rows: Rows, names: set<Name>, i: nat, j: nat)
    requires GoodNames(rows.Keys) && names <= rows.Keys && i < j < |names|
    ensures var order := Order(rows, names);
      GitBefore(order[i], rows[order[i]].mode == TREE, order[j], rows[order[j]].mode == TREE)
    decreases names
  {
    var order := Order(rows, names);
    var least := order[0];
    if i == 0 {
      assert order[j] in names && order[j] in order[1..];
      KeyOrderIsGitOrder(least, rows[least].mode == TREE, order[j], rows[order[j]].mode == TREE);
    } else {
      OrderIsGitOrder(rows, names - {least}, i - 1, j - 1);
    }
  }

  // ---- encoding --------------------------------------------------------------------------

  function Encode(rows: Rows, order: seq<Name>): Bytes
    requires forall name :: name in order ==> name in rows
  {
    if order == [] then []
    else
      assert order[0] in order;
      EncodeEntry(order[0], rows[order[0]]) + Encode(rows, order[1..])
  }

  function EncodeEntry(name: Name, row: Row): Bytes {
    row.mode + [SPACE] + name + [NUL] + row.oid
  }

  function Digits(n: nat): Bytes {
    if n < 10 then [(48 + n) as Byte] else Digits(n / 10) + [(48 + n % 10) as Byte]
  }

  /** The bytes Git hashes for a tree: type, length, and the entries in order. */
  function TreeObject(rows: Rows): Bytes
    requires GoodNames(rows.Keys)
  {
    var payload := Encode(rows, Order(rows, rows.Keys));
    Header(|payload|) + [NUL] + payload
  }

  /** `tree `, and the decimal length. */
  function Header(length: nat): Bytes {
    [116, 114, 101, 101, 32] + Digits(length)
  }

  // ---- decoding --------------------------------------------------------------------------

  /** The bytes before the first `stop`, and the bytes after it. */
  function Cut(bytes: Bytes, stop: Byte): Option<(Bytes, Bytes)> {
    if bytes == [] then None
    else if bytes[0] == stop then Some(([], bytes[1..]))
    else
      match Cut(bytes[1..], stop)
      case None => None
      case Some((head, tail)) => Some(([bytes[0]] + head, tail))
  }

  lemma {:induction false} CutAt(head: Bytes, stop: Byte, tail: Bytes)
    requires stop !in head
    ensures Cut(head + [stop] + tail, stop) == Some((head, tail))
  {
    var bytes := head + [stop] + tail;
    if head == [] {
      assert bytes[1..] == tail;
    } else {
      CutAt(head[1..], stop, tail);
      assert bytes[1..] == head[1..] + [stop] + tail;
      assert head == [head[0]] + head[1..];
    }
  }

  /** Reads one entry off the front of a payload. */
  function DecodeEntry(payload: Bytes): Option<(Name, Row, Bytes)> {
    match Cut(payload, SPACE)
    case None => None
    case Some((mode, rest)) =>
      match Cut(rest, NUL)
      case None => None
      case Some((name, tail)) =>
        if |tail| < OID_LENGTH then None else Some((name, Row(mode, tail[..OID_LENGTH]), tail[OID_LENGTH..]))
  }

  lemma DecodesEntry(name: Name, row: Row, rest: Bytes)
    requires GoodName(name) && GoodMode(row.mode)
    ensures DecodeEntry(EncodeEntry(name, row) + rest) == Some((name, row, rest))
  {
    var afterName := row.oid + rest;
    var afterMode := name + [NUL] + afterName;
    assert EncodeEntry(name, row) + rest == row.mode + [SPACE] + afterMode;
    CutAt(row.mode, SPACE, afterMode);
    CutAt(name, NUL, afterName);
    assert afterName[..OID_LENGTH] == row.oid && afterName[OID_LENGTH..] == rest;
  }

  /** Two listings with the same payload are the same listing. */
  lemma {:induction false} PayloadExact(r: Rows, p: seq<Name>, s: Rows, q: seq<Name>)
    requires GoodRows(r) && GoodRows(s)
    requires (forall name :: name in p ==> name in r) && (forall name :: name in q ==> name in s)
    requires Encode(r, p) == Encode(s, q)
    ensures p == q && forall name :: name in p ==> r[name] == s[name]
    decreases |p|
  {
    if p != [] && q != [] {
      assert p[0] in p && q[0] in q;
      DecodesEntry(p[0], r[p[0]], Encode(r, p[1..]));
      DecodesEntry(q[0], s[q[0]], Encode(s, q[1..]));
      PayloadExact(r, p[1..], s, q[1..]);
      assert p == [p[0]] + p[1..] && q == [q[0]] + q[1..];
    }
  }

  /** The number that decimal digits show, read from the left. */
  function Shown(digits: Bytes, before: int): int {
    if digits == [] then before else Shown(digits[1..], 10 * before + digits[0] as int - 48)
  }

  lemma {:induction false} ShownOne(digits: Bytes, last: Byte, before: int)
    ensures Shown(digits + [last], before) == 10 * Shown(digits, before) + last as int - 48
  {
    if digits == [] {
      assert digits + [last] == [last] && [last][1..] == [];
    } else {
      assert (digits + [last])[1..] == digits[1..] + [last] && (digits + [last])[0] == digits[0];
      ShownOne(digits[1..], last, 10 * before + digits[0] as int - 48);
    }
  }

  /** The length is written in decimal digits, without a zero in front. */
  lemma {:induction false} DigitsExact(n: nat)
    ensures Shown(Digits(n), 0) == n && (forall b :: b in Digits(n) ==> 48 <= b <= 57)
    ensures |Digits(n)| > 0 && (n > 0 ==> Digits(n)[0] != 48) && (n == 0 ==> |Digits(n)| == 1)
  {
    if n < 10 {
      assert [(48 + n) as Byte][1..] == [];
    } else {
      DigitsExact(n / 10);
      ShownOne(Digits(n / 10), (48 + n % 10) as Byte, 0);
    }
  }

  lemma {:induction false} DigitsHaveNoNul(n: nat)
    ensures NUL !in Digits(n)
  {
    if n >= 10 {
      DigitsHaveNoNul(n / 10);
    }
  }

  /** A tree object determines its entries: names, modes and object ids. */
  lemma TreeObjectExact(r: Rows, s: Rows)
    requires GoodRows(r) && GoodRows(s) && TreeObject(r) == TreeObject(s)
    ensures r == s
  {
    var p, q := Order(r, r.Keys), Order(s, s.Keys);
    HeaderHasNoNul(|Encode(r, p)|);
    HeaderHasNoNul(|Encode(s, q)|);
    CutUnique(Header(|Encode(r, p)|), Encode(r, p), Header(|Encode(s, q)|), Encode(s, q));
    PayloadExact(r, p, s, q);
    forall name ensures name in r <==> name in s {
      assert name in p <==> name in r;
      assert name in q <==> name in s;
    }
    forall name | name in r ensures r[name] == s[name] {
      assert name in p;
    }
  }

  lemma HeaderHasNoNul(length: nat)
    ensures NUL !in Header(length)
  {
    DigitsHaveNoNul(length);
  }

  lemma CutUnique(g: Bytes, p: Bytes, h: Bytes, q: Bytes)
    requires g + [NUL] + p == h + [NUL] + q && NUL !in g && NUL !in h
    ensures p == q
  {
    CutAt(g, NUL, p);
    CutAt(h, NUL, q);
  }
}
