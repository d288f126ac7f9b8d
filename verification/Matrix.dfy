/** Matrix expansion: which rows a job runs with, after exclusions and inclusions. */
module Matrix {
  import opened Wrappers
  import opened Scalars

  /** A value of a matrix: a scalar, or JSON text of a collection. */
  datatype Cell = One(value: Scalar) | Many(json: string)

  type Row = map<string, Cell>

  datatype Dimension = Dimension(key: string, values: seq<Cell>)

  datatype Matrix = Matrix(dimensions: seq<Dimension>, excludes: seq<Row>, includes: seq<Row>)

  /** Python's equality of the decoded values: booleans are the numbers 0 and 1. */
  predicate Same(a: Cell, b: Cell) {
    if a.One? && b.One? then Number(a.value) == Number(b.value) else a == b
  }

  function Number(v: Scalar): Scalar {
    if v == Bool(true) then Num(1.0) else if v == Bool(false) then Num(0.0) else v
  }

  /** The value of a row, null where it has none. */
  function Get(row: Row, key: string): Cell {
    if key in row then row[key] else One(Null)
  }

  function Keys(dimensions: seq<Dimension>): set<string> {
    set i | 0 <= i < |dimensions| :: dimensions[i].key
  }

  // ---- the product of the dimensions -----------------------------------------------------

  /** Each row with each of these values in front; the last dimension varies fastest. */
  function Prefixed(key: string, values: seq<Cell>, rows: seq<Row>): seq<Row> {
    if values == [] then [] else With(key, values[0], rows) + Prefixed(key, values[1..], rows)
  }

  function With(key: string, value: Cell, rows: seq<Row>): (r: seq<Row>)
    ensures |r| == |rows|
  {
    seq(|rows|, i requires 0 <= i < |rows| => rows[i][key := value])
  }

  function Product(dimensions: seq<Dimension>): seq<Row> {
    if dimensions == [] then [map[]]
    else Prefixed(dimensions[0].key, dimensions[0].values, Product(dimensions[1..]))
  }

  predicate Excludes(excluded: Row, row: Row) {
    forall key :: key in excluded ==> Same(Get(row, key), excluded[key])
  }

  function Kept(rows: seq<Row>, excludes: seq<Row>): seq<Row> {
    if rows == [] then []
    else
      (if Excluded(rows[0], excludes) then [] else [rows[0]])
      + Kept(rows[1..], excludes)
  }

  /** The rows before any include: one per element of the product that no exclusion matches. */
  function Originals(m: Matrix): seq<Row> {
    if m.dimensions == [] then [] else Kept(Product(m.dimensions), m.excludes)
  }

  ghost predicate DistinctKeys(dimensions: seq<Dimension>) {
    forall i, j :: 0 <= i < j < |dimensions| ==> dimensions[i].key != dimensions[j].key
  }

  /** A row takes one value of each dimension, and nothing else. */
  ghost predicate Element(dimensions: seq<Dimension>, row: Row) {
    && row.Keys == Keys(dimensions)
    && forall i :: 0 <= i < |dimensions| ==> dimensions[i].key in row && row[dimensions[i].key] in dimensions[i].values
  }

  lemma KeysSplit(dimensions: seq<Dimension>)
    requires dimensions != []
    ensures Keys(dimensions) == {dimensions[0].key} + Keys(dimensions[1..])
  {
    forall key ensures key in Keys(dimensions) <==> key in {dimensions[0].key} + Keys(dimensions[1..]) {
      if i :| 0 <= i < |dimensions| && dimensions[i].key == key {
        assert i > 0 ==> dimensions[1..][i - 1].key == key;
      }
      if i :| 0 <= i < |dimensions[1..]| && dimensions[1..][i].key == key {
        assert dimensions[i + 1].key == key;
      }
    }
  }

  ghost predicate Extends(row: Row, key: string, values: seq<Cell>, rows: seq<Row>) {
    exists v :: v in values && ExtendsBy(row, key, v, rows)
  }

  ghost predicate ExtendsBy(row: Row, key: string, value: Cell, rows: seq<Row>) {
    exists rest :: rest in rows && row == rest[key := value]
  }

  lemma {:induction false} PrefixedExact(key: string, values: seq<Cell>, rows: seq<Row>, row: Row)
    ensures row in Prefixed(key, values, rows) <==> Extends(row, key, values, rows)
  {
    if values != [] {
      PrefixedExact(key, values[1..], rows, row);
      WithExact(key, values[0], rows, row);
      if v :| v in values && ExtendsBy(row, key, v, rows) {
        assert v == values[0] || v in values[1..];
      }
      if v :| v in values[1..] && ExtendsBy(row, key, v, rows) {
        assert v in values;
      }
    }
  }

  lemma WithExact(key: string, value: Cell, rows: seq<Row>, row: Row)
    ensures row in With(key, value, rows) <==> ExtendsBy(row, key, value, rows)
  {
    if i :| 0 <= i < |rows| && With(key, value, rows)[i] == row {
      assert rows[i] in rows;
    }
    if rest :| rest in rows && row == rest[key := value] {
      var i :| 0 <= i < |rows| && rows[i] == rest;
      assert With(key, value, rows)[i] == row;
    }
  }

  /** The product holds exactly the rows that take one value of each dimension. */
  lemma {:induction false} ProductExact(dimensions: seq<Dimension>, row: Row)
    requires DistinctKeys(dimensions)
    ensures row in Product(dimensions) <==> Element(dimensions, row)
  {
    if dimensions == [] {
      assert Element(dimensions, row) <==> row == map[];
    } else {
      var first, more := dimensions[0], dimensions[1..];
      var rest := row - {first.key};
      ProductExact(more, rest);
      PrefixedExact(first.key, first.values, Product(more), row);
      KeysSplit(dimensions);
      if Element(dimensions, row) {
        ElementBelow(dimensions, row);
        assert row == rest[first.key := row[first.key]];
        assert ExtendsBy(row, first.key, row[first.key], Product(more));
      }
      if row in Product(dimensions) {
        var v :| v in first.values && ExtendsBy(row, first.key, v, Product(more));
        var r :| r in Product(more) && row == r[first.key := v];
        ProductExact(more, r);
        ElementAbove(dimensions, r, v);
      }
    }
  }

  lemma ElementBelow(dimensions: seq<Dimension>, row: Row)
    requires dimensions != [] && DistinctKeys(dimensions) && Element(dimensions, row)
    ensures Element(dimensions[1..], row - {dimensions[0].key})
  {
    KeysSplit(dimensions);
    var more := dimensions[1..];
    assert dimensions[0].key !in Keys(more);
    forall i | 0 <= i < |more| ensures row[more[i].key] in more[i].values && more[i].key in row {
      assert more[i] == dimensions[i + 1];
    }
  }

  lemma ElementAbove(dimensions: seq<Dimension>, rest: Row, v: Cell)
    requires dimensions != [] && DistinctKeys(dimensions) && Element(dimensions[1..], rest) && v in dimensions[0].values
    ensures Element(dimensions, rest[dimensions[0].key := v])
  {
    KeysSplit(dimensions);
    var row := rest[dimensions[0].key := v];
    forall i | 0 <= i < |dimensions|
      ensures dimensions[i].key in row && row[dimensions[i].key] in dimensions[i].values
    {
      if i > 0 {
        assert dimensions[i] == dimensions[1..][i - 1];
      }
    }
  }

  // ---- the order of the product ----------------------------------------------------------

  function Size(dimensions: seq<Dimension>): nat {
    if dimensions == [] then 1 else |dimensions[0].values| * Size(dimensions[1..])
  }

  /** A choice names one value of each dimension by its index. */
  predicate Choice(dimensions: seq<Dimension>, at: seq<nat>) {
    |at| == |dimensions| && forall k :: 0 <= k < |at| ==> at[k] < |dimensions[k].values|
  }

  function Chosen(dimensions: seq<Dimension>, at: seq<nat>): Row
    requires Choice(dimensions, at)
  {
    if dimensions == [] then map[]
    else Chosen(dimensions[1..], at[1..])[dimensions[0].key := dimensions[0].values[at[0]]]
  }

  /** The place of a choice among all choices. */
  function Place(dimensions: seq<Dimension>, at: seq<nat>): nat
    requires Choice(dimensions, at)
  {
    if dimensions == [] then 0 else at[0] * Size(dimensions[1..]) + Place(dimensions[1..], at[1..])
  }

  predicate Before(a: seq<nat>, b: seq<nat>)
    requires |a| == |b|
  {
    a != [] && (a[0] < b[0] || (a[0] == b[0] && Before(a[1..], b[1..])))
  }

  lemma {:induction false} PrefixedAt(key: string, values: seq<Cell>, rows: seq<Row>, i: nat, j: nat)
    requires i < |values| && j < |rows|
    ensures |Prefixed(key, values, rows)| == |values| * |rows| && i * |rows| + j < |values| * |rows|
    ensures Prefixed(key, values, rows)[i * |rows| + j] == rows[j][key := values[i]]
  {
    PrefixedSize(key, values, rows);
    Within(i, |values|, j, |rows|);
    if i > 0 {
      PrefixedAt(key, values[1..], rows, i - 1, j);
      assert i * |rows| == |rows| + (i - 1) * |rows|;
    }
  }

  lemma {:induction false} PrefixedSize(key: string, values: seq<Cell>, rows: seq<Row>)
    ensures |Prefixed(key, values, rows)| == |values| * |rows|
  {
    if values != [] {
      PrefixedSize(key, values[1..], rows);
      assert |values| * |rows| == |rows| + (|values| - 1) * |rows|;
    }
  }

  lemma Within(i: nat, m: nat, j: nat, n: nat)
    requires i < m && j < n
    ensures i * n + j < m * n
  {
    assert (i + 1) * n <= m * n;
  }

  lemma {:induction false} ProductSize(dimensions: seq<Dimension>)
    ensures |Product(dimensions)| == Size(dimensions)
  {
    if dimensions != [] {
      ProductSize(dimensions[1..]);
      PrefixedSize(dimensions[0].key, dimensions[0].values, Product(dimensions[1..]));
    }
  }

  /** The row of a choice stands at its place. */
  lemma {:induction false} ProductAt(dimensions: seq<Dimension>, at: seq<nat>)
    requires Choice(dimensions, at)
    ensures Place(dimensions, at) < |Product(dimensions)|
    ensures Product(dimensions)[Place(dimensions, at)] == Chosen(dimensions, at)
  {
    if dimensions != [] {
      var first, more := dimensions[0], dimensions[1..];
      ProductAt(more, at[1..]);
      ProductSize(more);
      PrefixedAt(first.key, first.values, Product(more), at[0], Place(more, at[1..]));
    }
  }

  /** Every place is that of a choice. */
  lemma {:induction false} PlaceOnto(dimensions: seq<Dimension>, i: nat) returns (at: seq<nat>)
    requires i < Size(dimensions)
    ensures Choice(dimensions, at) && Place(dimensions, at) == i
  {
    if dimensions == [] {
      at := [];
    } else {
      var n := Size(dimensions[1..]);
      DivideWithin(i, |dimensions[0].values|, n);
      var rest := PlaceOnto(dimensions[1..], i % n);
      at := [i / n] + rest;
      assert at[1..] == rest;
    }
  }

  lemma DivideWithin(i: nat, m: nat, n: nat)
    requires i < m * n
    ensures 0 < n && i / n < m && i % n < n && i == (i / n) * n + i % n
  {
    assert n == 0 ==> m * n == 0;
    AtLeast(i / n, m, n);
  }

  lemma AtLeast(a: nat, b: nat, n: nat)
    ensures a >= b ==> a * n >= b * n
  {
  }

  /** The places follow the choices in order: the first dimension counts most, the last one varies fastest. */
  lemma {:induction false} PlaceOrder(dimensions: seq<Dimension>, a: seq<nat>, b: seq<nat>)
    requires Choice(dimensions, a) && Choice(dimensions, b)
    ensures Place(dimensions, a) < Place(dimensions, b) <==> Before(a, b)
  {
    if dimensions != [] {
      var more := dimensions[1..];
      PlaceOrder(more, a[1..], b[1..]);
      ProductAt(more, a[1..]);
      ProductAt(more, b[1..]);
      ProductSize(more);
      OrderByFirst(a[0], Place(more, a[1..]), b[0], Place(more, b[1..]), Size(more));
    }
  }

  lemma OrderByFirst(a: nat, i: nat, b: nat, j: nat, n: nat)
    requires i < n && j < n
    ensures a * n + i < b * n + j <==> a < b || (a == b && i < j)
  {
    if a < b {
      assert (a + 1) * n <= b * n;
    } else if b < a {
      assert (b + 1) * n <= a * n;
    }
  }

  predicate Excluded(row: Row, excludes: seq<Row>) {
    exists i :: 0 <= i < |excludes| && Excludes(excludes[i], row)
  }

  /** These are the indices of the rows that no exclusion matches, in order. */
  ghost predicate Keeps(rows: seq<Row>, excludes: seq<Row>, kept: seq<nat>) {
    && (forall i, j :: 0 <= i < j < |kept| ==> kept[i] < kept[j])
    && (forall i: nat :: i in kept <==> i < |rows| && !Excluded(rows[i], excludes))
  }

  /** What is kept is kept in order, and nothing else goes. */
  lemma {:induction false} KeptAt(rows: seq<Row>, excludes: seq<Row>) returns (kept: seq<nat>)
    ensures Keeps(rows, excludes, kept) && |kept| == |Kept(rows, excludes)|
    ensures forall j :: 0 <= j < |kept| ==> kept[j] < |rows| && Kept(rows, excludes)[j] == rows[kept[j]]
  {
    if rows == [] {
      kept := [];
    } else {
      var rest := KeptAt(rows[1..], excludes);
      kept := (if Excluded(rows[0], excludes) then [] else [0]) + Shifted(rest);
      KeepsShifted(rows, excludes, rest);
      KeptShifted(rows, excludes, rest);
    }
  }

  lemma KeptShifted(rows: seq<Row>, excludes: seq<Row>, rest: seq<nat>)
    requires rows != [] && |rest| == |Kept(rows[1..], excludes)|
    requires forall j :: 0 <= j < |rest| ==> rest[j] < |rows[1..]| && Kept(rows[1..], excludes)[j] == rows[1..][rest[j]]
    ensures var kept := (if Excluded(rows[0], excludes) then [] else [0]) + Shifted(rest);
      && |kept| == |Kept(rows, excludes)|
      && forall j :: 0 <= j < |kept| ==> kept[j] < |rows| && Kept(rows, excludes)[j] == rows[kept[j]]
  {
  }

  lemma KeepsShifted(rows: seq<Row>, excludes: seq<Row>, rest: seq<nat>)
    requires rows != [] && Keeps(rows[1..], excludes, rest)
    ensures Keeps(rows, excludes, (if Excluded(rows[0], excludes) then [] else [0]) + Shifted(rest))
  {
    var first: seq<nat> := if Excluded(rows[0], excludes) then [] else [0];
    var kept := first + Shifted(rest);
    ShiftedHas(rest);
    forall i: nat ensures i in kept <==> i < |rows| && !Excluded(rows[i], excludes) {
      assert i in kept <==> i in first || i in Shifted(rest);
      if i > 0 {
        assert i in kept <==> i - 1 in rest;
        assert i < |rows| ==> rows[i] == rows[1..][i - 1];
      }
    }
  }

  function Shifted(indices: seq<nat>): (s: seq<nat>)
    ensures |s| == |indices| && forall j :: 0 <= j < |s| ==> s[j] == indices[j] + 1
  {
    seq(|indices|, j requires 0 <= j < |indices| => indices[j] + 1)
  }

  lemma ShiftedHas(indices: seq<nat>)
    ensures 0 !in Shifted(indices) && forall i: nat :: i > 0 ==> (i in Shifted(indices) <==> i - 1 in indices)
  {
    forall i: nat | i > 0 ensures i in Shifted(indices) <==> i - 1 in indices {
      if i - 1 in indices {
        var j :| 0 <= j < |indices| && indices[j] == i - 1;
        assert Shifted(indices)[j] == i;
      }
    }
  }

  // ---- includes --------------------------------------------------------------------------

  /** An addition fits a row unless it would change a dimension of it. */
  predicate Fits(addition: Row, row: Row, dims: set<string>) {
    forall key :: key in addition && key in dims ==> Same(Get(row, key), addition[key])
  }

  predicate FitsAny(addition: Row, rows: seq<Row>, dims: set<string>) {
    exists i :: 0 <= i < |rows| && Fits(addition, rows[i], dims)
  }

  function Added(rows: seq<Row>, addition: Row, dims: set<string>): (r: seq<Row>)
    ensures |r| == |rows|
  {
    seq(|rows|, i requires 0 <= i < |rows| => if Fits(addition, rows[i], dims) then rows[i] + addition else rows[i])
  }

  /** The rows after the includes, one include after the other. */
  function Included(rows: seq<Row>, includes: seq<Row>, dims: set<string>): seq<Row> {
    if includes == [] then rows
    else
      var last := includes[|includes| - 1];
      var before := Included(rows, includes[..|includes| - 1], dims);
      Added(before, last, dims) + (if FitsAny(last, before, dims) then [] else [last])
  }

  function Rows(m: Matrix): seq<Row> {
    Included(Originals(m), m.includes, Keys(m.dimensions))
  }

  /** Extends every row the addition fits, in place. */
  method AddToFitting(before: seq<Row>, addition: Row, dims: set<string>) returns (rows: seq<Row>, matched: bool)
    ensures rows == Added(before, addition, dims) && (matched <==> FitsAny(addition, before, dims))
  {
    rows, matched := before, false;
    for j := 0 to |rows|
      invariant |rows| == |before|
      invariant forall k :: 0 <= k < |rows| ==> rows[k] == if k < j then Added(before, addition, dims)[k] else before[k]
      invariant matched <==> exists k :: 0 <= k < j && Fits(addition, before[k], dims)
    {
      if Fits(addition, rows[j], dims) {
        rows := rows[j := rows[j] + addition];
        matched := true;
      }
    }
  }

  /** An include that fits no row becomes a row of its own. */
  method Expand(m: Matrix) returns (rows: seq<Row>)
    ensures rows == Rows(m)
  {
    rows := Originals(m);
    for i := 0 to |m.includes|
      invariant rows == Included(Originals(m), m.includes[..i], Keys(m.dimensions))
    {
      assert m.includes[..i + 1][..i] == m.includes[..i];
      var added, matched := AddToFitting(rows, m.includes[i], Keys(m.dimensions));
      rows := added + (if matched then [] else [m.includes[i]]);
    }
    assert m.includes[..|m.includes|] == m.includes;
  }

  // ---- what the rows are -----------------------------------------------------------------

  /** Where a row starts: an original, before every include, or an include, before the later ones. */
  datatype Seed = Seed(row: Row, from: nat)

  /** A seed with every later include that fits the seed itself. */
  function Grown(seed: Seed, includes: seq<Row>, dims: set<string>): Row {
    if |includes| <= seed.from then seed.row
    else
      var last := includes[|includes| - 1];
      var before := Grown(seed, includes[..|includes| - 1], dims);
      if Fits(last, seed.row, dims) then before + last else before
  }

  function Planted(rows: seq<Row>): seq<Seed> {
    seq(|rows|, i requires 0 <= i < |rows| => Seed(rows[i], 0))
  }

  predicate FitsSeed(addition: Row, seeds: seq<Seed>, dims: set<string>) {
    exists i :: 0 <= i < |seeds| && Fits(addition, seeds[i].row, dims)
  }

  /** The originals, and then every include that fits no seed before it. */
  function Seeds(rows: seq<Row>, includes: seq<Row>, dims: set<string>): seq<Seed> {
    if includes == [] then Planted(rows)
    else
      var n := |includes| - 1;
      var before := Seeds(rows, includes[..n], dims);
      before + (if FitsSeed(includes[n], before, dims) then [] else [Seed(includes[n], n + 1)])
  }

  function GrownAll(seeds: seq<Seed>, includes: seq<Row>, dims: set<string>): (rows: seq<Row>)
    ensures |rows| == |seeds|
  {
    seq(|seeds|, i requires 0 <= i < |seeds| => Grown(seeds[i], includes, dims))
  }

  /** Two rows agree on the dimensions. */
  ghost predicate Agree(a: Row, b: Row, dims: set<string>) {
    forall key :: key in dims ==> Same(Get(a, key), Get(b, key))
  }

  lemma AgreeFits(a: Row, b: Row, addition: Row, dims: set<string>)
    requires Agree(a, b, dims)
    ensures Fits(addition, a, dims) <==> Fits(addition, b, dims)
  {
    forall key | key in addition && key in dims
      ensures Same(Get(a, key), addition[key]) <==> Same(Get(b, key), addition[key])
    {
    }
  }

  /** Whatever the includes do, a row agrees with its seed on every dimension. */
  lemma {:induction false} GrownAgrees(seed: Seed, includes: seq<Row>, dims: set<string>)
    ensures Agree(Grown(seed, includes, dims), seed.row, dims)
  {
    if seed.from < |includes| {
      var last, before := includes[|includes| - 1], includes[..|includes| - 1];
      GrownAgrees(seed, before, dims);
      if Fits(last, seed.row, dims) {
        forall key | key in dims ensures Same(Get(Grown(seed, includes, dims), key), Get(seed.row, key)) {
        }
      }
    }
  }

  lemma {:induction false} SeedsEarly(rows: seq<Row>, includes: seq<Row>, dims: set<string>)
    ensures forall i :: 0 <= i < |Seeds(rows, includes, dims)| ==> Seeds(rows, includes, dims)[i].from <= |includes|
  {
    if includes != [] {
      SeedsEarly(rows, includes[..|includes| - 1], dims);
    }
  }

  /** The expansion, exactly: one row per seed, and each row is its seed with every later include that fits the
      seed. So an include never depends on what earlier includes added. */
  lemma {:induction false} RowsExact(rows: seq<Row>, includes: seq<Row>, dims: set<string>)
    ensures Included(rows, includes, dims) == GrownAll(Seeds(rows, includes, dims), includes, dims)
  {
    var seeds := Seeds(rows, includes, dims);
    if includes == [] {
      assert Included(rows, includes, dims) == rows;
    } else {
      var n := |includes| - 1;
      var last, before := includes[n], includes[..n];
      var early := Seeds(rows, before, dims);
      RowsExact(rows, before, dims);
      SeedsEarly(rows, before, dims);
      var grown := GrownAll(early, before, dims);
      forall i | 0 <= i < |early|
        ensures Fits(last, grown[i], dims) <==> Fits(last, early[i].row, dims)
        ensures Added(grown, last, dims)[i] == Grown(early[i], includes, dims)
      {
        GrownAgrees(early[i], before, dims);
        AgreeFits(grown[i], early[i].row, last, dims);
      }
      SameFit(last, grown, early, dims);
    }
  }

  lemma SameFit(addition: Row, rows: seq<Row>, seeds: seq<Seed>, dims: set<string>)
    requires |rows| == |seeds|
    requires forall i :: 0 <= i < |rows| ==> (Fits(addition, rows[i], dims) <==> Fits(addition, seeds[i].row, dims))
    ensures FitsAny(addition, rows, dims) <==> FitsSeed(addition, seeds, dims)
  {
    if i :| 0 <= i < |rows| && Fits(addition, rows[i], dims) {
      assert Fits(addition, seeds[i].row, dims);
    }
    if i :| 0 <= i < |seeds| && Fits(addition, seeds[i].row, dims) {
      assert Fits(addition, rows[i], dims);
    }
  }

  lemma {:induction false} SeedsStart(rows: seq<Row>, includes: seq<Row>, dims: set<string>)
    ensures |rows| <= |Seeds(rows, includes, dims)|
    ensures forall i :: 0 <= i < |rows| ==> Seeds(rows, includes, dims)[i] == Seed(rows[i], 0)
  {
    if includes != [] {
      SeedsStart(rows, includes[..|includes| - 1], dims);
    }
  }

  /** The rows of a matrix begin with its originals, in order, each agreeing with its original on every dimension
      and holding the includes that fit the original. */
  lemma OriginalsFirst(m: Matrix, i: nat)
    requires i < |Originals(m)|
    ensures |Originals(m)| <= |Rows(m)|
    ensures Rows(m)[i] == Grown(Seed(Originals(m)[i], 0), m.includes, Keys(m.dimensions))
    ensures Agree(Rows(m)[i], Originals(m)[i], Keys(m.dimensions))
  {
    var dims := Keys(m.dimensions);
    RowsExact(Originals(m), m.includes, dims);
    SeedsStart(Originals(m), m.includes, dims);
    GrownAgrees(Seed(Originals(m)[i], 0), m.includes, dims);
  }

  /** No original and no earlier include takes this include. */
  predicate Alone(rows: seq<Row>, includes: seq<Row>, dims: set<string>, j: nat)
    requires j < |includes|
  {
    !FitsAny(includes[j], rows, dims) && forall i :: 0 <= i < j ==> !Fits(includes[j], includes[i], dims)
  }

  lemma {:induction false} SeedsCount(rows: seq<Row>, includes: seq<Row>, dims: set<string>)
    ensures |Seeds(rows, includes, dims)| <= |rows| + |includes|
    ensures |Seeds(rows, includes, dims)| == |rows| + |includes| ==>
              forall i :: 0 <= i < |includes| ==> Seeds(rows, includes, dims)[|rows| + i].row == includes[i]
    ensures |Seeds(rows, includes, dims)| == |rows| + |includes| <==>
            forall j :: 0 <= j < |includes| ==> Alone(rows, includes, dims, j)
  {
    if includes != [] {
      var n := |includes| - 1;
      var rest := includes[..n];
      SeedsCount(rows, rest, dims);
      SeedsStart(rows, rest, dims);
      forall j | 0 <= j < n ensures Alone(rows, includes, dims, j) <==> Alone(rows, rest, dims, j) {
        assert forall i :: 0 <= i <= j ==> includes[i] == rest[i];
      }
      if |Seeds(rows, rest, dims)| == |rows| + n {
        LastSeed(rows, includes, dims);
      }
    }
  }

  /** When every earlier include has a row of its own, the last one gets one exactly when none takes it. */
  lemma LastSeed(rows: seq<Row>, includes: seq<Row>, dims: set<string>)
    requires includes != []
    requires var n := |includes| - 1; var seeds := Seeds(rows, includes[..n], dims);
      |seeds| == |rows| + n && (forall i :: 0 <= i < |rows| ==> seeds[i] == Seed(rows[i], 0))
      && forall i :: 0 <= i < n ==> seeds[|rows| + i].row == includes[..n][i]
    ensures var n := |includes| - 1;
      FitsSeed(includes[n], Seeds(rows, includes[..n], dims), dims) <==> !Alone(rows, includes, dims, n)
  {
    var n := |includes| - 1;
    SeedsFit(rows, includes[..n], Seeds(rows, includes[..n], dims), includes[n], dims);
    assert forall i :: 0 <= i < n ==> includes[..n][i] == includes[i];
  }

  /** The rows of the seeds are the originals and the includes. */
  lemma SeedsFit(rows: seq<Row>, before: seq<Row>, seeds: seq<Seed>, last: Row, dims: set<string>)
    requires |seeds| == |rows| + |before| && forall i :: 0 <= i < |rows| ==> seeds[i].row == rows[i]
    requires forall i :: 0 <= i < |before| ==> seeds[|rows| + i].row == before[i]
    ensures FitsSeed(last, seeds, dims) <==>
            FitsAny(last, rows, dims) || exists i :: 0 <= i < |before| && Fits(last, before[i], dims)
  {
    if i :| 0 <= i < |rows| && Fits(last, rows[i], dims) {
      assert Fits(last, seeds[i].row, dims);
    }
    if i :| 0 <= i < |before| && Fits(last, before[i], dims) {
      assert Fits(last, seeds[|rows| + i].row, dims);
    }
    if i :| 0 <= i < |seeds| && Fits(last, seeds[i].row, dims) {
      assert i >= |rows| ==> Fits(last, before[i - |rows|], dims);
    }
  }

  /** Every include has a row of its own exactly when no original and no earlier include takes it. */
  lemma IncludesApart(m: Matrix)
    ensures |Rows(m)| <= |Originals(m)| + |m.includes|
    ensures |Rows(m)| == |Originals(m)| + |m.includes| <==>
            forall j :: 0 <= j < |m.includes| ==> Alone(Originals(m), m.includes, Keys(m.dimensions), j)
  {
    RowsExact(Originals(m), m.includes, Keys(m.dimensions));
    SeedsCount(Originals(m), m.includes, Keys(m.dimensions));
  }

  /** A matrix of includes alone has one row, whatever their number: without dimensions every include takes every
      later one. */
  lemma IncludesCollapse(m: Matrix)
    requires m.dimensions == [] && m.includes != []
    ensures |Rows(m)| == 1
  {
    RowsExact([], m.includes, {});
    OneSeed(m.includes);
    assert Keys(m.dimensions) == {};
  }

  lemma {:induction false} OneSeed(includes: seq<Row>)
    requires includes != []
    ensures |Seeds([], includes, {})| == 1
  {
    var n := |includes| - 1;
    if n == 0 {
      assert Seeds([], includes[..0], {}) == [];
      assert !FitsSeed(includes[0], [], {});
    } else {
      OneSeed(includes[..n]);
      assert Fits(includes[n], Seeds([], includes[..n], {})[0].row, {});
    }
  }

  /** An include that would put an equal but different value over a dimension of this row. */
  predicate Retypes(addition: Row, row: Row, dims: set<string>) {
    Fits(addition, row, dims) && exists key :: key in addition && key in dims && addition[key] != Get(row, key)
  }

  ghost predicate Untouched(seed: Seed, includes: seq<Row>, dims: set<string>, n: nat)
    requires n <= |includes|
  {
    forall key :: key in dims ==> Get(Grown(seed, includes[..n], dims), key) == Get(seed.row, key)
  }

  /** Agreement is not identity: Python takes `true` for 1, so an include may turn a number of a dimension into a
      boolean. The dimensions stay untouched at every point exactly when no include does that. */
  lemma DimensionsUntouched(seed: Seed, includes: seq<Row>, dims: set<string>)
    ensures (forall n: nat :: n <= |includes| ==> Untouched(seed, includes, dims, n))
       <==> (forall j: nat :: seed.from <= j < |includes| ==> !Retypes(includes[j], seed.row, dims))
  {
    if forall n: nat :: n <= |includes| ==> Untouched(seed, includes, dims, n) {
      forall j: nat | seed.from <= j < |includes| ensures !Retypes(includes[j], seed.row, dims) {
        assert Untouched(seed, includes, dims, j + 1);
        assert includes[..j + 1][..j] == includes[..j];
      }
    }
    if forall j: nat :: seed.from <= j < |includes| ==> !Retypes(includes[j], seed.row, dims) {
      forall n: nat | n <= |includes| ensures Untouched(seed, includes, dims, n) {
        UntouchedUpTo(seed, includes, dims, n);
      }
    }
  }

  lemma {:induction false} UntouchedUpTo(seed: Seed, includes: seq<Row>, dims: set<string>, n: nat)
    requires n <= |includes|
    requires forall j: nat :: seed.from <= j < |includes| ==> !Retypes(includes[j], seed.row, dims)
    ensures Untouched(seed, includes, dims, n)
  {
    if seed.from < n {
      UntouchedUpTo(seed, includes, dims, n - 1);
      assert includes[..n][..n - 1] == includes[..n - 1];
      assert !Retypes(includes[n - 1], seed.row, dims);
    }
  }

  lemma DimensionRetyped()
    ensures var m := Matrix([Dimension("size", [One(Num(1.0))])], [], [map["size" := One(Bool(true))]]);
      Rows(m) == [map["size" := One(Bool(true))]] && Originals(m) == [map["size" := One(Num(1.0))]]
  {
    var addition: Row := map["size" := One(Bool(true))];
    var d := Dimension("size", [One(Num(1.0))]);
    var m := Matrix([d], [], [addition]);
    var row: Row := map["size" := One(Num(1.0))];
    assert Product([]) == [map[]];
    assert With("size", d.values[0], [map[]]) == [row];
    assert Prefixed("size", [], [map[]]) == [];
    assert d.values[1..] == [];
    assert Product(m.dimensions) == [row];
    assert Kept([row], []) == [row];
    assert Keys(m.dimensions) == {"size"} by {
      KeysSplit(m.dimensions);
      assert Keys(m.dimensions[1..]) == {};
    }
    assert Fits(addition, row, {"size"});
    assert Included([row], [], {"size"}) == [row];
    assert row + addition == addition;
    assert Added([row], addition, {"size"}) == [addition];
    assert m.includes[..0] == [];
    assert Included([row], m.includes, {"size"}) == [addition];
  }

  // ---- the cells of a row ----------------------------------------------------------------

  /** A flag counts as 1 or 0, a number as itself. */
  ghost predicate CountsAs(c: Cell, x: real) {
    c == One(Num(x)) || (c == One(Bool(true)) && x == 1.0) || (c == One(Bool(false)) && x == 0.0)
  }

  /** Python's equality: the same value, or flags and numbers that count the same. */
  ghost predicate Equal(a: Cell, b: Cell) {
    a == b || exists x :: CountsAs(a, x) && CountsAs(b, x)
  }

  lemma SameExact(a: Cell, b: Cell)
    ensures Same(a, b) <==> Equal(a, b)
  {
    if Same(a, b) && a != b {
      var x := Number(a.value).n;
      assert CountsAs(a, x) && CountsAs(b, x);
    }
  }

  /** What a row has under a key, or null. */
  ghost predicate Has(row: Row, key: string, c: Cell) {
    if key in row then c == row[key] else c == One(Null)
  }

  /** The row has the value of every one of these keys of the other row. */
  ghost predicate Matches(row: Row, other: Row, keys: set<string>) {
    forall key, c :: key in other && key in keys && Has(row, key, c) ==> Equal(c, other[key])
  }

  /** An exclusion matches a row with all its keys, */
  lemma ExcludedExact(row: Row, excludes: seq<Row>)
    ensures Excluded(row, excludes) <==> exists e :: e in excludes && Matches(row, e, e.Keys)
  {
    forall e ensures Excludes(e, row) <==> Matches(row, e, e.Keys) {
      MatchesExact(row, e, e.Keys);
    }
  }

  lemma MatchesExact(row: Row, other: Row, keys: set<string>)
    ensures Matches(row, other, keys) <==> forall key :: key in other && key in keys ==> Same(Get(row, key), other[key])
  {
    forall key | key in other ensures Same(Get(row, key), other[key]) <==> Equal(Get(row, key), other[key]) {
      SameExact(Get(row, key), other[key]);
    }
    assert forall key :: Has(row, key, Get(row, key));
  }

  /** and an include with those that are dimensions. */
  lemma FitsExact(addition: Row, row: Row, dims: set<string>)
    ensures Fits(addition, row, dims) <==> Matches(row, addition, dims)
  {
    MatchesExact(row, addition, dims);
  }

  /** An include after the start of a row that matches this start sets this key. */
  ghost predicate Sets(seed: Seed, includes: seq<Row>, dims: set<string>, key: string, j: nat) {
    seed.from <= j < |includes| && Matches(seed.row, includes[j], dims) && key in includes[j]
  }

  ghost predicate LastSets(seed: Seed, includes: seq<Row>, dims: set<string>, key: string, j: nat) {
    && Sets(seed, includes, dims, key, j)
    && forall i: nat :: i > j ==> !Sets(seed, includes, dims, key, i)
  }

  /** The value of a row under a key: that of the last include that sets it, or of its start. */
  ghost predicate CellIs(seed: Seed, includes: seq<Row>, dims: set<string>, key: string, c: Cell) {
    if exists j: nat :: Sets(seed, includes, dims, key, j) then
      exists j: nat :: LastSets(seed, includes, dims, key, j) && c == includes[j][key]
    else key in seed.row && c == seed.row[key]
  }

  lemma {:induction false} CellsExact(seed: Seed, includes: seq<Row>, dims: set<string>, key: string, c: Cell)
    ensures key in Grown(seed, includes, dims) && Grown(seed, includes, dims)[key] == c <==>
            CellIs(seed, includes, dims, key, c)
    decreases |includes|
  {
    if |includes| > seed.from {
      var n := |includes| - 1;
      CellsExact(seed, includes[..n], dims, key, c);
      FitsExact(includes[n], seed.row, dims);
      CellGrows(seed, includes, dims, key, c);
    }
  }

  lemma CellGrows(seed: Seed, includes: seq<Row>, dims: set<string>, key: string, c: Cell)
    requires |includes| > seed.from
    ensures var n := |includes| - 1;
      CellIs(seed, includes, dims, key, c) <==>
      if Sets(seed, includes, dims, key, n) then c == includes[n][key] else CellIs(seed, includes[..n], dims, key, c)
  {
    var n := |includes| - 1;
    var before := includes[..n];
    if Sets(seed, includes, dims, key, n) {
      assert LastSets(seed, includes, dims, key, n);
      forall j: nat | LastSets(seed, includes, dims, key, j) ensures j == n {
      }
    } else {
      forall j: nat ensures Sets(seed, includes, dims, key, j) <==> Sets(seed, before, dims, key, j) {
        assert j < n ==> before[j] == includes[j];
      }
      forall j: nat ensures LastSets(seed, includes, dims, key, j) <==> LastSets(seed, before, dims, key, j) {
      }
    }
  }

  /** Cell by cell, what a row of the matrix that starts from an element of the product holds. */
  lemma OriginalCells(m: Matrix, i: nat, key: string, c: Cell)
    requires i < |Originals(m)|
    ensures i < |Rows(m)|
    ensures key in Rows(m)[i] && Rows(m)[i][key] == c <==>
            CellIs(Seed(Originals(m)[i], 0), m.includes, Keys(m.dimensions), key, c)
  {
    OriginalsFirst(m, i);
    CellsExact(Seed(Originals(m)[i], 0), m.includes, Keys(m.dimensions), key, c);
  }
}
