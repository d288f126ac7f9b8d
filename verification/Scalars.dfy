/** The scalar values of workflow expressions, their truth, loose equality and text. */
module Scalars {
  import opened Wrappers

  datatype Scalar = Null | Bool(b: bool) | Num(n: real) | Str(s: string)

  predicate Truthy(v: Scalar) {
    v != Null && v != Bool(false) && v != Str("") && v != Num(0.0)
  }

  // ---- numbers in text -------------------------------------------------------------------

  predicate Digit(c: char) {
    '0' <= c <= '9'
  }

  /** The length of the longest prefix of digits. */
  function DigitRun(s: string): (n: nat)
    ensures n <= |s| && (forall k :: 0 <= k < n ==> Digit(s[k]))
    ensures n < |s| ==> !Digit(s[n])
  {
    if s == "" || !Digit(s[0]) then 0 else 1 + DigitRun(s[1..])
  }

  predicate AllDigits(s: string) {
    forall k :: 0 <= k < |s| ==> Digit(s[k])
  }

  function Natural(digits: string): nat
    requires AllDigits(digits)
  {
    if digits == "" then 0
    else
      assert Digit(digits[|digits| - 1]);
      10 * Natural(digits[..|digits| - 1]) + (digits[|digits| - 1] as int - '0' as int)
  }

  /** The decimal point moved by so many places. */
  function Shifted(x: real, places: int): real
    decreases if places < 0 then -places else places
  {
    if places == 0 then x
    else if places > 0 then Shifted(10.0 * x, places - 1)
    else Shifted(x / 10.0, places + 1)
  }

  predicate StartsWithChar(s: string, c: char) {
    s != "" && s[0] == c
  }

  function Signed(minus: bool, magnitude: real): real {
    if minus then -magnitude else magnitude
  }

  /** `-?digits(.digits)?([eE][+-]?digits)?` as a whole text. Section 6 of RFC 8259 forbids leading zeros
      in the integer part; the token pattern allows them. */
  function NumberText(s: string, leadingZeros: bool): Option<real> {
    var minus := StartsWithChar(s, '-');
    match Unsigned(if minus then s[1..] else s, leadingZeros)
    case None => None
    case Some(parts) => Some(Signed(minus, Worth(parts)))
  }

  /** The digits before and after the point, and the exponent. */
  datatype Parts = Parts(whole: string, decimals: string, exponent: int)

  function Worth(p: Parts): real
    requires AllDigits(p.whole) && AllDigits(p.decimals)
  {
    Shifted(Natural(p.whole) as real + Shifted(Natural(p.decimals) as real, -|p.decimals|), p.exponent)
  }

  function Unsigned(t: string, leadingZeros: bool): (r: Option<Parts>)
    ensures r.Some? ==> AllDigits(r.value.whole) && AllDigits(r.value.decimals)
  {
    var whole := DigitRun(t);
    if whole == 0 || (!leadingZeros && whole > 1 && t[0] == '0') then None
    else
      match Decimals(t[whole..])
      case None => None
      case Some((decimals, mark)) =>
        match Exponent(mark)
        case None => None
        case Some(e) => Some(Parts(t[..whole], decimals, e))
  }

  /** The digits after a point, and the rest. */
  function Decimals(s: string): (r: Option<(string, string)>)
    ensures r.Some? ==> AllDigits(r.value.0)
  {
    if !StartsWithChar(s, '.') then Some(("", s))
    else
      var places := DigitRun(s[1..]);
      if places == 0 then None else Some((s[1..1 + places], s[1 + places..]))
  }

  function Exponent(s: string): Option<int> {
    if s == "" then Some(0)
    else if s[0] != 'e' && s[0] != 'E' then None
    else
      var t := if StartsWithChar(s[1..], '+') || StartsWithChar(s[1..], '-') then s[2..] else s[1..];
      if t == "" || DigitRun(t) < |t| then None
      else
        var n: int := Natural(t);
        Some(if s[1] == '-' then -n else n)
  }

  predicate Blank(c: char) {
    c == ' ' || c == '\t' || c == '\n' || c == '\r' || c == 11 as char || c == 12 as char
  }

  function Trim(s: string): string {
    if s != "" && Blank(s[0]) then Trim(s[1..])
    else if s != "" && Blank(s[|s| - 1]) then Trim(s[..|s| - 1])
    else s
  }

  // ---- loose equality --------------------------------------------------------------------

  function LowerChar(c: char): char {
    if 'A' <= c <= 'Z' then (c as int + 32) as char else c
  }

  function Lower(s: string): (r: string)
    ensures |r| == |s| && (forall k :: 0 <= k < |s| ==> r[k] == LowerChar(s[k]))
  {
    seq(|s|, k requires 0 <= k < |s| => LowerChar(s[k]))
  }

  /** The number a value is compared as; None is NaN. */
  function NumberOf(v: Scalar): Option<real> {
    match v
    case Null => Some(0.0)
    case Bool(b) => Some(if b then 1.0 else 0.0)
    case Num(n) => Some(n)
    case Str(s) => if s == "" then Some(0.0) else NumberText(Trim(s), false)
  }

  predicate SameType(a: Scalar, b: Scalar) {
    a.Null? == b.Null? && a.Bool? == b.Bool? && a.Num? == b.Num?
  }

  /** `==` of the operator documentation: texts ignore case, unlike types compare as numbers. */
  predicate LooselyEqual(a: Scalar, b: Scalar) {
    if a.Str? && b.Str? then Lower(a.s) == Lower(b.s)
    else if SameType(a, b) then a == b
    else NumberOf(a).Some? && NumberOf(a) == NumberOf(b)
  }

  // ---- text ------------------------------------------------------------------------------

  /** How GitHub casts a value to text; `number` writes numbers. */
  function Text(v: Scalar, number: real -> string): string {
    match v
    case Null => ""
    case Bool(b) => if b then "true" else "false"
    case Num(n) => number(n)
    case Str(s) => s
  }

  /** How Python's `str.format` writes a value. */
  function PythonText(v: Scalar, number: real -> string): string {
    match v
    case Null => "None"
    case Bool(b) => if b then "True" else "False"
    case Num(n) => number(n)
    case Str(s) => s
  }

  /** The template language both sides share: `{digits}`, doubled braces and plain characters. */
  function Format(template: string, args: seq<string>): Option<string> {
    if template == "" then Some("")
    else if template[0] == '{' || template[0] == '}' then
      if |template| > 1 && template[1] == template[0] then Prepend([template[0]], Format(template[2..], args))
      else
        var n := DigitRun(template[1..]);
        if template[0] == '}' || n == 0 || n + 1 >= |template| || template[n + 1] != '}' then None
        else
          var index := Natural(template[1..n + 1]);
          if index >= |args| then None else Prepend(args[index], Format(template[n + 2..], args))
    else Prepend([template[0]], Format(template[1..], args))
  }

  function Prepend(s: string, rest: Option<string>): Option<string> {
    match rest
    case None => None
    case Some(r) => Some(s + r)
  }

  datatype Test = Contains | StartsWith | EndsWith

  predicate Passes(test: Test, a: string, b: string) {
    match test
    case Contains => exists i :: 0 <= i <= |a| - |b| && b <= a[i..]
    case StartsWith => b <= a
    case EndsWith => |b| <= |a| && a[|a| - |b|..] == b
  }

  /** A nonempty text that reads as the number zero: the one value that separates "" from `false`. */
  predicate ZeroText(v: Scalar) {
    v.Str? && v.s != "" && NumberOf(v) == Some(0.0)
  }

  /** Comparing `false` in place of an unknown falsy value is exact against `b` if and only if `b` is
      not a zero text. */
  lemma StandInExact(b: Scalar)
    ensures (forall v: Scalar :: !Truthy(v) ==> LooselyEqual(v, b) == LooselyEqual(Bool(false), b)) <==> !ZeroText(b)
    ensures (forall v: Scalar :: !Truthy(v) ==> LooselyEqual(b, v) == LooselyEqual(b, Bool(false))) <==> !ZeroText(b)
  {
    if ZeroText(b) {
      assert |Lower(b.s)| == |b.s|;
      assert !LooselyEqual(Str(""), b) && !LooselyEqual(b, Str(""));
      assert LooselyEqual(Bool(false), b) && LooselyEqual(b, Bool(false));
    } else {
      forall v: Scalar | !Truthy(v)
        ensures LooselyEqual(v, b) == LooselyEqual(Bool(false), b) && LooselyEqual(b, v) == LooselyEqual(b, Bool(false))
      {
        if v.Str? && b.Str? {
          assert |Lower(b.s)| == |b.s|;
        }
      }
    }
  }

  /** On the left of a text test: nothing is asked for, or neither `false` nor zero passes. */
  predicate StandsLeft(test: Test, b: string, zero: string) {
    b == "" || (!Passes(test, "false", b) && !Passes(test, zero, b))
  }

  /** On the right of a text test: both `false` and zero pass. */
  predicate StandsRight(test: Test, a: string, zero: string) {
    Passes(test, a, "false") && Passes(test, a, zero)
  }

  /** The text tests with `false` in place of an unknown falsy value: on either side, exactly when it is exact. */
  lemma TestStandInExact(test: Test, b: string, a: string, number: real -> string)
    ensures (forall v: Scalar :: !Truthy(v) ==>
               Passes(test, Lower(Text(v, number)), b) == Passes(test, Lower(Text(Bool(false), number)), b))
       <==> StandsLeft(test, b, Lower(number(0.0)))
    ensures (forall v: Scalar :: !Truthy(v) ==>
               Passes(test, a, Lower(Text(v, number))) == Passes(test, a, Lower(Text(Bool(false), number))))
       <==> StandsRight(test, a, Lower(number(0.0)))
  {
    LowerFalse();
    EmptyPasses(test, a);
    EmptyPasses(test, "false");
    EmptyPasses(test, Lower(number(0.0)));
    EmptyHolds(test, b);
    assert !Truthy(Str("")) && !Truthy(Num(0.0)) && !Truthy(Bool(false)) && Lower("") == "";
    assert Text(Str(""), number) == "" && Text(Num(0.0), number) == number(0.0);
  }

  lemma LowerFalse()
    ensures Lower("false") == "false"
  {
  }

  /** Every text has the empty one, at its start and at its end. */
  lemma EmptyPasses(test: Test, a: string)
    ensures Passes(test, a, "")
  {
    assert "" <= a[0..];
  }

  /** The empty text has no other. */
  lemma EmptyHolds(test: Test, b: string)
    ensures Passes(test, "", b) <==> b == ""
  {
    EmptyPasses(test, "");
  }

  /** Beside `false` itself, `false` is no exact stand-in on the left. */
  lemma FalseStandsNot(test: Test, number: real -> string)
    ensures !StandsLeft(test, Lower(Text(Bool(false), number)), Lower(number(0.0)))
  {
    LowerFalse();
    assert "false" <= "false"[0..];
  }

  /** Python writes a value as GitHub does if and only if it is a text, or a number both write alike. */
  lemma PythonTextExact(v: Scalar, python: real -> string, github: real -> string)
    ensures PythonText(v, python) == Text(v, github) <==> v.Str? || (v.Num? && python(v.n) == github(v.n))
  {
    if v.Bool? {
      assert PythonText(v, python)[0] != Text(v, github)[0];
    }
  }
}
