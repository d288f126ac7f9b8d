/** What the functions on values mean, said without them: letters, numerals, equality, text tests and literals. */
module ValueLaws {
  import opened Wrappers
  import opened Scalars
  import opened Syntax
  import opened Meaning

  // ---- letters ---------------------------------------------------------------------------

  /** `upper` and `lower` are one letter in its two cases. */
  predicate OneLetter(upper: char, lower: char) {
    'A' <= upper <= 'Z' && lower as int - 'a' as int == upper as int - 'A' as int
  }

  predicate SameLetter(c: char, d: char) {
    c == d || OneLetter(c, d) || OneLetter(d, c)
  }

  predicate SameLetters(a: string, b: string) {
    |a| == |b| && forall k :: 0 <= k < |a| ==> SameLetter(a[k], b[k])
  }

  lemma LowerSame(a: string, b: string)
    ensures Lower(a) == Lower(b) <==> SameLetters(a, b)
  {
    if Lower(a) == Lower(b) {
      assert |Lower(a)| == |a| && |Lower(b)| == |b|;
      forall k | 0 <= k < |a| ensures SameLetter(a[k], b[k]) {
        assert Lower(a)[k] == LowerChar(a[k]) && Lower(b)[k] == LowerChar(b[k]);
      }
    }
  }

  // ---- numerals --------------------------------------------------------------------------

  lemma DigitExact(c: char)
    ensures Digit(c) <==> c in "0123456789"
  {
    var figures := "0123456789";
    assert forall k :: 0 <= k < 10 ==> figures[k] as int == '0' as int + k;
    if Digit(c) {
      assert figures[c as int - '0' as int] == c;
    }
  }

  datatype Mark = Mark(letter: char, sign: string, digits: string)

  /** A number as it is written: `-12.50e+3`. */
  datatype Numeral = Numeral(minus: bool, whole: string, fraction: string, mark: Option<Mark>)

  predicate ProperMark(m: Mark) {
    m.letter in {'e', 'E'} && m.sign in {"", "+", "-"} && m.digits != "" && AllDigits(m.digits)
  }

  predicate Proper(n: Numeral, leadingZeros: bool) {
    && n.whole != "" && AllDigits(n.whole) && AllDigits(n.fraction) && (n.mark.Some? ==> ProperMark(n.mark.value))
    && (leadingZeros || |n.whole| == 1 || n.whole[0] != '0')
  }

  function FractionText(fraction: string): string {
    if fraction == "" then "" else "." + fraction
  }

  function MarkText(mark: Option<Mark>): string {
    if mark.None? then "" else [mark.value.letter] + mark.value.sign + mark.value.digits
  }

  function NumeralText(n: Numeral): string {
    (if n.minus then "-" else "") + n.whole + FractionText(n.fraction) + MarkText(n.mark)
  }

  /** Digits read from the left. */
  function Read(digits: string, before: int): int {
    if digits == "" then before else Read(digits[1..], 10 * before + (digits[0] as int - '0' as int))
  }

  function MarkValue(mark: Option<Mark>): int {
    if mark.None? then 0
    else if mark.value.sign == "-" then -Read(mark.value.digits, 0)
    else Read(mark.value.digits, 0)
  }

  /** All its digits as one integer, scaled. */
  function NumeralValue(n: Numeral): real {
    var scaled := Read(n.whole + n.fraction, 0) as real * Power10(MarkValue(n.mark) - |n.fraction|);
    if n.minus then -scaled else scaled
  }

  function Power10(e: int): (r: real)
    ensures r > 0.0
    decreases if e < 0 then -e else e
  {
    if e == 0 then 1.0 else if e > 0 then 10.0 * Power10(e - 1) else Power10(e + 1) / 10.0
  }

  lemma {:induction false} ShiftedSum(x: real, y: real, places: int)
    ensures Shifted(x + y, places) == Shifted(x, places) + Shifted(y, places)
    decreases if places < 0 then -places else places
  {
    if places > 0 {
      ShiftedSum(10.0 * x, 10.0 * y, places - 1);
    } else if places < 0 {
      ShiftedSum(x / 10.0, y / 10.0, places + 1);
    }
  }

  lemma {:induction false} ShiftedUp(x: real, places: int)
    ensures Shifted(x, places + 1) == Shifted(10.0 * x, places)
    decreases if places < 0 then -places else places
  {
    if places < 0 {
      assert 10.0 * x / 10.0 == 10.0 * (x / 10.0);
    }
  }

  lemma {:induction false} ShiftedTwice(x: real, a: int, b: int)
    ensures Shifted(Shifted(x, a), b) == Shifted(x, a + b)
    decreases if a < 0 then -a else a
  {
    if a > 0 {
      ShiftedTwice(10.0 * x, a - 1, b);
      ShiftedUp(x, a + b - 1);
    } else if a < 0 {
      ShiftedTwice(x / 10.0, a + 1, b);
      ShiftedUp(x / 10.0, a + b);
    }
  }

  lemma {:induction false} ShiftedPower(x: real, places: int)
    ensures x * Power10(places) == Shifted(x, places)
    decreases if places < 0 then -places else places
  {
    if places > 0 {
      ShiftedPower(10.0 * x, places - 1);
      TenTimes(x, Power10(places - 1));
    } else if places < 0 {
      ShiftedPower(x / 10.0, places + 1);
      TenTimes(x / 10.0, Power10(places + 1) / 10.0);
    }
  }

  lemma TenTimes(x: real, p: real)
    ensures x * (10.0 * p) == 10.0 * x * p
  {
  }

  lemma {:induction false} ReadFrom(s: string, before: int)
    ensures Read(s, before) as real == Shifted(before as real, |s|) + Read(s, 0) as real
  {
    if s != "" {
      var d := s[0] as int - '0' as int;
      ReadFrom(s[1..], 10 * before + d);
      ReadFrom(s[1..], d);
      ShiftedSum(10.0 * before as real, d as real, |s| - 1);
    }
  }

  lemma {:induction false} NaturalRead(digits: string)
    requires AllDigits(digits)
    ensures Natural(digits) == Read(digits, 0)
  {
    if digits != "" {
      var n := |digits| - 1;
      NaturalRead(digits[..n]);
      assert digits == digits[..n] + [digits[n]];
      ReadJoined(digits[..n], [digits[n]], 0);
      assert [digits[n]][1..] == "";
    }
  }

  lemma {:induction false} ReadJoined(a: string, b: string, before: int)
    ensures Read(a + b, before) == Read(b, Read(a, before))
  {
    if a == "" {
      assert a + b == b;
    } else {
      assert (a + b)[1..] == a[1..] + b && (a + b)[0] == a[0];
      ReadJoined(a[1..], b, 10 * before + (a[0] as int - '0' as int));
    }
  }

  lemma {:induction false} RunOf(digits: string, rest: string)
    requires AllDigits(digits) && (rest != "" ==> !Digit(rest[0]))
    ensures DigitRun(digits + rest) == |digits|
  {
    if digits == "" {
      assert digits + rest == rest;
    } else {
      assert (digits + rest)[1..] == digits[1..] + rest && (digits + rest)[0] == digits[0];
      RunOf(digits[1..], rest);
    }
  }

  lemma MarkReads(mark: Option<Mark>)
    requires mark.Some? ==> ProperMark(mark.value)
    ensures Exponent(MarkText(mark)) == Some(MarkValue(mark))
  {
    if mark.Some? {
      var m := mark.value;
      var s := MarkText(mark);
      NaturalRead(m.digits);
      RunOf(m.digits, "");
      assert m.digits + "" == m.digits;
      MarkCut(m);
      ExponentOf(s, m.digits, Natural(m.digits));
    }
  }

  lemma MarkCut(m: Mark)
    requires ProperMark(m)
    ensures var s := MarkText(Some(m));
      && s[0] == m.letter && (s[1] == '-' <==> m.sign == "-")
      && (if StartsWithChar(s[1..], '+') || StartsWithChar(s[1..], '-') then s[2..] else s[1..]) == m.digits
  {
    var s := MarkText(Some(m));
    assert Digit(m.digits[0]);
    if m.sign == "" {
      assert s[1..] == m.digits && s[1] == m.digits[0];
    } else {
      assert s[1] == m.sign[0] && s[2..] == m.digits;
    }
  }

  lemma ExponentOf(s: string, digits: string, value: int)
    requires |s| > 1 && (s[0] == 'e' || s[0] == 'E') && digits != "" && DigitRun(digits) == |digits|
    requires (if StartsWithChar(s[1..], '+') || StartsWithChar(s[1..], '-') then s[2..] else s[1..]) == digits
    requires value == Natural(digits)
    ensures Exponent(s) == Some(if s[1] == '-' then -value else value)
  {
  }

  /** The value as the code puts it together. */
  lemma NumeralParts(n: Numeral)
    requires AllDigits(n.whole) && AllDigits(n.fraction)
    ensures Scaled(n) == Worth(Parts(n.whole, n.fraction, MarkValue(n.mark)))
  {
    NaturalRead(n.whole);
    NaturalRead(n.fraction);
    ReadJoined(n.whole, n.fraction, 0);
    var w, f, k, e := Natural(n.whole) as real, Natural(n.fraction) as real, |n.fraction|, MarkValue(n.mark);
    ReadFrom(n.fraction, Natural(n.whole));
    ShiftedSum(w, Shifted(f, -k), e);
    ShiftedTwice(f, -k, e);
    ShiftedSum(Shifted(w, k), f, e - k);
    ShiftedTwice(w, k, e - k);
  }

  function Scaled(n: Numeral): real {
    Shifted(Read(n.whole + n.fraction, 0) as real, MarkValue(n.mark) - |n.fraction|)
  }

  /** Every numeral is read, as its value. */
  lemma NumeralReads(n: Numeral, leadingZeros: bool)
    requires Proper(n, leadingZeros)
    ensures NumberText(NumeralText(n), leadingZeros) == Some(NumeralValue(n))
  {
    NumeralPut(n, leadingZeros);
    NumeralScaled(n);
  }

  lemma NumeralScaled(n: Numeral)
    ensures NumeralValue(n) == Signed(n.minus, Scaled(n))
  {
    var x, places := Read(n.whole + n.fraction, 0) as real, MarkValue(n.mark) - |n.fraction|;
    ShiftedPower(x, places);
    assert Scaled(n) == x * Power10(places);
  }

  lemma NumeralPut(n: Numeral, leadingZeros: bool)
    requires Proper(n, leadingZeros)
    ensures NumberText(NumeralText(n), leadingZeros)
         == Some(Signed(n.minus, Scaled(n)))
  {
    var s := NumeralText(n);
    var t := n.whole + FractionText(n.fraction) + MarkText(n.mark);
    SignCut(n);
    WholeReads(n, leadingZeros);
    NoDigitFirst(n);
    FractionReads(n.fraction, MarkText(n.mark));
    MarkReads(n.mark);
    NumeralParts(n);
    NumeralCut(n, s, t);
    PutTogether(t, leadingZeros, FractionText(n.fraction) + MarkText(n.mark), n.fraction, MarkText(n.mark),
        MarkValue(n.mark));
    assert Unsigned(t, leadingZeros) == Some(Parts(n.whole, n.fraction, MarkValue(n.mark)));
  }

  lemma NumeralCut(n: Numeral, s: string, t: string)
    requires t == if StartsWithChar(s, '-') then s[1..] else s
    requires DigitRun(t) == |n.whole| > 0 && t[..|n.whole|] == n.whole
    ensures t[0] == n.whole[0] && t[..DigitRun(t)] == n.whole
  {
  }

  lemma SignCut(n: Numeral)
    requires n.whole != "" && AllDigits(n.whole)
    ensures var s := NumeralText(n); var t := n.whole + FractionText(n.fraction) + MarkText(n.mark);
      StartsWithChar(s, '-') == n.minus && (if n.minus then s[1..] else s) == t
  {
    var s, t := NumeralText(n), n.whole + FractionText(n.fraction) + MarkText(n.mark);
    assert Digit(n.whole[0]);
    assert s == (if n.minus then "-" else "") + t;
  }

  lemma Cut(a: string, b: string)
    ensures (a + b)[..|a|] == a && (a + b)[|a|..] == b
  {
  }

  /** What is found after the sign: the digits, */
  lemma WholeReads(n: Numeral, leadingZeros: bool)
    requires Proper(n, leadingZeros)
    ensures var t := n.whole + FractionText(n.fraction) + MarkText(n.mark);
      DigitRun(t) == |n.whole| && t[..|n.whole|] == n.whole
          && t[|n.whole|..] == FractionText(n.fraction) + MarkText(n.mark)
  {
    var rest := FractionText(n.fraction) + MarkText(n.mark);
    assert n.whole + FractionText(n.fraction) + MarkText(n.mark) == n.whole + rest;
    NoDigitFirst(n);
    RunOf(n.whole, rest);
    Cut(n.whole, rest);
  }

  lemma NoDigitFirst(n: Numeral)
    requires n.mark.Some? ==> ProperMark(n.mark.value)
    ensures var mark := MarkText(n.mark); mark != "" ==> !Digit(mark[0]) && mark[0] != '.'
    ensures var rest := FractionText(n.fraction) + MarkText(n.mark); rest != "" ==> !Digit(rest[0])
  {
  }

  /** the point and the digits after it, and the mark. */
  lemma FractionReads(fraction: string, mark: string)
    requires AllDigits(fraction) && (mark != "" ==> !Digit(mark[0]) && mark[0] != '.')
    ensures Decimals(FractionText(fraction) + mark) == Some((fraction, mark))
  {
    var rest := FractionText(fraction) + mark;
    if fraction != "" {
      assert rest[1..] == fraction + mark;
      RunOf(fraction, mark);
      Cut(fraction, mark);
      assert rest[1..][..|fraction|] == rest[1..1 + |fraction|];
      assert rest[1..][|fraction|..] == rest[1 + |fraction|..];
    } else {
      assert rest == mark;
    }
  }

  lemma FractionParts(s: string)
    requires Decimals(s).Some?
    ensures var (fraction, mark) := Decimals(s).value; s == FractionText(fraction) + mark
  {
    if StartsWithChar(s, '.') {
      var places := DigitRun(s[1..]);
      assert s == "." + s[1..1 + places] + s[1 + places..];
    }
  }

  lemma PutTogether(t: string, leadingZeros: bool, rest: string, decimals: string, mark: string, e: int)
    requires DigitRun(t) > 0 && (leadingZeros || DigitRun(t) == 1 || t[0] != '0') && rest == t[DigitRun(t)..]
    requires AllDigits(decimals) && Decimals(rest) == Some((decimals, mark)) && Exponent(mark) == Some(e)
    ensures Unsigned(t, leadingZeros) == Some(Parts(t[..DigitRun(t)], decimals, e))
  {
  }

  /** Only numerals are read. */
  lemma NumberIsNumeral(s: string, leadingZeros: bool) returns (n: Numeral)
    requires NumberText(s, leadingZeros).Some?
    ensures Proper(n, leadingZeros) && NumeralText(n) == s
  {
    var minus := StartsWithChar(s, '-');
    var t := if minus then s[1..] else s;
    var whole, fraction, mark := UnsignedParts(t, leadingZeros);
    n := Numeral(minus, whole, fraction, mark);
    SignJoin(s, minus, t);
    Joined(if minus then "-" else "", whole, FractionText(fraction), MarkText(mark));
  }

  lemma Joined(a: string, b: string, c: string, d: string)
    ensures a + (b + c + d) == a + b + c + d
  {
  }

  lemma SignJoin(s: string, minus: bool, t: string)
    requires minus == StartsWithChar(s, '-') && t == if minus then s[1..] else s
    ensures s == (if minus then "-" else "") + t
  {
  }

  lemma UnsignedParts(t: string, leadingZeros: bool)
    returns (whole: string, fraction: string, mark: Option<Mark>)
    requires Unsigned(t, leadingZeros).Some?
    ensures Proper(Numeral(false, whole, fraction, mark), leadingZeros)
    ensures t == whole + FractionText(fraction) + MarkText(mark)
  {
    var n := DigitRun(t);
    var rest := t[n..];
    FractionParts(rest);
    whole, fraction := t[..n], Decimals(rest).value.0;
    mark := MarkParts(Decimals(rest).value.1);
    Split(t, n);
    Assoc(whole, FractionText(fraction), MarkText(mark));
  }

  lemma Split(s: string, n: nat)
    requires n <= |s|
    ensures s == s[..n] + s[n..]
  {
  }

  lemma Assoc(a: string, b: string, c: string)
    ensures a + (b + c) == a + b + c
  {
  }

  lemma MarkParts(s: string) returns (mark: Option<Mark>)
    requires Exponent(s).Some?
    ensures (mark.Some? ==> ProperMark(mark.value)) && MarkText(mark) == s
  {
    if s == "" {
      return None;
    }
    var signed := StartsWithChar(s[1..], '+') || StartsWithChar(s[1..], '-');
    var m := Mark(s[0], if signed then [s[1]] else "", if signed then s[2..] else s[1..]);
    mark := Some(m);
    MarkJoins(s, signed);
  }

  lemma MarkJoins(s: string, signed: bool)
    requires s != "" && (signed ==> |s| > 1)
    ensures s == [s[0]] + (if signed then [s[1]] else "") + (if signed then s[2..] else s[1..])
  {
  }

  // ---- blanks around ---------------------------------------------------------------------

  /** A space, or one of the five control characters from tab to carriage return. */
  predicate Space(c: char) {
    c == ' ' || 9 <= c as int <= 13
  }

  predicate Spaces(s: string) {
    forall k :: 0 <= k < |s| ==> Space(s[k])
  }

  predicate Tight(s: string) {
    s == "" || (!Space(s[0]) && !Space(s[|s| - 1]))
  }

  lemma {:induction false} TrimAround(left: string, core: string, right: string)
    requires Spaces(left) && Spaces(right) && Tight(core)
    ensures Trim(left + core + right) == core
    decreases |left| + |right|
  {
    var s := left + core + right;
    if left != "" {
      assert s[1..] == left[1..] + core + right;
      assert Space(s[0]);
      TrimAround(left[1..], core, right);
    } else if right != "" {
      var n := |right| - 1;
      assert s == core + right;
      if core == "" {
        assert s[1..] == "" + core + right[1..];
        TrimAround("", core, right[1..]);
      } else {
        assert s[..|s| - 1] == "" + core + right[..n];
        assert s[0] == core[0] && s[|s| - 1] == right[n];
        TrimAround("", core, right[..n]);
      }
    } else {
      assert s == core;
    }
  }

  lemma {:induction false} TrimParts(s: string) returns (left: string, right: string)
    ensures Spaces(left) && Spaces(right) && s == left + Trim(s) + right
    decreases |s|
  {
    left, right := "", "";
    if s != "" && Blank(s[0]) {
      left, right := TrimParts(s[1..]);
      OneMore(s[0], s[1..], left, right);
      left := [s[0]] + left;
    } else if s != "" && Blank(s[|s| - 1]) {
      left, right := TrimParts(s[..|s| - 1]);
      OneAfter(s[..|s| - 1], s[|s| - 1], left, right);
      Split(s, |s| - 1);
      right := right + [s[|s| - 1]];
    }
  }

  lemma OneAfter(rest: string, c: char, left: string, right: string)
    requires rest == left + Trim(rest) + right
    ensures rest + [c] == left + Trim(rest) + (right + [c])
  {
  }

  lemma OneMore(c: char, rest: string, left: string, right: string)
    requires rest == left + Trim(rest) + right
    ensures [c] + rest == [c] + left + Trim(rest) + right
  {
  }

  lemma {:induction false} TrimTight(s: string)
    ensures Tight(Trim(s))
    decreases |s|
  {
    if s != "" && Blank(s[0]) {
      TrimTight(s[1..]);
    } else if s != "" && Blank(s[|s| - 1]) {
      TrimTight(s[..|s| - 1]);
    }
  }

  // ---- equality --------------------------------------------------------------------------

  /** A text that is nothing but a number, with blanks around it. */
  ghost predicate ShowsNumber(s: string, x: real) {
    exists left, n, right :: Shows(s, left, n, right) && x == NumeralValue(n)
  }

  predicate Shows(s: string, left: string, n: Numeral, right: string) {
    Spaces(left) && Spaces(right) && Proper(n, false) && s == left + NumeralText(n) + right
  }

  /** The number a value is compared as. */
  ghost predicate ReadsAs(v: Scalar, x: real) {
    match v
    case Null => x == 0.0
    case Bool(b) => x == if b then 1.0 else 0.0
    case Num(n) => x == n
    case Str(s) => (s == "" && x == 0.0) || (s != "" && ShowsNumber(s, x))
  }

  lemma NumeralTight(n: Numeral, leadingZeros: bool)
    requires Proper(n, leadingZeros)
    ensures Tight(NumeralText(n)) && NumeralText(n) != ""
  {
    var s := NumeralText(n);
    assert Digit(n.whole[0]);
    assert s[0] == if n.minus then '-' else n.whole[0];
    NumeralLast(n, leadingZeros);
  }

  lemma NumeralLast(n: Numeral, leadingZeros: bool)
    requires Proper(n, leadingZeros)
    ensures Digit(NumeralText(n)[|NumeralText(n)| - 1])
  {
    var s := NumeralText(n);
    if n.mark.Some? {
      var d := n.mark.value.digits;
      assert s[|s| - 1] == d[|d| - 1];
    } else if n.fraction != "" {
      assert s[|s| - 1] == n.fraction[|n.fraction| - 1];
    } else {
      assert s[|s| - 1] == n.whole[|n.whole| - 1];
    }
  }

  lemma ReadsExact(v: Scalar, x: real)
    ensures NumberOf(v) == Some(x) <==> ReadsAs(v, x)
  {
    if v.Str? && v.s != "" {
      if NumberOf(v) == Some(x) {
        ReadsShown(v.s, x);
      }
      if ReadsAs(v, x) {
        var left, n, right :| Shows(v.s, left, n, right) && x == NumeralValue(n);
        ShownReads(v.s, left, n, right);
      }
    }
  }

  lemma ReadsShown(s: string, x: real)
    requires NumberText(Trim(s), false) == Some(x)
    ensures ShowsNumber(s, x)
  {
    var left, right := TrimParts(s);
    var n := NumberIsNumeral(Trim(s), false);
    NumeralReads(n, false);
    assert Shows(s, left, n, right);
  }

  lemma ShownReads(s: string, left: string, n: Numeral, right: string)
    requires Shows(s, left, n, right)
    ensures NumberText(Trim(s), false) == Some(NumeralValue(n))
  {
    NumeralTight(n, false);
    TrimAround(left, NumeralText(n), right);
    NumeralReads(n, false);
  }

  ghost predicate ReadAlike(a: Scalar, b: Scalar) {
    exists x :: ReadsAs(a, x) && ReadsAs(b, x)
  }

  /** Two texts are equal if and only if they have the same letters, in whatever case; any other two values if and only
      if both read as the same number. */
  lemma EqualExact(a: Scalar, b: Scalar)
    ensures LooselyEqual(a, b) <==> if a.Str? && b.Str? then SameLetters(a.s, b.s) else ReadAlike(a, b)
  {
    if a.Str? && b.Str? {
      LowerSame(a.s, b.s);
    } else {
      UnlikeEqual(a, b);
      if NumberOf(a).Some? {
        ReadsExact(a, NumberOf(a).value);
        ReadsExact(b, NumberOf(a).value);
      }
      if ReadAlike(a, b) {
        var x :| ReadsAs(a, x) && ReadsAs(b, x);
        ReadsExact(a, x);
        ReadsExact(b, x);
      }
    }
  }

  lemma UnlikeEqual(a: Scalar, b: Scalar)
    requires !(a.Str? && b.Str?)
    ensures LooselyEqual(a, b) <==> NumberOf(a).Some? && NumberOf(a) == NumberOf(b)
  {
  }

  /** A value is falsy exactly when it reads as zero and is no text but the empty one. */
  lemma FalsyExact(v: Scalar)
    ensures !Truthy(v) <==> ReadsAs(v, 0.0) && (v.Str? ==> v.s == "")
  {
  }

  // ---- text ------------------------------------------------------------------------------

  /** A text test passes exactly when the one text has the other inside, at its start, or at its end, in whatever
      case. */
  ghost predicate Has(test: Test, a: string, b: string) {
    exists before, after :: HasAt(test, a, b, before, after)
  }

  predicate HasAt(test: Test, a: string, b: string, before: string, after: string) {
    && |a| == |before| + |b| + |after| && before + a[|before|..|before| + |b|] + after == a
    && SameLetters(a[|before|..|before| + |b|], b)
    && (test.StartsWith? ==> before == "") && (test.EndsWith? ==> after == "")
  }

  lemma PassesExact(test: Test, a: string, b: string)
    ensures Passes(test, Lower(a), Lower(b)) <==> Has(test, a, b)
  {
    if Passes(test, Lower(a), Lower(b)) {
      var i := PassesAt(test, Lower(a), Lower(b));
      CutAt(test, a, b, i);
    }
    if Has(test, a, b) {
      var before, after :| HasAt(test, a, b, before, after);
      HasPasses(test, a, b, before, after);
    }
  }

  lemma CutAt(test: Test, a: string, b: string, i: nat)
    requires i + |b| <= |a| && Lower(a)[i..i + |b|] == Lower(b)
    requires (test.StartsWith? ==> i == 0) && (test.EndsWith? ==> i + |b| == |a|)
    ensures HasAt(test, a, b, a[..i], a[i + |b|..])
  {
    var part := a[i..i + |b|];
    LowerPart(a, i, i + |b|);
    LowerSame(part, b);
    assert a[..i] + part + a[i + |b|..] == a;
  }

  lemma PassesAt(test: Test, a: string, b: string) returns (i: nat)
    requires Passes(test, a, b)
    ensures i + |b| <= |a| && a[i..i + |b|] == b
    ensures (test.StartsWith? ==> i == 0) && (test.EndsWith? ==> i + |b| == |a|)
  {
    match test
    case Contains =>
      i :| 0 <= i <= |a| - |b| && b <= a[i..];
      assert a[i..][..|b|] == a[i..i + |b|];
    case StartsWith => i := 0;
    case EndsWith =>
      i := |a| - |b|;
      assert a[i..] == a[i..i + |b|];
  }

  lemma HasPasses(test: Test, a: string, b: string, before: string, after: string)
    requires HasAt(test, a, b, before, after)
    ensures Passes(test, Lower(a), Lower(b))
  {
    var i := |before|;
    LowerSame(a[i..i + |b|], b);
    LowerPart(a, i, i + |b|);
    PartPasses(test, Lower(a), Lower(b), i);
  }

  lemma LowerPart(a: string, i: nat, j: nat)
    requires i <= j <= |a|
    ensures Lower(a)[i..j] == Lower(a[i..j])
  {
  }

  lemma PartPasses(test: Test, a: string, b: string, i: nat)
    requires i + |b| <= |a| && a[i..i + |b|] == b
    requires (test.StartsWith? ==> i == 0) && (test.EndsWith? ==> i + |b| == |a|)
    ensures Passes(test, a, b)
  {
    assert a[i..][..|b|] == b;
    if test.EndsWith? {
      assert a[i..] == a[i..i + |b|];
    }
  }

  lemma TestNames(name: string)
    ensures TestNamed(name) == Some(Contains) <==> name == "contains"
    ensures TestNamed(name) == Some(StartsWith) <==> name == "startsWith"
    ensures TestNamed(name) == Some(EndsWith) <==> name == "endsWith"
  {
    assert "contains"[0] == 'c' && "startsWith"[0] == 's' && "endsWith"[0] == 'e';
  }

  // ---- literals --------------------------------------------------------------------------

  /** How a text is quoted. */
  function Quoted(s: string): string {
    if s == "" then "" else (if s[0] == '\'' then "''" else [s[0]]) + Quoted(s[1..])
  }

  /** The body of a literal as the token pattern has it: quotes stand in pairs. */
  predicate Paired(body: string) {
    body == "" || (if body[0] == '\'' then |body| > 1 && body[1] == '\'' && Paired(body[2..]) else Paired(body[1..]))
  }

  lemma {:induction false} UnquoteQuoted(s: string)
    ensures Unquote(Quoted(s)) == s && Paired(Quoted(s))
  {
    if s != "" {
      UnquoteQuoted(s[1..]);
      var q := Quoted(s);
      if s[0] == '\'' {
        assert q[2..] == Quoted(s[1..]);
      } else {
        assert q[1..] == Quoted(s[1..]);
      }
    }
  }

  lemma {:induction false} QuotedUnquote(body: string)
    requires Paired(body)
    ensures Quoted(Unquote(body)) == body
  {
    if body != "" {
      if body[0] == '\'' {
        QuotedUnquote(body[2..]);
        assert Unquote(body)[1..] == Unquote(body[2..]);
        assert body == "''" + body[2..];
      } else {
        QuotedUnquote(body[1..]);
        assert Unquote(body)[1..] == Unquote(body[1..]);
        assert body == [body[0]] + body[1..];
      }
    }
  }

  predicate Keyword(text: string, v: Scalar) {
    (text == "true" && v == Bool(true)) || (text == "false" && v == Bool(false)) || (text == "null" && v == Null)
  }

  ghost predicate ShowsAs(text: string, v: Scalar) {
    v.Num? && exists n :: Proper(n, true) && text == NumeralText(n) && v.n == NumeralValue(n)
  }

  /** The constants: a quoted text, the three keywords, and numerals, in which leading zeros are allowed; any other name
      is none. */
  lemma ConstantExact(token: Token, v: Scalar)
    requires token.Word? || (token.Literal? && Paired(token.body))
    ensures Constant(token) == Some(v) <==>
      if token.Literal? then v.Str? && token.body == Quoted(v.s) else Keyword(token.text, v) || ShowsAs(token.text, v)
  {
    if token.Literal? {
      QuotedUnquote(token.body);
      if v.Str? {
        UnquoteQuoted(v.s);
      }
    } else {
      KeywordsDiffer();
      WordNumber(token.text, v);
    }
  }

  lemma KeywordsDiffer()
    ensures NumberText("true", true).None? && NumberText("false", true).None? && NumberText("null", true).None?
    ensures "true" != "false" && "true" != "null" && "false" != "null"
  {
    assert "true"[0] == 't' && "false"[0] == 'f' && "null"[0] == 'n';
  }

  lemma WordNumber(text: string, v: Scalar)
    ensures (NumberText(text, true).Some? && v == Num(NumberText(text, true).value)) <==>
            ShowsAs(text, v)
  {
    if NumberText(text, true).Some? {
      var n := NumberIsNumeral(text, true);
      NumeralReads(n, true);
    }
    if v.Num? {
      forall n | Proper(n, true) && text == NumeralText(n) && v.n == NumeralValue(n)
        ensures NumberText(text, true) == Some(v.n)
      {
        NumeralReads(n, true);
      }
    }
  }

  /** GitHub's text of a flag is its keyword, and Python's the same in another case. */
  lemma FlagText(b: bool, number: real -> string)
    ensures Keyword(Text(Bool(b), number), Bool(b)) && SameLetters(PythonText(Bool(b), number), Text(Bool(b), number))
  {
  }

  /** The text of null is worth the same number as null. */
  lemma NullText(number: real -> string)
    ensures ReadsAs(Null, 0.0) && ReadsAs(Str(Text(Null, number)), 0.0)
  {
  }

  // ---- templates -------------------------------------------------------------------------

  /** A template is made of characters, doubled braces, and numbers of arguments in braces. */
  datatype Piece = Plain(c: char) | Brace(c: char) | Slot(digits: string)

  predicate Fits(piece: Piece, args: seq<string>) {
    match piece
    case Plain(c) => c != '{' && c != '}'
    case Brace(c) => c == '{' || c == '}'
    case Slot(digits) => digits != "" && AllDigits(digits) && Natural(digits) < |args|
  }

  predicate AllFit(pieces: seq<Piece>, args: seq<string>) {
    forall k :: 0 <= k < |pieces| ==> Fits(pieces[k], args)
  }

  function Template(pieces: seq<Piece>): string {
    if pieces == [] then ""
    else
      (match pieces[0]
       case Plain(c) => [c]
       case Brace(c) => [c, c]
       case Slot(digits) => "{" + digits + "}")
      + Template(pieces[1..])
  }

  /** What it stands for: the arguments in their slots. */
  function Filled(pieces: seq<Piece>, args: seq<string>): string
    requires AllFit(pieces, args)
  {
    if pieces == [] then ""
    else
      assert Fits(pieces[0], args);
      (match pieces[0]
       case Plain(c) => [c]
       case Brace(c) => [c]
       case Slot(digits) => args[Natural(digits)])
      + Filled(pieces[1..], args)
  }

  /** Every template is filled, */
  lemma {:induction false} FormatFills(pieces: seq<Piece>, args: seq<string>)
    requires AllFit(pieces, args)
    ensures Format(Template(pieces), args) == Some(Filled(pieces, args))
  {
    if pieces != [] {
      FormatFills(pieces[1..], args);
      assert Fits(pieces[0], args);
      var t, rest := Template(pieces), Template(pieces[1..]);
      match pieces[0] {
        case Plain(c) => assert t[1..] == rest;
        case Brace(c) => assert t[2..] == rest && t[1] == c;
        case Slot(digits) => SlotFills(digits, rest, args);
      }
    }
  }

  lemma SlotFills(digits: string, rest: string, args: seq<string>)
    requires digits != "" && AllDigits(digits) && Natural(digits) < |args|
    ensures Format("{" + digits + "}" + rest, args) == Prepend(args[Natural(digits)], Format(rest, args))
  {
    var t := "{" + digits + "}" + rest;
    var n := |digits|;
    assert t[1..] == digits + ("}" + rest);
    RunOf(digits, "}" + rest);
    assert t[1..n + 1] == digits && t[n + 1] == '}' && t[n + 2..] == rest;
    assert Digit(digits[0]) && t[1] == digits[0];
  }

  /** and nothing else is. */
  lemma {:induction false} FormatPieces(t: string, args: seq<string>) returns (pieces: seq<Piece>)
    requires Format(t, args).Some?
    ensures AllFit(pieces, args) && Template(pieces) == t
    decreases |t|
  {
    pieces := [];
    if t != "" {
      var piece, n := FirstPiece(t, args);
      var rest := FormatPieces(t[n..], args);
      pieces := [piece] + rest;
      assert pieces[1..] == rest;
      assert t == t[..n] + t[n..];
    }
  }

  lemma FirstPiece(t: string, args: seq<string>) returns (piece: Piece, n: nat)
    requires t != "" && Format(t, args).Some?
    ensures 0 < n <= |t| && Fits(piece, args) && Format(t[n..], args).Some?
    ensures t[..n] == match piece case Plain(c) => [c] case Brace(c) => [c, c] case Slot(digits) => "{" + digits + "}"
  {
    if t[0] != '{' && t[0] != '}' {
      piece, n := Plain(t[0]), 1;
    } else if |t| > 1 && t[1] == t[0] {
      piece, n := Brace(t[0]), 2;
    } else {
      var run := DigitRun(t[1..]);
      assert t[1..][..run] == t[1..run + 1];
      piece, n := Slot(t[1..run + 1]), run + 2;
      assert t[..n] == "{" + t[1..run + 1] + "}";
    }
  }
}
