/** ECMAScript Number::toString over the shortest digits, a decimal reader, and the value both denote. */
module NumberText {
  import opened Decimals
  import opened Texts
  import opened Wrappers

  /** The parts of `repr(abs(value))` around its "." and "e"; the shortest digits are the host's. */
  datatype Number =
    | NaN
    | Infinity(negative: bool)
    | Finite(negative: bool, whole: seq<Digit>, fraction: seq<Digit>, exponent: int)

  /** (-1)^negative * 0.digits * 10^point. */
  datatype Decimal = Decimal(negative: bool, digits: seq<Digit>, point: int) {
    /** No digit at either end is zero, and zero itself is unsigned. */
    predicate Normal() {
      if digits == [] then !negative && point == 0
      else digits[0] != 0 && digits[|digits| - 1] != 0
    }
  }

  const ZERO := Decimal(false, [], 0)

  // ----- Normal form -----

  function StripLeading(digits: seq<Digit>): (r: seq<Digit>)
    ensures |r| <= |digits|
    ensures r != [] ==> r[0] != 0
  {
    if digits != [] && digits[0] == 0 then StripLeading(digits[1..]) else digits
  }

  function StripTrailing(digits: seq<Digit>): (r: seq<Digit>)
    ensures |r| <= |digits|
    ensures r != [] ==> r[0] == digits[0] && r[|r| - 1] != 0
  {
    if digits == [] then []
    else
      var tail := StripTrailing(digits[1..]);
      if tail == [] && digits[0] == 0 then [] else [digits[0]] + tail
  }

  function Normalize(negative: bool, digits: seq<Digit>, point: int): (d: Decimal)
    ensures d.Normal()
  {
    var stripped := StripLeading(digits);
    var kept := StripTrailing(stripped);
    if kept == [] then ZERO else Decimal(negative, kept, point - (|digits| - |stripped|))
  }

  function NormalOf(n: Number): (d: Decimal)
    requires n.Finite?
    ensures d.Normal()
  {
    Normalize(n.negative, n.whole + n.fraction, |n.whole| + n.exponent)
  }

  // ----- Printing (number_to_string) -----

  function Zeros(n: nat): (z: seq<Digit>)
    ensures |z| == n
  {
    seq(n, _ => 0)
  }

  function DigitChar(d: Digit): CodePoint {
    0x30 + d as CodePoint
  }

  function DigitText(digits: seq<Digit>): (t: Text)
    ensures |t| == |digits|
  {
    seq(|digits|, i requires 0 <= i < |digits| => DigitChar(digits[i]))
  }

  const DOT: CodePoint := 0x2E
  const MINUS: CodePoint := 0x2D
  const PLUS: CodePoint := 0x2B
  const E: CodePoint := 0x65
  const CAPITAL_E: CodePoint := 0x45

  function Sign(negative: bool): Text {
    if negative then [MINUS] else []
  }

  function Abs(i: int): nat {
    if i < 0 then -i else i
  }

  function IntegerLayout(digits: seq<Digit>, n: int): Text
    requires |digits| <= n
  {
    DigitText(digits + Zeros(n - |digits|))
  }

  function PointLayout(digits: seq<Digit>, n: int): Text
    requires 0 < n < |digits|
  {
    DigitText(digits[..n]) + [DOT] + DigitText(digits[n..])
  }

  function SmallLayout(digits: seq<Digit>, n: int): Text
    requires n <= 0
  {
    DigitText([0]) + [DOT] + DigitText(Zeros(-n) + digits)
  }

  function ExponentText(e: int): Text {
    [E, if e >= 0 then PLUS else MINUS] + DigitText(OfNat(Abs(e)))
  }

  function OptionalFraction(digits: seq<Digit>): Text {
    if digits == [] then [] else [DOT] + DigitText(digits)
  }

  function ExponentLayout(digits: seq<Digit>, n: int): Text
    requires digits != []
  {
    DigitText(digits[..1]) + OptionalFraction(digits[1..]) + ExponentText(n - 1)
  }

  /** The four layouts of a nonzero number with digits d1...dk and decimal point after position n. */
  function Layout(digits: seq<Digit>, n: int): Text
    requires digits != []
  {
    var k := |digits|;
    if k <= n <= 21 then IntegerLayout(digits, n)
    else if 0 < n <= 21 then PointLayout(digits, n)
    else if -6 < n <= 0 then SmallLayout(digits, n)
    else ExponentLayout(digits, n)
  }

  function FiniteToString(negative: bool, whole: seq<Digit>, fraction: seq<Digit>, exponent: int): Text {
    var digits := whole + fraction;
    var stripped := StripLeading(digits);
    var point := |whole| + exponent - (|digits| - |stripped|);
    var kept := StripTrailing(stripped);
    if kept == [] then DigitText([0]) else Sign(negative) + Layout(kept, point)
  }

  /** `number_to_string`; a value with no digit but zeros takes the source's branch for 0. */
  function NumberToString(value: Number): Text {
    match value
    case NaN => Chars("NaN")
    case Infinity(negative) => Chars(if negative then "-Infinity" else "Infinity")
    case Finite(negative, whole, fraction, exponent) => FiniteToString(negative, whole, fraction, exponent)
  }

  /** The layout as a function of the normal form alone. */
  function Print(d: Decimal): Text {
    if d.digits == [] then DigitText([0]) else Sign(d.negative) + Layout(d.digits, d.point)
  }

  lemma PrintsKept(negative: bool, kept: seq<Digit>, point: int)
    ensures Print(if kept == [] then ZERO else Decimal(negative, kept, point))
            == if kept == [] then DigitText([0]) else Sign(negative) + Layout(kept, point)
  {
  }

  lemma PrintsNormalForm(n: Number)
    requires n.Finite?
    ensures NumberToString(n) == Print(NormalOf(n))
  {
    var digits := n.whole + n.fraction;
    var stripped := StripLeading(digits);
    var kept := StripTrailing(stripped);
    PrintsKept(n.negative, kept, |n.whole| + n.exponent - (|digits| - |stripped|));
  }

  // ----- Reading (RFC 8259 section 6) -----

  predicate IsDigit(c: CodePoint) {
    0x30 <= c <= 0x39
  }

  function DigitValue(c: CodePoint): Digit
    requires IsDigit(c)
  {
    (c - 0x30) as Digit
  }

  /** A run of digits, which may be empty, and what follows it. */
  function ReadDigits(t: Text): (r: (seq<Digit>, Text))
    ensures |r.0| + |r.1| == |t|
  {
    if t != [] && IsDigit(t[0]) then
      var (digits, rest) := ReadDigits(t[1..]);
      ([DigitValue(t[0])] + digits, rest)
    else
      ([], t)
  }

  function ReadFraction(t: Text): (r: Option<(seq<Digit>, Text)>)
    ensures r.Some? ==> |r.value.1| <= |t|
  {
    if t != [] && t[0] == DOT then
      var (digits, rest) := ReadDigits(t[1..]);
      if digits == [] then None else Some((digits, rest))
    else
      Some(([], t))
  }

  function Signed(negative: bool, magnitude: int): int {
    if negative then -magnitude else magnitude
  }

  function ReadExponent(t: Text): (r: Option<(int, Text)>)
    ensures r.Some? ==> |r.value.1| <= |t|
  {
    if t != [] && (t[0] == E || t[0] == CAPITAL_E) then
      var negative := |t| > 1 && t[1] == MINUS;
      var signed := |t| > 1 && (t[1] == MINUS || t[1] == PLUS);
      var (digits, rest) := ReadDigits(if signed then t[2..] else t[1..]);
      if digits == [] then None
      else Some((Signed(negative, ToNat(digits)), rest))
    else
      Some((0, t))
  }

  /** The optional fraction and the optional exponent. */
  function ReadScale(t: Text): (r: Option<(seq<Digit>, int, Text)>)
    ensures r.Some? ==> |r.value.2| <= |t|
  {
    var (fraction, afterFraction) :- ReadFraction(t);
    var (exponent, rest) :- ReadExponent(afterFraction);
    Some((fraction, exponent, rest))
  }

  function ReadUnsigned(t: Text, negative: bool): (r: Option<(Decimal, Text)>)
    ensures r.Some? ==> |r.value.1| < |t|
    ensures r.Some? ==> r.value.0.Normal()
  {
    var (whole, afterWhole) := ReadDigits(t);
    if !Shortest(whole) then None
    else
      var (fraction, exponent, rest) :- ReadScale(afterWhole);
      Some((Normalize(negative, whole + fraction, |whole| + exponent), rest))
  }

  function ReadNumber(t: Text): (r: Option<(Decimal, Text)>)
    ensures r.Some? ==> |r.value.1| < |t|
    ensures r.Some? ==> r.value.0.Normal()
  {
    if t != [] && t[0] == MINUS then ReadUnsigned(t[1..], true) else ReadUnsigned(t, false)
  }

  /** What follows cannot be taken for more of the number. */
  predicate EndsNumber(rest: Text) {
    rest == [] || !(IsDigit(rest[0]) || rest[0] == DOT || rest[0] == E || rest[0] == CAPITAL_E)
  }

  // ----- Reading what was printed -----

  lemma {:induction false} ReadsDigits(digits: seq<Digit>, rest: Text)
    requires rest == [] || !IsDigit(rest[0])
    ensures ReadDigits(DigitText(digits) + rest) == (digits, rest)
  {
    var t := DigitText(digits) + rest;
    if digits == [] {
      assert t == rest;
    } else {
      assert t[1..] == DigitText(digits[1..]) + rest;
      ReadsDigits(digits[1..], rest);
      assert digits == [digits[0]] + digits[1..];
    }
  }

  lemma {:induction false} StripsLeading(left: nat, digits: seq<Digit>)
    requires digits != [] && digits[0] != 0
    ensures StripLeading(Zeros(left) + digits) == digits
  {
    if left == 0 {
      assert Zeros(left) + digits == digits;
    } else {
      StripsLeading(left - 1, digits);
      assert (Zeros(left) + digits)[1..] == Zeros(left - 1) + digits;
    }
  }

  lemma {:induction false} StripsZeros(n: nat)
    ensures StripTrailing(Zeros(n)) == []
  {
    if n > 0 {
      assert Zeros(n)[1..] == Zeros(n - 1);
      StripsZeros(n - 1);
    }
  }

  lemma {:induction false} StripsTrailing(digits: seq<Digit>, right: nat)
    requires digits != [] && digits[|digits| - 1] != 0
    ensures StripTrailing(digits + Zeros(right)) == digits
  {
    assert (digits + Zeros(right))[1..] == digits[1..] + Zeros(right);
    assert digits == [digits[0]] + digits[1..];
    if |digits| == 1 {
      assert digits[1..] + Zeros(right) == Zeros(right);
      StripsZeros(right);
    } else {
      StripsTrailing(digits[1..], right);
    }
  }

  /** Digits padded with zeros on either side have the same normal form. */
  lemma NormalizesPadding(negative: bool, left: nat, digits: seq<Digit>, right: nat, point: int)
    requires digits != [] && digits[0] != 0 && digits[|digits| - 1] != 0
    ensures Normalize(negative, Zeros(left) + digits + Zeros(right), point + left) == Decimal(negative, digits, point)
  {
    assert Zeros(left) + digits + Zeros(right) == Zeros(left) + (digits + Zeros(right));
    StripsLeading(left, digits + Zeros(right));
    StripsTrailing(digits, right);
  }

  lemma ReadsFraction(digits: seq<Digit>, rest: Text)
    requires digits != [] && (rest == [] || !IsDigit(rest[0]))
    ensures ReadFraction([DOT] + DigitText(digits) + rest) == Some((digits, rest))
  {
    assert ([DOT] + DigitText(digits) + rest)[1..] == DigitText(digits) + rest;
    ReadsDigits(digits, rest);
  }

  lemma ReadsExponent(e: int, rest: Text)
    requires EndsNumber(rest)
    ensures ReadExponent(ExponentText(e) + rest) == Some((e, rest))
  {
    var digits := OfNat(Abs(e));
    var t := ExponentText(e) + rest;
    assert t[2..] == DigitText(digits) + rest;
    ReadsDigits(digits, rest);
    OfNatRoundTrip(Abs(e));
    assert t[1] == if e >= 0 then PLUS else MINUS;
    assert ReadDigits(t[2..]) == (digits, rest);
    assert Signed(e < 0, ToNat(digits)) == e;
  }

  lemma ReadsScale(t: Text, fraction: seq<Digit>, afterFraction: Text, exponent: int, rest: Text)
    requires ReadFraction(t) == Some((fraction, afterFraction))
    requires ReadExponent(afterFraction) == Some((exponent, rest))
    ensures ReadScale(t) == Some((fraction, exponent, rest))
  {
  }

  lemma ReadsPadded(
    t: Text, whole: seq<Digit>, afterWhole: Text, fraction: seq<Digit>, exponent: int, rest: Text,
    negative: bool, left: nat, digits: seq<Digit>, right: nat
  )
    requires ReadDigits(t) == (whole, afterWhole) && Shortest(whole)
    requires ReadScale(afterWhole) == Some((fraction, exponent, rest))
    requires digits != [] && digits[0] != 0 && digits[|digits| - 1] != 0
    requires whole + fraction == Zeros(left) + digits + Zeros(right)
    ensures ReadUnsigned(t, negative) == Some((Decimal(negative, digits, |whole| + exponent - left), rest))
  {
    NormalizesPadding(negative, left, digits, right, |whole| + exponent - left);
  }

  lemma ReadsIntegerLayout(negative: bool, digits: seq<Digit>, n: int, rest: Text)
    requires digits != [] && digits[0] != 0 && digits[|digits| - 1] != 0 && EndsNumber(rest) && |digits| <= n
    ensures ReadUnsigned(IntegerLayout(digits, n) + rest, negative) == Some((Decimal(negative, digits, n), rest))
  {
    var whole := digits + Zeros(n - |digits|);
    ReadsDigits(whole, rest);
    ReadsScale(rest, [], rest, 0, rest);
    assert whole + [] == Zeros(0) + digits + Zeros(n - |digits|);
    ReadsPadded(IntegerLayout(digits, n) + rest, whole, rest, [], 0, rest, negative, 0, digits, n - |digits|);
  }

  lemma ReadsPointLayout(negative: bool, digits: seq<Digit>, n: int, rest: Text)
    requires digits != [] && digits[0] != 0 && digits[|digits| - 1] != 0 && EndsNumber(rest) && 0 < n < |digits|
    ensures ReadUnsigned(PointLayout(digits, n) + rest, negative) == Some((Decimal(negative, digits, n), rest))
  {
    var t, tail := PointLayout(digits, n) + rest, [DOT] + DigitText(digits[n..]) + rest;
    assert t == DigitText(digits[..n]) + tail;
    ReadsDigits(digits[..n], tail);
    ReadsFraction(digits[n..], rest);
    ReadsScale(tail, digits[n..], rest, 0, rest);
    assert digits[..n] + digits[n..] == Zeros(0) + digits + Zeros(0);
    ReadsPadded(t, digits[..n], tail, digits[n..], 0, rest, negative, 0, digits, 0);
  }

  lemma ReadsSmallLayout(negative: bool, digits: seq<Digit>, n: int, rest: Text)
    requires digits != [] && digits[0] != 0 && digits[|digits| - 1] != 0 && EndsNumber(rest) && n <= 0
    ensures ReadUnsigned(SmallLayout(digits, n) + rest, negative) == Some((Decimal(negative, digits, n), rest))
  {
    var fraction := Zeros(-n) + digits;
    var t, tail := SmallLayout(digits, n) + rest, [DOT] + DigitText(fraction) + rest;
    assert t == DigitText([0]) + tail;
    ReadsDigits([0], tail);
    ReadsFraction(fraction, rest);
    ReadsScale(tail, fraction, rest, 0, rest);
    assert [0] + fraction == Zeros(1 - n) + digits + Zeros(0);
    ReadsPadded(t, [0], tail, fraction, 0, rest, negative, 1 - n, digits, 0);
  }

  lemma ReadsOptionalFraction(digits: seq<Digit>, rest: Text)
    requires rest != [] && rest[0] == E
    ensures ReadFraction(OptionalFraction(digits) + rest) == Some((digits, rest))
    ensures !IsDigit((OptionalFraction(digits) + rest)[0])
  {
    if digits == [] {
      assert OptionalFraction(digits) + rest == rest;
    } else {
      ReadsFraction(digits, rest);
    }
  }

  lemma ReadsBeforeExponent(negative: bool, digits: seq<Digit>, e: int, exponent: Text, rest: Text)
    requires digits != [] && digits[0] != 0 && digits[|digits| - 1] != 0
    requires exponent != [] && exponent[0] == E && ReadExponent(exponent) == Some((e, rest))
    ensures ReadUnsigned(DigitText(digits[..1]) + (OptionalFraction(digits[1..]) + exponent), negative)
         == Some((Decimal(negative, digits, e + 1), rest))
  {
    var tail := OptionalFraction(digits[1..]) + exponent;
    ReadsOptionalFraction(digits[1..], exponent);
    ReadsScale(tail, digits[1..], exponent, e, rest);
    ReadsDigits(digits[..1], tail);
    assert digits[..1] + digits[1..] == Zeros(0) + digits + Zeros(0);
    ReadsPadded(DigitText(digits[..1]) + tail, digits[..1], tail, digits[1..], e, rest, negative, 0, digits, 0);
  }

  lemma ReadsExponentLayout(negative: bool, digits: seq<Digit>, n: int, rest: Text)
    requires digits != [] && digits[0] != 0 && digits[|digits| - 1] != 0 && EndsNumber(rest)
    ensures ReadUnsigned(ExponentLayout(digits, n) + rest, negative) == Some((Decimal(negative, digits, n), rest))
  {
    var exponent := ExponentText(n - 1) + rest;
    ReadsExponent(n - 1, rest);
    ReadsBeforeExponent(negative, digits, n - 1, exponent, rest);
    Regroup(DigitText(digits[..1]), OptionalFraction(digits[1..]), ExponentText(n - 1), rest);
  }

  /** The reader recovers digits and point from each of the four layouts. */
  lemma ReadsLayout(negative: bool, digits: seq<Digit>, n: int, rest: Text)
    requires digits != [] && digits[0] != 0 && digits[|digits| - 1] != 0 && EndsNumber(rest)
    ensures ReadUnsigned(Layout(digits, n) + rest, negative) == Some((Decimal(negative, digits, n), rest))
  {
    if |digits| <= n <= 21 {
      ReadsIntegerLayout(negative, digits, n, rest);
    } else if 0 < n <= 21 {
      ReadsPointLayout(negative, digits, n, rest);
    } else if -6 < n <= 0 {
      ReadsSmallLayout(negative, digits, n, rest);
    } else {
      ReadsExponentLayout(negative, digits, n, rest);
    }
  }

  lemma LayoutStartsWithDigit(digits: seq<Digit>, n: int)
    requires digits != []
    ensures Layout(digits, n) != [] && IsDigit(Layout(digits, n)[0])
  {
  }

  lemma ReadsZero(rest: Text)
    requires EndsNumber(rest)
    ensures ReadNumber(DigitText([0]) + rest) == Some((ZERO, rest))
  {
    ReadsDigits([0], rest);
    assert StripLeading([0]) == [];
    assert [0] + [] == [0 as Digit];
  }

  lemma ReadsSigned(negative: bool, layout: Text, rest: Text, d: Decimal)
    requires layout != [] && IsDigit(layout[0]) && ReadUnsigned(layout + rest, negative) == Some((d, rest))
    ensures ReadNumber(Sign(negative) + layout + rest) == Some((d, rest))
  {
    var t := Sign(negative) + layout + rest;
    if negative {
      assert t[0] == MINUS && t[1..] == layout + rest;
    } else {
      assert t == layout + rest && t[0] == layout[0];
    }
  }

  /** Printing then reading gives back the normal form and leaves what follows untouched. */
  lemma ReadsPrinted(d: Decimal, rest: Text)
    requires d.Normal() && EndsNumber(rest)
    ensures ReadNumber(Print(d) + rest) == Some((d, rest))
  {
    if d.digits == [] {
      ReadsZero(rest);
    } else {
      ReadsLayout(d.negative, d.digits, d.point, rest);
      LayoutStartsWithDigit(d.digits, d.point);
      ReadsSigned(d.negative, Layout(d.digits, d.point), rest, d);
    }
  }

  // ----- What the digits denote -----

  /** n * 10^zeros. */
  function Scale(n: nat, zeros: nat): nat
    decreases zeros
  {
    if zeros == 0 then n else Scale(10 * n, zeros - 1)
  }

  function Mantissa(n: Number): nat
    requires n.Finite?
  {
    ToNat(n.whole + n.fraction)
  }

  /** The exponent of ten that scales the mantissa. */
  function Ulp(n: Number): int
    requires n.Finite?
  {
    n.exponent - |n.fraction|
  }

  /** Equal as real numbers: the mantissas agree once both are brought to the smaller exponent. */
  predicate SameNumber(a: Number, b: Number)
    requires a.Finite? && b.Finite?
  {
    var low := if Ulp(a) <= Ulp(b) then Ulp(a) else Ulp(b);
    && Scale(Mantissa(a), Ulp(a) - low) == Scale(Mantissa(b), Ulp(b) - low)
    && (Mantissa(a) == 0 || a.negative == b.negative)
  }

  lemma {:induction false} ScaleSum(n: nat, j: nat, k: nat)
    ensures Scale(Scale(n, j), k) == Scale(n, j + k)
    decreases j
  {
    if j > 0 {
      ScaleSum(10 * n, j - 1, k);
    }
  }

  lemma {:induction false} ScaleInjective(a: nat, b: nat, k: nat)
    ensures Scale(a, k) == Scale(b, k) <==> a == b
    decreases k
  {
    if k > 0 {
      ScaleInjective(10 * a, 10 * b, k - 1);
    }
  }

  lemma {:induction false} ScaleEndsInZero(n: nat, k: nat)
    ensures k > 0 ==> Scale(n, k) % 10 == 0
    decreases k
  {
    if k > 1 {
      ScaleEndsInZero(10 * n, k - 1);
    } else if k == 1 {
      assert Scale(n, 1) == Scale(10 * n, 0);
    }
  }

  lemma {:induction false} AppendZeros(n: nat, zeros: nat)
    ensures Append(n, Zeros(zeros)) == Scale(n, zeros)
    decreases zeros
  {
    if zeros > 0 {
      assert Zeros(zeros)[1..] == Zeros(zeros - 1);
      AppendZeros(10 * n, zeros - 1);
    }
  }

  lemma {:induction false} StripLeadingKeepsValue(digits: seq<Digit>)
    ensures ToNat(StripLeading(digits)) == ToNat(digits)
  {
    if digits != [] && digits[0] == 0 {
      StripLeadingKeepsValue(digits[1..]);
    }
  }

  lemma {:induction false} StripTrailingDropsZeros(digits: seq<Digit>)
    ensures digits == StripTrailing(digits) + Zeros(|digits| - |StripTrailing(digits)|)
  {
    if digits != [] {
      StripTrailingDropsZeros(digits[1..]);
      assert digits == [digits[0]] + digits[1..];
    }
  }

  lemma StrippedValue(digits: seq<Digit>)
    ensures ToNat(digits) == Scale(ToNat(StripTrailing(StripLeading(digits))),
                                   |StripLeading(digits)| - |StripTrailing(StripLeading(digits))|)
  {
    var stripped := StripLeading(digits);
    var kept := StripTrailing(stripped);
    StripLeadingKeepsValue(digits);
    StripTrailingDropsZeros(stripped);
    AppendConcat(0, kept, Zeros(|stripped| - |kept|));
    AppendZeros(ToNat(kept), |stripped| - |kept|);
  }

  lemma {:induction false} ScaleZero(k: nat)
    ensures Scale(0, k) == 0
  {
    if k > 0 {
      ScaleZero(k - 1);
    }
  }

  /** Digits without a zero at either end denote a positive number that ten does not divide. */
  lemma NormalDigits(d: Decimal)
    requires d.Normal() && d.digits != []
    ensures ToNat(d.digits) > 0 && ToNat(d.digits) % 10 != 0 && OfNat(ToNat(d.digits)) == d.digits
  {
    var last := |d.digits| - 1;
    assert d.digits == d.digits[..last] + [d.digits[last]];
    ToNatSnoc(d.digits[..last], d.digits[last]);
    ToNatRoundTrip(d.digits);
  }

  /** Stripping zeros at either end changes no value. */
  lemma NormalizeKeepsValue(n: Number)
    requires n.Finite?
    ensures var d := NormalOf(n);
            if d.digits == [] then Mantissa(n) == 0
            else && d.negative == n.negative
                 && d.point - |d.digits| >= Ulp(n)
                 && Mantissa(n) == Scale(ToNat(d.digits), d.point - |d.digits| - Ulp(n))
  {
    var digits := n.whole + n.fraction;
    StrippedValue(digits);
    if StripTrailing(StripLeading(digits)) == [] {
      ScaleZero(|StripLeading(digits)|);
    }
  }

  lemma ScaledFurther(a: nat, b: nat, j: nat, k: nat)
    requires j <= k && a % 10 != 0 && Scale(a, j) == Scale(b, k)
    ensures a == b && j == k
  {
    ScaleSum(b, k - j, j);
    ScaleInjective(a, Scale(b, k - j), j);
    ScaleEndsInZero(b, k - j);
  }

  /** Two mantissas that ten does not divide agree at some scale only if both parts agree. */
  lemma ScaledOnce(a: nat, b: nat, j: nat, k: nat)
    requires a % 10 != 0 && b % 10 != 0 && Scale(a, j) == Scale(b, k)
    ensures a == b && j == k
  {
    if j <= k {
      ScaledFurther(a, b, j, k);
    } else {
      ScaledFurther(b, a, k, j);
    }
  }

  lemma NonzeroValue(n: Number, low: int)
    requires n.Finite? && low <= Ulp(n)
    ensures var d := NormalOf(n);
            if d.digits == [] then Mantissa(n) == 0 && Scale(Mantissa(n), Ulp(n) - low) == 0
            else && d.point - |d.digits| >= low
                 && Mantissa(n) > 0
                 && Scale(Mantissa(n), Ulp(n) - low) == Scale(ToNat(d.digits), d.point - |d.digits| - low) > 0
  {
    var d := NormalOf(n);
    NormalizeKeepsValue(n);
    if d.digits == [] {
      ScaleZero(Ulp(n) - low);
    } else {
      NormalDigits(d);
      ScalePositive(ToNat(d.digits), d.point - |d.digits| - Ulp(n));
      ScaleSum(ToNat(d.digits), d.point - |d.digits| - Ulp(n), Ulp(n) - low);
      ScalePositive(Mantissa(n), Ulp(n) - low);
    }
  }

  lemma SameNonzeroNumber(a: Number, b: Number)
    requires a.Finite? && b.Finite? && SameNumber(a, b) && Mantissa(a) > 0 && Mantissa(b) > 0
    ensures NormalOf(a) == NormalOf(b)
  {
    var c, d := NormalOf(a), NormalOf(b);
    var low := if Ulp(a) <= Ulp(b) then Ulp(a) else Ulp(b);
    NonzeroValue(a, low);
    NonzeroValue(b, low);
    NormalizeKeepsValue(a);
    NormalizeKeepsValue(b);
    NormalDigits(c);
    NormalDigits(d);
    ScaledOnce(ToNat(c.digits), ToNat(d.digits), c.point - |c.digits| - low, d.point - |d.digits| - low);
  }

  lemma NormalFormDecidesValue(a: Number, b: Number)
    requires a.Finite? && b.Finite?
    ensures SameNumber(a, b) <==> NormalOf(a) == NormalOf(b)
  {
    var c, d := NormalOf(a), NormalOf(b);
    var low := if Ulp(a) <= Ulp(b) then Ulp(a) else Ulp(b);
    NonzeroValue(a, low);
    NonzeroValue(b, low);
    NormalizeKeepsValue(a);
    NormalizeKeepsValue(b);
    if c.digits != [] && d.digits != [] && SameNumber(a, b) {
      SameNonzeroNumber(a, b);
    }
  }

  lemma ScalePositive(n: nat, k: nat)
    requires n > 0
    ensures Scale(n, k) > 0
  {
    ScaleZero(k);
    ScaleInjective(n, 0, k);
  }

  /** Equal numbers print alike and distinct numbers print differently, whatever repr they came from. */
  lemma PrintsAlikeIffSameNumber(a: Number, b: Number)
    requires a.Finite? && b.Finite?
    ensures NumberToString(a) == NumberToString(b) <==> SameNumber(a, b)
  {
    NormalFormDecidesValue(a, b);
    PrintsNormalForm(a);
    PrintsNormalForm(b);
    ReadsPrinted(NormalOf(a), []);
    ReadsPrinted(NormalOf(b), []);
  }
}
