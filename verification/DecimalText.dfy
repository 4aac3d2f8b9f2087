/** Decimal numbers inside ordinary strings. */
module DecimalText {
  import opened Decimals

  predicate IsDigit(c: char) {
    '0' <= c <= '9'
  }

  function DigitChar(d: Digit): (c: char)
    ensures IsDigit(c)
  {
    '0' + d as char
  }

  function DigitValue(c: char): Digit
    requires IsDigit(c)
  {
    (c - '0') as Digit
  }

  function Chars(digits: seq<Digit>): (s: string)
    ensures |s| == |digits| && forall i :: 0 <= i < |s| ==> IsDigit(s[i])
  {
    seq(|digits|, i requires 0 <= i < |digits| => DigitChar(digits[i]))
  }

  /** `str(n)`. */
  function StringOf(n: nat): (s: string)
    ensures s != [] && forall i :: 0 <= i < |s| ==> IsDigit(s[i])
  {
    Chars(OfNat(n))
  }

  lemma CharsInjective(a: seq<Digit>, b: seq<Digit>)
    requires Chars(a) == Chars(b)
    ensures a == b
  {
    assert |a| == |Chars(a)| == |Chars(b)| == |b|;
    forall i | 0 <= i < |a|
      ensures a[i] == b[i]
    {
      assert Chars(a)[i] == DigitChar(a[i]) && Chars(b)[i] == DigitChar(b[i]);
      assert DigitValue(DigitChar(a[i])) == a[i] && DigitValue(DigitChar(b[i])) == b[i];
    }
  }

  lemma StringOfInjective(a: nat, b: nat)
    requires StringOf(a) == StringOf(b)
    ensures a == b
  {
    CharsInjective(OfNat(a), OfNat(b));
    OfNatInjective(a, b);
  }

  /** The digits at the start of `s`, and what follows them. */
  function ReadDigits(s: string): (r: (seq<Digit>, string))
    ensures |r.0| + |r.1| == |s|
  {
    if s != [] && IsDigit(s[0]) then
      var (digits, rest) := ReadDigits(s[1..]);
      ([DigitValue(s[0])] + digits, rest)
    else
      ([], s)
  }

  lemma {:induction false} ReadsDigits(digits: seq<Digit>, rest: string)
    requires rest == [] || !IsDigit(rest[0])
    ensures ReadDigits(Chars(digits) + rest) == (digits, rest)
  {
    var s := Chars(digits) + rest;
    if digits == [] {
      assert s == rest;
    } else {
      assert s[1..] == Chars(digits[1..]) + rest;
      ReadsDigits(digits[1..], rest);
      assert digits == [digits[0]] + digits[1..];
    }
  }
}
