/** Decimal notation of natural numbers: `str(int)` and `int(str)` over digit sequences. */
module Decimals {

  newtype Digit = d: int | 0 <= d <= 9

  /** The number whose notation is that of `high` followed by `digits`. */
  function Append(high: nat, digits: seq<Digit>): nat
    decreases digits
  {
    if digits == [] then high else Append(10 * high + digits[0] as int, digits[1..])
  }

  /** The number a digit sequence denotes, most significant digit first; no digits denote 0. */
  function ToNat(digits: seq<Digit>): nat {
    Append(0, digits)
  }

  /** The shortest notation of `n`. */
  function OfNat(n: nat): seq<Digit> {
    if n < 10 then [n as Digit] else OfNat(n / 10) + [(n % 10) as Digit]
  }

  /** Notation without a redundant leading zero. */
  predicate Shortest(digits: seq<Digit>) {
    digits != [] && (|digits| > 1 ==> digits[0] != 0)
  }

  lemma {:induction false} AppendConcat(high: nat, a: seq<Digit>, b: seq<Digit>)
    ensures Append(high, a + b) == Append(Append(high, a), b)
    decreases a
  {
    if a == [] {
      assert a + b == b;
    } else {
      assert (a + b)[1..] == a[1..] + b;
      AppendConcat(10 * high + a[0] as int, a[1..], b);
    }
  }

  lemma ToNatSnoc(front: seq<Digit>, last: Digit)
    ensures ToNat(front + [last]) == 10 * ToNat(front) + last as int
  {
    AppendConcat(0, front, [last]);
  }

  lemma ToNatSingle(d: Digit)
    ensures ToNat([d]) == d as int
  {
    assert [d][1..] == [];
    assert Append(d as int, []) == d as int;
  }

  lemma {:induction false} OfNatRoundTrip(n: nat)
    ensures Shortest(OfNat(n))
    ensures ToNat(OfNat(n)) == n
    ensures n > 0 ==> OfNat(n)[0] != 0
  {
    if n >= 10 {
      OfNatRoundTrip(n / 10);
      ToNatSnoc(OfNat(n / 10), (n % 10) as Digit);
    } else {
      ToNatSingle(n as Digit);
    }
  }

  lemma {:induction false} ToNatRoundTrip(digits: seq<Digit>)
    requires Shortest(digits)
    ensures OfNat(ToNat(digits)) == digits
    ensures digits[0] != 0 ==> ToNat(digits) > 0
  {
    if |digits| > 1 {
      var front, last := digits[..|digits| - 1], digits[|digits| - 1];
      assert digits == front + [last];
      ToNatSnoc(front, last);
      ToNatRoundTrip(front);
    } else {
      assert digits == [digits[0]];
      ToNatSingle(digits[0]);
    }
  }

  lemma OfNatInjective(a: nat, b: nat)
    requires OfNat(a) == OfNat(b)
    ensures a == b
  {
    OfNatRoundTrip(a);
    OfNatRoundTrip(b);
  }
}
