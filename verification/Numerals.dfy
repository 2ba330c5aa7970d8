/**
 Numbers written in a base: the arithmetic both the byte form and the text form of CBigNum rest on.
 */
module Numerals {

  type byte = b: int | 0 <= b < 256

  // The two bases in use.
  datatype Base = Bytes | Base58

  function Radix(base: Base): int { if base.Bytes? then 256 else 58 }

  // q * radix + d, its quotient and its remainder, spelled out so that they stay linear
  function Up(base: Base, q: int, d: int): int { if base.Bytes? then 256 * q + d else 58 * q + d }

  function Quotient(base: Base, n: int): int { if base.Bytes? then n / 256 else n / 58 }

  function Remainder(base: Base, n: int): int { if base.Bytes? then n % 256 else n % 58 }

  predicate Below(base: Base, ds: seq<int>) { forall i | 0 <= i < |ds| :: 0 <= ds[i] < Radix(base) }

  // Byte strings.
  type Octets = s: seq<int> | Below(Bytes, s)

  // The number with these digits, most significant first.
  function Horner(base: Base, ds: seq<int>): int {
    if ds == [] then 0 else Up(base, Horner(base, ds[..|ds| - 1]), ds[|ds| - 1])
  }

  // The digits of a number, without a leading zero.
  function Digits(base: Base, n: nat): seq<int> {
    if n == 0 then [] else Digits(base, Quotient(base, n)) + [Remainder(base, n)]
  }

  function Zeros(k: nat): (r: seq<int>)
    ensures |r| == k && forall i | 0 <= i < k :: r[i] == 0
  {
    seq(k, _ => 0)
  }

  function LeadingZeros(ds: seq<int>): (k: nat)
    ensures k <= |ds| && (forall i | 0 <= i < k :: ds[i] == 0) && (k < |ds| ==> ds[k] != 0)
  {
    if ds == [] || ds[0] != 0 then 0 else 1 + LeadingZeros(ds[1..])
  }

  function Reverse<T>(s: seq<T>): (r: seq<T>)
    ensures |r| == |s| && forall i | 0 <= i < |s| :: r[i] == s[|s| - 1 - i]
  {
    if s == [] then [] else Reverse(s[1..]) + [s[0]]
  }

  lemma {:induction false} Splits(base: Base, n: nat)
    ensures Up(base, Quotient(base, n), Remainder(base, n)) == n
    ensures 0 <= Remainder(base, n) < Radix(base) && 0 <= Quotient(base, n)
    ensures n > 0 ==> Quotient(base, n) < n
    ensures Quotient(base, n) == 0 ==> Remainder(base, n) == n
  {}

  lemma {:induction false} Joins(base: Base, q: nat, d: nat)
    requires d < Radix(base)
    ensures Quotient(base, Up(base, q, d)) == q && Remainder(base, Up(base, q, d)) == d
    ensures Up(base, q, d) >= q + d
  {}

  lemma {:induction false} HornerNat(base: Base, ds: seq<int>)
    requires Below(base, ds)
    ensures Horner(base, ds) >= 0
    ensures ds != [] && ds[0] != 0 ==> Horner(base, ds) > 0
  {
    if ds != [] { HornerNat(base, ds[..|ds| - 1]); }
  }

  /** The digits of a number spell the number, and start with a digit other than zero. */
  lemma {:induction false} HornerOfDigits(base: Base, n: nat)
    ensures Below(base, Digits(base, n)) && Horner(base, Digits(base, n)) == n
    ensures n > 0 ==> Digits(base, n) != [] && Digits(base, n)[0] != 0
    decreases n
  {
    Splits(base, n);
    hide Up, Quotient, Remainder, Radix;
    if n > 0 {
      HornerOfDigits(base, Quotient(base, n));
      var ds := Digits(base, n);
      assert ds[..|ds| - 1] == Digits(base, Quotient(base, n));
    }
  }

  /** A spelling without a leading zero is the only one of its number. */
  lemma {:induction false} DigitsOfHorner(base: Base, ds: seq<int>)
    requires Below(base, ds)
    requires ds != [] ==> ds[0] != 0
    ensures Horner(base, ds) >= 0 && Digits(base, Horner(base, ds)) == ds
  {
    hide Up, Quotient, Remainder;
    if ds != [] {
      var front, d := ds[..|ds| - 1], ds[|ds| - 1];
      assert Horner(base, ds) == Up(base, Horner(base, front), d) && 0 <= d < Radix(base);
      assert Horner(base, front) >= 0 by { HornerNat(base, front); }
      assert Horner(base, ds) > 0 by { HornerNat(base, ds); }
      DigitsOfHorner(base, front);
      hide Horner, Radix;
      Joins(base, Horner(base, front), d);
      assert ds == front + [d];
    }
  }

  lemma {:induction false} HornerDropsZeros(base: Base, k: nat, ds: seq<int>)
    ensures Horner(base, Zeros(k) + ds) == Horner(base, ds)
    decreases |ds|, k
  {
    var all := Zeros(k) + ds;
    if ds == [] {
      assert all == Zeros(k);
      if k > 0 {
        assert all[..k - 1] == Zeros(k - 1) == Zeros(k - 1) + [];
        HornerDropsZeros(base, k - 1, []);
      }
    } else {
      assert all[..|all| - 1] == Zeros(k) + ds[..|ds| - 1];
      HornerDropsZeros(base, k, ds[..|ds| - 1]);
    }
  }

  /** Any spelling is its leading zeros and the digits of its number. */
  lemma {:induction false} ZerosAndDigits(base: Base, ds: seq<int>)
    requires Below(base, ds)
    ensures Horner(base, ds) >= 0
    ensures ds == Zeros(LeadingZeros(ds)) + Digits(base, Horner(base, ds))
  {
    var k := LeadingZeros(ds);
    var rest := ds[k..];
    assert ds == Zeros(k) + rest;
    HornerDropsZeros(base, k, rest);
    DigitsOfHorner(base, rest);
  }

  // Zeros in front of a spelling without a leading zero are all its leading zeros.
  lemma {:induction false} LeadingZerosOf(k: nat, ds: seq<int>)
    requires ds != [] ==> ds[0] != 0
    ensures LeadingZeros(Zeros(k) + ds) == k
  {
    var all := Zeros(k) + ds;
    assert k < |all| ==> all[k] == ds[0];
    assert forall i | 0 <= i < k :: all[i] == 0;
  }
}
