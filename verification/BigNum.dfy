/**
 CBigNum of shared/bignum.h as a mathematical integer, with its MPI byte form (a big-endian magnitude
 whose top bit is the sign; the four bytes of length in front of it are left out at both ends) and
 the compact form made from it.
 */
module BigNum {
  import opened Numerals

  // BN_bn2mpi
  function ToMpi(n: int): seq<int> {
    var ds := Digits(Bytes, if n < 0 then -n else n);
    if ds == [] then []
    else if ds[0] >= 128 then [if n < 0 then 128 else 0] + ds
    else if n < 0 then [ds[0] + 128] + ds[1..]
    else ds
  }

  // BN_mpi2bn
  function FromMpi(b: seq<int>): int {
    if b == [] then 0
    else if b[0] >= 128 then -Horner(Bytes, [b[0] - 128] + b[1..])
    else Horner(Bytes, b)
  }

  // setvch and getvch: little-endian
  function FromVch(vch: seq<int>): int { FromMpi(Reverse(vch)) }

  function ToVch(n: int): seq<int> { Reverse(ToMpi(n)) }

  lemma {:induction false} HornerDropsZero(ds: seq<int>)
    ensures Horner(Bytes, [0] + ds) == Horner(Bytes, ds)
  {
    HornerDropsZeros(Bytes, 1, ds);
    assert Zeros(1) == [0];
  }

  /** The byte form keeps every integer, whatever its sign. */
  lemma {:induction false} MpiRoundTrip(n: int)
    ensures Below(Bytes, ToMpi(n)) && FromMpi(ToMpi(n)) == n
  {
    hide Digits, Horner;
    var m: nat := if n < 0 then -n else n;
    HornerOfDigits(Bytes, m);
    var ds, b := Digits(Bytes, m), ToMpi(n);
    if ds == [] {
      assert m == 0 by { HornerEmpty(); }
    } else if ds[0] >= 128 {
      assert b[1..] == ds;
      HornerDropsZero(ds);
    } else if n < 0 {
      assert [b[0] - 128] + b[1..] == ds;
    }
  }

  lemma {:induction false} HornerEmpty()
    ensures Horner(Bytes, []) == 0
  {}

  /** setvch undoes getvch. */
  lemma {:induction false} VchRoundTrip(n: int)
    ensures FromVch(ToVch(n)) == n
  {
    hide ToMpi, FromMpi;
    MpiRoundTrip(n);
    ReverseTwice(ToMpi(n));
  }

  lemma {:induction false} ReverseTwice<T>(s: seq<T>)
    ensures Reverse(Reverse(s)) == s
  {}

  ////////// Place value //////////

  function Pow256(k: nat): nat { if k == 0 then 1 else 256 * Pow256(k - 1) }

  lemma {:induction false} Pow256Positive(k: nat)
    ensures Pow256(k) >= 1
  {
    if k > 0 { Pow256Positive(k - 1); }
  }

  lemma {:induction false} HornerBelow(b: seq<int>)
    requires Below(Bytes, b)
    ensures 0 <= Horner(Bytes, b) < Pow256(|b|)
  {
    if b != [] { HornerBelow(b[..|b| - 1]); }
  }

  lemma {:induction false} HornerSplit(a: seq<int>, b: seq<int>)
    ensures Horner(Bytes, a + b) == Horner(Bytes, a) * Pow256(|b|) + Horner(Bytes, b)
    decreases |b|
  {
    if b == [] {
      assert a + b == a;
    } else {
      var rest := b[..|b| - 1];
      assert (a + b)[..|a + b| - 1] == a + rest;
      HornerSplit(a, rest);
      assert 256 * (Horner(Bytes, a) * Pow256(|rest|)) == Horner(Bytes, a) * Pow256(|b|);
    }
  }

  ////////// Compact form //////////

  // What the byte form of a number that is not negative looks like.
  ghost predicate Canonical(b: seq<int>) {
    Below(Bytes, b) && (b != [] ==> b[0] < 128 && (b[0] != 0 || (|b| > 1 && b[1] >= 128)))
  }

  lemma {:induction false} CanonicalToMpi(n: nat)
    ensures Canonical(ToMpi(n)) && Horner(Bytes, ToMpi(n)) == n
  {
    HornerOfDigits(Bytes, n);
    HornerDropsZero(Digits(Bytes, n));
  }

  lemma {:induction false} CanonicalUnique(b: seq<int>)
    requires Canonical(b)
    ensures Horner(Bytes, b) >= 0 && ToMpi(Horner(Bytes, b)) == b && FromMpi(b) == Horner(Bytes, b)
  {
    HornerBelow(b);
    if b != [] {
      if b[0] == 0 {
        assert b == [0] + b[1..];
        HornerDropsZero(b[1..]);
        DigitsOfHorner(Bytes, b[1..]);
      } else {
        DigitsOfHorner(Bytes, b);
      }
    }
  }

  function At(b: seq<int>, i: nat): int { if i < |b| then b[i] else 0 }

  // GetCompact: 32 bits
  function GetCompact(n: int): int {
    var b := ToMpi(n);
    PackBytes(b) % 0x1_0000_0000
  }

  function Pack(size: int, x: int, y: int, z: int): int {
    size * 0x100_0000 + x * 0x1_0000 + y * 0x100 + z
  }

  // The bytes SetCompact fills: as many as the top byte says, at most three of them not zero.
  function CompactBytes(c: nat): seq<int> {
    var size := c / 0x100_0000;
    var top := [c / 0x1_0000 % 0x100, c / 0x100 % 0x100, c % 0x100];
    if size <= 3 then top[..size] else top + Zeros(size - 3)
  }

  function SetCompact(c: nat): int { FromMpi(CompactBytes(c)) }

  // The byte form with all but its first three bytes cleared.
  function Top3(b: seq<int>): seq<int> {
    if |b| <= 3 then b else b[..3] + Zeros(|b| - 3)
  }

  lemma {:induction false} CompactOf(n: nat)
    requires |ToMpi(n)| <= 255
    ensures GetCompact(n) == PackBytes(ToMpi(n)) && 0 <= GetCompact(n)
    ensures CompactBytes(GetCompact(n)) == Top3(ToMpi(n))
  {
    hide ToMpi, CompactBytes;
    CanonicalToMpi(n);
    UnpackBytes(ToMpi(n));
  }

  function PackBytes(b: seq<int>): int { Pack(|b|, At(b, 0), At(b, 1), At(b, 2)) }

  lemma {:induction false} UnpackBytes(b: seq<int>)
    requires Below(Bytes, b) && |b| <= 255
    ensures 0 <= PackBytes(b) < 0x1_0000_0000 && CompactBytes(PackBytes(b)) == Top3(b)
  {
    Unpack(|b|, At(b, 0), At(b, 1), At(b, 2));
    hide Pack;
    var top := [At(b, 0), At(b, 1), At(b, 2)];
    assert CompactBytes(PackBytes(b)) == if |b| <= 3 then top[..|b|] else top + Zeros(|b| - 3);
    if |b| <= 3 { assert top[..|b|] == b; } else { assert top == b[..3]; }
  }

  lemma {:induction false} Unpack(size: nat, x: nat, y: nat, z: nat)
    requires size < 256 && x < 256 && y < 256 && z < 256
    ensures var c := Pack(size, x, y, z);
            && 0 <= c < 0x1_0000_0000 && c / 0x100_0000 == size && c / 0x1_0000 % 0x100 == x
            && c / 0x100 % 0x100 == y && c % 0x100 == z
  {
    var c := size * 0x100_0000 + x * 0x1_0000 + y * 0x100 + z;
    assert c / 0x100 == size * 0x1_0000 + x * 0x100 + y;
    assert c / 0x1_0000 == size * 0x100 + x;
  }

  lemma {:induction false} MulWithin(x: int, lo: int, hi: int, p: nat)
    requires lo <= x <= hi
    ensures lo * p <= x * p <= hi * p
  {}

  lemma {:induction false} HornerFew(x: int, y: int, z: int)
    ensures Horner(Bytes, [x]) == x
    ensures Horner(Bytes, [x, y]) == 0x100 * x + y
    ensures Horner(Bytes, [x, y, z]) == 0x1_0000 * x + 0x100 * y + z
  {
    assert [x][..0] == [] && [x, y][..1] == [x] && [x, y, z][..2] == [x, y];
  }

  lemma {:induction false} Top3Value(b: seq<int>)
    requires Canonical(b)
    ensures Canonical(Top3(b)) && |Top3(b)| == |b|
    ensures |b| <= 3 ==> Top3(b) == b
    ensures |b| > 3 ==> Horner(Bytes, Top3(b)) <= Horner(Bytes, b) < Horner(Bytes, Top3(b)) + Pow256(|b| - 3)
  {
    if |b| > 3 {
      assert b == b[..3] + b[3..];
      HornerSplit(b[..3], b[3..]);
      HornerSplit(b[..3], Zeros(|b| - 3));
      HornerDropsZeros(Bytes, |b| - 3, []);
      assert Zeros(|b| - 3) + [] == Zeros(|b| - 3);
      HornerBelow(b[3..]);
    }
  }

  /** For every number that is not negative and has at most 255 bytes: the compact form loses less
      than the place value of the third byte (nothing up to three bytes), never rounds up, and is not
      changed by a second trip. */
  lemma {:induction false} CompactRoundTrip(n: nat)
    requires |ToMpi(n)| <= 255
    ensures var m, s := SetCompact(GetCompact(n)), |ToMpi(n)|;
            && 0 <= m <= n
            && (if s <= 3 then m == n else n - m < Pow256(s - 3))
            && GetCompact(m) == GetCompact(n)
  {
    hide ToMpi, FromMpi, Horner, CompactBytes;
    var b := ToMpi(n);
    CanonicalToMpi(n);
    CompactOf(n);
    Top3Value(b);
    CanonicalUnique(Top3(b));
    CanonicalUnique(b);
    var m := SetCompact(GetCompact(n));
    assert ToMpi(m) == Top3(b);
    assert At(Top3(b), 0) == At(b, 0) && At(Top3(b), 1) == At(b, 1) && At(Top3(b), 2) == At(b, 2);
  }

  // The range of the numbers of a given size.
  lemma {:induction false} SizeBounds(b: seq<int>)
    requires Canonical(b) && b != []
    ensures Horner(Bytes, b) < 128 * Pow256(|b| - 1)
    ensures |b| >= 2 ==> Horner(Bytes, b) >= 128 * Pow256(|b| - 2)
  {
    hide Horner;
    assert b == [b[0]] + b[1..];
    HornerSplit([b[0]], b[1..]);
    HornerBelow(b[1..]);
    HornerFew(b[0], 0, 0);
    MulWithin(b[0], if b[0] == 0 then 0 else 1, 127, Pow256(|b| - 1));
    if |b| >= 2 && b[0] == 0 {
      assert b[1..] == [b[1]] + b[2..];
      HornerSplit([b[1]], b[2..]);
      HornerBelow(b[2..]);
      HornerFew(b[1], 0, 0);
      MulWithin(b[1], 128, 255, Pow256(|b| - 2));
    }
  }

  lemma {:induction false} Pow256Monotone(i: nat, j: nat)
    requires i <= j
    ensures Pow256(i) <= Pow256(j)
  {
    if i < j { Pow256Monotone(i, j - 1); }
  }

  // The first three bytes as a number, and what the rest adds.
  function Head(b: seq<int>): int { At(b, 0) * 0x1_0000 + At(b, 1) * 0x100 + At(b, 2) }

  lemma {:induction false} HeadOf(b: seq<int>)
    requires Below(Bytes, b)
    ensures |b| >= 3 ==> Head(b) * Pow256(|b| - 3) <= Horner(Bytes, b) < (Head(b) + 1) * Pow256(|b| - 3)
    ensures |b| <= 3 ==> Head(b) == Horner(Bytes, b) * Pow256(3 - |b|)
  {
    hide Horner;
    HornerFew(At(b, 0), At(b, 1), At(b, 2));
    assert Pow256(1) == 0x100;
    assert Pow256(2) == 0x1_0000;
    if |b| == 0 {
      HornerBelow(b);
    } else if |b| == 1 {
      assert b == [b[0]];
    } else if |b| == 2 {
      assert b == [b[0], b[1]];
    } else {
      assert b[..3] == [b[0], b[1], b[2]];
      assert b == b[..3] + b[3..];
      HornerSplit(b[..3], b[3..]);
      HornerBelow(b[3..]);
    }
  }

  lemma {:induction false} HeadMonotone(b: seq<int>, d: seq<int>)
    requires Below(Bytes, b) && Below(Bytes, d) && |b| == |d|
    requires Horner(Bytes, b) <= Horner(Bytes, d)
    ensures Head(b) <= Head(d)
  {
    HeadOf(b);
    HeadOf(d);
    hide Horner, Head, Pow256;
    if |b| >= 3 {
      Pow256Positive(|b| - 3);
      if Head(b) >= Head(d) + 1 { MulWithin(Head(b), Head(d) + 1, Head(b), Pow256(|b| - 3)); }
    } else {
      MulWithin(Horner(Bytes, d), Horner(Bytes, b), Horner(Bytes, d), Pow256(3 - |b|));
    }
  }

  /** GetCompact is monotone on numbers of at most 255 bytes. */
  lemma {:induction false} CompactMonotone(n: nat, m: nat)
    requires n <= m && |ToMpi(n)| <= 255 && |ToMpi(m)| <= 255
    ensures GetCompact(n) <= GetCompact(m)
  {
    hide ToMpi, Horner, CompactBytes, GetCompact, Pow256, Top3, Head;
    var b, d := ToMpi(n), ToMpi(m);
    CanonicalToMpi(n);
    CanonicalToMpi(m);
    CompactOf(n);
    CompactOf(m);
    PackOrder(b, d);
    if |b| == |d| {
      HeadMonotone(b, d);
    } else if |b| > |d| {
      NoShorter(b, d);
    }
  }

  lemma {:induction false} PackOrder(b: seq<int>, d: seq<int>)
    requires Below(Bytes, b) && Below(Bytes, d)
    ensures |b| < |d| ==> PackBytes(b) < PackBytes(d)
    ensures |b| == |d| && Head(b) <= Head(d) ==> PackBytes(b) <= PackBytes(d)
  {
    HeadBelow(b);
    HeadBelow(d);
    hide Head, PackBytes;
  }

  lemma {:induction false} HeadBelow(b: seq<int>)
    requires Below(Bytes, b)
    ensures 0 <= Head(b) < 0x100_0000 && PackBytes(b) == |b| * 0x100_0000 + Head(b)
  {
    assert 0 <= At(b, 0) < 256 && 0 <= At(b, 1) < 256 && 0 <= At(b, 2) < 256;
  }

  lemma {:induction false} NoShorter(b: seq<int>, d: seq<int>)
    requires Canonical(b) && Canonical(d) && |b| > |d|
    ensures Horner(Bytes, b) > Horner(Bytes, d)
  {
    SizeBounds(b);
    if d == [] {
      HornerNat(Bytes, b);
      if |b| == 1 { assert b[0] != 0; } else { Pow256Positive(|b| - 2); }
    } else {
      SizeBounds(d);
      Pow256Monotone(|d| - 1, |b| - 2);
    }
  }

  ////////// The object //////////

  class CBigNum {
    var bn: int

    constructor (n: int)
      ensures bn == n
    {
      bn := n;
    }

    method SetCompact(c: nat)
      modifies this
      ensures bn == FromMpi(CompactBytes(c))
    {
      var size := c / 0x100_0000;
      var vch := new int[size](_ => 0);
      if size >= 1 { vch[0] := c / 0x1_0000 % 0x100; }
      if size >= 2 { vch[1] := c / 0x100 % 0x100; }
      if size >= 3 { vch[2] := c % 0x100; }
      assert vch[..] == CompactBytes(c);
      bn := FromMpi(vch[..]);
    }

    method GetCompact() returns (c: int)
      ensures c == PackBytes(ToMpi(bn)) % 0x1_0000_0000
    {
      hide ToMpi;
      var vch := ToMpi(bn);
      var size := |vch|;
      var x := if size >= 1 then vch[0] else 0;
      var y := if size >= 2 then vch[1] else 0;
      var z := if size >= 3 then vch[2] else 0;
      c := (size * 0x100_0000 + x * 0x1_0000 + y * 0x100 + z) % 0x1_0000_0000;
    }
  }
}
