/**
 What the two check bits of RFC 1751 are: the sum of all pairs of bits, modulo four; and what they catch.
 */
module Rfc1751Parity {
  import opened Rfc1751
  import opened Rfc1751Keys

  // The four pairs of bits of a byte, from the top.
  function First(b: bv8): bv32 { ((b >> 6) & 3) as bv32 }

  function Second(b: bv8): bv32 { ((b >> 4) & 3) as bv32 }

  function Third(b: bv8): bv32 { ((b >> 2) & 3) as bv32 }

  function Fourth(b: bv8): bv32 { (b & 3) as bv32 }

  // Their sum.
  function Pairs(b: bv8): bv32 { Plus(Plus(Plus(First(b), Second(b)), Third(b)), Fourth(b)) }

  // The sum over the bytes of a string.
  function BytesSum(data: seq<bv8>): bv32 {
    if data == [] then 0 else Plus(BytesSum(data[..|data| - 1]), Pairs(data[|data| - 1]))
  }

  lemma {:induction false} PairIs(s: seq<bv8>, k: nat, j: nat)
    requires k < 8 && j < 4 && |s| >= 10
    ensures Pair(s, 4 * k + j) == Field(Join(s[k], s[k + 1], s[k + 2]), 22 - 2 * j, 2)
  {
    hide Join, Field, Extract;
    ExtractIsField(s, 2 * (4 * k + j), 2);
    assert 2 * (4 * k + j) / 8 == k && 2 * (4 * k + j) % 8 == 2 * j;
  }

  lemma {:induction false} FieldsOfByte(a: bv8, b: bv8, c: bv8)
    ensures Field(Join(a, b, c), 22, 2) == First(a) && Field(Join(a, b, c), 20, 2) == Second(a)
    ensures Field(Join(a, b, c), 18, 2) == Third(a) && Field(Join(a, b, c), 16, 2) == Fourth(a)
  {}

  lemma {:induction false} TwoAssoc(x: bv32, y: bv32, z: bv32)
    ensures Two(Plus(Plus(x, y), z)) == Two(Plus(x, Plus(y, z)))
  {}

  lemma {:induction false} TwoSame(x: bv32, y: bv32, z: bv32)
    requires Two(x) == Two(y)
    ensures Two(Plus(x, z)) == Two(Plus(y, z))
  {}

  // Modulo four, sums may be regrouped.
  lemma {:induction false} PlusFour(p: bv32, w: bv32, x: bv32, y: bv32, z: bv32)
    ensures Two(Plus(Plus(Plus(Plus(p, w), x), y), z)) == Two(Plus(p, Plus(Plus(Plus(w, x), y), z)))
  {
    hide Plus, Two;
    var wx := Plus(w, x);
    TwoAssoc(p, w, x);
    TwoSame(Plus(Plus(p, w), x), Plus(p, wx), y);
    TwoAssoc(p, wx, y);
    TwoSame(Plus(Plus(Plus(p, w), x), y), Plus(p, Plus(wx, y)), z);
    TwoAssoc(p, Plus(wx, y), z);
  }

  lemma {:induction false} SumStep(s: seq<bv8>, n: nat)
    requires n < 32 && |s| >= 10
    ensures PairSum(s, n + 1) == Plus(PairSum(s, n), Pair(s, n))
  {}

  lemma {:induction false} FourPairs(s: seq<bv8>, k: nat)
    requires k < 8 && |s| >= 10
    ensures Two(PairSum(s, 4 * k + 4)) == Two(Plus(PairSum(s, 4 * k), Pairs(s[k])))
  {
    hide Join, Field, Pair, PairSum, Plus, Two, First, Second, Third, Fourth;
    FieldsOfByte(s[k], s[k + 1], s[k + 2]);
    PairIs(s, k, 0);
    PairIs(s, k, 1);
    PairIs(s, k, 2);
    PairIs(s, k, 3);
    SumStep(s, 4 * k);
    SumStep(s, 4 * k + 1);
    SumStep(s, 4 * k + 2);
    SumStep(s, 4 * k + 3);
    PlusFour(PairSum(s, 4 * k), First(s[k]), Second(s[k]), Third(s[k]), Fourth(s[k]));
  }

  lemma {:induction false} SumIs(s: seq<bv8>, k: nat)
    requires k <= 8 && |s| >= 10
    ensures Two(PairSum(s, 4 * k)) == Two(BytesSum(s[..k]))
  {
    hide Pairs, Pair, Plus, Two;
    if k == 0 {
      assert s[..0] == [];
    } else {
      FourPairs(s, k - 1);
      SumIs(s, k - 1);
      hide PairSum;
      TwoSame(PairSum(s, 4 * k - 4), BytesSum(s[..k - 1]), Pairs(s[k - 1]));
      assert s[..k][..k - 1] == s[..k - 1];
    }
  }

  // The two bits at the end of the sixth group.
  function LastTwo(x: Index): bv32 { Two(Wide(x)) }

  lemma {:induction false} LastBits(b6: bv8, b7: bv8, p: bv32)
    ensures LastTwo(Word5(b6, b7, CheckByte(p))) == Two(p)
  {}

  /** The check bits: the low two bits of the sixth group of words are the sum of the 32 pairs of bits of the
      eight bytes, modulo four. */
  lemma {:induction false} CheckBitsAre(data: seq<bv8>, before: Beyond)
    requires |data| == 8
    ensures LastTwo(Groups(Buffer(data, before))[5]) == Two(BytesSum(data))
  {
    hide Groups, Two, LastTwo, CheckByte, PairSum, BytesSum, Word0, Word1, Word2, Word3, Word4, Word5;
    var b := Buffer(data, before);
    GroupBits(b);
    SumIs(data + before, 8);
    assert (data + before)[..8] == data;
    LastBits(b[6], b[7], Parity(data + before));
  }

  ////////// What they catch //////////

  // Bytes that differ in one pair of bits and no other.
  predicate OnePair(b: bv8, c: bv8) {
    b != c && ((b ^ c) & 0x3F == 0 || (b ^ c) & 0xCF == 0 || (b ^ c) & 0xF3 == 0 || (b ^ c) & 0xFC == 0)
  }

  lemma {:induction false} PairMatters(b: bv8, c: bv8, x: bv32)
    requires OnePair(b, c)
    ensures Two(Plus(x, Pairs(b))) != Two(Plus(x, Pairs(c)))
  {
    PairsDiffer(b, c);
    hide Pairs;
    PlusDiffers(x, Pairs(b), Pairs(c));
  }

  lemma {:induction false} PairsDiffer(b: bv8, c: bv8)
    requires OnePair(b, c)
    ensures Two(Pairs(b)) != Two(Pairs(c))
  {
    if (b ^ c) & 0x3F == 0 { TopDiffers(b, c); }
    else if (b ^ c) & 0xCF == 0 { SecondDiffers(b, c); }
    else if (b ^ c) & 0xF3 == 0 { ThirdDiffers(b, c); }
    else { LowDiffers(b, c); }
  }

  lemma {:induction false} TopDiffers(b: bv8, c: bv8)
    requires b != c && (b ^ c) & 0x3F == 0
    ensures Two(Pairs(b)) != Two(Pairs(c))
  {}

  lemma {:induction false} SecondDiffers(b: bv8, c: bv8)
    requires b != c && (b ^ c) & 0xCF == 0
    ensures Two(Pairs(b)) != Two(Pairs(c))
  {}

  lemma {:induction false} ThirdDiffers(b: bv8, c: bv8)
    requires b != c && (b ^ c) & 0xF3 == 0
    ensures Two(Pairs(b)) != Two(Pairs(c))
  {}

  lemma {:induction false} LowDiffers(b: bv8, c: bv8)
    requires b != c && (b ^ c) & 0xFC == 0
    ensures Two(Pairs(b)) != Two(Pairs(c))
  {}

  lemma {:induction false} PlusDiffers(x: bv32, y: bv32, z: bv32)
    ensures Two(y) != Two(z) <==> Two(Plus(x, y)) != Two(Plus(x, z))
  {}

  lemma {:induction false} AddComes(x: bv32, y: bv32, z: bv32)
    ensures Two(x) != Two(y) <==> Two(Plus(x, z)) != Two(Plus(y, z))
  {}

  lemma {:induction false} SumMatters(data: seq<bv8>, k: nat, c: bv8)
    requires k < |data| && OnePair(data[k], c)
    ensures Two(BytesSum(data)) != Two(BytesSum(data[k := c]))
  {
    hide Two, Plus, Pairs, OnePair;
    var n := |data| - 1;
    if k == n {
      assert data[k := c][..n] == data[..n];
      PairMatters(data[k], c, BytesSum(data[..n]));
    } else {
      assert data[k := c][..n] == data[..n][k := c];
      SumMatters(data[..n], k, c);
      AddComes(BytesSum(data[..n]), BytesSum(data[..n][k := c]), Pairs(data[n]));
    }
  }

  /** Words for eight bytes and any two check bits: etob gives the bytes if the bits are theirs, and refuses them
      with -2 if not (with 0 if one of the words is the one it never finds). */
  lemma {:induction false} EtobChecks(dict: seq<string>, data: seq<bv8>, p: bv32, beyond: Beyond)
    requires Dictionary(dict) && |data| == 8
    ensures var xs := Groups(data + [CheckByte(p)]);
            Etob(dict, Spell(dict, xs), beyond)
            == if exists i | 0 <= i < 6 :: Number(xs[i]) == 570 then Fails(0)
               else if Two(p) == Two(BytesSum(data)) then Done(data) else Fails(-2)
  {
    hide Groups, InsertAll, Number, Extract, PairSum, CheckByte, Two, Spell, Indices, Packed, BytesSum;
    var b := data + [CheckByte(p)];
    var xs := Groups(b);
    SpellIndices(dict, xs);
    if Indices(dict, Spell(dict, xs)).Done? {
      InsertAllPacks(xs);
      CheckByteLow(p);
      PackGroups(b);
      assert b[..9] == b;
      SumIs(b + beyond, 8);
      assert (b + beyond)[..8] == data;
      CheckBits(b + beyond, Parity(b + beyond));
      SameCheck(p, Parity(b + beyond));
      assert b[..8] == data;
    }
  }

  lemma {:induction false} SameCheck(p: bv32, q: bv32)
    ensures CheckByte(p) == CheckByte(q) <==> Two(p) == Two(q)
  {}

  /** A change of one pair of bits is caught: the words of the changed bytes with the check bits of the others
      are refused with -2, if all of them are found. */
  lemma {:induction false} OnePairCaught(dict: seq<string>, data: seq<bv8>, k: nat, c: bv8, before: Beyond,
                                         beyond: Beyond)
    requires Dictionary(dict) && |data| == 8 && k < 8 && OnePair(data[k], c)
    ensures LastTwo(Groups(Buffer(data, before))[5]) != LastTwo(Groups(Buffer(data[k := c], before))[5])
    ensures var xs := Groups(data[k := c] + [CheckByte(Parity(data + before))]);
            Etob(dict, Spell(dict, xs), beyond)
            == if exists i | 0 <= i < 6 :: Number(xs[i]) == 570 then Fails(0) else Fails(-2)
  {
    hide Groups, Number, PairSum, CheckByte, Two, LastTwo, Spell, BytesSum, Etob, OnePair;
    SumMatters(data, k, c);
    CheckBitsAre(data, before);
    CheckBitsAre(data[k := c], before);
    SumIs(data + before, 8);
    assert (data + before)[..8] == data;
    EtobChecks(dict, data[k := c], Parity(data + before), beyond);
  }
}
