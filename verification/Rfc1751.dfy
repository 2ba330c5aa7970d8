/**
 RFC 1751 key texts as shared/rfc1751.cpp writes and reads them: 64 bits and two bits of parity as
 six words of a dictionary of 2048.  The dictionary is a parameter.
 */
module Rfc1751 {

  ////////// Bits //////////

  function Shl(x: bv32, n: nat): bv32
    requires n < 8
  {
    x << n
  }

  function High(y: bv32): bv8 { ((y >> 16) & 0xFF) as bv8 }

  function Mid(y: bv32): bv8 { ((y >> 8) & 0xFF) as bv8 }

  function Low(y: bv32): bv8 { (y & 0xFF) as bv8 }

  function Or(a: bv8, b: bv8): bv8 { a | b }

  function Join(cl: bv8, cc: bv8, cr: bv8): bv32 {
    (cl as bv32 << 16) | (cc as bv32 << 8) | cr as bv32
  }

  /** extract: it always loads three bytes, even where the buffer of nine has ended, so `s` is the
      buffer and what follows it in memory. */
  function Extract(s: seq<bv8>, start: nat, length: nat): bv32
    requires length <= 11 && start + length <= 66 && start / 8 + 2 < |s|
  {
    var x := Join(s[start / 8], s[start / 8 + 1], s[start / 8 + 2]);
    (x >> (24 - (length + start % 8))) & (0xFFFF >> (16 - length))
  }

  /** insert */
  function Insert(s: seq<bv8>, x: bv32, start: nat, length: nat): (r: seq<bv8>)
    requires |s| == 9 && length <= 11 && start + length <= 66
    ensures |r| == 9
  {
    var shift := (8 - (start + length) % 8) % 8;
    var y, k := Shl(x, shift), start / 8;
    if shift + length > 16 then s[k := Or(s[k], High(y))][k + 1 := Or(s[k + 1], Mid(y))][k + 2 := Or(s[k + 2], Low(y))]
    else if shift + length > 8 then s[k := Or(s[k], Mid(y))][k + 1 := Or(s[k + 1], Low(y))]
    else s[k := Or(s[k], Low(y))]
  }

  // Bit m of a byte, counted from the top, and bit i of a string of bytes.
  predicate ByteBit(c: bv8, m: nat)
    requires m < 8
  {
    (c >> (7 - m)) & 1 == 1
  }

  predicate Bit(s: seq<bv8>, i: nat)
    requires i / 8 < |s|
  {
    ByteBit(s[i / 8], i % 8)
  }

  // Bit n of a word, counted from the bottom, and the `length` bits from there up.
  function BitAt(x: bv32, n: nat): bv32
    requires n < 32
  {
    (x >> n) & 1
  }

  function Field(x: bv32, n: nat, length: nat): bv32
    requires n < 32 && length <= 11
  {
    (x >> n) & Mask(length)
  }

  function Mask(length: nat): bv32
    requires length <= 11
  {
    0xFFFF >> (16 - length)
  }

  lemma {:induction false} ShiftOne(x: bv32, n: nat)
    requires n < 24
    ensures x >> (n + 1) == (x >> n) >> 1
  {
    if n < 12 { ShiftOneLow(x, n); } else { ShiftOneHigh(x, n); }
  }

  lemma {:induction false} ShiftOneLow(x: bv32, n: nat)
    requires n < 12
    ensures x >> (n + 1) == (x >> n) >> 1
  {
    if n < 4 { ShiftOneFrom0(x, n); } else if n < 8 { ShiftOneFrom4(x, n); } else { ShiftOneFrom8(x, n); }
  }

  lemma {:induction false} ShiftOneHigh(x: bv32, n: nat)
    requires 12 <= n < 24
    ensures x >> (n + 1) == (x >> n) >> 1
  {
    if n < 16 { ShiftOneFrom12(x, n); } else if n < 20 { ShiftOneFrom16(x, n); } else { ShiftOneFrom20(x, n); }
  }

  lemma {:induction false} ShiftOneFrom0(x: bv32, n: nat)
    requires n < 4
    ensures x >> (n + 1) == (x >> n) >> 1
  {
    match n case 0 => case 1 => case 2 => case _ =>
  }

  lemma {:induction false} ShiftOneFrom4(x: bv32, n: nat)
    requires 4 <= n < 8
    ensures x >> (n + 1) == (x >> n) >> 1
  {
    match n case 4 => case 5 => case 6 => case _ =>
  }

  lemma {:induction false} ShiftOneFrom8(x: bv32, n: nat)
    requires 8 <= n < 12
    ensures x >> (n + 1) == (x >> n) >> 1
  {
    match n case 8 => case 9 => case 10 => case _ =>
  }

  lemma {:induction false} ShiftOneFrom12(x: bv32, n: nat)
    requires 12 <= n < 16
    ensures x >> (n + 1) == (x >> n) >> 1
  {
    match n case 12 => case 13 => case 14 => case _ =>
  }

  lemma {:induction false} ShiftOneFrom16(x: bv32, n: nat)
    requires 16 <= n < 20
    ensures x >> (n + 1) == (x >> n) >> 1
  {
    match n case 16 => case 17 => case 18 => case _ =>
  }

  lemma {:induction false} ShiftOneFrom20(x: bv32, n: nat)
    requires 20 <= n < 24
    ensures x >> (n + 1) == (x >> n) >> 1
  {
    match n case 20 => case 21 => case 22 => case _ =>
  }

  lemma {:induction false} Masks()
    ensures Mask(0) == 0 && Mask(1) == 1 && Mask(2) == 3 && Mask(3) == 7 && Mask(4) == 0xF
    ensures Mask(5) == 0x1F && Mask(6) == 0x3F && Mask(7) == 0x7F && Mask(8) == 0xFF
    ensures Mask(9) == 0x1FF && Mask(10) == 0x3FF && Mask(11) == 0x7FF
  {}

  lemma {:induction false} MaskNext(length: nat)
    requires 1 <= length <= 11
    ensures Mask(length) == (Mask(length - 1) << 1) | 1
  {
    Masks();
    hide Mask;
    match length
      case 1 => case 2 => case 3 => case 4 => case 5 => case 6 => case 7 => case 8 =>
      case 9 => case 10 => case _ =>
  }

  lemma {:induction false} MaskOne(z: bv32, m: bv32)
    ensures z & ((m << 1) | 1) == (((z >> 1) & m) << 1) | (z & 1)
  {}

  lemma {:induction false} FieldStep(x: bv32, n: nat, length: nat)
    requires 1 <= length <= 11 && n < 24
    ensures Field(x, n, length) == (Field(x, n + 1, length - 1) << 1) | BitAt(x, n)
  {
    hide Mask;
    ShiftOne(x, n);
    MaskNext(length);
    MaskOne(x >> n, Mask(length - 1));
  }

  lemma {:induction false} FieldEmpty(x: bv32, n: nat)
    requires n < 32
    ensures Field(x, n, 0) == 0
  {}

  lemma {:induction false} SameBits(x: bv32, y: bv32, n: nat, length: nat)
    requires length <= 11 && n + length <= 24
    requires forall i | n <= i < n + length :: BitAt(x, i) == BitAt(y, i)
    ensures Field(x, n, length) == Field(y, n, length)
    decreases length
  {
    hide Field, BitAt;
    if length == 0 {
      FieldEmpty(x, n);
      FieldEmpty(y, n);
    } else {
      SameBits(x, y, n + 1, length - 1);
      FieldStep(x, n, length);
      FieldStep(y, n, length);
    }
  }

  /** extract depends only on the bits asked for: not on the other bits of the bytes it loads, nor on
      the bytes beyond the buffer. */
  lemma {:induction false} ExtractLocal(s: seq<bv8>, t: seq<bv8>, start: nat, length: nat)
    requires length <= 11 && start + length <= 66 && start / 8 + 2 < |s| && start / 8 + 2 < |t|
    requires forall i | start <= i < start + length :: Bit(s, i) == Bit(t, i)
    ensures Extract(s, start, length) == Extract(t, start, length)
  {
    hide Join, BitAt, Bit, Field;
    var k, o := start / 8, start % 8;
    var x, y := Join(s[k], s[k + 1], s[k + 2]), Join(t[k], t[k + 1], t[k + 2]);
    var n := 24 - (length + o);
    forall i | n <= i < n + length ensures BitAt(x, i) == BitAt(y, i) {
      var j := 23 - i;
      BitOfJoin(s, k, j);
      BitOfJoin(t, k, j);
      assert Bit(s, 8 * k + j) == Bit(t, 8 * k + j);
    }
    SameBits(x, y, n, length);
    ExtractIsField(s, start, length);
    ExtractIsField(t, start, length);
  }

  lemma {:induction false} ExtractIsField(s: seq<bv8>, start: nat, length: nat)
    requires length <= 11 && start + length <= 66 && start / 8 + 2 < |s|
    ensures Extract(s, start, length)
            == Field(Join(s[start / 8], s[start / 8 + 1], s[start / 8 + 2]), 24 - (length + start % 8), length)
  {}

  lemma {:induction false} BitOfJoin(s: seq<bv8>, k: nat, j: nat)
    requires k + 2 < |s| && j < 24
    ensures BitAt(Join(s[k], s[k + 1], s[k + 2]), 23 - j) == if Bit(s, 8 * k + j) then 1 else 0
  {
    hide Join, ByteBit, BitAt;
    assert (8 * k + j) / 8 == k + j / 8 && (8 * k + j) % 8 == j % 8;
    if j < 8 { JoinHigh(s[k], s[k + 1], s[k + 2], j); }
    else if j < 16 { JoinMid(s[k], s[k + 1], s[k + 2], j - 8); }
    else { JoinLow(s[k], s[k + 1], s[k + 2], j - 16); }
  }

  lemma {:induction false} JoinHigh(cl: bv8, cc: bv8, cr: bv8, m: nat)
    requires m < 8
    ensures BitAt(Join(cl, cc, cr), 23 - m) == if ByteBit(cl, m) then 1 else 0
  {
    match m case 0 => case 1 => case 2 => case 3 => case 4 => case 5 => case 6 => case _ =>
  }

  lemma {:induction false} JoinMid(cl: bv8, cc: bv8, cr: bv8, m: nat)
    requires m < 8
    ensures BitAt(Join(cl, cc, cr), 15 - m) == if ByteBit(cc, m) then 1 else 0
  {
    match m case 0 => case 1 => case 2 => case 3 => case 4 => case 5 => case 6 => case _ =>
  }

  lemma {:induction false} JoinLow(cl: bv8, cc: bv8, cr: bv8, m: nat)
    requires m < 8
    ensures BitAt(Join(cl, cc, cr), 7 - m) == if ByteBit(cr, m) then 1 else 0
  {
    match m case 0 => case 1 => case 2 => case 3 => case 4 => case 5 => case 6 => case _ =>
  }

  ////////// Six groups of eleven bits //////////

  type Index = bv11

  function Wide(x: Index): bv32 { x as bv32 }

  function Eleven(x: bv32): Index { (x & 0x7FF) as bv11 }

  // The index of word i.
  function Group(s: seq<bv8>, i: nat): Index
    requires |s| >= 9 && i < 6
  {
    Eleven(Extract(s, 11 * i, 11))
  }

  function Groups(s: seq<bv8>): (r: seq<Index>)
    requires |s| >= 9
    ensures |r| == 6
  {
    [Group(s, 0), Group(s, 1), Group(s, 2), Group(s, 3), Group(s, 4), Group(s, 5)]
  }

  // The word across two or three bytes.
  function Word0(a: bv8, b: bv8): Index { Eleven((a as bv32 << 3) | (b as bv32 >> 5)) }

  function Word1(a: bv8, b: bv8): Index { Eleven((a as bv32 << 6) | (b as bv32 >> 2)) }

  function Word2(a: bv8, b: bv8, c: bv8): Index { Eleven((a as bv32 << 9) | (b as bv32 << 1) | (c as bv32 >> 7)) }

  function Word3(a: bv8, b: bv8): Index { Eleven((a as bv32 << 4) | (b as bv32 >> 4)) }

  function Word4(a: bv8, b: bv8): Index { Eleven((a as bv32 << 7) | (b as bv32 >> 1)) }

  function Word5(a: bv8, b: bv8, c: bv8): Index { Eleven((a as bv32 << 10) | (b as bv32 << 2) | (c as bv32 >> 6)) }

  lemma {:induction false} GroupBits(s: seq<bv8>)
    requires |s| >= 9
    ensures Groups(s) == [Word0(s[0], s[1]), Word1(s[1], s[2]), Word2(s[2], s[3], s[4]),
                          Word3(s[4], s[5]), Word4(s[5], s[6]), Word5(s[6], s[7], s[8])]
  {
    hide Join, Eleven, Field, Group, Word0, Word1, Word2, Word3, Word4, Word5;
    FieldBits012(s[0], s[1], s[2], s[3], s[4]);
    FieldBits345(s[4], s[5], s[6], s[7], s[8]);
    GroupFields(s);
  }

  lemma {:induction false} FieldBits012(b0: bv8, b1: bv8, b2: bv8, b3: bv8, b4: bv8)
    ensures Eleven(Field(Join(b0, b1, b2), 13, 11)) == Word0(b0, b1)
    ensures Eleven(Field(Join(b1, b2, b3), 10, 11)) == Word1(b1, b2)
    ensures Eleven(Field(Join(b2, b3, b4), 7, 11)) == Word2(b2, b3, b4)
  {}

  lemma {:induction false} FieldBits345(b4: bv8, b5: bv8, b6: bv8, b7: bv8, b8: bv8)
    ensures Eleven(Field(Join(b4, b5, b6), 12, 11)) == Word3(b4, b5)
    ensures Eleven(Field(Join(b5, b6, b7), 9, 11)) == Word4(b5, b6)
    ensures Eleven(Field(Join(b6, b7, b8), 6, 11)) == Word5(b6, b7, b8)
  {}

  lemma {:induction false} GroupFields(s: seq<bv8>)
    requires |s| >= 9
    ensures Group(s, 0) == Eleven(Field(Join(s[0], s[1], s[2]), 13, 11))
    ensures Group(s, 1) == Eleven(Field(Join(s[1], s[2], s[3]), 10, 11))
    ensures Group(s, 2) == Eleven(Field(Join(s[2], s[3], s[4]), 7, 11))
    ensures Group(s, 3) == Eleven(Field(Join(s[4], s[5], s[6]), 12, 11))
    ensures Group(s, 4) == Eleven(Field(Join(s[5], s[6], s[7]), 9, 11))
    ensures Group(s, 5) == Eleven(Field(Join(s[6], s[7], s[8]), 6, 11))
  {
    hide Join, Eleven, Field, Extract;
    ExtractIsField(s, 0, 11);
    ExtractIsField(s, 11, 11);
    ExtractIsField(s, 22, 11);
    ExtractIsField(s, 33, 11);
    ExtractIsField(s, 44, 11);
    ExtractIsField(s, 55, 11);
  }

  const NOTHING: seq<bv8> := [0, 0, 0, 0, 0, 0, 0, 0, 0]

  // The loop of etob: the buffer after the first n words.
  function InsertAll(xs: seq<Index>, n: nat): (r: seq<bv8>)
    requires n <= |xs| == 6
    ensures |r| == 9
  {
    if n == 0 then NOTHING else Insert(InsertAll(xs, n - 1), Wide(xs[n - 1]), 11 * (n - 1), 11)
  }

  // The byte across one or two words.
  function Byte0(x: Index): bv8 { Low(x as bv32 >> 3) }

  function Byte1(x: Index, y: Index): bv8 { Low((x as bv32 << 5) | (y as bv32 >> 6)) }

  function Byte2(x: Index, y: Index): bv8 { Low((x as bv32 << 2) | (y as bv32 >> 9)) }

  function Byte3(x: Index): bv8 { Low(x as bv32 >> 1) }

  function Byte4(x: Index, y: Index): bv8 { Low((x as bv32 << 7) | (y as bv32 >> 4)) }

  function Byte5(x: Index, y: Index): bv8 { Low((x as bv32 << 4) | (y as bv32 >> 7)) }

  function Byte6(x: Index, y: Index): bv8 { Low((x as bv32 << 1) | (y as bv32 >> 10)) }

  function Byte7(x: Index): bv8 { Low(x as bv32 >> 2) }

  function Byte8(x: Index): bv8 { Low(x as bv32 << 6) }

  // The nine bytes six words make.
  function Packed(xs: seq<Index>): (r: seq<bv8>)
    requires |xs| == 6
    ensures |r| == 9
  {
    [Byte0(xs[0]), Byte1(xs[0], xs[1]), Byte2(xs[1], xs[2]), Byte3(xs[2]), Byte4(xs[2], xs[3]),
     Byte5(xs[3], xs[4]), Byte6(xs[4], xs[5]), Byte7(xs[5]), Byte8(xs[5])]
  }

  lemma {:induction false} InsertAt0(x: bv32)
    ensures Insert([0, 0, 0, 0, 0, 0, 0, 0, 0], x, 0, 11)
            == [Or(0, Mid(Shl(x, 5))), Or(0, Low(Shl(x, 5))), 0, 0, 0, 0, 0, 0, 0]
  {
    hide High, Mid, Low, Shl, Or;
  }

  lemma {:induction false} InsertAt11(c0: bv8, c1: bv8, x: bv32)
    ensures Insert([c0, c1, 0, 0, 0, 0, 0, 0, 0], x, 11, 11)
            == [c0, Or(c1, Mid(Shl(x, 2))), Or(0, Low(Shl(x, 2))), 0, 0, 0, 0, 0, 0]
  {
    hide High, Mid, Low, Shl, Or;
  }

  lemma {:induction false} InsertAt22(c0: bv8, c1: bv8, c2: bv8, x: bv32)
    ensures Insert([c0, c1, c2, 0, 0, 0, 0, 0, 0], x, 22, 11)
            == [c0, c1, Or(c2, High(Shl(x, 7))), Or(0, Mid(Shl(x, 7))), Or(0, Low(Shl(x, 7))), 0, 0, 0, 0]
  {
    hide High, Mid, Low, Shl, Or;
  }

  lemma {:induction false} InsertAt33(c0: bv8, c1: bv8, c2: bv8, c3: bv8, c4: bv8, x: bv32)
    ensures Insert([c0, c1, c2, c3, c4, 0, 0, 0, 0], x, 33, 11)
            == [c0, c1, c2, c3, Or(c4, Mid(Shl(x, 4))), Or(0, Low(Shl(x, 4))), 0, 0, 0]
  {
    hide High, Mid, Low, Shl, Or;
  }

  lemma {:induction false} InsertAt44(c0: bv8, c1: bv8, c2: bv8, c3: bv8, c4: bv8, c5: bv8, x: bv32)
    ensures Insert([c0, c1, c2, c3, c4, c5, 0, 0, 0], x, 44, 11)
            == [c0, c1, c2, c3, c4, Or(c5, Mid(Shl(x, 1))), Or(0, Low(Shl(x, 1))), 0, 0]
  {
    hide High, Mid, Low, Shl, Or;
  }

  lemma {:induction false} InsertAt55(c0: bv8, c1: bv8, c2: bv8, c3: bv8, c4: bv8, c5: bv8, c6: bv8, x: bv32)
    ensures Insert([c0, c1, c2, c3, c4, c5, c6, 0, 0], x, 55, 11)
            == [c0, c1, c2, c3, c4, c5, Or(c6, High(Shl(x, 6))), Or(0, Mid(Shl(x, 6))), Or(0, Low(Shl(x, 6)))]
  {
    hide High, Mid, Low, Shl, Or;
  }

  lemma {:induction false} InsertBytes(x0: Index, x1: Index, x2: Index, x3: Index, x4: Index, x5: Index)
    ensures Or(0, Mid(Shl(Wide(x0), 5))) == Byte0(x0)
    ensures Or(Or(0, Low(Shl(Wide(x0), 5))), Mid(Shl(Wide(x1), 2))) == Byte1(x0, x1)
    ensures Or(Or(0, Low(Shl(Wide(x1), 2))), High(Shl(Wide(x2), 7))) == Byte2(x1, x2)
    ensures Or(0, Mid(Shl(Wide(x2), 7))) == Byte3(x2)
    ensures Or(Or(0, Low(Shl(Wide(x2), 7))), Mid(Shl(Wide(x3), 4))) == Byte4(x2, x3)
    ensures Or(Or(0, Low(Shl(Wide(x3), 4))), Mid(Shl(Wide(x4), 1))) == Byte5(x3, x4)
    ensures Or(Or(0, Low(Shl(Wide(x4), 1))), High(Shl(Wide(x5), 6))) == Byte6(x4, x5)
    ensures Or(0, Mid(Shl(Wide(x5), 6))) == Byte7(x5)
    ensures Or(0, Low(Shl(Wide(x5), 6))) == Byte8(x5)
  {
    hide Wide, High, Mid, Low, Shl, Or, Byte0, Byte1, Byte2, Byte3, Byte4, Byte5, Byte6, Byte7, Byte8;
    InsertLowBytes(x0, x1, x2, x3);
    InsertMiddleBytes(x3, x4, x5);
    InsertHighBytes(x5);
  }

  lemma {:induction false} InsertLowBytes(x0: Index, x1: Index, x2: Index, x3: Index)
    ensures Or(0, Mid(Shl(Wide(x0), 5))) == Byte0(x0)
    ensures Or(Or(0, Low(Shl(Wide(x0), 5))), Mid(Shl(Wide(x1), 2))) == Byte1(x0, x1)
    ensures Or(Or(0, Low(Shl(Wide(x1), 2))), High(Shl(Wide(x2), 7))) == Byte2(x1, x2)
    ensures Or(0, Mid(Shl(Wide(x2), 7))) == Byte3(x2)
    ensures Or(Or(0, Low(Shl(Wide(x2), 7))), Mid(Shl(Wide(x3), 4))) == Byte4(x2, x3)
  {}

  lemma {:induction false} InsertMiddleBytes(x3: Index, x4: Index, x5: Index)
    ensures Or(Or(0, Low(Shl(Wide(x3), 4))), Mid(Shl(Wide(x4), 1))) == Byte5(x3, x4)
    ensures Or(Or(0, Low(Shl(Wide(x4), 1))), High(Shl(Wide(x5), 6))) == Byte6(x4, x5)
  {}

  lemma {:induction false} InsertHighBytes(x5: Index)
    ensures Or(0, Mid(Shl(Wide(x5), 6))) == Byte7(x5)
    ensures Or(0, Low(Shl(Wide(x5), 6))) == Byte8(x5)
  {}

  lemma {:induction false} InsertNext(xs: seq<Index>, n: nat)
    requires n < |xs| == 6
    ensures InsertAll(xs, 0) == NOTHING
    ensures InsertAll(xs, n + 1) == Insert(InsertAll(xs, n), Wide(xs[n]), 11 * n, 11)
  {}

  lemma {:induction false} Insert1(xs: seq<Index>)
    requires |xs| == 6
    ensures InsertAll(xs, 1) == [Byte0(xs[0]), Or(0, Low(Shl(Wide(xs[0]), 5))), 0, 0, 0, 0, 0, 0, 0]
  {
    hide Wide, High, Mid, Low, Shl, Or, Insert, InsertAll, Byte0, Byte1, Byte2, Byte3, Byte4, Byte5, Byte6, Byte7,
         Byte8;
    InsertNext(xs, 0);
    InsertAt0(Wide(xs[0]));
    InsertBytes(xs[0], xs[1], xs[2], xs[3], xs[4], xs[5]);
  }

  lemma {:induction false} Insert2(xs: seq<Index>)
    requires |xs| == 6
    ensures InsertAll(xs, 2) == [Byte0(xs[0]), Byte1(xs[0], xs[1]), Or(0, Low(Shl(Wide(xs[1]), 2))), 0, 0, 0, 0, 0, 0]
  {
    hide Wide, High, Mid, Low, Shl, Or, Insert, InsertAll, Byte0, Byte1, Byte2, Byte3, Byte4, Byte5, Byte6, Byte7,
         Byte8;
    Insert1(xs);
    InsertNext(xs, 1);
    InsertAt11(Byte0(xs[0]), Or(0, Low(Shl(Wide(xs[0]), 5))), Wide(xs[1]));
    InsertBytes(xs[0], xs[1], xs[2], xs[3], xs[4], xs[5]);
  }

  lemma {:induction false} Insert3(xs: seq<Index>)
    requires |xs| == 6
    ensures InsertAll(xs, 3) == [Byte0(xs[0]), Byte1(xs[0], xs[1]), Byte2(xs[1], xs[2]), Byte3(xs[2]),
                                 Or(0, Low(Shl(Wide(xs[2]), 7))), 0, 0, 0, 0]
  {
    hide Wide, High, Mid, Low, Shl, Or, Insert, InsertAll, Byte0, Byte1, Byte2, Byte3, Byte4, Byte5, Byte6, Byte7,
         Byte8;
    Insert2(xs);
    InsertNext(xs, 2);
    InsertAt22(Byte0(xs[0]), Byte1(xs[0], xs[1]), Or(0, Low(Shl(Wide(xs[1]), 2))), Wide(xs[2]));
    InsertBytes(xs[0], xs[1], xs[2], xs[3], xs[4], xs[5]);
  }

  lemma {:induction false} Insert4(xs: seq<Index>)
    requires |xs| == 6
    ensures InsertAll(xs, 4) == [Byte0(xs[0]), Byte1(xs[0], xs[1]), Byte2(xs[1], xs[2]), Byte3(xs[2]),
                                 Byte4(xs[2], xs[3]), Or(0, Low(Shl(Wide(xs[3]), 4))), 0, 0, 0]
  {
    hide Wide, High, Mid, Low, Shl, Or, Insert, InsertAll, Byte0, Byte1, Byte2, Byte3, Byte4, Byte5, Byte6, Byte7,
         Byte8;
    Insert3(xs);
    InsertNext(xs, 3);
    InsertAt33(Byte0(xs[0]), Byte1(xs[0], xs[1]), Byte2(xs[1], xs[2]), Byte3(xs[2]),
               Or(0, Low(Shl(Wide(xs[2]), 7))), Wide(xs[3]));
    InsertBytes(xs[0], xs[1], xs[2], xs[3], xs[4], xs[5]);
  }

  lemma {:induction false} Insert5(xs: seq<Index>)
    requires |xs| == 6
    ensures InsertAll(xs, 5) == [Byte0(xs[0]), Byte1(xs[0], xs[1]), Byte2(xs[1], xs[2]), Byte3(xs[2]),
                                 Byte4(xs[2], xs[3]), Byte5(xs[3], xs[4]), Or(0, Low(Shl(Wide(xs[4]), 1))), 0, 0]
  {
    hide Wide, High, Mid, Low, Shl, Or, Insert, InsertAll, Byte0, Byte1, Byte2, Byte3, Byte4, Byte5, Byte6, Byte7,
         Byte8;
    Insert4(xs);
    InsertNext(xs, 4);
    InsertAt44(Byte0(xs[0]), Byte1(xs[0], xs[1]), Byte2(xs[1], xs[2]), Byte3(xs[2]), Byte4(xs[2], xs[3]),
               Or(0, Low(Shl(Wide(xs[3]), 4))), Wide(xs[4]));
    InsertBytes(xs[0], xs[1], xs[2], xs[3], xs[4], xs[5]);
  }

  /** The six insertions of etob fill the buffer. */
  lemma {:induction false} InsertAllPacks(xs: seq<Index>)
    requires |xs| == 6
    ensures InsertAll(xs, 6) == Packed(xs)
  {
    hide Wide, High, Mid, Low, Shl, Or, Insert, InsertAll, Byte0, Byte1, Byte2, Byte3, Byte4, Byte5, Byte6, Byte7,
         Byte8;
    Insert5(xs);
    InsertNext(xs, 5);
    InsertAt55(Byte0(xs[0]), Byte1(xs[0], xs[1]), Byte2(xs[1], xs[2]), Byte3(xs[2]), Byte4(xs[2], xs[3]),
               Byte5(xs[3], xs[4]), Or(0, Low(Shl(Wide(xs[4]), 1))), Wide(xs[5]));
    InsertBytes(xs[0], xs[1], xs[2], xs[3], xs[4], xs[5]);
  }

  lemma {:induction false} PackBits(b0: bv8, b1: bv8, b2: bv8, b3: bv8, b4: bv8, b5: bv8, b6: bv8, b7: bv8, b8: bv8)
    requires b8 & 0x3F == 0
    ensures var g0, g1, g2 := Word0(b0, b1), Word1(b1, b2), Word2(b2, b3, b4);
            var g3, g4, g5 := Word3(b4, b5), Word4(b5, b6), Word5(b6, b7, b8);
            && Byte0(g0) == b0 && Byte1(g0, g1) == b1 && Byte2(g1, g2) == b2 && Byte3(g2) == b3
            && Byte4(g2, g3) == b4 && Byte5(g3, g4) == b5 && Byte6(g4, g5) == b6 && Byte7(g5) == b7 && Byte8(g5) == b8
  {}

  /** Words read off a buffer make the buffer again. */
  lemma {:induction false} PackGroups(s: seq<bv8>)
    requires |s| >= 9 && s[8] & 0x3F == 0
    ensures Packed(Groups(s)) == s[..9]
  {
    hide Groups, Byte0, Byte1, Byte2, Byte3, Byte4, Byte5, Byte6, Byte7, Byte8, Word0, Word1, Word2, Word3, Word4,
         Word5;
    GroupBits(s);
    PackBits(s[0], s[1], s[2], s[3], s[4], s[5], s[6], s[7], s[8]);
  }

  lemma {:induction false} UnpackBits(x0: Index, x1: Index, x2: Index, x3: Index, x4: Index, x5: Index)
    ensures var b0, b1, b2 := Byte0(x0), Byte1(x0, x1), Byte2(x1, x2);
            var b3, b4, b5 := Byte3(x2), Byte4(x2, x3), Byte5(x3, x4);
            var b6, b7, b8 := Byte6(x4, x5), Byte7(x5), Byte8(x5);
            && Word0(b0, b1) == x0 && Word1(b1, b2) == x1 && Word2(b2, b3, b4) == x2
            && Word3(b4, b5) == x3 && Word4(b5, b6) == x4 && Word5(b6, b7, b8) == x5
            && b8 & 0x3F == 0
  {}

  /** Words read off what words made are those words. */
  lemma {:induction false} GroupsOfPacked(xs: seq<Index>, junk: seq<bv8>)
    requires |xs| == 6
    ensures Groups(Packed(xs) + junk) == xs
    ensures Packed(xs)[8] & 0x3F == 0
  {
    hide Groups, Byte0, Byte1, Byte2, Byte3, Byte4, Byte5, Byte6, Byte7, Byte8, Word0, Word1, Word2, Word3, Word4,
         Word5;
    var s := Packed(xs) + junk;
    assert s[0] == Byte0(xs[0]) && s[1] == Byte1(xs[0], xs[1]) && s[2] == Byte2(xs[1], xs[2]) && s[3] == Byte3(xs[2]);
    assert s[4] == Byte4(xs[2], xs[3]) && s[5] == Byte5(xs[3], xs[4]) && s[6] == Byte6(xs[4], xs[5]);
    assert s[7] == Byte7(xs[5]) && s[8] == Byte8(xs[5]);
    GroupBits(s);
    UnpackBits(xs[0], xs[1], xs[2], xs[3], xs[4], xs[5]);
  }
}
