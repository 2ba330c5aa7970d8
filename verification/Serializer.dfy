/** The classes Serializer and SerializerIterator of shared/Serializer.cpp. */
module SerializerImpl {
  import opened Sequences
  import opened Numerals
  import opened SerializerSpec

  // Where an addition began, or an exception.
  datatype Added = At(pos: int) | Threw

  lemma {:induction false} BigEndianTwo(n: nat)
    ensures BigEndian(n, 2) == [n / 0x100 % 256, n % 256]
  {
    assert BigEndian(n / 256, 1) == BigEndian(n / 256 / 256, 0) + [n / 256 % 256];
  }

  lemma {:induction false} BigEndianMore(n: nat, k: nat)
    ensures BigEndian(n, k + 2) == BigEndian(n / 0x1_0000, k) + [n / 0x100 % 256, n % 256]
  {
    assert BigEndian(n / 256, k + 1) == BigEndian(n / 256 / 256, k) + [n / 256 % 256];
    assert n / 256 / 256 == n / 0x1_0000;
  }

  lemma {:induction false} BigEndianFour(n: nat)
    ensures BigEndian(n, 4) == [n / 0x100_0000 % 256, n / 0x1_0000 % 256, n / 0x100 % 256, n % 256]
  {
    BigEndianMore(n, 2);
    BigEndianTwo(n / 0x1_0000);
    hide BigEndian;
    assert n / 0x1_0000 / 0x100 == n / 0x100_0000;
  }

  lemma {:induction false} BigEndianEight(n: nat)
    ensures BigEndian(n, 8) == BigEndian(n / 0x1_0000_0000, 4) + BigEndian(n, 4)
  {
    BigEndianMore(n, 6);
    BigEndianMore(n / 0x1_0000, 4);
    BigEndianMore(n, 2);
    BigEndianTwo(n / 0x1_0000);
    hide BigEndian;
    assert n / 0x1_0000 / 0x1_0000 == n / 0x1_0000_0000;
  }

  lemma {:induction false} NextDigit(s: Bytes, k: nat)
    requires k < |s|
    ensures FromBigEndian(s[..0]) == 0
    ensures FromBigEndian(s[..k + 1]) == FromBigEndian(s[..k]) * 256 + s[k]
  {
    assert s[..k + 1][..k] == s[..k];
  }

  class Serializer {
    var data: Bytes

    constructor ()
      ensures data == []
    {
      data := [];
    }

    method Add8(b: byte) returns (at: nat)
      modifies this
      ensures at == |old(data)| && data == old(data) + [b]
    {
      at := |data|;
      data := data + [b];
    }

    method Add16(i: nat) returns (at: nat)
      requires i < Limit(W16)
      modifies this
      ensures at == |old(data)| && data == old(data) + Write(Number(W16, i), true).bytes
    {
      BigEndianTwo(i);
      at := |data|;
      data := data + [i / 0x100];
      data := data + [i % 256];
    }

    method Push4(a: byte, b: byte, c: byte, d: byte)
      modifies this
      ensures data == old(data) + [a, b, c, d]
    {
      data := data + [a];
      data := data + [b];
      data := data + [c];
      data := data + [d];
    }

    method Add32(i: nat) returns (at: nat)
      requires i < Limit(W32)
      modifies this
      ensures at == |old(data)| && data == old(data) + Write(Number(W32, i), true).bytes
    {
      BigEndianFour(i);
      at := |data|;
      Push4(i / 0x100_0000, i / 0x1_0000 % 256, i / 0x100 % 256, i % 256);
    }

    method Add64(i: nat) returns (at: nat)
      requires i < Limit(W64)
      modifies this
      ensures at == |old(data)| && data == old(data) + Write(Number(W64, i), true).bytes
    {
      hide BigEndian;
      var high := i / 0x1_0000_0000;
      BigEndianFour(high);
      BigEndianFour(i);
      BigEndianEight(i);
      at := |data|;
      Push4(high / 0x100_0000, high / 0x1_0000 % 256, high / 0x100 % 256, high % 256);
      Push4(i / 0x100_0000 % 256, i / 0x1_0000 % 256, i / 0x100 % 256, i % 256);
      Assoc(old(data), BigEndian(high, 4), BigEndian(i, 4));
    }

    // add128, add160, add256 and addRaw of a vector
    method AddRaw(v: Bytes) returns (at: nat)
      modifies this
      ensures at == |old(data)| && data == old(data) + v
    {
      at := |data|;
      data := data + v;
    }

    /** addVL: the prefix and the payload are in place when the assertion throws. */
    method AddVL(v: Bytes, asserts: bool) returns (r: Added)
      modifies this
      ensures data == old(data) + WriteVL(v, asserts).bytes
      ensures r == if WriteVL(v, asserts).ok then At(|old(data)|) else Threw
    {
      if |v| > LONGEST { return Threw; }
      var at := AddRaw(Prefix(|v|));
      var _ := AddRaw(v);
      if asserts {
        var l := EncodeLengthLength(|v|);
        if l.Thrown? { return Threw; }
        assert |data| == at + |v| + l.value;
      }
      r := At(at);
    }

    /** addTaggedList: what was appended before an exception stays. */
    method AddTaggedList(list: seq<Entry>, asserts: bool) returns (r: Added)
      modifies this
      ensures data == old(data) + Write(Tagged(list), asserts).bytes
      ensures |list| > 255 ==> r == At(-1)
      ensures |list| <= 255 ==> r == if Write(Tagged(list), asserts).ok then At(|old(data)|) else Threw
    {
      if |list| > 255 { return At(-1); }
      var at := Add8(|list|);
      var ok := AddEntries(list, asserts);
      Assoc(old(data), [|list|], WriteEntries(list, asserts).bytes);
      r := if ok then At(at) else Threw;
    }

    // The loop of addTaggedList; false when it throws.
    method AddEntries(list: seq<Entry>, asserts: bool) returns (ok: bool)
      modifies this
      ensures data == old(data) + WriteEntries(list, asserts).bytes && ok == WriteEntries(list, asserts).ok
    {
      ghost var start := data;
      assert list[0..] == list;
      var i := 0;
      while i < |list|
        invariant 0 <= i <= |list|
        invariant Resumes(data, start, list, i, asserts)
      {
        ghost var before := data;
        EntriesNext(before, start, list, i, asserts);
        hide WriteEntries, WriteVL, Resumes;
        var _ := Add8(list[i].tag % 256);
        var added := AddVL(list[i].data, asserts);
        Assoc(before, [list[i].tag % 256], WriteVL(list[i].data, asserts).bytes);
        if added.Threw? { return false; }
        i := i + 1;
      }
      assert data + [] == data;
      ok := true;
    }

    method Get8(offset: nat) returns (r: Read<int>)
      ensures r == if offset < |data| then Got(data[offset] as int, 1) else Refused
    {
      if offset >= |data| { return Refused; }
      r := Got(data[offset] as int, 1);
    }

    method Get16(offset: nat) returns (r: Read<Item>)
      requires offset <= |data|
      ensures r == ReadItem(NumberKind(W16), data[offset..])
    {
      if offset + 2 > |data| { return Refused; }
      ghost var s := data[offset..];
      var o: nat := data[offset];
      NextDigit(s, 0);
      NextDigit(s, 1);
      o := o * 256 + data[offset + 1];
      r := Got(Number(W16, o), 2);
    }

    method Get32(offset: nat) returns (r: Read<Item>)
      requires offset <= |data|
      ensures r == ReadItem(NumberKind(W32), data[offset..])
    {
      hide FromBigEndian;
      if offset + 4 > |data| { return Refused; }
      ghost var s := data[offset..];
      var o: nat := data[offset];
      NextDigit(s, 0);
      o := o * 256 + data[offset + 1];
      NextDigit(s, 1);
      o := o * 256 + data[offset + 2];
      NextDigit(s, 2);
      o := o * 256 + data[offset + 3];
      NextDigit(s, 3);
      r := Got(Number(W32, o), 4);
    }

    method Get64(offset: nat) returns (r: Read<Item>)
      requires offset <= |data|
      ensures r == ReadItem(NumberKind(W64), data[offset..])
    {
      hide FromBigEndian;
      if offset + 8 > |data| { return Refused; }
      ghost var s := data[offset..];
      var o: nat := data[offset];
      NextDigit(s, 0);
      o := o * 256 + data[offset + 1];
      NextDigit(s, 1);
      o := o * 256 + data[offset + 2];
      NextDigit(s, 2);
      o := o * 256 + data[offset + 3];
      NextDigit(s, 3);
      assert o == FromBigEndian(s[..4]);
      o := o * 256 + data[offset + 4];
      NextDigit(s, 4);
      o := o * 256 + data[offset + 5];
      NextDigit(s, 5);
      o := o * 256 + data[offset + 6];
      NextDigit(s, 6);
      o := o * 256 + data[offset + 7];
      NextDigit(s, 7);
      r := Got(Number(W64, o), 8);
    }

    method GetRaw(offset: nat, length: nat) returns (r: Read<Bytes>)
      requires offset <= |data|
      ensures r == ReadRaw(data[offset..], length)
    {
      if offset + length > |data| { return Refused; }
      assert data[offset..][..length] == data[offset..offset + length];
      r := Got(data[offset..offset + length], length);
    }

    /** getVL */
    method GetVL(start: nat) returns (r: Read<Bytes>)
      requires start <= |data|
      ensures r == ReadVL(data[start..])
    {
      ghost var s := data[start..];
      var offset := start;
      var b1 := Get8(offset);
      if !b1.Got? { return Refused; }
      offset := offset + 1;
      var lenLen := DecodeLengthLength(b1.value);
      if lenLen.Thrown? { return Thrown; }
      var datLen := 0;
      if lenLen.value == 1 {
        datLen := b1.value;
      } else if lenLen.value == 2 {
        var b2 := Get8(offset);
        if !b2.Got? { return Refused; }
        offset := offset + 1;
        datLen := 193 + (b1.value - 193) * 256 + b2.value;
      } else {
        var b2 := Get8(offset);
        if !b2.Got? { return Refused; }
        offset := offset + 1;
        var b3 := Get8(offset);
        if !b3.Got? { return Refused; }
        offset := offset + 1;
        datLen := 12481 + (b1.value - 241) * 65536 + b2.value * 256 + b3.value;
      }
      assert ReadPrefix(s) == Got(datLen as nat, lenLen.value);
      var raw := GetRaw(offset, datLen);
      if !raw.Got? { return Refused; }
      assert data[offset..][..datLen] == s[lenLen.value..lenLen.value + datLen];
      r := Got(raw.value, lenLen.value + datLen);
    }

    /** getTaggedList */
    method GetTaggedList(start: nat) returns (r: Read<seq<Entry>>)
      requires start <= |data|
      ensures r == ReadTagged(data[start..])
    {
      hide ReadVL, ReadEntries, After;
      var offset := start;
      var count := Get8(offset);
      if !count.Got? { return Refused; }
      offset := offset + 1;
      assert data[start..][1..] == data[offset..];
      ghost var whole := ReadEntries(data[offset..], count.value);
      AfterNone([], 0, whole);
      var list := [];
      var i := 0;
      while i < count.value
        invariant 0 <= i <= count.value && start < offset <= |data|
        invariant whole == After(list, offset - start - 1, ReadEntries(data[offset..], count.value - i))
      {
        ghost var s := data[offset..];
        EntriesStep(s, count.value - i);
        AfterFails(list, offset - start - 1);
        var tag := Get8(offset);
        if !tag.Got? { return Refused; }
        assert s[1..] == data[offset + 1..];
        var vl := GetVL(offset + 1);
        if vl.Refused? { return Refused; }
        if vl.Thrown? { return Thrown; }
        ghost var later := ReadEntries(s[1 + vl.used..], count.value - i - 1);
        AfterAfter(list, offset - start - 1, Entry(tag.value, vl.value), 1 + vl.used, later);
        offset := offset + 1 + vl.used;
        assert s[1 + vl.used..] == data[offset..];
        list := list + [Entry(tag.value, vl.value)];
        i := i + 1;
      }
      r := Got(list, offset - start);
      EntriesNone(data[offset..], false);
      AfterNone(list, offset - start - 1, Got([], 0));
    }
  }

  // The bytes already appended and those of the entries from i on make the whole.
  ghost predicate Resumes(data: Bytes, start: Bytes, list: seq<Entry>, i: nat, asserts: bool)
    requires i <= |list|
  {
    var whole, rest := WriteEntries(list, asserts), WriteEntries(list[i..], asserts);
    start + whole.bytes == data + rest.bytes && whole.ok == rest.ok
  }

  // After entry i: either it threw, and this is the whole, or the rest is still to come.
  lemma {:induction false} EntriesNext(data: Bytes, start: Bytes, list: seq<Entry>, i: nat, asserts: bool)
    requires i < |list| && Resumes(data, start, list, i, asserts)
    ensures var w := WriteVL(list[i].data, asserts);
            var now := data + ([list[i].tag % 256] + w.bytes);
            if w.ok then Resumes(now, start, list, i + 1, asserts)
            else start + WriteEntries(list, asserts).bytes == now && !WriteEntries(list, asserts).ok
  {
    hide WriteVL;
    assert list[i..][1..] == list[i + 1..];
    var w, rest := WriteVL(list[i].data, asserts), WriteEntries(list[i + 1..], asserts);
    var head := [list[i].tag % 256] + w.bytes;
    Assoc(data, head, rest.bytes);
  }

  // A reading that goes on from entries read before.
  ghost function After(list: seq<Entry>, used: nat, r: Read<seq<Entry>>): Read<seq<Entry>> {
    match r case Got(more, n) => Got(list + more, used + n) case Refused => Refused case Thrown => Thrown
  }

  lemma {:induction false} AfterNone(list: seq<Entry>, used: nat, r: Read<seq<Entry>>)
    ensures list == [] && used == 0 ==> After(list, used, r) == r
    ensures r == Got([], 0) ==> After(list, used, r) == Got(list, used)
  {
    if r.Got? { assert [] + r.value == r.value && list + [] == list; }
  }

  lemma {:induction false} AfterFails(list: seq<Entry>, used: nat)
    ensures After(list, used, Refused) == Refused && After(list, used, Thrown) == Thrown
  {}

  lemma {:induction false} AfterAfter(list: seq<Entry>, used: nat, e: Entry, n: nat, r: Read<seq<Entry>>)
    ensures After(list, used, After([e], n, r)) == After(list + [e], used + n, r)
  {
    if r.Got? { assert list + ([e] + r.value) == list + [e] + r.value; }
  }

  lemma {:induction false} EntriesStep(s: Bytes, n: nat)
    requires n > 0
    ensures s == [] ==> ReadEntries(s, n) == Refused
    ensures s != [] ==>
              match ReadVL(s[1..])
              case Got(v, k) => ReadEntries(s, n) == After([Entry(s[0], v)], 1 + k, ReadEntries(s[1 + k..], n - 1))
              case Refused => ReadEntries(s, n) == Refused
              case Thrown => ReadEntries(s, n) == Thrown
  {
    hide ReadVL;
  }

  /** encodeLengthLength: right about every length that encodeVL can write, where it does not throw. */
  function EncodeLengthLength(n: nat): (r: Read<nat>)
    ensures r.Thrown? <==> LengthSizeThrows(n)
    ensures n <= LONGEST && r.Got? ==> r.value == |Prefix(n)|
    ensures !r.Refused?
  {
    if n <= 192 then Got(1, 0)
    else if n <= 12480 then Got(2, 0)
    else if n >= 918744 then Got(3, 0)
    else Thrown
  }

  /** decodeLengthLength */
  function DecodeLengthLength(b: int): (r: Read<nat>)
    ensures r.Got? ==> 1 <= r.value <= 3
  {
    if b < 0 then Thrown
    else if b <= 192 then Got(1, 0)
    else if b <= 240 then Got(2, 0)
    else if b <= 254 then Got(3, 0)
    else Thrown
  }

  class SerializerIterator {
    const source: Serializer
    var pos: nat

    constructor (s: Serializer)
      ensures source == s && pos == 0
    {
      source := s;
      pos := 0;
    }

    /** get8 to get256, getVL and getTaggedList: the position moves past what was read; an exception
        leaves it alone. */
    method Get(k: Kind) returns (r: Read<Item>)
      requires pos <= |source.data|
      modifies this
      ensures var want := ReadItem(k, source.data[old(pos)..]);
              if want.Got? then r == want && pos == old(pos) + want.used else r.Thrown? && pos == old(pos)
      ensures pos <= |source.data|
    {
      hide ReadVL, ReadTagged, FromBigEndian;
      match k {
      case NumberKind(w) =>
        match w {
          case W8 =>
            var b := source.Get8(pos);
            if b.Got? {
              ghost var s := source.data[pos..];
              NextDigit(s, 0);
              r := Got(Number(W8, b.value), 1);
            } else {
              r := Refused;
            }
          case W16 => r := source.Get16(pos);
          case W32 => r := source.Get32(pos);
          case W64 => r := source.Get64(pos);
        }
      case HashKind(h) =>
        var raw := source.GetRaw(pos, SizeOf(h));
        r := AsHash(h, raw);
      case PayloadKind =>
        var vl := source.GetVL(pos);
        r := AsPayload(vl);
      case TaggedKind =>
        var tl := source.GetTaggedList(pos);
        r := AsTagged(tl);
      }
      if r.Got? { pos := pos + r.used; } else { r := Thrown; }
    }

    function BytesLeft(): int
      reads this, source
    {
      |source.data| - pos
    }
  }
}
