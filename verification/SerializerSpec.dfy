/**
 The binary form of shared/Serializer.cpp: what each add* appends and what each get* reads, as
 functions of the bytes.
 */
module SerializerSpec {
  import opened Numerals

  type Bytes = seq<byte>

  // The largest payload a length prefix can announce when writing.
  const LONGEST := 918744

  datatype Entry = Entry(tag: int, data: Bytes)

  // What can be appended; numbers are given with their width in bytes, hashes as their bytes.
  datatype Item =
    | Number(width: Width, n: nat)
    | Hash(size: Size, bytes: Bytes)
    | Payload(data: Bytes)
    | Tagged(list: seq<Entry>)

  datatype Width = W8 | W16 | W32 | W64

  datatype Size = H128 | H160 | H256

  datatype Kind = NumberKind(width: Width) | HashKind(size: Size) | PayloadKind | TaggedKind

  function WidthOf(w: Width): nat {
    match w case W8 => 1 case W16 => 2 case W32 => 4 case W64 => 8
  }

  function SizeOf(h: Size): nat {
    match h case H128 => 16 case H160 => 20 case H256 => 32
  }

  function Limit(w: Width): nat {
    match w case W8 => 0x100 case W16 => 0x1_0000 case W32 => 0x1_0000_0000 case W64 => 0x1_0000_0000_0000_0000
  }

  // The types of the arguments of add8 to add256.
  predicate Typed(it: Item) {
    match it
    case Number(w, n) => n < Limit(w)
    case Hash(h, bytes) => |bytes| == SizeOf(h)
    case _ => true
  }

  function KindOf(it: Item): Kind {
    match it
    case Number(w, _) => NumberKind(w)
    case Hash(h, _) => HashKind(h)
    case Payload(_) => PayloadKind
    case Tagged(_) => TaggedKind
  }

  ////////// Writing //////////

  // The last k digits of n in base 256.
  function BigEndian(n: nat, k: nat): (r: Bytes)
    ensures |r| == k
  {
    if k == 0 then [] else BigEndian(n / 256, k - 1) + [n % 256]
  }

  /** encodeVL, below its limit */
  function Prefix(n: nat): (r: Bytes)
    requires n <= LONGEST
    ensures 1 <= |r| <= 3
  {
    if n <= 192 then [n]
    else if n <= 12480 then [193 + (n - 193) / 256, (n - 193) % 256]
    else [241 + (n - 12481) / 65536, (n - 12481) / 256 % 256, (n - 12481) % 256]
  }

  /** encodeLengthLength throws, its third comparison being the wrong way round. */
  predicate LengthSizeThrows(n: nat) { 12480 < n < LONGEST }

  // What was appended, and whether the call returned rather than threw.
  datatype Written = Written(bytes: Bytes, ok: bool)

  /** addVL of a vector; `asserts` says whether assertions are compiled in, as the one here calls
      encodeLengthLength. */
  function WriteVL(v: Bytes, asserts: bool): Written {
    if |v| > LONGEST then Written([], false)
    else Written(Prefix(|v|) + v, !(asserts && LengthSizeThrows(|v|)))
  }

  function WriteEntries(list: seq<Entry>, asserts: bool): Written {
    if list == [] then Written([], true)
    else
      var head, w := [list[0].tag % 256], WriteVL(list[0].data, asserts);
      if !w.ok then Written(head + w.bytes, false)
      else
        var rest := WriteEntries(list[1..], asserts);
        Written(head + w.bytes + rest.bytes, rest.ok)
  }

  /** What appending an item does; a list of more than 255 is refused with nothing written. */
  function Write(it: Item, asserts: bool): Written {
    match it
    case Number(w, n) => Written(BigEndian(n, WidthOf(w)), true)
    case Hash(_, bytes) => Written(bytes, true)
    case Payload(v) => WriteVL(v, asserts)
    case Tagged(list) =>
      if |list| > 255 then Written([], false)
      else var r := WriteEntries(list, asserts); Written([|list|] + r.bytes, r.ok)
  }

  function WriteAll(items: seq<Item>, asserts: bool): Written {
    if items == [] then Written([], true)
    else
      var w := Write(items[0], asserts);
      if !w.ok then w
      else var rest := WriteAll(items[1..], asserts); Written(w.bytes + rest.bytes, rest.ok)
  }

  ////////// Reading //////////

  // A value and the bytes it took; false; or an exception.
  datatype Read<T> = Got(value: T, used: nat) | Refused | Thrown

  function FromBigEndian(s: Bytes): nat {
    HornerNat(Base.Bytes, s);
    Horner(Base.Bytes, s)
  }

  function ReadRaw(s: Bytes, n: nat): (r: Read<Bytes>)
    ensures r.Got? ==> r.used <= |s|
  {
    if n > |s| then Refused else Got(s[..n], n)
  }

  // The announced length and the bytes of the announcement.
  function ReadPrefix(s: Bytes): (r: Read<nat>)
    ensures r.Got? ==> 1 <= r.used <= |s|
  {
    if s == [] then Refused
    else
      var b: int := s[0];
      if b > 254 then Thrown
      else if b <= 192 then Got(b, 1)
      else if b <= 240 then if |s| < 2 then Refused else Got(193 + (b - 193) * 256 + s[1] as int, 2)
      else if |s| < 3 then Refused else Got(12481 + (b - 241) * 65536 + s[1] as int * 256 + s[2] as int, 3)
  }

  /** getVL */
  function ReadVL(s: Bytes): (r: Read<Bytes>)
    ensures r.Got? ==> 1 <= r.used <= |s|
  {
    match ReadPrefix(s)
    case Got(n, k) => if k + n > |s| then Refused else Got(s[k..k + n], k + n)
    case Refused => Refused
    case Thrown => Thrown
  }

  function ReadEntries(s: Bytes, n: nat): (r: Read<seq<Entry>>)
    ensures r.Got? ==> r.used <= |s| && |r.value| == n
  {
    if n == 0 then Got([], 0)
    else if s == [] then Refused
    else
      match ReadVL(s[1..])
      case Got(v, k) =>
        (match ReadEntries(s[1 + k..], n - 1)
         case Got(list, used) => Got([Entry(s[0], v)] + list, 1 + k + used)
         case Refused => Refused
         case Thrown => Thrown)
      case Refused => Refused
      case Thrown => Thrown
  }

  /** getTaggedList */
  function ReadTagged(s: Bytes): (r: Read<seq<Entry>>)
    ensures r.Got? ==> 1 <= r.used <= |s| && |r.value| <= 255
  {
    if s == [] then Refused
    else
      match ReadEntries(s[1..], s[0])
      case Got(list, used) => Got(list, 1 + used)
      case Refused => Refused
      case Thrown => Thrown
  }

  function ReadItem(k: Kind, s: Bytes): (r: Read<Item>)
    ensures r.Got? ==> r.used <= |s|
  {
    match k
    case NumberKind(w) => AsNumber(w, ReadRaw(s, WidthOf(w)))
    case HashKind(h) => AsHash(h, ReadRaw(s, SizeOf(h)))
    case PayloadKind => AsPayload(ReadVL(s))
    case TaggedKind => AsTagged(ReadTagged(s))
  }

  function AsNumber(w: Width, r: Read<Bytes>): Read<Item> {
    match r case Got(b, used) => Got(Number(w, FromBigEndian(b)), used) case Refused => Refused case Thrown => Thrown
  }

  function AsHash(h: Size, r: Read<Bytes>): Read<Item> {
    match r case Got(b, used) => Got(Hash(h, b), used) case Refused => Refused case Thrown => Thrown
  }

  function AsPayload(r: Read<Bytes>): Read<Item> {
    match r case Got(v, used) => Got(Payload(v), used) case Refused => Refused case Thrown => Thrown
  }

  function AsTagged(r: Read<seq<Entry>>): Read<Item> {
    match r case Got(list, used) => Got(Tagged(list), used) case Refused => Refused case Thrown => Thrown
  }

  // The iterator's calls, one after another; whatever fails there throws.
  function ReadAll(kinds: seq<Kind>, s: Bytes): (r: Read<seq<Item>>)
    ensures r.Got? ==> r.used <= |s|
  {
    if kinds == [] then Got([], 0)
    else
      match ReadItem(kinds[0], s)
      case Got(it, k) =>
        (match ReadAll(kinds[1..], s[k..])
         case Got(items, used) => Got([it] + items, k + used)
         case Refused => Thrown
         case Thrown => Thrown)
      case Refused => Thrown
      case Thrown => Thrown
  }

  ////////// What can be written //////////

  // The payload is short enough; with assertions on, also not one encodeLengthLength rejects.
  predicate Fits(n: nat, asserts: bool) { n <= 12480 || n == LONGEST || (!asserts && n < LONGEST) }

  ghost predicate AllFit(list: seq<Entry>, asserts: bool) {
    forall i | 0 <= i < |list| :: Fits(|list[i].data|, asserts)
  }

  ghost predicate Writable(it: Item, asserts: bool) {
    match it
    case Payload(v) => Fits(|v|, asserts)
    case Tagged(list) => |list| <= 255 && AllFit(list, asserts)
    case _ => true
  }

  // Tags are stored in a byte.
  function Stored(list: seq<Entry>): (r: seq<Entry>)
    ensures |r| == |list|
  {
    if list == [] then [] else [Entry(list[0].tag % 256, list[0].data)] + Stored(list[1..])
  }

  function StoredItem(it: Item): Item { if it.Tagged? then Tagged(Stored(it.list)) else it }

  ghost predicate SmallTags(it: Item) {
    it.Tagged? ==> forall i | 0 <= i < |it.list| :: 0 <= it.list[i].tag < 256
  }

  function Kinds(items: seq<Item>): (r: seq<Kind>)
    ensures |r| == |items|
  {
    if items == [] then [] else [KindOf(items[0])] + Kinds(items[1..])
  }

  function StoredAll(items: seq<Item>): (r: seq<Item>)
    ensures |r| == |items|
  {
    if items == [] then [] else [StoredItem(items[0])] + StoredAll(items[1..])
  }

  ////////// Round trips //////////

  lemma {:induction false} WriteVLOk(v: Bytes, asserts: bool)
    ensures WriteVL(v, asserts).ok <==> Fits(|v|, asserts)
  {}

  lemma {:induction false} WriteEntriesOk(list: seq<Entry>, asserts: bool)
    ensures WriteEntries(list, asserts).ok <==> AllFit(list, asserts)
  {
    hide Fits, WriteVL;
    if list != [] {
      WriteEntriesOk(list[1..], asserts);
      WriteVLOk(list[0].data, asserts);
      assert forall i | 1 <= i < |list| :: list[i] == list[1..][i - 1];
    }
  }

  /** Appending succeeds exactly on what the limits allow. */
  lemma {:induction false} WriteOk(it: Item, asserts: bool)
    ensures Write(it, asserts).ok <==> Writable(it, asserts)
  {
    match it
    case Payload(v) => WriteVLOk(v, asserts);
    case Tagged(list) => WriteEntriesOk(list, asserts);
    case _ =>
  }

  lemma {:induction false} PrefixReads(n: nat, t: Bytes)
    requires n <= LONGEST
    ensures ReadPrefix(Prefix(n) + t) == Got(n, |Prefix(n)|)
  {}

  lemma {:induction false} VLReads(v: Bytes, t: Bytes, asserts: bool)
    requires Fits(|v|, asserts)
    ensures ReadVL(WriteVL(v, asserts).bytes + t) == Got(v, |WriteVL(v, asserts).bytes|)
  {
    hide Prefix, ReadPrefix;
    var p := Prefix(|v|);
    assert p + v + t == p + (v + t);
    PrefixReads(|v|, v + t);
    assert (p + v + t)[|p|..|p| + |v|] == v;
  }

  // One entry, then the rest.
  lemma {:induction false} EntryReads(tag: int, v: Bytes, w: Bytes, rest: Bytes, t: Bytes, list: seq<Entry>)
    requires ReadVL(w + (rest + t)) == Got(v, |w|)
    requires ReadEntries(rest + t, |list|) == Got(list, |rest|)
    ensures ReadEntries([tag % 256] + w + rest + t, |list| + 1)
            == Got([Entry(tag % 256, v)] + list, 1 + |w| + |rest|)
  {
    hide ReadVL;
    var s := [tag % 256] + w + rest + t;
    assert s[1..] == w + (rest + t);
    assert s[1 + |w|..] == rest + t;
  }

  lemma {:induction false} EntriesRead(list: seq<Entry>, t: Bytes, asserts: bool)
    requires WriteEntries(list, asserts).ok
    ensures var w := WriteEntries(list, asserts).bytes;
            ReadEntries(w + t, |list|) == Got(Stored(list), |w|)
  {
    if list != [] {
      hide ReadVL, WriteVL, Fits, ReadEntries;
      var w, rest := WriteVL(list[0].data, asserts).bytes, WriteEntries(list[1..], asserts).bytes;
      WriteVLOk(list[0].data, asserts);
      VLReads(list[0].data, rest + t, asserts);
      EntriesRead(list[1..], t, asserts);
      EntryReads(list[0].tag, list[0].data, w, rest, t, Stored(list[1..]));
    }
  }

  lemma {:induction false} BigEndianBack(n: nat, w: Width)
    requires n < Limit(w)
    ensures FromBigEndian(BigEndian(n, WidthOf(w))) == n
  {
    hide BigEndian, FromBigEndian;
    match w
    case W8 => BigEndianMod1(n);
    case W16 => BigEndianMod1(n / 256); BigEndianStep(n, 1);
    case W32 => BigEndianMod4(n);
    case W64 => BigEndianMod4(n / 0x1_0000_0000); BigEndianMod8(n);
  }

  lemma {:induction false} BigEndianStep(n: nat, k: nat)
    ensures FromBigEndian(BigEndian(n, k + 1)) == 256 * FromBigEndian(BigEndian(n / 256, k)) + n % 256
  {
    var s := BigEndian(n, k + 1);
    assert s[..k] == BigEndian(n / 256, k);
  }

  lemma {:induction false} BigEndianMod1(n: nat)
    ensures FromBigEndian(BigEndian(n, 1)) == n % 256
  {
    BigEndianStep(n, 0);
  }

  lemma {:induction false} BigEndianMod4(n: nat)
    ensures FromBigEndian(BigEndian(n, 4)) == n % 0x1_0000_0000
  {
    hide BigEndian, FromBigEndian;
    BigEndianStep(n, 3);
    BigEndianStep(n / 256, 2);
    BigEndianStep(n / 256 / 256, 1);
    BigEndianMod1(n / 256 / 256 / 256);
  }

  lemma {:induction false} BigEndianMod8(n: nat)
    ensures FromBigEndian(BigEndian(n, 8))
            == 0x1_0000_0000 * FromBigEndian(BigEndian(n / 0x1_0000_0000, 4)) + n % 0x1_0000_0000
  {
    hide BigEndian, FromBigEndian;
    BigEndianStep(n, 7);
    BigEndianStep(n / 256, 6);
    BigEndianStep(n / 256 / 256, 5);
    BigEndianStep(n / 256 / 256 / 256, 4);
    assert n / 256 / 256 / 256 / 256 == n / 0x1_0000_0000;
  }

  /** What was appended reads back through the matching call, and takes up all its bytes and no more. */
  lemma {:induction false} ItemReads(it: Item, t: Bytes, asserts: bool)
    requires Typed(it) && Writable(it, asserts)
    ensures Write(it, asserts).ok
    ensures var w := Write(it, asserts).bytes;
            ReadItem(KindOf(it), w + t) == Got(StoredItem(it), |w|)
  {
    hide BigEndian, FromBigEndian, WriteVL, ReadVL, ReadEntries, WriteEntries, Stored, Fits;
    WriteOk(it, asserts);
    var w := Write(it, asserts).bytes;
    match it
    case Number(width, n) =>
      assert (w + t)[..|w|] == w;
      BigEndianBack(n, width);
    case Hash(_, bytes) =>
      assert (w + t)[..|w|] == w;
    case Payload(v) =>
      VLReads(v, t, asserts);
    case Tagged(list) =>
      EntriesRead(list, t, asserts);
      assert (w + t)[1..] == w[1..] + t && w[1..] == WriteEntries(list, asserts).bytes;
  }

  /** Any sequence of items reads back in order through the matching calls, with no bytes left. */
  lemma {:induction false} AllRead(items: seq<Item>, asserts: bool)
    requires forall i | 0 <= i < |items| :: Typed(items[i]) && Writable(items[i], asserts)
    ensures WriteAll(items, asserts).ok
    ensures var w := WriteAll(items, asserts).bytes;
            ReadAll(Kinds(items), w) == Got(StoredAll(items), |w|)
  {
    hide Write, ReadItem, Typed, Writable, StoredItem, KindOf;
    if items != [] {
      var rest := WriteAll(items[1..], asserts).bytes;
      AllRead(items[1..], asserts);
      ItemReads(items[0], rest, asserts);
      var w := Write(items[0], asserts).bytes;
      assert (w + rest)[|w|..] == rest;
      assert Kinds(items)[1..] == Kinds(items[1..]);
    }
  }

  lemma {:induction false} StoredSame(list: seq<Entry>)
    ensures Stored(list) == list <==> forall i | 0 <= i < |list| :: 0 <= list[i].tag < 256
  {
    if list != [] {
      StoredSame(list[1..]);
      assert list == [list[0]] + list[1..];
      assert forall i | 1 <= i < |list| :: list[i] == list[1..][i - 1];
      if Stored(list) == list { assert Stored(list)[1..] == list[1..] && Stored(list)[0] == list[0]; }
    }
  }

  /** What reads back is what was appended exactly when every tag fits a byte. */
  lemma {:induction false} AllReadSame(items: seq<Item>)
    ensures StoredAll(items) == items <==> forall i | 0 <= i < |items| :: SmallTags(items[i])
  {
    hide Stored;
    if items != [] {
      AllReadSame(items[1..]);
      if items[0].Tagged? { StoredSame(items[0].list); }
      assert items == [items[0]] + items[1..];
      assert forall i | 1 <= i < |items| :: items[i] == items[1..][i - 1];
      if StoredAll(items) == items { assert StoredAll(items)[1..] == items[1..] && StoredAll(items)[0] == items[0]; }
    }
  }

  ////////// Re-encoding //////////

  lemma {:induction false} PrefixUnique(s: Bytes)
    requires ReadPrefix(s).Got? && ReadPrefix(s).value <= LONGEST
    ensures Prefix(ReadPrefix(s).value) == s[..ReadPrefix(s).used]
  {
    var k := ReadPrefix(s).used;
    if k == 1 {
      assert s[..1] == [s[0]];
    } else if k == 2 {
      PrefixTwo(s[0], s[1]);
      hide Prefix;
      assert s[..2] == [s[0], s[1]];
    } else {
      PrefixThree(s[0], s[1], s[2]);
      hide Prefix;
      assert s[..3] == [s[0], s[1], s[2]];
    }
  }

  lemma {:induction false} PrefixTwo(a: int, b: byte)
    requires 193 <= a <= 240
    ensures Prefix(193 + (a - 193) * 256 + b) == [a, b]
  {}

  lemma {:induction false} ThreeDigits(x: nat, b: byte, c: byte)
    ensures var m := x * 65536 + b * 256 + c; m / 65536 == x && m / 256 % 256 == b && m % 256 == c
  {
    var y := x * 256 + b;
    assert y / 256 == x && y % 256 == b;
    var m := y * 256 + c;
    assert m / 256 == y && m % 256 == c;
    assert m / 256 / 256 == m / 65536;
  }

  lemma {:induction false} PrefixThree(a: int, b: byte, c: byte)
    requires 241 <= a <= 254 && 12481 + (a - 241) * 65536 + b * 256 + c <= LONGEST
    ensures Prefix(12481 + (a - 241) * 65536 + b * 256 + c) == [a, b, c]
  {
    ThreeDigits(a - 241, b, c);
    var m := (a - 241) * 65536 + b * 256 + c;
    assert Prefix(12481 + m) == [241 + m / 65536, m / 256 % 256, m % 256];
  }

  lemma {:induction false} VLRewrites(s: Bytes, asserts: bool)
    requires ReadVL(s).Got? && Fits(|ReadVL(s).value|, asserts)
    ensures WriteVL(ReadVL(s).value, asserts) == Written(s[..ReadVL(s).used], true)
  {
    hide Prefix;
    PrefixUnique(s);
    var k, n := ReadPrefix(s).used, ReadPrefix(s).value;
    assert s[..k] + s[k..k + n] == s[..k + n];
  }

  lemma {:induction false} EntriesSplit(s: Bytes, n: nat)
    requires n > 0 && ReadEntries(s, n).Got?
    ensures s != [] && ReadVL(s[1..]).Got?
    ensures var vl := ReadVL(s[1..]);
            var rest := ReadEntries(s[1 + vl.used..], n - 1);
            rest.Got? && ReadEntries(s, n) == Got([Entry(s[0], vl.value)] + rest.value, 1 + vl.used + rest.used)
  {
    hide ReadVL;
  }

  lemma {:induction false} EntryRewrites(tag: byte, v: Bytes, w: Bytes, list: seq<Entry>, rest: Bytes,
                                         asserts: bool)
    requires WriteVL(v, asserts) == Written(w, true) && WriteEntries(list, asserts) == Written(rest, true)
    ensures WriteEntries([Entry(tag, v)] + list, asserts) == Written([tag] + w + rest, true)
  {
    hide WriteVL;
    assert ([Entry(tag, v)] + list)[1..] == list;
  }

  lemma {:induction false} Slices(s: Bytes, k: nat, n: nat)
    requires 1 + k + n <= |s|
    ensures [s[0]] + s[1..][..k] + s[1 + k..][..n] == s[..1 + k + n]
  {}

  lemma {:induction false} EntryRewritten(s: Bytes, v: Bytes, k: nat, list: seq<Entry>, n: nat, asserts: bool)
    requires 1 + k + n <= |s|
    requires WriteVL(v, asserts) == Written(s[1..][..k], true)
    requires WriteEntries(list, asserts) == Written(s[1 + k..][..n], true)
    ensures WriteEntries([Entry(s[0], v)] + list, asserts) == Written(s[..1 + k + n], true)
  {
    hide WriteVL, WriteEntries;
    EntryRewrites(s[0], v, s[1..][..k], list, s[1 + k..][..n], asserts);
    Slices(s, k, n);
  }

  lemma {:induction false} FitSplits(e: Entry, list: seq<Entry>, asserts: bool)
    requires AllFit([e] + list, asserts)
    ensures Fits(|e.data|, asserts) && AllFit(list, asserts)
  {
    var all := [e] + list;
    assert all[0] == e && forall i | 0 <= i < |list| :: list[i] == all[i + 1];
  }

  lemma {:induction false} EntriesNone(s: Bytes, asserts: bool)
    ensures ReadEntries(s, 0) == Got([], 0) && WriteEntries([], asserts) == Written(s[..0], true)
  {
    assert s[..0] == [];
  }

  lemma {:induction false} EntriesRewrite(s: Bytes, n: nat, asserts: bool)
    requires ReadEntries(s, n).Got? && AllFit(ReadEntries(s, n).value, asserts)
    ensures WriteEntries(ReadEntries(s, n).value, asserts) == Written(s[..ReadEntries(s, n).used], true)
  {
    hide ReadVL, WriteVL, ReadEntries, WriteEntries, AllFit, Fits;
    if n == 0 {
      EntriesNone(s, asserts);
    } else {
      EntriesSplit(s, n);
      var v, k := ReadVL(s[1..]).value, ReadVL(s[1..]).used;
      var rest := ReadEntries(s[1 + k..], n - 1);
      FitSplits(Entry(s[0], v), rest.value, asserts);
      VLRewrites(s[1..], asserts);
      EntriesRewrite(s[1 + k..], n - 1, asserts);
      EntryRewritten(s, v, k, rest.value, rest.used, asserts);
    }
  }

  /** Appending a list that was read gives the bytes it was read from, exactly when every payload fits:
      without assertions one that can be announced, with them none that encodeLengthLength rejects. */
  lemma {:induction false} TaggedRewrites(s: Bytes, asserts: bool)
    requires ReadTagged(s).Got?
    ensures Write(Tagged(ReadTagged(s).value), asserts) == Written(s[..ReadTagged(s).used], true)
            <==> AllFit(ReadTagged(s).value, asserts)
  {
    hide ReadEntries, WriteEntries, Fits;
    var list := ReadTagged(s).value;
    WriteEntriesOk(list, asserts);
    if AllFit(list, asserts) {
      EntriesRewrite(s[1..], s[0], asserts);
      var used := ReadTagged(s).used;
      assert s[..used] == [s[0]] + s[1..][..used - 1];
    }
  }

  /** With assertions on, payloads from 12481 to 918743 bytes cannot be appended. */
  lemma {:induction false} AssertionRefuses(v: Bytes)
    ensures WriteVL(v, false).ok && !WriteVL(v, true).ok <==> 12480 < |v| < LONGEST
  {}

  /** The prefix byte by byte: one byte up to 192, two with the first from 193 to 240, three with the first from
      241 to 254. */
  lemma {:induction false} PrefixForm(n: nat)
    requires n <= LONGEST
    ensures n <= 192 ==> Prefix(n) == [n]
    ensures 192 < n <= 12480 ==>
              var p := Prefix(n);
              |p| == 2 && 193 <= p[0] <= 240 && n == 193 + (p[0] as int - 193) * 256 + p[1] as int
    ensures n > 12480 ==>
              var p := Prefix(n);
              && |p| == 3 && 241 <= p[0] <= 254
              && n == 12481 + (p[0] as int - 241) * 65536 + p[1] as int * 256 + p[2] as int
  {
    if n > 12480 {
      var m := n - 12481;
      assert m / 256 / 256 == m / 65536;
    }
  }

  /** A list byte by byte: how many entries, then for each its tag, its length and its payload. */
  lemma {:induction false} ListForm(e: Entry, list: seq<Entry>, asserts: bool)
    requires |list| < 255 && Fits(|e.data|, asserts)
    ensures Write(Tagged([e] + list), asserts).bytes
            == [|list| + 1, e.tag % 256] + Prefix(|e.data|) + e.data + WriteEntries(list, asserts).bytes
  {
    hide Prefix;
    assert ([e] + list)[1..] == list;
    var p, d, w := Prefix(|e.data|), e.data, WriteEntries(list, asserts).bytes;
    assert [|list| + 1] + ([e.tag % 256] + (p + d) + w) == [|list| + 1, e.tag % 256] + p + d + w;
  }
}
