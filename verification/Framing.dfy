/** Message frames: the header of shared/PackedMessage.cpp and the body behind it. */
module Framing {
  import opened Sequences
  import opened Numerals
  import opened SerializerSpec

  const HEADER_SIZE := 6

  // A protocol message; its size is an int, its type whatever was given.
  datatype Message = Message(kind: int, body: Bytes)

  ghost predicate Sized(ms: seq<Message>) { forall i | 0 <= i < |ms| :: |ms[i].body| < 0x1_0000_0000 }

  function Header(size: nat, kind: int): (r: Bytes)
    ensures |r| == HEADER_SIZE
  {
    BigEndian(size, 4) + BigEndian(kind % 0x1_0000, 2)
  }

  /** The buffer of a PackedMessage. */
  function Frame(m: Message): (r: Bytes)
    ensures |r| == HEADER_SIZE + |m.body|
  {
    Header(|m.body|, m.kind) + m.body
  }

  function Frames(ms: seq<Message>): Bytes {
    if ms == [] then [] else Frame(ms[0]) + Frames(ms[1..])
  }

  function GetLength(buf: Bytes): nat {
    if |buf| < HEADER_SIZE then 0 else FromBigEndian(buf[..4])
  }

  function GetType(buf: Bytes): nat {
    if |buf| < HEADER_SIZE then 0 else FromBigEndian(buf[4..6])
  }

  // A message as it arrives: the type is cut to two bytes.
  function Arrived(m: Message): Message { Message(m.kind % 0x1_0000, m.body) }

  function ArrivedAll(ms: seq<Message>): (r: seq<Message>)
    ensures |r| == |ms|
  {
    if ms == [] then [] else [Arrived(ms[0])] + ArrivedAll(ms[1..])
  }

  /** The header says the length and the type. */
  lemma {:induction false} HeaderReads(m: Message, t: Bytes)
    requires |m.body| < 0x1_0000_0000
    ensures GetLength(Frame(m) + t) == |m.body| && GetType(Frame(m) + t) == m.kind % 0x1_0000
  {
    hide BigEndian, FromBigEndian;
    var s := Frame(m) + t;
    assert s[..4] == BigEndian(|m.body|, 4);
    assert s[4..6] == BigEndian(m.kind % 0x1_0000, 2);
    BigEndianBack(|m.body|, W32);
    BigEndianBack(m.kind % 0x1_0000, W16);
  }

  // The header is all of the first six bytes.
  lemma {:induction false} HeaderIs(s: Bytes)
    requires |s| >= HEADER_SIZE
    ensures Header(GetLength(s), GetType(s)) == s[..HEADER_SIZE] && GetLength(s) < 0x1_0000_0000
    ensures GetType(s) < 0x1_0000
  {
    hide BigEndian, FromBigEndian;
    BigEndianOf(s[..4]);
    BigEndianOf(s[4..6]);
    FromBounds(s[..4], s[4..6]);
    assert s[..6] == s[..4] + s[4..6];
  }

  lemma {:induction false} FromBounds(a: Bytes, b: Bytes)
    requires |a| == 4 && |b| == 2
    ensures FromBigEndian(a) < 0x1_0000_0000 && FromBigEndian(b) < 0x1_0000
  {
    FromStep(a);
    FromStep(a[..3]);
    FromStep(a[..2]);
    FromStep(a[..1]);
    FromStep(b);
    FromStep(b[..1]);
    hide FromBigEndian;
    assert a[..3][..2] == a[..2] && a[..2][..1] == a[..1] && a[..1][..0] == [] && b[..1][..0] == [];
  }

  lemma {:induction false} FromStep(s: Bytes)
    requires s != []
    ensures FromBigEndian(s) == 256 * FromBigEndian(s[..|s| - 1]) + s[|s| - 1] && FromBigEndian([]) == 0
  {}

  lemma {:induction false} BigEndianOf(s: Bytes)
    ensures BigEndian(FromBigEndian(s), |s|) == s
  {
    if s != [] {
      FromStep(s);
      hide FromBigEndian;
      BigEndianOf(s[..|s| - 1]);
      assert FromBigEndian(s) / 256 == FromBigEndian(s[..|s| - 1]);
      assert s == s[..|s| - 1] + [s[|s| - 1]];
    }
  }

  lemma {:induction false} FramesSnoc(ms: seq<Message>, m: Message)
    ensures Frames(ms + [m]) == Frames(ms) + Frame(m)
  {
    hide Frame;
    if ms == [] {
      assert ms + [m] == [m];
    } else {
      assert (ms + [m])[1..] == ms[1..] + [m];
      FramesSnoc(ms[1..], m);
    }
  }

  /** Frames can be taken apart in one way only: bytes that begin another stream of frames are its first
      messages. */
  lemma {:induction false} FramesPrefix(ds: seq<Message>, rest: Bytes, ms: seq<Message>)
    requires Sized(ds) && Sized(ms) && ArrivedAll(ds) == ds
    requires Frames(ds) + rest == Frames(ms)
    ensures |ds| <= |ms| && ds == ArrivedAll(ms[..|ds|]) && rest == Frames(ms[|ds|..])
  {
    if ds == [] {
      assert Frames(ds) + rest == rest && ms[0..] == ms;
    } else {
      FirstFrame(ds, rest, ms);
      hide Frame, Frames;
      FramesPrefix(ds[1..], rest, ms[1..]);
      assert ms[1..][|ds| - 1..] == ms[|ds|..];
      assert ms[..|ds|][1..] == ms[1..][..|ds| - 1];
      assert ds == [ds[0]] + ds[1..];
    }
  }

  lemma {:induction false} FramesCons(ms: seq<Message>)
    requires ms != []
    ensures Frames(ms) == Frame(ms[0]) + Frames(ms[1..])
  {}

  lemma {:induction false} NoFrame(m: Message, t: Bytes)
    ensures Frame(m) + t != [] && Frames([]) == []
  {
    assert |Frame(m) + t| >= HEADER_SIZE;
  }

  lemma {:induction false} FirstFrame(ds: seq<Message>, rest: Bytes, ms: seq<Message>)
    requires ds != [] && Sized(ds) && Sized(ms) && ArrivedAll(ds) == ds
    requires Frames(ds) + rest == Frames(ms)
    ensures ms != [] && ds[0] == Arrived(ms[0]) && ArrivedAll(ds[1..]) == ds[1..]
    ensures Frames(ds[1..]) + rest == Frames(ms[1..])
  {
    var a, x := ds[0], Frames(ds[1..]) + rest;
    FramesCons(ds);
    Assoc(Frame(a), Frames(ds[1..]), rest);
    assert ms != [] by { NoFrame(a, x); }
    var b, y := ms[0], Frames(ms[1..]);
    FramesCons(ms);
    hide GetLength, GetType, Frames, Frame;
    HeaderReads(a, x);
    HeaderReads(b, y);
    SameFrame(a, x, b, y);
    assert ArrivedAll(ds)[0] == a && ArrivedAll(ds)[1..] == ds[1..];
  }

  lemma {:induction false} SameFrame(a: Message, x: Bytes, b: Message, y: Bytes)
    requires Frame(a) + x == Frame(b) + y && |a.body| == |b.body|
    ensures a.body == b.body && x == y
  {
    hide Header;
    var n := HEADER_SIZE + |a.body|;
    assert a.body == (Frame(a) + x)[HEADER_SIZE..n];
    assert b.body == (Frame(b) + y)[HEADER_SIZE..n];
    assert x == (Frame(a) + x)[n..] && y == (Frame(b) + y)[n..];
  }

  lemma {:induction false} FromFour(a: Bytes)
    requires |a| == 4
    ensures FromBigEndian(a) == a[0] as int * 0x100_0000 + a[1] as int * 0x1_0000 + a[2] as int * 0x100 + a[3] as int
  {
    FromStep(a);
    FromStep(a[..3]);
    FromStep(a[..2]);
    FromStep(a[..1]);
    hide FromBigEndian;
    assert a[..3][..2] == a[..2] && a[..2][..1] == a[..1] && a[..1][..0] == [];
  }

  lemma {:induction false} FromTwo(b: Bytes)
    requires |b| == 2
    ensures FromBigEndian(b) == b[0] as int * 0x100 + b[1] as int
  {
    FromStep(b);
    FromStep(b[..1]);
    hide FromBigEndian;
    assert b[..1][..0] == [];
  }

  /** The frame byte by byte: the length in four bytes, the type in two, most significant first, and the body. */
  lemma {:induction false} FrameBytes(m: Message)
    requires |m.body| < 0x1_0000_0000
    ensures var f := Frame(m);
            && f[0] as int * 0x100_0000 + f[1] as int * 0x1_0000 + f[2] as int * 0x100 + f[3] as int == |m.body|
            && f[4] as int * 0x100 + f[5] as int == m.kind % 0x1_0000
            && f[HEADER_SIZE..] == m.body
  {
    hide BigEndian, FromBigEndian;
    var f := Frame(m);
    BigEndianBack(|m.body|, W32);
    BigEndianBack(m.kind % 0x1_0000, W16);
    assert f[..4] == BigEndian(|m.body|, 4) && f[4..6] == BigEndian(m.kind % 0x1_0000, 2);
    FromFour(f[..4]);
    FromTwo(f[4..6]);
  }
}
