/**
 Reading back what a writer wrote.
 */
module JsonRoundTrip {
  import opened Wrappers
  import opened Sequences
  import opened CText
  import opened JsonValue
  import opened JsonLexer
  import opened JsonParser
  import opened JsonText
  import opened JsonTokens
  import opened JsonLayout

  ////////// What a written value reads back as //////////

  /** The value, up to what its text cannot show: whether a small integer was unsigned, whether an
      array slot was filled or missing, and what follows a NUL in a string. */
  function Norm(v: Value): Value
    decreases v
  {
    match v
    case UInt(u) => if u <= MAX_INT then Int(u) else v
    case Str(s) => Str(CStr(s))
    case Array(slots) => Array(NormSlots(slots))
    case Object(members) => Object(NormMembers(members))
    case _ => v
  }

  function NormSlots(slots: seq<Slot>): seq<Slot>
    decreases slots
  {
    if slots == [] then []
    else
      assert slots[0].value < slots[0];
      [Slot(true, Norm(slots[0].value))] + NormSlots(slots[1..])
  }

  function NormMembers(members: seq<Member>): seq<Member>
    decreases members
  {
    if members == [] then []
    else [Member(members[0].name, Norm(members[0].value))] + NormMembers(members[1..])
  }

  /** The integers the reader keeps as integers: its overflow guard gives up one decimal digit
      before the type does. */
  ghost predicate Exact(v: Value)
    decreases v
  {
    match v
    case Int(i) => i > -2147483640
    case UInt(u) => u < 4294967290
    case Array(slots) => ExactSlots(slots)
    case Object(members) => ExactMembers(members)
    case _ => true
  }

  ghost predicate ExactSlots(slots: seq<Slot>)
    decreases slots
  {
    slots != [] ==>
      assert slots[0].value < slots[0];
      Exact(slots[0].value) && ExactSlots(slots[1..])
  }

  ghost predicate ExactMembers(members: seq<Member>)
    decreases members
  {
    members != [] ==> Exact(members[0].value) && ExactMembers(members[1..])
  }

  /** What reading the text of a value gives when nothing is assumed about its integers: a large
      one goes through the double scanner, which may refuse it. */
  function ReadBack(scan: DoubleScan, v: Value): Option<Value>
    decreases v
  {
    match v
    case Int(i) => DecodeNumber(scan, IntText(i))
    case UInt(u) => if u < 0 then None else DecodeNumber(scan, Decimal(u))
    case Str(s) => Some(Str(CStr(s)))
    case Array(slots) => (
      match ReadBackSlots(scan, slots)
      case None => None
      case Some(r) => Some(Array(r)))
    case Object(members) => (
      match ReadBackMembers(scan, members)
      case None => None
      case Some(r) => Some(Object(r)))
    case _ => Some(v)
  }

  function ReadBackSlots(scan: DoubleScan, slots: seq<Slot>): (r: Option<seq<Slot>>)
    ensures r.Some? ==> |r.value| == |slots|
    decreases slots
  {
    if slots == [] then Some([])
    else
      assert slots[0].value < slots[0];
      match ReadBack(scan, slots[0].value)
      case None => None
      case Some(v) => match ReadBackSlots(scan, slots[1..])
        case None => None
        case Some(r) => Some([Slot(true, v)] + r)
  }

  function ReadBackMembers(scan: DoubleScan, members: seq<Member>): (r: Option<seq<Member>>)
    ensures r.Some? ==> |r.value| == |members|
    decreases members
  {
    if members == [] then Some([])
    else
      match ReadBack(scan, members[0].value)
      case None => None
      case Some(v) => match ReadBackMembers(scan, members[1..])
        case None => None
        case Some(r) => Some([Member(members[0].name, v)] + r)
  }

  ////////// Numbers //////////

  lemma {:induction false} DecodeDecimal(n: nat, rest: string, threshold: nat)
    requires threshold > 0
    ensures DecodeDigits(Decimal(n) + rest, 0, threshold)
            == if n / 10 < threshold then DecodeDigits(rest, n, threshold) else TooBig
  {
    var last := [DigitChar(n % 10)];
    if n < 10 {
      assert (Decimal(n) + rest)[1..] == rest;
    } else {
      assert Decimal(n) + rest == Decimal(n / 10) + (last + rest);
      DecodeDecimal(n / 10, last + rest, threshold);
      assert (last + rest)[1..] == rest;
    }
  }

  lemma {:induction false} DigitsNotDouble(digits: string, at: bool)
    requires forall i | 0 <= i < |digits| :: Digit(digits[i])
    ensures !IsDouble(digits, at)
  {
    if digits != "" { DigitsNotDouble(digits[1..], false); }
  }

  lemma {:induction false} DecodeNat(scan: DoubleScan, n: nat)
    ensures n < 4294967290 ==>
              DecodeNumber(scan, Decimal(n)) == Some(if n <= MAX_INT then Int(n) else UInt(n))
    ensures n >= 4294967290 ==> DecodeNumber(scan, Decimal(n)) == DecodeDouble(scan, Decimal(n))
  {
    var text := Decimal(n);
    DigitsNotDouble(text, true);
    assert text + "" == text;
    DecodeDecimal(n, "", Threshold(false));
  }

  lemma {:induction false} DecodeNegative(scan: DoubleScan, n: int)
    requires n >= 0
    ensures n < 2147483640 ==> DecodeNumber(scan, "-" + Decimal(n)) == Some(Int(-n))
    ensures n >= 2147483640 ==>
              DecodeNumber(scan, "-" + Decimal(n)) == DecodeDouble(scan, "-" + Decimal(n))
  {
    hide Decimal;
    var text := "-" + Decimal(n);
    assert text[1..] == Decimal(n);
    DigitsNotDouble(text[1..], false);
    assert text[1..] + "" == text[1..];
    DecodeDecimal(n, "", Threshold(true));
  }

  ////////// Strings //////////

  lemma {:induction false} DecodeControl(c: char, rest: string)
    requires Control(c)
    ensures DecodePoint("00" + [DigitChar(c as int / 16), DigitChar(c as int % 16)] + rest)
            == CodePoint(c as int, 4)
  {
    var h, l := DigitChar(c as int / 16), DigitChar(c as int % 16);
    var s := "00" + [h, l] + rest;
    assert s[..4] == ['0', '0', h, l];
    assert s[..4][1..] == ['0', h, l] && ['0', h, l][1..] == [h, l] && [h, l][1..] == [l] && [l][1..] == "";
    assert HexDigit(h) == c as int / 16 && HexDigit(l) == c as int % 16;
    assert HexDigits([l], c as int / 16) == Hex(c as int);
    assert HexDigits([h, l], 0) == Hex(c as int);
    assert HexDigits(['0', h, l], 0) == Hex(c as int);
    assert HexDigits(['0', '0', h, l], 0) == Hex(c as int);
  }

  /** Decoding undoes the escaping of the writer, whatever the string. */
  lemma {:induction false} DecodeEscaped(s: string, decoded: string)
    ensures DecodeBody(EscapeAll(s), decoded) == Text(decoded + s)
  {
    if s == "" {
      assert decoded + s == decoded;
    } else {
      var e, tail := Escape(s[0]), EscapeAll(s[1..]);
      DecodeEscaped(s[1..], decoded + [s[0]]);
      assert decoded + [s[0]] + s[1..] == decoded + s;
      DecodeOne(s[0], tail, decoded);
    }
  }

  lemma {:induction false} DecodeOne(c: char, tail: string, decoded: string)
    ensures DecodeBody(Escape(c) + tail, decoded) == DecodeBody(tail, decoded + [c])
  {
    var e := Escape(c);
    var body := e + tail;
    if |e| == 1 {
      assert body[1..] == tail;
    } else if |e| == 2 {
      assert body[2..] == tail;
    } else {
      var digits := [DigitChar(c as int / 16), DigitChar(c as int % 16)];
      assert body[2..] == "00" + digits + tail;
      DecodeControl(c, tail);
      assert body[6..] == tail;
      assert Utf8(c as int) == [c];
    }
  }

  lemma {:induction false} DecodeQuoted(s: string)
    ensures DecodeString(Quoted(s)) == Text(CStr(s))
  {
    hide EscapeAll;
    var text := Quoted(s);
    assert text[1..|text| - 1] == EscapeAll(CStr(s));
    DecodeEscaped(CStr(s), "");
    assert "" + CStr(s) == CStr(s);
  }

  ////////// Values //////////

  lemma {:induction false} FirstToken(v: Value)
    requires RealFree(v)
    ensures Tokens(v) != []
    ensures Tokens(v)[0].kind !in {Comment, ArrayEnd, ObjectEnd}
  {}

  /** The reader, in front of the tokens of a value, reads exactly that value. */
  lemma {:induction false} ReadTokens(cfg: Config, v: Value, ts: seq<Token>, node: Value)
    requires RealFree(v) && WellFormed(v)
    ensures var r := ReadValue(cfg, Tokens(v) + ts, node);
            match ReadBack(cfg.scan, v)
            case Some(w) => r == Result(true, w, ts, [])
            case None => !r.ok
    decreases v, 1
  {
    hide ReadValue, Tokens, ReadElements, ReadMembers, SlotTokens, MemberTokens, ReadBackSlots, ReadBackMembers;
    match v
    case Array(slots) =>
      ReadSlots(cfg, slots, ts, []);
      ReadArrayTokens(cfg, slots, ts, node);
    case Object(members) =>
      ReadNamed(cfg, members, ts, "", []);
      ReadObjectTokens(cfg, members, ts, node);
    case _ => ReadLeaf(cfg, v, ts, node);
  }

  // From the bracket on, the tokens of an array are those of its elements.
  lemma {:induction false} ReadArrayTokens(cfg: Config, slots: seq<Slot>, ts: seq<Token>, node: Value)
    ensures var rest := SlotTokens(slots, true) + ([Token(ArrayEnd, "]")] + ts);
            var r := ReadValue(cfg, Tokens(Array(slots)) + ts, node);
            && (slots == [] ==> r == Result(true, Array([]), ts, []))
            && (Next(rest).kind != ArrayEnd ==> r == ReadElements(cfg, rest, []))
    ensures forall w: seq<Slot> :: [] + w == w
  {
    hide ReadElements, SlotTokens;
    var end := [Token(ArrayEnd, "]")];
    var rest := SlotTokens(slots, true) + (end + ts);
    var all := Tokens(Array(slots)) + ts;
    assert all == [Token(ArrayBegin, "[")] + rest;
    assert SkipComments(all) == all && Rest(all) == rest;
    if slots == [] {
      assert SlotTokens(slots, true) == [] by { NoSlotTokens(); }
      assert rest == end + ts && Rest(rest) == ts;
    }
  }

  lemma {:induction false} NoSlotTokens()
    ensures SlotTokens([], true) == []
  {}

  lemma {:induction false} ReadObjectTokens(cfg: Config, members: seq<Member>, ts: seq<Token>, node: Value)
    ensures var rest := MemberTokens(members, true) + ([Token(ObjectEnd, "}")] + ts);
            ReadValue(cfg, Tokens(Object(members)) + ts, node) == ReadMembers(cfg, rest, "", [])
    ensures forall w: seq<Member> :: [] + w == w
  {
    hide ReadMembers, MemberTokens;
    var rest := MemberTokens(members, true) + ([Token(ObjectEnd, "}")] + ts);
    var all := Tokens(Object(members)) + ts;
    assert all == [Token(ObjectBegin, "{")] + rest;
    assert SkipComments(all) == all && Rest(all) == rest;
  }

  lemma {:induction false} ReadLeaf(cfg: Config, v: Value, ts: seq<Token>, node: Value)
    requires RealFree(v) && WellFormed(v) && !v.Array? && !v.Object?
    ensures var r := ReadValue(cfg, Tokens(v) + ts, node);
            match ReadBack(cfg.scan, v)
            case Some(w) => r == Result(true, w, ts, [])
            case None => !r.ok
  {
    hide ReadElements, ReadMembers, DecodeNumber, DecodeString, IntText, Decimal, Quoted;
    var all := Tokens(v) + ts;
    FirstToken(v);
    assert SkipComments(all) == all;
    assert all[1..] == ts;
    if v.Str? { DecodeQuoted(v.s); }
  }

  lemma {:induction false} SlotTokensCons(slots: seq<Slot>, end: seq<Token>)
    requires slots != []
    ensures SlotTokens(slots, true) + end == Tokens(slots[0].value) + (SlotTokens(slots[1..], false) + end)
    ensures |slots| == 1 ==> SlotTokens(slots[1..], false) + end == end
    ensures |slots| > 1 ==>
              SlotTokens(slots[1..], false) + end == [COMMA] + (SlotTokens(slots[1..], true) + end)
  {
    hide Tokens;
    var t, u := Tokens(slots[0].value), SlotTokens(slots[1..], false);
    assert [] + t == t;
    Assoc(t, u, end);
    if |slots| == 1 {
      assert [] + end == end;
    } else {
      SlotTokensComma(slots[1..]);
      Assoc([COMMA], SlotTokens(slots[1..], true), end);
    }
  }

  lemma {:induction false} SlotTokensComma(slots: seq<Slot>)
    requires slots != []
    ensures SlotTokens(slots, false) == [COMMA] + SlotTokens(slots, true)
  {
    hide Tokens;
    var t := Tokens(slots[0].value);
    assert [] + t == t;
    Assoc([COMMA], t, SlotTokens(slots[1..], false));
  }

  // One round of the loop of readArray.
  lemma {:induction false} ElementsRound(cfg: Config, ts: seq<Token>, done: seq<Slot>)
    ensures var r := ReadValue(cfg, ts, Null);
            var e := ReadElements(cfg, ts, done);
            var done' := done + [Slot(true, r.value)];
            && (!r.ok ==> !e.ok)
            && (r.ok && r.rest != [] && r.rest[0].kind == ArrayEnd ==> e == Result(true, Array(done'), r.rest[1..], []))
            && (r.ok && r.rest != [] && r.rest[0].kind !in {ArrayEnd, Comment} ==>
                  e == ReadElements(cfg, r.rest[1..], done'))
  {
    hide ReadValue;
    var r := ReadValue(cfg, ts, Null);
    assert done + seq(0, _ => HOLE) == done;
    assert PutSlot(done, |done|, r.value) == done + [Slot(true, r.value)];
    if r.rest != [] && r.rest[0].kind != Comment {
      assert SkipComments(r.rest) == r.rest;
    }
  }

  lemma {:induction false} ReadSlots(cfg: Config, slots: seq<Slot>, ts: seq<Token>, done: seq<Slot>)
    requires RealFreeSlots(slots) && WellFormedSlots(slots)
    ensures slots == [] ==> ReadBackSlots(cfg.scan, slots) == Some([])
    ensures slots != [] ==>
              var all := SlotTokens(slots, true) + ([Token(ArrayEnd, "]")] + ts);
              var r := ReadElements(cfg, all, done);
              && Next(all).kind != ArrayEnd
              && match ReadBackSlots(cfg.scan, slots)
                 case Some(w) => r == Result(true, Array(done + w), ts, [])
                 case None => !r.ok
    decreases slots, 0
  {
    hide ReadValue, ReadElements, Tokens, SlotTokens, ReadBack, WellFormed, RealFree;
    if slots != [] {
      assert slots[0].value < slots[0];
      var v, end := slots[0].value, [Token(ArrayEnd, "]")] + ts;
      var more := SlotTokens(slots[1..], false) + end;
      var all := SlotTokens(slots, true) + end;
      SlotTokensCons(slots, end);
      FirstToken(v);
      ReadTokens(cfg, v, more, Null);
      ElementsRound(cfg, all, done);
      var r := ReadValue(cfg, all, Null);
      if r.ok {
        var item := [Slot(true, r.value)];
        if |slots| == 1 {
          assert slots[1..] == [] && item + [] == item;
          assert more[1..] == ts;
        } else {
          var rest := SlotTokens(slots[1..], true) + end;
          assert more[1..] == rest;
          ReadSlots(cfg, slots[1..], ts, done + item);
          match ReadBackSlots(cfg.scan, slots[1..])
          case None =>
          case Some(w) => Assoc(done, item, w);
        }
      }
    }
  }

  ghost predicate Before(done: seq<Member>, members: seq<Member>) {
    forall i, j | 0 <= i < |done| && 0 <= j < |members| :: Less(done[i].name, members[j].name)
  }

  lemma {:induction false} PutLast(done: seq<Member>, members: seq<Member>, v: Value)
    requires members != [] && Before(done, members) && Increasing(members)
    ensures PutMember(done, members[0].name, v) == done + [Member(members[0].name, v)]
    ensures Before(done + [Member(members[0].name, v)], members[1..]) && Increasing(members[1..])
  {
    LowerBoundIs(done, members[0].name, |done|);
  }

  lemma {:induction false} ReadNamed(cfg: Config, members: seq<Member>, ts: seq<Token>, name: string, done: seq<Member>)
    requires RealFreeMembers(members) && WellFormedMembers(members) && Increasing(members)
    requires Before(done, members)
    requires members == [] ==> name == ""
    ensures var r := ReadMembers(cfg, MemberTokens(members, true) + ([Token(ObjectEnd, "}")] + ts), name, done);
            match ReadBackMembers(cfg.scan, members)
            case Some(w) => r == Result(true, Object(done + w), ts, [])
            case None => !r.ok
    decreases members, 1
  {
    hide ReadValue, ReadMember, Tokens, ReadBack, WellFormed, RealFree, DecodeString, Quoted, PutMember;
    var end := [Token(ObjectEnd, "}")] + ts;
    var all := MemberTokens(members, true) + end;
    if members == [] {
      assert all == end && SkipComments(end) == end && Rest(end) == ts;
      assert done + [] == done;
    } else {
      var m := members[0];
      var rest := [COLON] + Tokens(m.value) + (MemberTokens(members[1..], false) + end);
      assert MemberTokens(members, true) == NamedTokens(m) + MemberTokens(members[1..], false);
      assert NamedTokens(m) == [Token(String, Quoted(m.name))] + ([COLON] + Tokens(m.value));
      Regroup([Token(String, Quoted(m.name))], [COLON] + Tokens(m.value), MemberTokens(members[1..], false), end);
      assert all == [Token(String, Quoted(m.name))] + rest;
      assert SkipComments(all) == all && Rest(all) == rest;
      DecodeQuoted(m.name);
      ReadOne(cfg, members, ts, done);
    }
  }

  lemma {:induction false} MemberTokensComma(members: seq<Member>)
    requires members != []
    ensures MemberTokens(members, false) == [COMMA] + MemberTokens(members, true)
  {
    hide NamedTokens;
    var t := NamedTokens(members[0]);
    assert [] + t == t;
    Assoc([COMMA], t, MemberTokens(members[1..], false));
  }

  // One round of the loop of readObject, from the colon on.
  lemma {:induction false} MemberRound(cfg: Config, ts: seq<Token>, name: string, done: seq<Member>)
    requires Next(ts).kind == MemberSeparator
    ensures var r := ReadValue(cfg, Rest(ts), GetMember(done, CStr(name)));
            var e := ReadMember(cfg, ts, name, done);
            var done' := PutMember(done, CStr(name), r.value);
            && (!r.ok ==> !e.ok)
            && (r.ok && Next(r.rest).kind == ObjectEnd ==> e == Result(true, Object(done'), Rest(r.rest), []))
            && (r.ok && Next(r.rest).kind == ArraySeparator ==> e == ReadMembers(cfg, Rest(r.rest), name, done'))
  {
    hide ReadValue, ReadMembers, PutMember, GetMember;
    var r := ReadValue(cfg, Rest(ts), GetMember(done, CStr(name)));
    if Next(r.rest).kind != Comment { assert SkipComments(r.rest) == r.rest; }
  }

  lemma {:induction false} PlainRound(cfg: Config, ts: seq<Token>, name: string, done: seq<Member>)
    requires '\0' !in name && Next(ts).kind == MemberSeparator
    ensures var r := ReadValue(cfg, Rest(ts), GetMember(done, name));
            var e := ReadMember(cfg, ts, name, done);
            var done' := PutMember(done, name, r.value);
            && (!r.ok ==> !e.ok)
            && (r.ok && Next(r.rest).kind == ObjectEnd ==> e == Result(true, Object(done'), Rest(r.rest), []))
            && (r.ok && Next(r.rest).kind == ArraySeparator ==> e == ReadMembers(cfg, Rest(r.rest), name, done'))
  {
    hide ReadValue, ReadMembers, ReadMember, PutMember, GetMember;
    MemberRound(cfg, ts, name, done);
  }

  // From the colon of the first member on.
  lemma {:induction false} ReadOne(cfg: Config, members: seq<Member>, ts: seq<Token>, done: seq<Member>)
    requires members != []
    requires RealFreeMembers(members) && WellFormedMembers(members) && Increasing(members)
    requires Before(done, members)
    ensures var end := [Token(ObjectEnd, "}")] + ts;
            var rest := [COLON] + Tokens(members[0].value) + (MemberTokens(members[1..], false) + end);
            var r := ReadMember(cfg, rest, members[0].name, done);
            match ReadBackMembers(cfg.scan, members)
            case Some(w) => r == Result(true, Object(done + w), ts, [])
            case None => !r.ok
    decreases members, 0
  {
    hide ReadValue, ReadMembers, ReadMember, Tokens, ReadBack, WellFormed, RealFree, PutMember, Quoted, GetMember;
    var m, end := members[0], [Token(ObjectEnd, "}")] + ts;
    var more := MemberTokens(members[1..], false) + end;
    var rest := [COLON] + Tokens(m.value) + more;
    assert rest[1..] == Tokens(m.value) + more;
    var node := GetMember(done, m.name);
    ReadTokens(cfg, m.value, more, node);
    PlainRound(cfg, rest, m.name, done);
    var r := ReadValue(cfg, Rest(rest), node);
    if r.ok {
      var done' := done + [Member(m.name, r.value)];
      PutLast(done, members, r.value);
      if |members| == 1 {
        assert MemberTokens(members[1..], false) == [] && [] + end == end;
        assert Rest(more) == ts && SkipComments(more) == more;
        assert members[1..] == [] && [Member(m.name, r.value)] + [] == [Member(m.name, r.value)];
      } else {
        MemberTokensComma(members[1..]);
        Assoc([COMMA], MemberTokens(members[1..], true), end);
        assert SkipComments(more) == more && Rest(more) == MemberTokens(members[1..], true) + end;
        ReadNamed(cfg, members[1..], ts, m.name, done');
        match ReadBackMembers(cfg.scan, members[1..])
        case None =>
        case Some(w) => assert done' + w == done + ([Member(m.name, r.value)] + w);
      }
    }
  }

  ////////// When the value comes back //////////

  /** A value reads back as its norm exactly when all its integers are in the exact range. */
  lemma {:induction false} ReadBackExact(scan: DoubleScan, v: Value)
    requires RealFree(v) && WellFormed(v)
    ensures ReadBack(scan, v) == Some(Norm(v)) <==> Exact(v)
    decreases v, 1
  {
    match v
    case Int(i) => if i < 0 { DecodeNegative(scan, -i); } else { DecodeNat(scan, i); }
    case UInt(u) => DecodeNat(scan, u);
    case Array(slots) => ReadBackExactSlots(scan, slots);
    case Object(members) => ReadBackExactMembers(scan, members);
    case _ =>
  }

  lemma {:induction false} ReadBackExactSlots(scan: DoubleScan, slots: seq<Slot>)
    requires RealFreeSlots(slots) && WellFormedSlots(slots)
    ensures ReadBackSlots(scan, slots) == Some(NormSlots(slots)) <==> ExactSlots(slots)
    decreases slots, 0
  {
    hide ReadBack, Norm, Exact, RealFree, WellFormed;
    if slots != [] {
      assert slots[0].value < slots[0];
      ReadBackExact(scan, slots[0].value);
      ReadBackExactSlots(scan, slots[1..]);
      var r := ReadBackSlots(scan, slots);
      if r.Some? {
        assert r.value[0] == Slot(true, ReadBack(scan, slots[0].value).value);
        assert r.value[1..] == ReadBackSlots(scan, slots[1..]).value;
      }
      assert NormSlots(slots)[0].value == Norm(slots[0].value);
      assert NormSlots(slots)[1..] == NormSlots(slots[1..]);
    }
  }

  lemma {:induction false} ReadBackExactMembers(scan: DoubleScan, members: seq<Member>)
    requires RealFreeMembers(members) && WellFormedMembers(members)
    ensures ReadBackMembers(scan, members) == Some(NormMembers(members)) <==> ExactMembers(members)
    decreases members, 0
  {
    hide ReadBack, Norm, Exact, RealFree, WellFormed;
    if members != [] {
      ReadBackExact(scan, members[0].value);
      ReadBackExactMembers(scan, members[1..]);
      var r := ReadBackMembers(scan, members);
      if r.Some? {
        assert r.value[0] == Member(members[0].name, ReadBack(scan, members[0].value).value);
        assert r.value[1..] == ReadBackMembers(scan, members[1..]).value;
      }
      assert NormMembers(members)[0].value == Norm(members[0].value);
      assert NormMembers(members)[1..] == NormMembers(members[1..]);
    }
  }

  // The root a strict reader takes.
  predicate RootAllowed(cfg: Config, v: Value) {
    cfg.features.strictRoot ==> v.Array? || v.Object?
  }

  /** Parsing a document that has the tokens of a value. */
  lemma {:induction false} ParseTokens(cfg: Config, document: string, v: Value, root: Value)
    requires RealFree(v) && WellFormed(v) && Lex(document) == Tokens(v)
    ensures var r := Parse(cfg, document, root);
            r.ok && r.value == Norm(v) <==> Exact(v) && RootAllowed(cfg, v)
    ensures Exact(v) && RootAllowed(cfg, v) ==> Parse(cfg, document, root) == Result(true, Norm(v), [], [])
  {
    hide Lex, ReadValue, Tokens, ReadBack, Exact, RealFree, WellFormed;
    ReadTokens(cfg, v, [], root);
    assert Tokens(v) + [] == Tokens(v);
    ReadBackExact(cfg.scan, v);
  }

  /** For every value tree without doubles, parsing the FastWriter text, with the YAML option on or
      off, succeeds and yields the norm of the tree exactly when its integers are in the exact
      range (and the root is one the reader takes). */
  lemma {:induction false} FastRoundTrip(cfg: Config, show: DoubleShow, yaml: bool, v: Value, root: Value)
    requires RealFree(v) && WellFormed(v)
    ensures var r := Parse(cfg, FastDocument(show, yaml, v), root);
            r.ok && r.value == Norm(v) <==> Exact(v) && RootAllowed(cfg, v)
  {
    hide Lex, Parse, Tokens, FastDocument, StyledDocument;
    SameTokens(show, yaml, v);
    ParseTokens(cfg, FastDocument(show, yaml, v), v, root);
  }

  /** The styled text parses to the same result as the fast one: same verdict, same value, same errors at
      the same tokens (a root that is refused is reported at the whole document). */
  lemma {:induction false} StyledParsesAsFast(cfg: Config, show: DoubleShow, yaml: bool, v: Value, root: Value)
    requires RealFree(v) && WellFormed(v)
    ensures var f := Parse(cfg, FastDocument(show, yaml, v), root);
            var s := Parse(cfg, StyledDocument(show, v), root);
            && s.ok == f.ok && s.value == f.value && s.rest == f.rest
            && |s.errors| == |f.errors|
            && forall k | 0 <= k < |s.errors| ::
                 s.errors[k] == f.errors[k] || s.errors[k].message == f.errors[k].message == RootNotContainer
  {
    hide Lex, ReadValue, Tokens, FastDocument, StyledDocument;
    SameTokens(show, yaml, v);
  }
}
