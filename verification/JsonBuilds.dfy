/**
 What the reader builds, whatever the document: values the library's own rules allow, that a writer can print
 and the reader can read again.
 */
module JsonBuilds {
  import opened Wrappers
  import opened CText
  import opened JsonValue
  import opened JsonLexer
  import opened JsonParser
  import opened JsonText
  import opened JsonRoundTrip

  ghost predicate Sound(v: Value) { WellFormed(v) && Exact(v) }

  ghost predicate SoundSlots(slots: seq<Slot>) {
    forall k | 0 <= k < |slots| :: slots[k].present && Sound(slots[k].value)
  }

  ghost predicate SoundMembers(members: seq<Member>) {
    && Increasing(members)
    && forall k | 0 <= k < |members| :: '\0' !in members[k].name && Sound(members[k].value)
  }

  lemma {:induction false} SoundArray(slots: seq<Slot>)
    requires SoundSlots(slots)
    ensures WellFormedSlots(slots) && ExactSlots(slots)
  {
    hide WellFormed, Exact;
    if slots != [] {
      assert slots[0].present && Sound(slots[0].value);
      forall k | 0 <= k < |slots[1..]| ensures slots[1..][k].present && Sound(slots[1..][k].value) {
        assert slots[1..][k] == slots[k + 1];
      }
      SoundArray(slots[1..]);
    }
  }

  lemma {:induction false} SoundObject(members: seq<Member>)
    requires forall k | 0 <= k < |members| :: '\0' !in members[k].name && Sound(members[k].value)
    ensures WellFormedMembers(members) && ExactMembers(members)
  {
    hide WellFormed, Exact;
    if members != [] {
      assert '\0' !in members[0].name && Sound(members[0].value);
      forall k | 0 <= k < |members[1..]| ensures '\0' !in members[1..][k].name && Sound(members[1..][k].value) {
        assert members[1..][k] == members[k + 1];
      }
      SoundObject(members[1..]);
    }
  }

  lemma {:induction false} SoundPut(members: seq<Member>, name: string, v: Value)
    requires SoundMembers(members) && '\0' !in name && Sound(v)
    ensures SoundMembers(PutMember(members, name, v))
  {
    hide Sound, Increasing;
    PutMemberIncreasing(members, name, v);
  }

  ////////// Numbers //////////

  // The guard of the digit loop bounds what it lets through.
  lemma {:induction false} DigitsBound(digits: string, value: nat, threshold: nat)
    requires value < 10 * threshold
    ensures var r := DecodeDigits(digits, value, threshold); r.Whole? ==> 0 <= r.n < 10 * threshold
  {
    if digits != "" && Digit(digits[0]) && value < threshold {
      DigitsBound(digits[1..], value * 10 + (digits[0] as int - '0' as int), threshold);
    }
  }

  lemma {:induction false} NumberBuilds(scan: DoubleScan, text: string)
    ensures DecodeNumber(scan, text).Some? ==> Sound(DecodeNumber(scan, text).value)
  {
    hide IsDouble, DecodeDigits;
    var digits := if Negative(text) then text[1..] else text;
    DigitsBound(digits, 0, Threshold(Negative(text)));
  }

  ////////// Values //////////

  /** Whatever readValue reads without an error is well formed and in the exact range. */
  lemma {:induction false} ReadBuilds(cfg: Config, ts: seq<Token>, node: Value)
    ensures var r := ReadValue(cfg, ts, node); r.ok ==> Sound(r.value)
    decreases |ts|, 1, 0
  {
    hide ReadElements, ReadMembers, ReadScalar, Sound;
    var ts := if cfg.features.allowComments then SkipComments(ts) else ts;
    match Next(ts).kind
    case ObjectBegin => MembersBuild(cfg, Rest(ts), "", []);
    case ArrayBegin => if Next(Rest(ts)).kind != ArrayEnd { ElementsBuild(cfg, Rest(ts), []); } else { NothingBuilt(); }
    case _ => ScalarBuilds(cfg, Next(ts), Rest(ts), node);
  }

  lemma {:induction false} NothingBuilt()
    ensures Sound(Array([]))
  {}

  lemma {:induction false} ScalarBuilds(cfg: Config, t: Token, rest: seq<Token>, node: Value)
    ensures var r := ReadScalar(cfg, t, rest, node); r.ok ==> Sound(r.value)
  {
    hide DecodeNumber, DecodeString;
    if t.kind == Number { NumberBuilds(cfg.scan, t.text); }
  }

  lemma {:induction false} ElementsBuild(cfg: Config, ts: seq<Token>, slots: seq<Slot>)
    requires SoundSlots(slots)
    ensures var r := ReadElements(cfg, ts, slots); r.ok ==> Sound(r.value)
    decreases |ts|, 2, 0
  {
    hide ReadValue, WellFormedSlots, ExactSlots, Recover;
    ReadBuilds(cfg, ts, Null);
    var r := ReadValue(cfg, ts, Null);
    if r.ok {
      var slots' := PutSlot(slots, |slots|, r.value);
      assert SoundSlots(slots');
      SoundArray(slots');
      var rest := SkipComments(r.rest);
      if Next(rest).kind != ArrayEnd { ElementsBuild(cfg, Rest(rest), slots'); }
    }
  }

  lemma {:induction false} MembersBuild(cfg: Config, ts: seq<Token>, name: string, members: seq<Member>)
    requires SoundMembers(members)
    ensures var r := ReadMembers(cfg, ts, name, members); r.ok ==> Sound(r.value)
    decreases |ts|, 2, 0
  {
    hide ReadMember, DecodeString, Recover, WellFormedMembers, ExactMembers;
    var ts := SkipComments(ts);
    SoundObject(members);
    if Next(ts).kind == String {
      match DecodeString(Next(ts).text)
      case BadText(_) =>
      case Text(key) => MemberBuilds(cfg, Rest(ts), key, members);
    }
  }

  lemma {:induction false} MemberBuilds(cfg: Config, ts: seq<Token>, name: string, members: seq<Member>)
    requires SoundMembers(members)
    ensures var r := ReadMember(cfg, ts, name, members); r.ok ==> Sound(r.value)
    decreases |ts|, 2, 1
  {
    hide ReadValue, ReadMembers, Recover, PutMember, GetMember, WellFormedMembers, ExactMembers;
    if Next(ts).kind == MemberSeparator {
      var key := CStr(name);
      var r := ReadValue(cfg, Rest(ts), GetMember(members, key));
      ReadBuilds(cfg, Rest(ts), GetMember(members, key));
      if r.ok {
        var members' := PutMember(members, key, r.value);
        SoundPut(members, key, r.value);
        SoundObject(members');
        var rest := SkipComments(r.rest);
        if Next(rest).kind != ObjectEnd { MembersBuild(cfg, Rest(rest), name, members'); }
      }
    }
  }

  /** Every document: what parses is well formed and in the exact range. */
  lemma {:induction false} ParseBuilds(cfg: Config, document: string, root: Value)
    ensures var r := Parse(cfg, document, root); r.ok ==> WellFormed(r.value) && Exact(r.value)
  {
    hide Lex, ReadValue, Exact;
    ReadBuilds(cfg, Lex(document), root);
  }

  /** Every document: what parses and has no doubles parses again from its printed text, to its norm, whichever
      writer printed it. */
  lemma {:induction false} ParsePrintParse(cfg: Config, document: string, root: Value,
                                           show: DoubleShow, yaml: bool, root': Value)
    requires Parse(cfg, document, root).ok && RealFree(Parse(cfg, document, root).value)
    ensures var v := Parse(cfg, document, root).value;
            && Parse(cfg, FastDocument(show, yaml, v), root').ok
            && Parse(cfg, FastDocument(show, yaml, v), root').value == Norm(v)
            && Parse(cfg, StyledDocument(show, v), root').ok
            && Parse(cfg, StyledDocument(show, v), root').value == Norm(v)
  {
    ParseBuilds(cfg, document, root);
    RootOfParse(cfg, document, root);
    hide Parse, Exact, WellFormed, RealFree, FastDocument, StyledDocument, Norm;
    var v := Parse(cfg, document, root).value;
    FastRoundTrip(cfg, show, yaml, v, root');
    StyledParsesAsFast(cfg, show, yaml, v, root');
  }

  lemma {:induction false} RootOfParse(cfg: Config, document: string, root: Value)
    requires Parse(cfg, document, root).ok
    ensures RootAllowed(cfg, Parse(cfg, document, root).value)
  {
    hide Lex, ReadValue;
  }
}
