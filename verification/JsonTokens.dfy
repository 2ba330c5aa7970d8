/**
 Both writers write the same tokens: reading the text of a value back, token by token, gives the
 token sequence of the value, whatever the layout.
 */
module JsonTokens {
  import opened Sequences
  import opened CText
  import opened JsonValue
  import opened JsonLexer
  import opened JsonText

  const COMMA := Token(ArraySeparator, ",")
  const COLON := Token(MemberSeparator, ":")

  // The tokens of a value without doubles.
  function Tokens(v: Value): seq<Token>
    decreases v
  {
    match v
    case Null => [Token(NullWord, "null")]
    case Int(i) => [Token(Number, IntText(i))]
    case UInt(u) => [Token(Number, if u < 0 then "" else Decimal(u))]
    case Real(_) => []
    case Str(s) => [Token(String, Quoted(s))]
    case Bool(b) => [if b then Token(True, "true") else Token(False, "false")]
    case Array(slots) => [Token(ArrayBegin, "[")] + SlotTokens(slots, true) + [Token(ArrayEnd, "]")]
    case Object(members) =>
      [Token(ObjectBegin, "{")] + MemberTokens(members, true) + [Token(ObjectEnd, "}")]
  }

  function SlotTokens(slots: seq<Slot>, first: bool): seq<Token>
    decreases slots
  {
    if slots == [] then []
    else
      assert slots[0].value < slots[0];
      (if first then [] else [COMMA]) + Tokens(slots[0].value) + SlotTokens(slots[1..], false)
  }

  function MemberTokens(members: seq<Member>, first: bool): seq<Token>
    decreases members
  {
    if members == [] then []
    else
      (if first then [] else [COMMA]) + NamedTokens(members[0]) + MemberTokens(members[1..], false)
  }

  function NamedTokens(m: Member): seq<Token>
    decreases m
  {
    [Token(String, Quoted(m.name)), COLON] + Tokens(m.value)
  }

  ////////// Tokens of the pieces //////////

  predicate IsMark(c: char, kind: Kind) {
    || (c == '[' && kind == ArrayBegin) || (c == ']' && kind == ArrayEnd)
    || (c == '{' && kind == ObjectBegin) || (c == '}' && kind == ObjectEnd)
    || (c == ',' && kind == ArraySeparator) || (c == ':' && kind == MemberSeparator)
  }

  lemma {:induction false} LexMark(c: char, kind: Kind, rest: string)
    requires IsMark(c, kind)
    ensures Lex([c] + rest) == [Token(kind, [c])] + Lex(rest)
  {
    hide Lex;
    LexOne([c], rest, kind);
  }

  lemma {:induction false} LexWord(word: string, kind: Kind, rest: string)
    requires |word| > 1 && !Space(word[0])
    requires word[1..] <= (word + rest)[1..] ==> ScanToken(word + rest) == Scanned(kind, |word|)
    ensures Lex(word + rest) == [Token(kind, word)] + Lex(rest)
  {
    hide ScanToken;
    assert (word + rest)[1..] == word[1..] + rest;
    LexOne(word, rest, kind);
  }

  lemma {:induction false} LexNumber(text: string, rest: string)
    requires text != "" && (Digit(text[0]) || text[0] == '-')
    requires forall i | 1 <= i < |text| :: Digit(text[i])
    requires Delimited(rest)
    ensures Lex(text + rest) == [Token(Number, text)] + Lex(rest)
  {
    hide Lex, ScanNumber, ScanString, ScanComment, ScanWord;
    ScanNumberAll(text[1..], rest);
    assert (text + rest)[1..] == text[1..] + rest;
    LexOne(text, rest, Number);
  }

  lemma {:induction false} ScanEscaped(s: string, rest: string)
    ensures ScanString(EscapeAll(s) + "\"" + rest) == Scan(|EscapeAll(s)| + 1, true)
  {
    var text := EscapeAll(s) + "\"" + rest;
    if s == "" {
      assert text == "\"" + rest;
    } else {
      var e := Escape(s[0]);
      var tail := EscapeAll(s[1..]) + "\"" + rest;
      assert text == e + tail;
      ScanEscaped(s[1..], rest);
      if |e| == 1 {
        assert text[1..] == tail;
      } else if |e| == 2 {
        assert text[2..] == tail;
      } else {
        assert text[2..] == e[2..] + tail;
        ScanPlain(e[2..], tail);
      }
    }
  }

  lemma {:induction false} ScanPlain(plain: string, rest: string)
    requires '\\' !in plain && '"' !in plain
    ensures ScanString(plain + rest) == Shift(|plain|, ScanString(rest))
  {
    if plain == "" {
      assert plain + rest == rest;
    } else {
      assert (plain + rest)[1..] == plain[1..] + rest;
      ScanPlain(plain[1..], rest);
    }
  }

  lemma {:induction false} LexQuoted(s: string, rest: string)
    ensures Lex(Quoted(s) + rest) == [Token(String, Quoted(s))] + Lex(rest)
  {
    hide Lex, EscapeAll;
    var body := EscapeAll(CStr(s)) + "\"" + rest;
    assert Quoted(s) + rest == "\"" + body;
    assert (Quoted(s) + rest)[1..] == body;
    ScanEscaped(CStr(s), rest);
    LexOne(Quoted(s), rest, String);
  }

  lemma {:induction false} LexLeaf(show: DoubleShow, v: Value, rest: string)
    requires RealFree(v) && WellFormed(v) && Leaf(v) && Delimited(rest)
    ensures Lex(LeafText(show, v) + rest) == Tokens(v) + Lex(rest)
  {
    hide Lex;
    match v
    case Null => LexWord("null", NullWord, rest);
    case Bool(b) => if b { LexWord("true", True, rest); } else { LexWord("false", False, rest); }
    case Int(i) => LexNumber(IntText(i), rest);
    case UInt(u) => LexNumber(Decimal(u), rest);
    case Str(s) => LexQuoted(s, rest);
    case Array(slots) =>
      assert "[]" + rest == "[" + ("]" + rest);
      LexMark('[', ArrayBegin, "]" + rest);
      LexMark(']', ArrayEnd, rest);
    case Object(members) =>
      assert "{}" + rest == "{" + ("}" + rest);
      LexMark('{', ObjectBegin, "}" + rest);
      LexMark('}', ObjectEnd, rest);
  }

  // A comma before anything but the first item.
  lemma {:induction false} LexComma(first: bool, rest: string)
    ensures Lex((if first then "" else ",") + rest) == (if first then [] else [COMMA]) + Lex(rest)
  {
    hide Lex;
    if first {
      assert "" + rest == rest && [] + Lex(rest) == Lex(rest);
    } else {
      LexMark(',', ArraySeparator, rest);
    }
  }

  ////////// FastWriter //////////

  lemma {:induction false} LexFast(show: DoubleShow, yaml: bool, v: Value, rest: string)
    requires RealFree(v) && WellFormed(v) && Delimited(rest)
    ensures Lex(FastText(show, yaml, v) + rest) == Tokens(v) + Lex(rest)
    decreases v
  {
    hide Lex, FastSlots, FastMembers, SlotTokens, MemberTokens, LeafText, WellFormedSlots, WellFormedMembers;
    match v
    case Array(slots) =>
      var end := "]" + rest;
      var text := FastSlots(show, yaml, slots, true);
      LexMark('[', ArrayBegin, text + end);
      LexFastSlots(show, yaml, slots, true, end);
      LexMark(']', ArrayEnd, rest);
      Regroup("[", text, "]", rest);
      Regroup([Token(ArrayBegin, "[")], SlotTokens(slots, true), [Token(ArrayEnd, "]")], Lex(rest));
    case Object(members) =>
      var end := "}" + rest;
      var text := FastMembers(show, yaml, members, true);
      LexMark('{', ObjectBegin, text + end);
      LexFastMembers(show, yaml, members, true, end);
      LexMark('}', ObjectEnd, rest);
      Regroup("{", text, "}", rest);
      Regroup([Token(ObjectBegin, "{")], MemberTokens(members, true), [Token(ObjectEnd, "}")], Lex(rest));
    case _ => LexLeaf(show, v, rest);
  }

  lemma {:induction false} LexFastSlots(show: DoubleShow, yaml: bool, slots: seq<Slot>, first: bool, rest: string)
    requires RealFreeSlots(slots) && WellFormedSlots(slots) && Delimited(rest)
    ensures Lex(FastSlots(show, yaml, slots, first) + rest) == SlotTokens(slots, first) + Lex(rest)
    ensures !first ==> Delimited(FastSlots(show, yaml, slots, first) + rest)
    decreases slots
  {
    hide Lex, FastText, Tokens, WellFormed, RealFree, Quoted;
    if slots == [] {
      assert FastSlots(show, yaml, slots, first) + rest == rest;
    } else {
      var v, text := slots[0].value, FastText(show, yaml, slots[0].value);
      assert slots[0].value < slots[0];
      var tail := FastSlots(show, yaml, slots[1..], false) + rest;
      LexFastSlots(show, yaml, slots[1..], false, rest);
      LexFast(show, yaml, v, tail);
      LexComma(first, text + tail);
      Regroup(if first then "" else ",", text, FastSlots(show, yaml, slots[1..], false), rest);
      Regroup(if first then [] else [COMMA], Tokens(v), SlotTokens(slots[1..], false), Lex(rest));
    }
  }

  lemma {:induction false} LexFastMembers(show: DoubleShow, yaml: bool, members: seq<Member>, first: bool, rest: string)
    requires RealFreeMembers(members) && WellFormedMembers(members) && Delimited(rest)
    ensures Lex(FastMembers(show, yaml, members, first) + rest) == MemberTokens(members, first) + Lex(rest)
    ensures !first ==> Delimited(FastMembers(show, yaml, members, first) + rest)
    decreases members
  {
    hide Lex, FastMember, NamedTokens, WellFormed, RealFree;
    if members == [] {
      assert FastMembers(show, yaml, members, first) + rest == rest;
    } else {
      var text := FastMember(show, yaml, members[0]);
      var tail := FastMembers(show, yaml, members[1..], false) + rest;
      LexFastMembers(show, yaml, members[1..], false, rest);
      LexFastMember(show, yaml, members[0], tail);
      LexComma(first, text + tail);
      Regroup(if first then "" else ",", text, FastMembers(show, yaml, members[1..], false), rest);
      Regroup(if first then [] else [COMMA], NamedTokens(members[0]), MemberTokens(members[1..], false), Lex(rest));
    }
  }

  lemma {:induction false} LexFastMember(show: DoubleShow, yaml: bool, m: Member, rest: string)
    requires RealFree(m.value) && WellFormed(m.value) && Delimited(rest)
    ensures Lex(FastMember(show, yaml, m) + rest) == NamedTokens(m) + Lex(rest)
    decreases m
  {
    hide Lex, FastText, Tokens, WellFormed, RealFree, Quoted;
    var value := FastText(show, yaml, m.value) + rest;
    var blank := if yaml then " " else "";
    LexFast(show, yaml, m.value, rest);
    LexBlank(blank, value);
    LexMark(':', MemberSeparator, blank + value);
    LexQuoted(m.name, ":" + (blank + value));
    assert FastMember(show, yaml, m) + rest == Quoted(m.name) + (":" + (blank + value));
  }
}
