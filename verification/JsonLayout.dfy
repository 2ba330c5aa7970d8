/**
 The layout StyledWriter adds (line breaks, indentation, one-line arrays) changes no token.
 */
module JsonLayout {
  import opened Sequences
  import opened JsonValue
  import opened JsonLexer
  import opened JsonText
  import opened JsonTokens

  // `after` prolongs `before` by a text that reads as `ts` when `rest` follows.
  ghost predicate Writes(before: string, after: string, ts: seq<Token>, rest: string) {
    before <= after && Lex(After(before, after) + rest) == ts + Lex(rest)
  }

  ghost function After(before: string, after: string): string {
    if |before| <= |after| then after[|before|..] else ""
  }

  lemma {:induction false} WritesText(before: string, text: string, ts: seq<Token>, rest: string)
    requires Lex(text + rest) == ts + Lex(rest)
    ensures Writes(before, before + text, ts, rest)
  {
    hide Lex;
    assert (before + text)[|before|..] == text;
  }

  lemma {:induction false} Compose(a: string, b: string, c: string, ts: seq<Token>, us: seq<Token>, rest: string)
    requires Writes(a, b, ts, After(b, c) + rest) && Writes(b, c, us, rest)
    ensures Writes(a, c, ts + us, rest)
  {
    hide Lex;
    var x, y := b[|a|..], c[|b|..];
    assert c[|a|..] + rest == x + (y + rest);
    assert ts + (us + Lex(rest)) == ts + us + Lex(rest);
  }

  lemma {:induction false} WritesIndent(before: string, indent: string, rest: string)
    requires Blank(indent)
    ensures Writes(before, Indented(before, indent), [], rest)
  {
    hide Lex;
    var d := Indented(before, indent);
    var blank := d[|before|..];
    assert d == before + blank;
    assert Blank(blank);
    LexBlank(blank, rest);
    assert [] + Lex(rest) == Lex(rest);
  }

  // Indentation, then a mark, on a line of its own.
  lemma {:induction false} WritesMark(before: string, indent: string, c: char, kind: Kind, rest: string)
    requires Blank(indent) && IsMark(c, kind)
    ensures Writes(before, Indented(before, indent) + [c], [Token(kind, [c])], rest)
    ensures Delimited(After(before, Indented(before, indent) + [c]) + rest)
  {
    hide Lex;
    var d := Indented(before, indent);
    LexMark(c, kind, rest);
    WritesText(d, [c], [Token(kind, [c])], rest);
    WritesIndent(before, indent, After(d, d + [c]) + rest);
    Compose(before, d, d + [c], [], [Token(kind, [c])], rest);
    assert [] + [Token(kind, [c])] == [Token(kind, [c])];
    var y := (d + [c])[|before|..];
    if |before| < |d| {
      assert y[0] == d[|before|];
    } else {
      assert y == [c];
    }
  }

  lemma {:induction false} LexCommaBlank(first: bool, rest: string)
    ensures Lex((if first then "" else ", ") + rest) == (if first then [] else [COMMA]) + Lex(rest)
  {
    hide Lex;
    var blank := if first then "" else " ";
    LexBlank(blank, rest);
    LexComma(first, blank + rest);
    assert (if first then "" else ", ") + rest == (if first then "" else ",") + (blank + rest);
  }

  lemma {:induction false} LexSingleLine(show: DoubleShow, slots: seq<Slot>, first: bool, rest: string)
    requires RealFreeSlots(slots) && WellFormedSlots(slots) && Delimited(rest)
    requires forall k | 0 <= k < |slots| :: Leaf(slots[k].value)
    ensures Lex(SingleLine(LeafTexts(show, slots), first) + rest) == SlotTokens(slots, first) + Lex(rest)
    ensures !first ==> Delimited(SingleLine(LeafTexts(show, slots), first) + rest)
  {
    hide Lex, LeafText, Tokens, WellFormed, RealFree;
    var texts := LeafTexts(show, slots);
    if slots == [] {
      assert SingleLine(texts, first) + rest == rest;
    } else {
      assert texts[1..] == LeafTexts(show, slots[1..]);
      var tail := SingleLine(texts[1..], false);
      LexSingleLine(show, slots[1..], false, rest);
      LexLeaf(show, slots[0].value, tail + rest);
      LexCommaBlank(first, texts[0] + (tail + rest));
      Regroup(if first then "" else ", ", texts[0], tail, rest);
      Regroup(if first then [] else [COMMA], Tokens(slots[0].value), SlotTokens(slots[1..], false), Lex(rest));
    }
  }

  /** The text writeValue adds for a value reads as the tokens of the value. */
  lemma {:induction false} LexStyled(show: DoubleShow, document: string, indent: string, v: Value, rest: string)
    requires RealFree(v) && WellFormed(v) && Blank(indent) && Delimited(rest)
    ensures Writes(document, Styled(show, document, indent, v), Tokens(v), rest)
    decreases v, 1
  {
    hide Lex, StyledSlots, StyledMembers, SingleLine, TotalLength, Indented, Writes, After;
    match v
    case Array(slots) =>
      if slots == [] {
        LexLeaf(show, v, rest);
        WritesText(document, "[]", Tokens(v), rest);
      } else if !MultiLine(show, slots) {
        LexOneLine(show, document, slots, rest);
      } else {
        var d2 := Indented(document, indent) + "[";
        var d3 := StyledSlots(show, d2, indent + INDENT, slots, Collected(slots));
        var d5 := Indented(d3, indent) + "]";
        WritesMark(d3, indent, ']', ArrayEnd, rest);
        LexStyledSlots(show, d2, indent + INDENT, slots, Collected(slots), After(d3, d5) + rest);
        Compose(d2, d3, d5, SlotTokens(slots, true), [Token(ArrayEnd, "]")], rest);
        WritesMark(document, indent, '[', ArrayBegin, After(d2, d5) + rest);
        Compose(document, d2, d5, [Token(ArrayBegin, "[")], SlotTokens(slots, true) + [Token(ArrayEnd, "]")], rest);
        Assoc([Token(ArrayBegin, "[")], SlotTokens(slots, true), [Token(ArrayEnd, "]")]);
      }
    case Object(members) =>
      if members == [] {
        LexLeaf(show, v, rest);
        WritesText(document, "{}", Tokens(v), rest);
      } else {
        var d2 := Indented(document, indent) + "{";
        var d3 := StyledMembers(show, d2, indent + INDENT, members);
        var d5 := Indented(d3, indent) + "}";
        WritesMark(d3, indent, '}', ObjectEnd, rest);
        LexStyledMembers(show, d2, indent + INDENT, members, After(d3, d5) + rest);
        Compose(d2, d3, d5, MemberTokens(members, true), [Token(ObjectEnd, "}")], rest);
        WritesMark(document, indent, '{', ObjectBegin, After(d2, d5) + rest);
        Compose(document, d2, d5, [Token(ObjectBegin, "{")], MemberTokens(members, true) + [Token(ObjectEnd, "}")],
                rest);
        Assoc([Token(ObjectBegin, "{")], MemberTokens(members, true), [Token(ObjectEnd, "}")]);
      }
    case _ =>
      LexLeaf(show, v, rest);
      WritesText(document, LeafText(show, v), Tokens(v), rest);
  }

  lemma {:induction false} LexOneLine(show: DoubleShow, document: string, slots: seq<Slot>, rest: string)
    requires RealFreeSlots(slots) && WellFormedSlots(slots) && Delimited(rest)
    requires forall k | 0 <= k < |slots| :: Leaf(slots[k].value)
    ensures Writes(document, document + "[ " + SingleLine(LeafTexts(show, slots), true) + " ]",
                   Tokens(Array(slots)), rest)
  {
    hide Lex, SingleLine, SlotTokens, LeafTexts, LeafText, RealFreeSlots, WellFormedSlots, Leaf;
    var items := SingleLine(LeafTexts(show, slots), true);
    var end := " ]" + rest;
    var body := " " + (items + end);
    LexMark(']', ArrayEnd, rest);
    LexBlank(" ", "]" + rest);
    assert end == " " + ("]" + rest);
    LexSingleLine(show, slots, true, end);
    LexBlank(" ", items + end);
    LexMark('[', ArrayBegin, body);
    var text := "[ " + items + " ]";
    Regroup("[ ", items, " ]", rest);
    Assoc("[", " ", items + end);
    assert "[ " == "[" + " ";
    Regroup([Token(ArrayBegin, "[")], SlotTokens(slots, true), [Token(ArrayEnd, "]")], Lex(rest));
    WritesText(document, text, Tokens(Array(slots)), rest);
    Regroup(document, "[ ", items, " ]");
    Assoc("[ ", items, " ]");
  }

  lemma {:induction false} LexStyledSlots(show: DoubleShow, document: string, indent: string,
                                          slots: seq<Slot>, collected: bool, rest: string)
    requires slots != [] && RealFreeSlots(slots) && WellFormedSlots(slots)
    requires Blank(indent) && Delimited(rest)
    requires collected ==> forall k | 0 <= k < |slots| :: Leaf(slots[k].value)
    ensures Writes(document, StyledSlots(show, document, indent, slots, collected), SlotTokens(slots, true), rest)
    decreases slots, 0
  {
    hide Lex, Styled, Indented, Tokens, WellFormed, RealFree, LeafText, Writes, After;
    assert slots[0].value < slots[0];
    var v, d1 := slots[0].value, Indented(document, indent);
    var d2 := if collected then d1 + LeafText(show, v) else Styled(show, d1, indent, v);
    var d := StyledSlots(show, document, indent, slots, collected);
    var ts := Tokens(v);
    if |slots| == 1 {
      LexStyledItem(show, d1, indent, v, collected, rest);
      WritesIndent(document, indent, After(d1, d2) + rest);
      Compose(document, d1, d2, [], ts, rest);
      assert [] + ts == ts == SlotTokens(slots, true);
    } else {
      var more := SlotTokens(slots[1..], true);
      LexStyledSlots(show, d2 + ",", indent, slots[1..], collected, rest);
      LexCommaMore(d2, d, more, rest);
      LexStyledItem(show, d1, indent, v, collected, After(d2, d) + rest);
      Compose(d1, d2, d, ts, [COMMA] + more, rest);
      WritesIndent(document, indent, After(d1, d) + rest);
      Compose(document, d1, d, [], ts + ([COMMA] + more), rest);
      assert [] + (ts + ([COMMA] + more)) == ts + SlotTokens(slots[1..], false) == SlotTokens(slots, true);
    }
  }

  lemma {:induction false} LexStyledItem(show: DoubleShow, document: string, indent: string, v: Value,
                                         collected: bool, rest: string)
    requires RealFree(v) && WellFormed(v) && Blank(indent) && Delimited(rest)
    requires collected ==> Leaf(v)
    ensures Writes(document, if collected then document + LeafText(show, v) else Styled(show, document, indent, v),
                   Tokens(v), rest)
    decreases v, 2
  {
    hide Lex;
    if collected {
      LexLeaf(show, v, rest);
      WritesText(document, LeafText(show, v), Tokens(v), rest);
    } else {
      LexStyled(show, document, indent, v, rest);
    }
  }

  // A comma after an item, then the rest of the list.
  lemma {:induction false} LexCommaMore(before: string, after: string, more: seq<Token>, rest: string)
    requires Writes(before + ",", after, more, rest)
    ensures Writes(before, after, [COMMA] + more, rest)
    ensures Delimited(After(before, after) + rest)
  {
    hide Lex;
    var tail := after[|before| + 1..] + rest;
    LexMark(',', ArraySeparator, tail);
    WritesText(before, ",", [COMMA], tail);
    Compose(before, before + ",", after, [COMMA], more, rest);
    assert (before + ",")[|before|] == ',';
  }

  lemma {:induction false} LexStyledMembers(show: DoubleShow, document: string, indent: string,
                                            members: seq<Member>, rest: string)
    requires members != [] && RealFreeMembers(members) && WellFormedMembers(members)
    requires Blank(indent) && Delimited(rest)
    ensures Writes(document, StyledMembers(show, document, indent, members), MemberTokens(members, true), rest)
    decreases members, 0
  {
    hide Lex, Styled, Indented, Tokens, WellFormed, RealFree, Writes, Quoted, After;
    var m, d1 := members[0], Indented(document, indent);
    var d2 := d1 + Quoted(m.name) + " : ";
    var d3 := Styled(show, d2, indent, m.value);
    var d := StyledMembers(show, document, indent, members);
    if |members| == 1 {
      LexStyled(show, d2, indent, m.value, rest);
      LexName(document, indent, m.name, d3, Tokens(m.value), rest);
      assert MemberTokens(members, true) == NamedTokens(m);
    } else {
      var more := MemberTokens(members[1..], true);
      LexStyledMembers(show, d3 + ",", indent, members[1..], rest);
      LexCommaMore(d3, d, more, rest);
      LexStyled(show, d2, indent, m.value, After(d3, d) + rest);
      Compose(d2, d3, d, Tokens(m.value), [COMMA] + more, rest);
      LexName(document, indent, m.name, d, Tokens(m.value) + ([COMMA] + more), rest);
      Assoc([Token(String, Quoted(m.name)), COLON], Tokens(m.value), [COMMA] + more);
      assert MemberTokens(members[1..], false) == [COMMA] + more;
      assert MemberTokens(members, true) == NamedTokens(m) + ([COMMA] + more);
    }
  }

  // The name of a member and its colon, then the rest of the list.
  lemma {:induction false} LexName(document: string, indent: string, name: string, after: string, more: seq<Token>,
                                   rest: string)
    requires Blank(indent)
    requires Writes(Indented(document, indent) + Quoted(name) + " : ", after, more, rest)
    ensures Writes(document, after, [Token(String, Quoted(name)), COLON] + more, rest)
  {
    hide Lex, Indented, Quoted;
    var d1 := Indented(document, indent);
    var d2 := d1 + Quoted(name) + " : ";
    var tail := After(d2, after) + rest;
    var ts := [Token(String, Quoted(name)), COLON];
    LexBlank(" ", tail);
    LexMark(':', MemberSeparator, " " + tail);
    LexBlank(" ", ":" + (" " + tail));
    LexQuoted(name, " " + (":" + (" " + tail)));
    var text := Quoted(name) + " : ";
    assert text + tail == Quoted(name) + (" " + (":" + (" " + tail)));
    assert d2 == d1 + text;
    WritesText(d1, text, ts, tail);
    Compose(d1, d2, after, ts, more, rest);
    WritesIndent(document, indent, After(d1, after) + rest);
    Compose(document, d1, after, [], ts + more, rest);
    assert [] + (ts + more) == ts + more;
  }

  /** Every comment-free value without doubles: the styled document has exactly the tokens of the
      fast one, with or without YAML compatibility. */
  lemma {:induction false} SameTokens(show: DoubleShow, yaml: bool, v: Value)
    requires RealFree(v) && WellFormed(v)
    ensures Lex(StyledDocument(show, v)) == Tokens(v)
    ensures Lex(FastDocument(show, yaml, v)) == Tokens(v)
  {
    hide Styled, FastText, Tokens;
    assert Lex("\n") == [] by { LexBlank("\n", ""); assert "\n" + "" == "\n"; }
    LexStyled(show, "", "", v, "\n");
    LexFast(show, yaml, v, "\n");
    assert Tokens(v) + [] == Tokens(v);
    assert Styled(show, "", "", v)[0..] == Styled(show, "", "", v);
  }
}
