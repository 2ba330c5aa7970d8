/**
 What the writers' texts look like: FastWriter glues the tokens of a value together, StyledWriter sets every
 item on a line of its own, three blanks deeper than its bracket, and keeps short arrays on one line.
 */
module JsonForm {
  import opened Sequences
  import opened CText
  import opened JsonValue
  import opened JsonLexer
  import opened JsonText
  import opened JsonTokens
  import opened JsonUnicode

  ////////// Strings //////////

  // A character that has an escape of two characters; for the slash the writer does without.
  predicate HasLetter(c: char, k: nat) { k < 8 && k != 2 && c as int == MEANT[k] }

  /** The writer escapes what section 7 of RFC 8259 says must be escaped and nothing else: by a two-character
      escape where there is one, otherwise with `\u` and upper-case digits. */
  lemma {:induction false} EscapeForm(c: char)
    ensures forall k | 0 <= k < 8 && HasLetter(c, k) :: Escape(c) == ['\\', LETTERS[k]]
    ensures 0 < c as int < 0x20 && (forall k | 0 <= k < 8 :: !HasLetter(c, k)) ==>
              Escape(c) == "\\u00" + [UPPER[c as int / 0x10], UPPER[c as int % 0x10]]
    ensures (c as int == 0 || c as int >= 0x20) && c != '"' && c != '\\' ==> Escape(c) == [c]
  {
    hide Escape, HasLetter;
    forall k | 0 <= k < 8 && HasLetter(c, k) ensures Escape(c) == ['\\', LETTERS[k]] { EscapeLetter(c, k); }
    if 0 < c as int < 0x20 && forall k | 0 <= k < 8 :: !HasLetter(c, k) {
      assert !HasLetter(c, 3) && !HasLetter(c, 4) && !HasLetter(c, 5) && !HasLetter(c, 6) && !HasLetter(c, 7);
      EscapeControl(c);
    }
    EscapePlain(c);
  }

  lemma {:induction false} EscapeLetter(c: char, k: nat)
    requires HasLetter(c, k)
    ensures Escape(c) == ['\\', LETTERS[k]]
  {}

  lemma {:induction false} EscapeControl(c: char)
    requires 0 < c as int < 0x20 && !HasLetter(c, 3) && !HasLetter(c, 4) && !HasLetter(c, 5)
    requires !HasLetter(c, 6) && !HasLetter(c, 7)
    ensures Escape(c) == "\\u00" + [UPPER[c as int / 0x10], UPPER[c as int % 0x10]]
  {}

  lemma {:induction false} EscapePlain(c: char)
    ensures (c as int == 0 || c as int >= 0x20) && c != '"' && c != '\\' ==> Escape(c) == [c]
  {}

  ////////// FastWriter //////////

  // Tokens one after the other, with a blank after a colon for YAML.
  function Glue(ts: seq<Token>, yaml: bool): string {
    if ts == [] then ""
    else ts[0].text + (if yaml && ts[0].kind == MemberSeparator then " " else "") + Glue(ts[1..], yaml)
  }

  lemma {:induction false} GlueAppends(a: seq<Token>, b: seq<Token>, yaml: bool)
    ensures Glue(a + b, yaml) == Glue(a, yaml) + Glue(b, yaml)
  {
    if a == [] {
      assert a + b == b && "" + Glue(b, yaml) == Glue(b, yaml);
    } else {
      assert (a + b)[1..] == a[1..] + b;
      GlueAppends(a[1..], b, yaml);
      var x := a[0].text + (if yaml && a[0].kind == MemberSeparator then " " else "");
      Assoc(x, Glue(a[1..], yaml), Glue(b, yaml));
    }
  }

  lemma {:induction false} GlueOne(t: Token, yaml: bool)
    requires t.kind != MemberSeparator
    ensures Glue([t], yaml) == t.text
  {
    assert [t][1..] == [];
    assert t.text + "" + "" == t.text;
  }

  /** The fast text is the tokens of the value and nothing else, but for the blanks YAML asks for. */
  lemma {:induction false} FastIsTokens(show: DoubleShow, yaml: bool, v: Value)
    requires RealFree(v)
    ensures FastText(show, yaml, v) == Glue(Tokens(v), yaml)
    decreases v, 1
  {
    hide Glue;
    match v
    case Array(slots) =>
      hide FastSlots, SlotTokens;
      GlueOne(Token(ArrayBegin, "["), yaml);
      GlueOne(Token(ArrayEnd, "]"), yaml);
      GlueAppends([Token(ArrayBegin, "[")], SlotTokens(slots, true), yaml);
      GlueAppends([Token(ArrayBegin, "[")] + SlotTokens(slots, true), [Token(ArrayEnd, "]")], yaml);
      FastSlotsTokens(show, yaml, slots, true);
    case Object(members) =>
      hide FastMembers, MemberTokens;
      GlueOne(Token(ObjectBegin, "{"), yaml);
      GlueOne(Token(ObjectEnd, "}"), yaml);
      GlueAppends([Token(ObjectBegin, "{")], MemberTokens(members, true), yaml);
      GlueAppends([Token(ObjectBegin, "{")] + MemberTokens(members, true), [Token(ObjectEnd, "}")], yaml);
      FastMembersTokens(show, yaml, members, true);
    case Real(_) =>
    case _ => GlueOne(Tokens(v)[0], yaml);
  }

  lemma {:induction false} GlueComma(first: bool, yaml: bool)
    ensures Glue(if first then [] else [COMMA], yaml) == if first then "" else ","
  {
    if !first { GlueOne(COMMA, yaml); }
  }

  lemma {:induction false} FastSlotsTokens(show: DoubleShow, yaml: bool, slots: seq<Slot>, first: bool)
    requires RealFreeSlots(slots)
    ensures FastSlots(show, yaml, slots, first) == Glue(SlotTokens(slots, first), yaml)
    decreases slots, 0
  {
    if slots != [] {
      hide Glue, FastText, Tokens, RealFree;
      assert slots[0].value < slots[0];
      var head, t := if first then [] else [COMMA], Tokens(slots[0].value);
      GlueComma(first, yaml);
      GlueAppends(head, t, yaml);
      GlueAppends(head + t, SlotTokens(slots[1..], false), yaml);
      FastIsTokens(show, yaml, slots[0].value);
      FastSlotsTokens(show, yaml, slots[1..], false);
    }
  }

  lemma {:induction false} FastMembersTokens(show: DoubleShow, yaml: bool, members: seq<Member>, first: bool)
    requires RealFreeMembers(members)
    ensures FastMembers(show, yaml, members, first) == Glue(MemberTokens(members, first), yaml)
    decreases members, 0
  {
    if members != [] {
      hide Glue, FastMember, NamedTokens, RealFree;
      var head, t := if first then [] else [COMMA], NamedTokens(members[0]);
      GlueComma(first, yaml);
      GlueAppends(head, t, yaml);
      GlueAppends(head + t, MemberTokens(members[1..], false), yaml);
      FastIsTokens(show, yaml, members[0].value);
      FastMemberTokens(show, yaml, members[0]);
      FastMembersTokens(show, yaml, members[1..], false);
    }
  }

  lemma {:induction false} FastMemberTokens(show: DoubleShow, yaml: bool, m: Member)
    requires FastText(show, yaml, m.value) == Glue(Tokens(m.value), yaml)
    ensures FastMember(show, yaml, m) == Glue(NamedTokens(m), yaml)
  {
    hide FastText, Tokens, Quoted;
    var name := Token(String, Quoted(m.name));
    GlueAppends([name, COLON], Tokens(m.value), yaml);
    GlueOne(name, yaml);
    assert [name, COLON][1..] == [COLON] && [COLON][1..] == [];
  }

  ////////// StyledWriter //////////

  // Three blanks for every bracket that is open.
  function Blanks(depth: nat): (r: string)
    ensures |r| == 3 * depth && forall i | 0 <= i < |r| :: r[i] == ' '
  {
    seq(3 * depth, _ => ' ')
  }

  function Joined(texts: seq<string>): string
    requires texts != []
  {
    if |texts| == 1 then texts[0] else texts[0] + ", " + Joined(texts[1..])
  }

  function Line(texts: seq<string>): string
    requires texts != []
  {
    "[ " + Joined(texts) + " ]"
  }

  predicate Leaves(slots: seq<Slot>) { forall k | 0 <= k < |slots| :: Leaf(slots[k].value) }

  // An array of leaves that stays under the right margin.
  predicate OneLine(show: DoubleShow, slots: seq<Slot>) {
    slots != [] && Leaves(slots) && |Line(LeafTexts(show, slots))| < 74
  }

  /** A value set at a depth: its first line goes on where it stands, every other line is indented. */
  function Block(show: DoubleShow, v: Value, depth: nat): string
    decreases v
  {
    if Leaf(v) then LeafText(show, v)
    else match v
      case Array(slots) =>
        if OneLine(show, slots) then Line(LeafTexts(show, slots))
        else "[" + BlockSlots(show, slots, depth + 1, true) + "\n" + Blanks(depth) + "]"
      case Object(members) => "{" + BlockMembers(show, members, depth + 1, true) + "\n" + Blanks(depth) + "}"
      case _ => ""
  }

  function BlockSlots(show: DoubleShow, slots: seq<Slot>, depth: nat, first: bool): string
    decreases slots
  {
    if slots == [] then ""
    else
      assert slots[0].value < slots[0];
      (if first then "" else ",") + "\n" + Blanks(depth) + Block(show, slots[0].value, depth)
      + BlockSlots(show, slots[1..], depth, false)
  }

  function BlockMembers(show: DoubleShow, members: seq<Member>, depth: nat, first: bool): string
    decreases members
  {
    if members == [] then ""
    else
      (if first then "" else ",") + "\n" + Blanks(depth) + Quoted(members[0].name) + " : "
      + Block(show, members[0].value, depth) + BlockMembers(show, members[1..], depth, false)
  }

  ////////// Lines //////////

  // A text that does not end in white space, so that what follows starts a new line.
  predicate Closed(s: string) { s != "" && s[|s| - 1] != ' ' && s[|s| - 1] != '\n' }

  lemma {:induction false} LeafClosed(show: DoubleShow, v: Value)
    requires Leaf(v) && RealFree(v) && WellFormed(v)
    ensures Closed(LeafText(show, v))
  {
    match v
    case Int(i) => assert Digit(IntText(i)[|IntText(i)| - 1]);
    case UInt(u) => assert Digit(Decimal(u)[|Decimal(u)| - 1]);
    case _ =>
  }

  lemma {:induction false} BlockClosed(show: DoubleShow, v: Value, depth: nat)
    requires RealFree(v) && WellFormed(v)
    ensures Closed(Block(show, v, depth))
  {
    hide BlockSlots, BlockMembers, Joined;
    if Leaf(v) { LeafClosed(show, v); }
  }

  lemma {:induction false} JoinedIs(texts: seq<string>)
    requires texts != []
    ensures SingleLine(texts, true) == Joined(texts)
    ensures SingleLine(texts, false) == ", " + Joined(texts)
    ensures |Joined(texts)| == 2 * (|texts| - 1) + TotalLength(texts)
  {
    TotalFirst(texts);
    assert "" + texts[0] == texts[0];
    if |texts| == 1 {
      assert texts[1..] == [] && texts[0] + "" == texts[0];
    } else {
      JoinedIs(texts[1..]);
      assert ", " + texts[0] + (", " + Joined(texts[1..])) == ", " + (texts[0] + ", " + Joined(texts[1..]));
    }
  }

  lemma {:induction false} TotalFirst(texts: seq<string>)
    requires texts != []
    ensures TotalLength(texts) == |texts[0]| + TotalLength(texts[1..])
  {
    var n := |texts| - 1;
    if n > 0 {
      TotalFirst(texts[..n]);
      assert texts[..n][1..] == texts[1..][..n - 1];
    }
  }

  lemma {:induction false} TotalAtLeast(texts: seq<string>)
    requires forall k | 0 <= k < |texts| :: texts[k] != ""
    ensures TotalLength(texts) >= |texts|
  {
    if texts != [] { TotalAtLeast(texts[..|texts| - 1]); }
  }

  lemma {:induction false} SoundAt(slots: seq<Slot>, k: nat)
    requires RealFreeSlots(slots) && WellFormedSlots(slots) && k < |slots|
    ensures RealFree(slots[k].value) && WellFormed(slots[k].value)
  {
    hide RealFree, WellFormed;
    if k > 0 { SoundAt(slots[1..], k - 1); }
  }

  /** isMultineArray: an array is set on one line if and only if its items are leaves and the line stays under
      the margin; its other test, on the number of items, follows from that. */
  lemma {:induction false} OneLineIff(show: DoubleShow, slots: seq<Slot>)
    requires slots != [] && RealFreeSlots(slots) && WellFormedSlots(slots)
    ensures MultiLine(show, slots) <==> !OneLine(show, slots)
    ensures OneLine(show, slots) ==>
              "[ " + SingleLine(LeafTexts(show, slots), true) + " ]" == Line(LeafTexts(show, slots))
  {
    hide LeafText, SingleLine, TotalLength, Joined, Leaf;
    var texts := LeafTexts(show, slots);
    JoinedIs(texts);
    if Leaves(slots) {
      forall k | 0 <= k < |texts| ensures texts[k] != "" {
        SoundAt(slots, k);
        LeafClosed(show, slots[k].value);
      }
      TotalAtLeast(texts);
    }
  }

  // A document whose last line is open for a value: nothing yet, or blanks.
  predicate Open(document: string, depth: nat) {
    if document == "" then depth == 0 else document[|document| - 1] == ' '
  }

  lemma {:induction false} DeeperBlanks(depth: nat)
    ensures Blanks(depth) + INDENT == Blanks(depth + 1)
  {}

  lemma {:induction false} StartsLine(document: string, depth: nat)
    requires Closed(document)
    ensures Indented(document, Blanks(depth)) == document + "\n" + Blanks(depth)
    ensures depth > 0 ==> Open(document + "\n" + Blanks(depth), depth)
  {}

  lemma {:induction false} StaysOnLine(document: string, depth: nat)
    requires Open(document, depth)
    ensures Indented(document, Blanks(depth)) == document
  {}

  /** StyledWriter sets a value as a block, wherever it stands. */
  lemma {:induction false} StyledIsBlock(show: DoubleShow, document: string, v: Value, depth: nat)
    requires RealFree(v) && WellFormed(v) && Open(document, depth)
    ensures Styled(show, document, Blanks(depth), v) == document + Block(show, v, depth)
    decreases v, 1
  {
    hide StyledSlots, StyledMembers, BlockSlots, BlockMembers, Indented, Blanks, OneLine, MultiLine, LeafTexts,
         SingleLine, Joined;
    StaysOnLine(document, depth);
    DeeperBlanks(depth);
    match v
    case Array(slots) =>
      if slots != [] {
        OneLineIff(show, slots);
        if OneLine(show, slots) {
          var line := SingleLine(LeafTexts(show, slots), true);
          assert document + "[ " + line + " ]" == document + ("[ " + line + " ]");
        } else {
          var body := BlockSlots(show, slots, depth + 1, true);
          SlotsAreBlocks(show, document + "[", slots, depth + 1, Collected(slots));
          SlotsClosed(show, slots, depth + 1, true);
          Closes(document, "[", body, depth, "]");
        }
      }
    case Object(members) =>
      if members != [] {
        var body := BlockMembers(show, members, depth + 1, true);
        MembersAreBlocks(show, document + "{", members, depth + 1);
        MembersClosed(show, members, depth + 1, true);
        Closes(document, "{", body, depth, "}");
      }
    case _ =>
  }

  lemma {:induction false} Closes(document: string, open: string, body: string, depth: nat, close: string)
    requires Closed(body)
    ensures Indented(document + open + body, Blanks(depth)) + close
            == document + (open + body + "\n" + Blanks(depth) + close)
  {
    hide Blanks, Indented;
    assert Closed(document + open + body);
    StartsLine(document + open + body, depth);
  }

  lemma {:induction false} SlotsClosed(show: DoubleShow, slots: seq<Slot>, depth: nat, first: bool)
    requires slots != [] && RealFreeSlots(slots) && WellFormedSlots(slots)
    ensures Closed(BlockSlots(show, slots, depth, first))
  {
    hide Block, RealFree, WellFormed, Blanks;
    assert slots[0].value < slots[0];
    BlockClosed(show, slots[0].value, depth);
    if |slots| > 1 { SlotsClosed(show, slots[1..], depth, false); }
  }

  lemma {:induction false} MembersClosed(show: DoubleShow, members: seq<Member>, depth: nat, first: bool)
    requires members != [] && RealFreeMembers(members) && WellFormedMembers(members)
    ensures Closed(BlockMembers(show, members, depth, first))
  {
    hide Block, RealFree, WellFormed, Blanks, Quoted;
    BlockClosed(show, members[0].value, depth);
    if |members| > 1 { MembersClosed(show, members[1..], depth, false); }
  }

  lemma {:induction false} LeafIsBlock(show: DoubleShow, v: Value, depth: nat)
    requires Leaf(v)
    ensures Block(show, v, depth) == LeafText(show, v)
  {}

  lemma {:induction false} SlotsComma(show: DoubleShow, slots: seq<Slot>, depth: nat)
    requires slots != []
    ensures BlockSlots(show, slots, depth, false) == "," + BlockSlots(show, slots, depth, true)
  {
    hide Block, Blanks;
    assert slots[0].value < slots[0];
    var y, z := Block(show, slots[0].value, depth), BlockSlots(show, slots[1..], depth, false);
    assert "," + "\n" + Blanks(depth) + y + z == "," + ("" + "\n" + Blanks(depth) + y + z);
  }

  lemma {:induction false} SlotsAreBlocks(show: DoubleShow, document: string, slots: seq<Slot>, depth: nat,
                                          collected: bool)
    requires slots != [] && RealFreeSlots(slots) && WellFormedSlots(slots) && depth > 0
    requires Closed(document) && (collected ==> Leaves(slots))
    ensures StyledSlots(show, document, Blanks(depth), slots, collected)
            == document + BlockSlots(show, slots, depth, true)
    decreases slots, 0
  {
    hide Styled, Block, Blanks, Indented, RealFree, WellFormed, LeafText, Leaf, Closed;
    assert slots[0].value < slots[0];
    var v := slots[0].value;
    StartsLine(document, depth);
    if collected {
      LeafIsBlock(show, v, depth);
    } else {
      StyledIsBlock(show, document + "\n" + Blanks(depth), v, depth);
    }
    var block := Block(show, v, depth);
    var d := document + "\n" + Blanks(depth) + block;
    if |slots| == 1 {
      NoBlocks(show, slots[1..], [], depth);
      assert d == document + ("" + "\n" + Blanks(depth) + block + "");
    } else {
      CommaCloses(d);
      assert collected ==> Leaves(slots[1..]);
      SlotsAreBlocks(show, d + ",", slots[1..], depth, collected);
      SlotsComma(show, slots[1..], depth);
      LineUp(document, Blanks(depth), block, BlockSlots(show, slots[1..], depth, true));
    }
  }

  lemma {:induction false} NoBlocks(show: DoubleShow, slots: seq<Slot>, members: seq<Member>, depth: nat)
    ensures slots == [] ==> BlockSlots(show, slots, depth, false) == ""
    ensures members == [] ==> BlockMembers(show, members, depth, false) == ""
  {}

  lemma {:induction false} CommaCloses(d: string)
    ensures Closed(d + ",")
  {}

  lemma {:induction false} LineUp(document: string, blanks: string, block: string, rest: string)
    ensures document + "\n" + blanks + block + "," + rest == document + ("" + "\n" + blanks + block + ("," + rest))
  {}

  lemma {:induction false} MembersComma(show: DoubleShow, members: seq<Member>, depth: nat)
    requires members != []
    ensures BlockMembers(show, members, depth, false) == "," + BlockMembers(show, members, depth, true)
  {
    hide Block, Blanks, Quoted;
    var q, y := Quoted(members[0].name), Block(show, members[0].value, depth);
    var z := BlockMembers(show, members[1..], depth, false);
    assert "," + "\n" + Blanks(depth) + q + " : " + y + z == "," + ("" + "\n" + Blanks(depth) + q + " : " + y + z);
  }

  lemma {:induction false} MembersAreBlocks(show: DoubleShow, document: string, members: seq<Member>, depth: nat)
    requires members != [] && RealFreeMembers(members) && WellFormedMembers(members) && depth > 0 && Closed(document)
    ensures StyledMembers(show, document, Blanks(depth), members)
            == document + BlockMembers(show, members, depth, true)
    decreases members, 0
  {
    hide Styled, Block, Blanks, Indented, RealFree, WellFormed, Quoted, Closed;
    var m := members[0];
    StartsLine(document, depth);
    var start := document + "\n" + Blanks(depth) + Quoted(m.name) + " : ";
    assert Open(start, depth) by { assert start[|start| - 1] == ' '; }
    StyledIsBlock(show, start, m.value, depth);
    var block := Block(show, m.value, depth);
    if |members| == 1 {
      NoBlocks(show, [], members[1..], depth);
      assert start + block == document + ("" + "\n" + Blanks(depth) + Quoted(m.name) + " : " + block + "");
    } else {
      CommaCloses(start + block);
      MembersAreBlocks(show, start + block + ",", members[1..], depth);
      MembersComma(show, members[1..], depth);
      NamedLineUp(document, Blanks(depth), Quoted(m.name), block, BlockMembers(show, members[1..], depth, true));
    }
  }

  lemma {:induction false} NamedLineUp(document: string, blanks: string, name: string, block: string, rest: string)
    ensures document + "\n" + blanks + name + " : " + block + "," + rest
            == document + ("" + "\n" + blanks + name + " : " + block + ("," + rest))
  {}

  /** The styled document is the root set as a block at depth zero, and a line end. */
  lemma {:induction false} StyledDocumentIs(show: DoubleShow, v: Value)
    requires RealFree(v) && WellFormed(v)
    ensures StyledDocument(show, v) == Block(show, v, 0) + "\n"
  {
    hide Styled, Block;
    assert Blanks(0) == "";
    StyledIsBlock(show, "", v, 0);
    assert "" + Block(show, v, 0) == Block(show, v, 0);
  }
}
