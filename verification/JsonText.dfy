/**
 What the writers of json/json_writer.cpp write, as functions of the value.  The writer classes of
 JsonWriter.dfy compute these texts.
 */
module JsonText {
  import opened CText
  import opened JsonValue
  import opened JsonLexer

  // What sprintf("%#.16g") makes of a double; it is not part of this model.
  type DoubleShow = real -> string

  function DigitChar(d: nat): char
    requires d < 16
  {
    if d < 10 then (d + '0' as int) as char else (d - 10 + 'A' as int) as char
  }

  // uintToString
  function Decimal(n: nat): (r: string)
    ensures r != "" && forall i | 0 <= i < |r| :: Digit(r[i])
  {
    (if n < 10 then "" else Decimal(n / 10)) + [DigitChar(n % 10)]
  }

  // valueToString(Int)
  function IntText(i: int): string { if i < 0 then "-" + Decimal(-i) else Decimal(i) }

  predicate Control(c: char) { 0 < c as int <= 0x1F }

  function Escape(c: char): string {
    if c == '"' then "\\\""
    else if c == '\\' then "\\\\"
    else if c as int == 8 then "\\b"
    else if c as int == 12 then "\\f"
    else if c == '\n' then "\\n"
    else if c == '\r' then "\\r"
    else if c == '\t' then "\\t"
    else if Control(c) then "\\u00" + [DigitChar(c as int / 16), DigitChar(c as int % 16)]
    else [c]
  }

  function EscapeAll(s: string): string {
    if s == "" then "" else Escape(s[0]) + EscapeAll(s[1..])
  }

  // valueToQuotedString
  function Quoted(s: string): string { "\"" + EscapeAll(CStr(s)) + "\"" }

  // The text of a value that is not a filled container.
  function LeafText(show: DoubleShow, v: Value): string {
    match v
    case Null => "null"
    case Int(i) => IntText(i)
    case UInt(u) => if u < 0 then "" else Decimal(u)
    case Real(d) => show(d)
    case Str(s) => Quoted(s)
    case Bool(b) => if b then "true" else "false"
    case Array(_) => "[]"
    case Object(_) => "{}"
  }

  predicate Leaf(v: Value) {
    match v
    case Array(slots) => slots == []
    case Object(members) => members == []
    case _ => true
  }

  ////////// FastWriter //////////

  function FastText(show: DoubleShow, yaml: bool, v: Value): string
    decreases v
  {
    match v
    case Array(slots) => "[" + FastSlots(show, yaml, slots, true) + "]"
    case Object(members) => "{" + FastMembers(show, yaml, members, true) + "}"
    case _ => LeafText(show, v)
  }

  function FastSlots(show: DoubleShow, yaml: bool, slots: seq<Slot>, first: bool): string
    decreases slots
  {
    if slots == [] then ""
    else
      assert slots[0].value < slots[0];
      (if first then "" else ",") + FastText(show, yaml, slots[0].value)
      + FastSlots(show, yaml, slots[1..], false)
  }

  function FastMembers(show: DoubleShow, yaml: bool, members: seq<Member>, first: bool): string
    decreases members
  {
    if members == [] then ""
    else
      (if first then "" else ",") + FastMember(show, yaml, members[0])
      + FastMembers(show, yaml, members[1..], false)
  }

  function FastMember(show: DoubleShow, yaml: bool, m: Member): string
    decreases m
  {
    Quoted(m.name) + (if yaml then ": " else ":") + FastText(show, yaml, m.value)
  }

  // FastWriter::write
  function FastDocument(show: DoubleShow, yaml: bool, v: Value): string {
    FastText(show, yaml, v) + "\n"
  }

  ////////// StyledWriter //////////

  const RIGHT_MARGIN := 74
  const INDENT := "   "

  // writeIndent
  function Indented(document: string, indent: string): string {
    if document == "" then indent
    else if document[|document| - 1] == ' ' then document
    else if document[|document| - 1] == '\n' then document + indent
    else document + "\n" + indent
  }

  // The child values fit the second pass of isMultineArray: it collects the text of each.
  predicate Collected(slots: seq<Slot>) {
    |slots| * 3 < RIGHT_MARGIN && forall k | 0 <= k < |slots| :: Leaf(slots[k].value)
  }

  function LeafTexts(show: DoubleShow, slots: seq<Slot>): (r: seq<string>)
    ensures |r| == |slots|
  {
    seq(|slots|, k requires 0 <= k < |slots| => LeafText(show, slots[k].value))
  }

  function TotalLength(texts: seq<string>): nat {
    if texts == [] then 0 else TotalLength(texts[..|texts| - 1]) + |texts[|texts| - 1]|
  }

  // isMultineArray
  predicate MultiLine(show: DoubleShow, slots: seq<Slot>) {
    !Collected(slots) || 4 + (|slots| - 1) * 2 + TotalLength(LeafTexts(show, slots)) >= RIGHT_MARGIN
  }

  function SingleLine(texts: seq<string>, first: bool): string {
    if texts == [] then ""
    else (if first then "" else ", ") + texts[0] + SingleLine(texts[1..], false)
  }

  /** The document after writeValue, when values go to the document. */
  function Styled(show: DoubleShow, document: string, indent: string, v: Value): string
    decreases v
  {
    match v
    case Array(slots) =>
      if slots == [] then document + "[]"
      else if !MultiLine(show, slots) then
        document + "[ " + SingleLine(LeafTexts(show, slots), true) + " ]"
      else
        var body := StyledSlots(show, Indented(document, indent) + "[", indent + INDENT, slots,
                                Collected(slots));
        Indented(body, indent) + "]"
    case Object(members) =>
      if members == [] then document + "{}"
      else
        var body := StyledMembers(show, Indented(document, indent) + "{", indent + INDENT, members);
        Indented(body, indent) + "}"
    case _ => document + LeafText(show, v)
  }

  // The loop of writeArrayValue over several lines.
  function StyledSlots(show: DoubleShow, document: string, indent: string, slots: seq<Slot>,
                       collected: bool): string
    requires slots != []
    decreases slots
  {
    assert slots[0].value < slots[0];
    var d := if collected then Indented(document, indent) + LeafText(show, slots[0].value)
             else Styled(show, Indented(document, indent), indent, slots[0].value);
    if |slots| == 1 then d else StyledSlots(show, d + ",", indent, slots[1..], collected)
  }

  function StyledMembers(show: DoubleShow, document: string, indent: string,
                         members: seq<Member>): string
    requires members != []
    decreases members
  {
    var d := Indented(document, indent) + Quoted(members[0].name) + " : ";
    var d := Styled(show, d, indent, members[0].value);
    if |members| == 1 then d else StyledMembers(show, d + ",", indent, members[1..])
  }

  // StyledWriter::write
  function StyledDocument(show: DoubleShow, v: Value): string {
    Styled(show, "", "", v) + "\n"
  }
}
