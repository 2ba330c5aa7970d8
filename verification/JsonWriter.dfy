/**
 The writers of json/json_writer.cpp, computing the texts of JsonText.dfy.
 */
module JsonWriter {
  import opened Sequences
  import opened CText
  import opened JsonValue
  import opened JsonLexer
  import opened JsonText

  ////////// Scalars //////////

  lemma {:induction false} DecimalFits(n: nat, digits: nat, limit: nat)
    requires 1 <= digits <= 10 && n < limit && limit == Pow10(digits)
    ensures |Decimal(n)| <= digits
    decreases digits
  {
    if n >= 10 {
      DecimalFits(n / 10, digits - 1, Pow10(digits - 1));
    }
  }

  function Pow10(n: nat): nat { if n == 0 then 1 else 10 * Pow10(n - 1) }

  lemma {:induction false} UIntFits(n: nat)
    requires n <= MAX_UINT
    ensures |Decimal(n)| <= 10
  {
    assert Pow10(5) == 100_000;
    assert Pow10(10) == 10_000_000_000 by { assert Pow10(8) == 100_000_000; }
    DecimalFits(n, 10, Pow10(10));
  }

  // uintToString: fills the buffer backwards from `current` and returns where the text starts.
  method UIntToString(n: nat, buffer: array<char>, current: nat) returns (start: nat)
    requires |Decimal(n)| < current <= buffer.Length
    modifies buffer
    ensures start < current && buffer[start..current - 1] == Decimal(n) && buffer[current - 1] == '\0'
    ensures start + |Decimal(n)| == current - 1
  {
    hide DigitChar;
    var value := n;
    start := current - 1;
    buffer[start] := '\0';
    ghost var text := "";
    start := start - 1;
    buffer[start] := DigitChar(value % 10);
    text := [DigitChar(value % 10)];
    value := value / 10;
    while value != 0
      invariant start + |text| == current - 1 && |text| <= |Decimal(n)|
      invariant buffer[current - 1] == '\0'
      invariant forall k | start <= k < current - 1 :: buffer[k] == text[k - start]
      invariant Decimal(n) == (if value == 0 then "" else Decimal(value)) + text
      decreases value
    {
      ghost var prefix, digit := if value < 10 then "" else Decimal(value / 10), [DigitChar(value % 10)];
      Assoc(prefix, digit, text);
      start := start - 1;
      buffer[start] := DigitChar(value % 10);
      text := digit + text;
      value := value / 10;
    }
    assert buffer[start..current - 1] == text;
  }

  // valueToString(Int) and valueToString(UInt): the text always fits the 32 byte buffer.
  method ValueToString(value: int) returns (text: string)
    requires MIN_INT <= value <= MAX_UINT
    ensures text == IntText(value)
  {
    var buffer := new char[32];
    var isNegative := value < 0;
    var magnitude: nat := if isNegative then -value else value;
    UIntFits(magnitude);
    var current := UIntToString(magnitude, buffer, buffer.Length);
    if isNegative {
      current := current - 1;
      buffer[current] := '-';
      assert buffer[current..31] == ['-'] + buffer[current + 1..31];
    }
    text := buffer[current..31];
  }

  predicate Special(c: char) {
    c == '"' || c == '\\' || c as int == 8 || c as int == 12 || c == '\n' || c == '\r' || c == '\t'
  }

  lemma {:induction false} EscapePlain(s: string)
    requires forall i | 0 <= i < |s| :: !Special(s[i]) && !Control(s[i])
    ensures EscapeAll(s) == s
  {
    if s != "" {
      EscapePlain(s[1..]);
      assert s == [s[0]] + s[1..];
    }
  }

  // valueToQuotedString, with its short cut for a text that needs no escape
  method ValueToQuotedString(value: string) returns (text: string)
    ensures text == Quoted(value)
  {
    hide CStr, Escape;
    var s := CStr(value);
    if forall i | 0 <= i < |s| :: !Special(s[i]) && !Control(s[i]) {
      EscapePlain(s);
      return "\"" + s + "\"";
    }
    text := "\"";
    for i := 0 to |s|
      invariant text + EscapeAll(s[i..]) == "\"" + EscapeAll(s)
    {
      assert s[i..][1..] == s[i + 1..];
      Assoc(text, Escape(s[i]), EscapeAll(s[i + 1..]));
      text := text + Escape(s[i]);
    }
    text := text + "\"";
  }

  method LeafToString(show: DoubleShow, v: Value) returns (text: string)
    requires v.Int? ==> MIN_INT <= v.i <= MAX_INT
    requires v.UInt? ==> 0 <= v.u <= MAX_UINT
    ensures text == LeafText(show, v)
  {
    match v
    case Null => text := "null";
    case Int(i) => text := ValueToString(i);
    case UInt(u) => text := ValueToString(u);
    case Real(d) => text := show(d);
    case Str(s) => text := ValueToQuotedString(s);
    case Bool(b) => text := if b then "true" else "false";
    case Array(_) => text := "[]";
    case Object(_) => text := "{}";
  }

  lemma {:induction false} WellFormedAt(v: Value, k: nat)
    requires WellFormed(v)
    ensures v.Array? && k < |v.slots| ==> WellFormed(v.slots[k].value) && v.slots[k].value < v
    ensures v.Object? && k < |v.members| ==> WellFormed(v.members[k].value) && v.members[k].value < v
  {
    if v.Array? && k < |v.slots| {
      assert v.slots[k] in v.slots && v.slots[k].value < v.slots[k];
      WellFormedSlotAt(v.slots, k);
    }
    if v.Object? && k < |v.members| {
      assert v.members[k] in v.members && v.members[k].value < v.members[k];
      WellFormedMemberAt(v.members, k);
    }
  }

  lemma {:induction false} WellFormedSlotAt(slots: seq<Slot>, k: nat)
    requires WellFormedSlots(slots) && k < |slots|
    ensures WellFormed(slots[k].value)
  {
    if k > 0 { WellFormedSlotAt(slots[1..], k - 1); }
  }

  lemma {:induction false} WellFormedMemberAt(members: seq<Member>, k: nat)
    requires WellFormedMembers(members) && k < |members|
    ensures WellFormed(members[k].value)
  {
    if k > 0 { WellFormedMemberAt(members[1..], k - 1); }
  }

  ////////// FastWriter //////////

  class FastWriter {
    const show: DoubleShow
    var document: string
    var yaml: bool

    constructor (show: DoubleShow)
      ensures this.show == show && !yaml
    {
      this.show := show;
      document, yaml := "", false;
    }

    method EnableYamlCompatibility()
      modifies this`yaml
      ensures yaml
    {
      yaml := true;
    }

    method Write(root: Value) returns (text: string)
      requires WellFormed(root)
      modifies this`document
      ensures text == document == FastDocument(show, yaml, root)
    {
      document := "";
      WriteValue(root);
      document := document + "\n";
      text := document;
    }

    method WriteValue(v: Value)
      requires WellFormed(v)
      modifies this`document
      ensures document == old(document) + FastText(show, yaml, v)
      decreases v, 1
    {
      match v
      case Array(_) => WriteArray(v);
      case Object(_) => WriteObject(v);
      case _ =>
        var text := LeafToString(show, v);
        document := document + text;
    }

    method WriteArray(v: Value)
      requires WellFormed(v) && v.Array?
      modifies this`document
      ensures document == old(document) + FastText(show, yaml, v)
      decreases v, 0
    {
      hide LeafText, FastSlots;
      var slots := v.slots;
      document := document + "[";
      ghost var start := document;
      for index := 0 to |slots|
        invariant document + FastSlots(show, yaml, slots[index..], index == 0)
                  == start + FastSlots(show, yaml, slots, true)
      {
        WellFormedAt(v, index);
        SplitSlots(show, yaml, slots, index, document);
        if index > 0 { document := document + ","; }
        WriteValue(slots[index].value);
      }
      FastEnd(show, yaml, document);
      document := document + "]";
      Regroup(old(document), "[", FastSlots(show, yaml, slots, true), "]");
    }

    method WriteObject(v: Value)
      requires WellFormed(v) && v.Object?
      modifies this`document
      ensures document == old(document) + FastText(show, yaml, v)
      decreases v, 0
    {
      hide LeafText, FastMembers;
      var members := v.members;
      document := document + "{";
      ghost var start := document;
      for index := 0 to |members|
        invariant document + FastMembers(show, yaml, members[index..], index == 0)
                  == start + FastMembers(show, yaml, members, true)
      {
        WellFormedAt(v, index);
        SplitMembers(show, yaml, members, index, document);
        if index > 0 { document := document + ","; }
        var name := ValueToQuotedString(members[index].name);
        document := document + name;
        document := document + (if yaml then ": " else ":");
        WriteValue(members[index].value);
      }
      FastEnd(show, yaml, document);
      document := document + "}";
      Regroup(old(document), "{", FastMembers(show, yaml, members, true), "}");
    }
  }

  lemma {:induction false} FastEnd(show: DoubleShow, yaml: bool, document: string)
    ensures forall first :: document + FastSlots(show, yaml, [], first) == document
    ensures forall first :: document + FastMembers(show, yaml, [], first) == document
  {}

  // What the text still to be written is when the loop reaches an index.
  lemma {:induction false} SplitSlots(show: DoubleShow, yaml: bool, slots: seq<Slot>, k: nat, document: string)
    requires k < |slots|
    ensures document + FastSlots(show, yaml, slots[k..], k == 0)
            == (if k > 0 then document + "," else document) + FastText(show, yaml, slots[k].value)
               + FastSlots(show, yaml, slots[k + 1..], false)
  {
    hide FastText;
    assert slots[k..][1..] == slots[k + 1..];
  }

  lemma {:induction false} SplitMembers(show: DoubleShow, yaml: bool, members: seq<Member>, k: nat, document: string)
    requires k < |members|
    ensures document + FastMembers(show, yaml, members[k..], k == 0)
            == (if k > 0 then document + "," else document) + Quoted(members[k].name)
               + (if yaml then ": " else ":") + FastText(show, yaml, members[k].value)
               + FastMembers(show, yaml, members[k + 1..], false)
  {
    hide FastText, Quoted;
    assert members[k..][1..] == members[k + 1..];
  }

  ////////// StyledWriter //////////

  class StyledWriter {
    const show: DoubleShow
    var document: string
    var childValues: seq<string>
    var indentString: string
    var addChildValues: bool

    constructor (show: DoubleShow)
      ensures this.show == show
    {
      this.show := show;
      document, childValues, indentString, addChildValues := "", [], "", false;
    }

    method Write(root: Value) returns (text: string)
      requires WellFormed(root)
      modifies this
      ensures text == document == StyledDocument(show, root)
      ensures indentString == "" && !addChildValues
    {
      document, addChildValues, indentString := "", false, "";
      WriteValue(root);
      document := document + "\n";
      text := document;
    }

    method PushValue(text: string)
      modifies this`document, this`childValues
      ensures if addChildValues then document == old(document) && childValues == old(childValues) + [text]
              else document == old(document) + text && childValues == old(childValues)
    {
      if addChildValues { childValues := childValues + [text]; } else { document := document + text; }
    }

    method WriteIndent()
      modifies this`document
      ensures document == Indented(old(document), indentString)
    {
      if document != "" {
        var last := document[|document| - 1];
        if last == ' ' { return; }
        if last != '\n' { document := document + "\n"; }
      }
      document := document + indentString;
    }

    method WriteWithIndent(text: string)
      modifies this`document
      ensures document == Indented(old(document), indentString) + text
    {
      WriteIndent();
      document := document + text;
    }

    method Indent()
      modifies this`indentString
      ensures indentString == old(indentString) + INDENT
    {
      indentString := indentString + INDENT;
    }

    method Unindent()
      requires |indentString| >= |INDENT|
      modifies this`indentString
      ensures indentString == old(indentString)[..|old(indentString)| - |INDENT|]
    {
      indentString := indentString[..|indentString| - |INDENT|];
    }

    /** Values go to the document, or to the list of child values while isMultineArray collects
        them; indentation is restored. */
    method WriteValue(v: Value)
      requires WellFormed(v)
      requires addChildValues ==> Leaf(v)
      modifies this`document, this`childValues, this`indentString, this`addChildValues
      ensures addChildValues == old(addChildValues) && indentString == old(indentString)
      ensures old(addChildValues) ==>
                document == old(document) && childValues == old(childValues) + [LeafText(show, v)]
      ensures !old(addChildValues) ==> document == Styled(show, old(document), indentString, v)
      decreases v, 3
    {
      if Leaf(v) {
        var text := LeafToString(show, v);
        PushValue(text);
      } else if v.Array? {
        WriteArrayValue(v);
      } else {
        WriteObjectValue(v);
      }
    }

    method WriteObjectValue(v: Value)
      requires WellFormed(v) && v.Object? && v.members != []
      requires !addChildValues
      modifies this`document, this`childValues, this`indentString, this`addChildValues
      ensures addChildValues == old(addChildValues) && indentString == old(indentString)
      ensures document == Styled(show, old(document), indentString, v)
      decreases v, 2
    {
      hide Indented, Quoted;
      var members := v.members;
      WriteWithIndent("{");
      Indent();
      ghost var start := document;
      var index := 0;
      while true
        invariant 0 <= index < |members| && !addChildValues
        invariant indentString == old(indentString) + INDENT
        invariant StyledMembers(show, document, indentString, members[index..])
                  == StyledMembers(show, start, indentString, members)
        decreases |members| - index
      {
        hide Styled;
        WellFormedAt(v, index);
        assert members[index..][1..] == members[index + 1..];
        var name := ValueToQuotedString(members[index].name);
        WriteWithIndent(name);
        document := document + " : ";
        WriteValue(members[index].value);
        index := index + 1;
        if index == |members| { break; }
        document := document + ",";
      }
      assert document == StyledMembers(show, start, indentString, members);
      Unindent();
      WriteWithIndent("}");
    }

    method WriteArrayValue(v: Value)
      requires WellFormed(v) && v.Array? && v.slots != []
      requires !addChildValues
      modifies this`document, this`childValues, this`indentString, this`addChildValues
      ensures addChildValues == old(addChildValues) && indentString == old(indentString)
      ensures document == Styled(show, old(document), indentString, v)
      decreases v, 2
    {
      hide SingleLine, TotalLength, LeafText;
      var isArrayMultiLine := IsMultiLineArray(v);
      if isArrayMultiLine {
        WriteLines(v);
      } else {
        assert |childValues| == |v.slots|;
        document := document + "[ ";
        WriteChildValues();
        document := document + " ]";
      }
    }

    // All the values on the line.
    method WriteChildValues()
      modifies this`document
      ensures document == old(document) + SingleLine(childValues, true)
    {
      for index := 0 to |childValues|
        invariant document + SingleLine(childValues[index..], index == 0)
                  == old(document) + SingleLine(childValues, true)
      {
        assert childValues[index..][1..] == childValues[index + 1..];
        ghost var tail := SingleLine(childValues[index + 1..], false);
        ghost var comma := if index > 0 then ", " else "";
        Regroup(document, comma, childValues[index], tail);
        if index > 0 { document := document + ", "; }
        document := document + childValues[index];
      }
    }

    // One value a line.
    method WriteLines(v: Value)
      requires WellFormed(v) && v.Array? && v.slots != []
      requires !addChildValues && MultiLine(show, v.slots)
      requires childValues == if Collected(v.slots) then LeafTexts(show, v.slots) else []
      modifies this`document, this`childValues, this`indentString, this`addChildValues
      ensures !addChildValues && indentString == old(indentString)
      ensures document == Styled(show, old(document), indentString, v)
      decreases v, 1
    {
      hide Indented, LeafText, MultiLine;
      var slots := v.slots;
      WriteWithIndent("[");
      Indent();
      var hasChildValue := childValues != [];
      assert hasChildValue == Collected(slots);
      ghost var start := document;
      var index := 0;
      while true
        invariant 0 <= index < |slots| && !addChildValues
        invariant indentString == old(indentString) + INDENT
        invariant hasChildValue ==> childValues == LeafTexts(show, slots)
        invariant StyledSlots(show, document, indentString, slots[index..], hasChildValue)
                  == StyledSlots(show, start, indentString, slots, hasChildValue)
        decreases |slots| - index
      {
        hide Styled;
        WellFormedAt(v, index);
        assert slots[index..][1..] == slots[index + 1..];
        if hasChildValue {
          WriteWithIndent(childValues[index]);
        } else {
          WriteIndent();
          WriteValue(slots[index].value);
        }
        index := index + 1;
        if index == |slots| { break; }
        document := document + ",";
      }
      assert document == StyledSlots(show, start, indentString, slots, hasChildValue);
      Unindent();
      WriteWithIndent("]");
    }

    // isMultineArray: also collects the texts of the children when they may fit one line.
    method IsMultiLineArray(v: Value) returns (isMultiLine: bool)
      requires WellFormed(v) && v.Array? && v.slots != []
      requires !addChildValues
      modifies this`document, this`childValues, this`indentString, this`addChildValues
      ensures isMultiLine == MultiLine(show, v.slots)
      ensures childValues == if Collected(v.slots) then LeafTexts(show, v.slots) else []
      ensures document == old(document) && indentString == old(indentString) && !addChildValues
      decreases v, 1
    {
      hide LeafText;
      var slots := v.slots;
      var size := |slots|;
      isMultiLine := size * 3 >= RIGHT_MARGIN;
      childValues := [];
      var index := 0;
      while index < size && !isMultiLine
        invariant index <= size
        invariant !isMultiLine ==> |slots| * 3 < RIGHT_MARGIN && forall k | 0 <= k < index :: Leaf(slots[k].value)
        invariant isMultiLine ==> !Collected(slots)
      {
        isMultiLine := !Leaf(slots[index].value);
        index := index + 1;
      }
      if !isMultiLine {
        assert Collected(slots);
        var lineLength := CollectChildValues(v);
        isMultiLine := lineLength >= RIGHT_MARGIN;
      }
    }

    // The second pass of isMultineArray: the texts of the children and the length of their line.
    method CollectChildValues(v: Value) returns (lineLength: int)
      requires WellFormed(v) && v.Array? && v.slots != [] && Collected(v.slots)
      requires !addChildValues && childValues == []
      modifies this`document, this`childValues, this`indentString, this`addChildValues
      ensures childValues == LeafTexts(show, v.slots)
      ensures lineLength == 4 + (|v.slots| - 1) * 2 + TotalLength(childValues)
      ensures document == old(document) && indentString == old(indentString) && !addChildValues
      decreases v, 0
    {
      hide LeafText;
      var slots, size := v.slots, |v.slots|;
      ghost var texts := LeafTexts(show, slots);
      addChildValues := true;
      lineLength := 4 + (size - 1) * 2;
      for i := 0 to size
        invariant addChildValues && document == old(document) && indentString == old(indentString)
        invariant childValues == texts[..i]
        invariant lineLength == 4 + (size - 1) * 2 + TotalLength(texts[..i])
      {
        WellFormedAt(v, i);
        WriteValue(slots[i].value);
        lineLength := lineLength + |childValues[i]|;
        TotalLengthNext(texts, i);
        hide TotalLength;
        assert texts[..i + 1] == texts[..i] + [texts[i]];
      }
      assert texts[..size] == texts;
      addChildValues := false;
    }
  }

  lemma {:induction false} TotalLengthNext(texts: seq<string>, i: nat)
    requires i < |texts|
    ensures TotalLength(texts[..i + 1]) == TotalLength(texts[..i]) + |texts[i]|
  {
    assert texts[..i + 1][..i] == texts[..i];
  }
}
