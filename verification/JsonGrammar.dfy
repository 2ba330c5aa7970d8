/**
 The texts RFC 8259 calls JSON, in all their spellings (white space, escapes, forms of a number, members in any
 order and more than once), and what the reader of json/json_reader.cpp makes of each.
 */
module JsonGrammar {
  import opened Wrappers
  import opened Sequences
  import opened CText
  import opened JsonValue
  import opened JsonLexer
  import opened JsonParser
  import opened JsonText
  import opened JsonTokens
  import opened JsonUnicode
  import opened JsonRoundTrip

  ////////// The grammar //////////

  // Section 2: space, horizontal tab, line feed and carriage return.
  predicate White(s: string) { forall i | 0 <= i < |s| :: s[i] as int in {0x20, 0x09, 0x0A, 0x0D} }

  predicate Digits(s: string) { s != "" && forall i | 0 <= i < |s| :: 0x30 <= s[i] as int <= 0x39 }

  // Section 6: a sign, an integer without leading zeros, a fraction and an exponent.
  datatype Numeral = Numeral(negative: bool, whole: nat, fraction: Option<string>, exponent: Option<Exponent>)

  datatype Exponent = Exponent(mark: char, sign: string, digits: string)

  datatype Json =
    | Literal(kind: Kind)
    | NumberOf(n: Numeral)
    | StringOf(ps: seq<Piece>)
    | ArrayOf(gap: string, items: seq<Item>)
    | ObjectOf(gap: string, fields: seq<Field>)

  datatype Item = Item(before: string, value: Json, after: string)

  datatype Field =
    Field(before: string, name: seq<Piece>, afterName: string, beforeValue: string, value: Json, after: string)

  predicate GoodNumeral(n: Numeral) {
    && (n.fraction.Some? ==> Digits(n.fraction.value))
    && (n.exponent.Some? ==> var e := n.exponent.value;
          e.mark in {'e', 'E'} && e.sign in {"", "+", "-"} && Digits(e.digits))
  }

  predicate Good(j: Json)
    decreases j
  {
    match j
    case Literal(kind) => kind in {True, False, NullWord}
    case NumberOf(n) => GoodNumeral(n)
    case StringOf(ps) => AllValid(ps)
    case ArrayOf(gap, items) => White(gap) && GoodItems(items)
    case ObjectOf(gap, fields) => White(gap) && GoodFields(fields)
  }

  predicate GoodItems(items: seq<Item>)
    decreases items
  {
    items != [] ==>
      var i := items[0];
      assert i.value < i;
      White(i.before) && Good(i.value) && White(i.after) && GoodItems(items[1..])
  }

  predicate GoodFields(fields: seq<Field>)
    decreases fields
  {
    fields != [] ==>
      var f := fields[0];
      assert f.value < f;
      && White(f.before) && AllValid(f.name) && White(f.afterName) && White(f.beforeValue)
      && Good(f.value) && White(f.after) && GoodFields(fields[1..])
  }

  ////////// Its texts //////////

  function LiteralText(kind: Kind): string {
    if kind == True then "true" else if kind == False then "false" else "null"
  }

  function ExponentText(e: Exponent): string { [e.mark] + e.sign + e.digits }

  function Tail(n: Numeral): string {
    (if n.fraction.Some? then "." + n.fraction.value else "")
    + (if n.exponent.Some? then ExponentText(n.exponent.value) else "")
  }

  function NumeralText(n: Numeral): string { (if n.negative then "-" else "") + Decimal(n.whole) + Tail(n) }

  function Print(j: Json): string
    requires Good(j)
    decreases j
  {
    match j
    case Literal(kind) => LiteralText(kind)
    case NumberOf(n) => NumeralText(n)
    case StringOf(ps) => StringText(ps)
    case ArrayOf(gap, items) => "[" + (if items == [] then gap else ItemsText(items, true)) + "]"
    case ObjectOf(gap, fields) => "{" + (if fields == [] then gap else FieldsText(fields, true)) + "}"
  }

  function ItemsText(items: seq<Item>, first: bool): string
    requires GoodItems(items)
    decreases items
  {
    if items == [] then ""
    else
      var i := items[0];
      assert i.value < i;
      (if first then "" else ",") + (i.before + (Print(i.value) + (i.after + ItemsText(items[1..], false))))
  }

  function FieldsText(fields: seq<Field>, first: bool): string
    requires GoodFields(fields)
    decreases fields
  {
    if fields == [] then ""
    else
      var f := fields[0];
      assert f.value < f;
      (if first then "" else ",")
      + (f.before + (StringText(f.name) + (f.afterName + (":"
         + (f.beforeValue + (Print(f.value) + (f.after + FieldsText(fields[1..], false))))))))
  }

  ////////// What they mean //////////

  // Integers the reader keeps, and everything else as sscanf reads it.
  function NumeralValue(scan: DoubleScan, n: Numeral): Option<Value> {
    if n.fraction.None? && n.exponent.None? && n.whole < (if n.negative then 2147483640 else 4294967290) then
      Some(if n.negative then Int(-(n.whole as int)) else if n.whole <= MAX_INT then Int(n.whole) else UInt(n.whole))
    else
      match scan(NumeralText(n)) case None => None case Some(d) => Some(Real(d))
  }

  // Nothing, if a number is one sscanf refuses.  A name ends at its first NUL; of equal names the last counts.
  function Denotes(scan: DoubleScan, j: Json): Option<Value>
    requires Good(j)
    decreases j
  {
    match j
    case Literal(kind) => Some(if kind == True then Bool(true) else if kind == False then Bool(false) else Null)
    case NumberOf(n) => NumeralValue(scan, n)
    case StringOf(ps) => Some(Str(Meanings(ps)))
    case ArrayOf(_, items) => (
      match DenoteItems(scan, items) case None => None case Some(slots) => Some(Array(slots)))
    case ObjectOf(_, fields) => (
      match DenoteFields(scan, fields, []) case None => None case Some(members) => Some(Object(members)))
  }

  function DenoteItems(scan: DoubleScan, items: seq<Item>): Option<seq<Slot>>
    requires GoodItems(items)
    decreases items
  {
    if items == [] then Some([])
    else
      assert items[0].value < items[0];
      match Denotes(scan, items[0].value)
      case None => None
      case Some(v) => match DenoteItems(scan, items[1..])
        case None => None
        case Some(slots) => Some([Slot(true, v)] + slots)
  }

  function DenoteFields(scan: DoubleScan, fields: seq<Field>, done: seq<Member>): Option<seq<Member>>
    requires GoodFields(fields)
    decreases fields
  {
    if fields == [] then Some(done)
    else
      assert fields[0].value < fields[0];
      match Denotes(scan, fields[0].value)
      case None => None
      case Some(v) => DenoteFields(scan, fields[1..], PutMember(done, CStr(Meanings(fields[0].name)), v))
  }

  ////////// Their tokens //////////

  function Lexes(j: Json): (r: seq<Token>)
    requires Good(j)
    ensures r != [] && r[0].kind !in {Comment, ArrayEnd, ObjectEnd}
    decreases j
  {
    match j
    case Literal(kind) => [Token(kind, LiteralText(kind))]
    case NumberOf(n) => [Token(Number, NumeralText(n))]
    case StringOf(ps) => [Token(String, StringText(ps))]
    case ArrayOf(_, items) => [Token(ArrayBegin, "[")] + (ItemTokens(items, true) + [Token(ArrayEnd, "]")])
    case ObjectOf(_, fields) => [Token(ObjectBegin, "{")] + (FieldTokens(fields, true) + [Token(ObjectEnd, "}")])
  }

  function ItemTokens(items: seq<Item>, first: bool): seq<Token>
    requires GoodItems(items)
    decreases items
  {
    if items == [] then []
    else
      assert items[0].value < items[0];
      (if first then [] else [COMMA]) + (Lexes(items[0].value) + ItemTokens(items[1..], false))
  }

  function FieldTokens(fields: seq<Field>, first: bool): seq<Token>
    requires GoodFields(fields)
    decreases fields
  {
    if fields == [] then []
    else
      var f := fields[0];
      assert f.value < f;
      (if first then [] else [COMMA])
      + ([Token(String, StringText(f.name)), COLON] + (Lexes(f.value) + FieldTokens(fields[1..], false)))
  }

  ////////// Lexing //////////

  lemma {:induction false} LexWhite(blank: string, rest: string)
    requires White(blank)
    ensures Lex(blank + rest) == Lex(rest) && (Delimited(rest) ==> Delimited(blank + rest))
  {
    hide Lex;
    assert Blank(blank);
    LexBlank(blank, rest);
    if blank == "" { assert blank + rest == rest; }
  }

  lemma {:induction false} TailChars(n: Numeral)
    requires GoodNumeral(n)
    ensures forall i | 0 <= i < |Tail(n)| :: NumberChar(Tail(n)[i])
  {}

  lemma {:induction false} LexNumeral(n: Numeral, rest: string)
    requires GoodNumeral(n) && Delimited(rest)
    ensures Lex(NumeralText(n) + rest) == [Token(Number, NumeralText(n))] + Lex(rest)
  {
    hide Lex, ScanNumber, ScanString, ScanComment, ScanWord, Decimal, Tail;
    var text := NumeralText(n);
    TailChars(n);
    assert forall i | 1 <= i < |text| :: NumberChar(text[i]);
    ScanNumberAll(text[1..], rest);
    assert (text + rest)[1..] == text[1..] + rest;
    LexOne(text, rest, Number);
  }

  // A piece of a string holds no quote that would end it.
  lemma {:induction false} ScanPiece(p: Piece, rest: string)
    requires Valid(p)
    ensures ScanString(Spelling(p) + rest) == Shift(|Spelling(p)|, ScanString(rest))
  {
    match p
    case Plain(c) => assert ([c] + rest)[1..] == rest;
    case Short(k) => assert (['\\', LETTERS[k]] + rest)[2..] == rest;
    case Unicode(cp, text) =>
      ScanEscape(text, cp, rest);
  }

  lemma {:induction false} HexPlain(h: string, n: int)
    requires SpellsHex(h, n)
    ensures '\\' !in h && '"' !in h
  {
    DigitSpelled(h[0], n / 0x1000);
    DigitSpelled(h[1], n / 0x100 % 0x10);
    DigitSpelled(h[2], n / 0x10 % 0x10);
    DigitSpelled(h[3], n % 0x10);
  }

  lemma {:induction false} ScanEscape(text: string, cp: nat, rest: string)
    requires Escapes(text, cp)
    ensures ScanString(text + rest) == Shift(|text|, ScanString(rest))
  {
    hide SpellsHex, ScanString;
    if cp < 0x10000 {
      ScanMark(text, rest);
      HexPlain(text[2..], cp);
      ScanPlain(text[2..], rest);
    } else {
      HexPlain(text[2..6], 0xD800 + (cp - 0x10000) / 0x400);
      HexPlain(text[8..], 0xDC00 + (cp - 0x10000) % 0x400);
      ScanMark(text, rest);
      assert text[2..] + rest == text[2..6] + (text[6..] + rest);
      ScanPlain(text[2..6], text[6..] + rest);
      assert text[6..][..2] == text[6..8];
      ScanMark(text[6..], rest);
      assert text[6..][2..] == text[8..];
      ScanPlain(text[8..], rest);
    }
  }

  lemma {:induction false} ScanMark(text: string, rest: string)
    requires |text| >= 2 && text[..2] == "\\u"
    ensures ScanString(text + rest) == Shift(2, ScanString(text[2..] + rest))
  {
    assert text[0] == text[..2][0];
    assert (text + rest)[2..] == text[2..] + rest;
  }

  lemma {:induction false} ScanPieces(ps: seq<Piece>, rest: string)
    requires AllValid(ps)
    ensures ScanString(Spellings(ps) + ("\"" + rest)) == Scan(|Spellings(ps)| + 1, true)
  {
    hide Valid, Spelling;
    if ps == [] {
      assert "" + ("\"" + rest) == "\"" + rest;
    } else {
      hide ScanString;
      Assoc(Spelling(ps[0]), Spellings(ps[1..]), "\"" + rest);
      ScanPiece(ps[0], Spellings(ps[1..]) + ("\"" + rest));
      ScanPieces(ps[1..], rest);
    }
  }

  lemma {:induction false} LexString(ps: seq<Piece>, rest: string)
    requires AllValid(ps)
    ensures Lex(StringText(ps) + rest) == [Token(String, StringText(ps))] + Lex(rest)
  {
    hide Lex, Valid, Spellings, ScanString;
    var body := Spellings(ps) + ("\"" + rest);
    assert StringText(ps) + rest == "\"" + body;
    assert (StringText(ps) + rest)[1..] == body;
    ScanPieces(ps, rest);
    LexOne(StringText(ps), rest, String);
  }

  lemma {:induction false} LexLiteral(kind: Kind, rest: string)
    requires kind in {True, False, NullWord}
    ensures Lex(LiteralText(kind) + rest) == [Token(kind, LiteralText(kind))] + Lex(rest)
  {
    hide Lex;
    if kind == True { LexWord("true", True, rest); }
    else if kind == False { LexWord("false", False, rest); }
    else { LexWord("null", NullWord, rest); }
  }

  /** A JSON text is read as its tokens, whatever follows that cannot prolong a number. */
  lemma {:induction false} LexJson(j: Json, rest: string)
    requires Good(j) && Delimited(rest)
    ensures Lex(Print(j) + rest) == Lexes(j) + Lex(rest)
    decreases j, 1
  {
    hide Lex, GoodNumeral, AllValid, White, ItemsText, FieldsText, ItemTokens, FieldTokens;
    match j
    case Literal(kind) => LexLiteral(kind, rest);
    case NumberOf(n) => LexNumeral(n, rest);
    case StringOf(ps) => LexString(ps, rest);
    case ArrayOf(gap, items) =>
      var end := "]" + rest;
      LexMark(']', ArrayEnd, rest);
      if items == [] {
        LexWhite(gap, end);
        NoTokens(Lex(end));
        LexBrackets("[", gap, "]", rest, Token(ArrayBegin, "["), ItemTokens([], true), Token(ArrayEnd, "]"));
      } else {
        LexItems(items, true, end);
        LexBrackets("[", ItemsText(items, true), "]", rest, Token(ArrayBegin, "["), ItemTokens(items, true),
                    Token(ArrayEnd, "]"));
      }
    case ObjectOf(gap, fields) =>
      var end := "}" + rest;
      LexMark('}', ObjectEnd, rest);
      if fields == [] {
        LexWhite(gap, end);
        NoTokens(Lex(end));
        LexBrackets("{", gap, "}", rest, Token(ObjectBegin, "{"), FieldTokens([], true), Token(ObjectEnd, "}"));
      } else {
        LexFields(fields, true, end);
        LexBrackets("{", FieldsText(fields, true), "}", rest, Token(ObjectBegin, "{"), FieldTokens(fields, true),
                    Token(ObjectEnd, "}"));
      }
  }

  lemma {:induction false} NoTokens(ts: seq<Token>)
    ensures ItemTokens([], true) == [] && FieldTokens([], true) == [] && [] + ts == ts
  {}

  // What stands between brackets is read between them.
  lemma {:induction false} LexBrackets(open: string, body: string, close: string, rest: string,
                                       a: Token, inner: seq<Token>, z: Token)
    requires |open| == 1 && IsMark(open[0], a.kind) && a.text == open
    requires Lex(body + (close + rest)) == inner + ([z] + Lex(rest))
    ensures Lex(open + body + close + rest) == [a] + (inner + [z]) + Lex(rest)
  {
    hide Lex;
    assert open + body + close + rest == open + (body + (close + rest));
    assert open == [open[0]];
    LexMark(open[0], a.kind, body + (close + rest));
    assert [a] + (inner + ([z] + Lex(rest))) == [a] + (inner + [z]) + Lex(rest);
  }

  lemma {:induction false} LexItems(items: seq<Item>, first: bool, rest: string)
    requires GoodItems(items) && (items == [] ==> first == false) && Delimited(rest)
    ensures Lex(ItemsText(items, first) + rest) == ItemTokens(items, first) + Lex(rest)
    ensures !first ==> Delimited(ItemsText(items, first) + rest)
    decreases items, 0
  {
    hide Lex, Good, White, Print, Lexes;
    if items == [] {
      assert "" + rest == rest && [] + Lex(rest) == Lex(rest);
    } else {
      var i := items[0];
      assert i.value < i;
      var more := ItemsText(items[1..], false) + rest;
      LexItems(items[1..], false, rest);
      LexWhite(i.after, more);
      LexJson(i.value, i.after + more);
      var tail := Print(i.value) + (i.after + more);
      LexWhite(i.before, tail);
      LexComma(first, i.before + tail);
      Glue3(if first then "" else ",", i.before, Print(i.value), i.after, ItemsText(items[1..], false), rest);
      GlueTokens(if first then [] else [COMMA], Lexes(i.value), ItemTokens(items[1..], false), Lex(rest));
    }
  }

  lemma {:induction false} Glue3(a: string, b: string, c: string, d: string, e: string, rest: string)
    ensures a + (b + (c + (d + e))) + rest == a + (b + (c + (d + (e + rest))))
  {
    Assoc(d, e, rest);
    Assoc(c, d + e, rest);
    Assoc(b, c + (d + e), rest);
    Assoc(a, b + (c + (d + e)), rest);
  }

  lemma {:induction false} GlueTokens(a: seq<Token>, b: seq<Token>, c: seq<Token>, d: seq<Token>)
    ensures a + (b + c) + d == a + (b + (c + d))
  {
    Assoc(b, c, d);
    Assoc(a, b + c, d);
  }

  lemma {:induction false} LexFields(fields: seq<Field>, first: bool, rest: string)
    requires GoodFields(fields) && (fields == [] ==> first == false) && Delimited(rest)
    ensures Lex(FieldsText(fields, first) + rest) == FieldTokens(fields, first) + Lex(rest)
    ensures !first ==> Delimited(FieldsText(fields, first) + rest)
    decreases fields, 0
  {
    hide Lex, Good, White, Print, Lexes, AllValid, StringText;
    if fields == [] {
      assert "" + rest == rest && [] + Lex(rest) == Lex(rest);
    } else {
      var f := fields[0];
      assert f.value < f;
      var more := FieldsText(fields[1..], false) + rest;
      LexFields(fields[1..], false, rest);
      LexWhite(f.after, more);
      LexJson(f.value, f.after + more);
      LexNamed(f, first, more, FieldTokens(fields[1..], false), Lex(rest));
      var value := f.beforeValue + (Print(f.value) + (f.after + FieldsText(fields[1..], false)));
      Glue3(if first then "" else ",", f.before, StringText(f.name), f.afterName, ":" + value, rest);
      Glue3(":", f.beforeValue, Print(f.value), f.after, FieldsText(fields[1..], false), rest);
    }
  }

  lemma {:induction false} LexNamed(f: Field, first: bool, more: string, ts: seq<Token>, end: seq<Token>)
    requires White(f.before) && AllValid(f.name) && White(f.afterName) && White(f.beforeValue) && Good(f.value)
    requires Lex(Print(f.value) + (f.after + more)) == Lexes(f.value) + (ts + end)
    ensures var tail := ":" + (f.beforeValue + (Print(f.value) + (f.after + more)));
            Lex((if first then "" else ",") + (f.before + (StringText(f.name) + (f.afterName + tail))))
            == (if first then [] else [COMMA])
               + ([Token(String, StringText(f.name)), COLON] + (Lexes(f.value) + ts)) + end
  {
    hide Lex, Good, White, Print, Lexes, AllValid, StringText;
    var value := Print(f.value) + (f.after + more);
    LexWhite(f.beforeValue, value);
    LexMark(':', MemberSeparator, f.beforeValue + value);
    var tail := ":" + (f.beforeValue + value);
    LexWhite(f.afterName, tail);
    LexString(f.name, f.afterName + tail);
    LexWhite(f.before, StringText(f.name) + (f.afterName + tail));
    LexComma(first, f.before + (StringText(f.name) + (f.afterName + tail)));
    var name, v := Token(String, StringText(f.name)), Lexes(f.value);
    var head := if first then [] else [COMMA];
    assert [name] + ([COLON] + (v + (ts + end))) == [name, COLON] + (v + ts) + end;
    Assoc(head, [name, COLON] + (v + ts), end);
  }

  ////////// Reading //////////

  lemma {:induction false} TailDouble(text: string, tail: string, at: bool)
    requires (forall i | 0 <= i < |text| :: Digit(text[i])) && tail != "" && tail[0] in {'.', 'e', 'E'}
    ensures IsDouble(text + tail, at)
  {
    if text == "" {
      assert text + tail == tail;
    } else {
      assert (text + tail)[1..] == text[1..] + tail;
      TailDouble(text[1..], tail, false);
    }
  }

  /** decodeNumber, on every number of section 6: an integer it can keep, or what sscanf reads. */
  lemma {:induction false} DecodeNumeral(scan: DoubleScan, n: Numeral)
    requires GoodNumeral(n)
    ensures DecodeNumber(scan, NumeralText(n)) == NumeralValue(scan, n)
  {
    hide Decimal, DecodeNumber;
    if n.fraction.None? && n.exponent.None? {
      assert Tail(n) == "";
      if n.negative {
        assert NumeralText(n) == "-" + Decimal(n.whole);
        DecodeNegative(scan, n.whole);
      } else {
        assert NumeralText(n) == Decimal(n.whole);
        DecodeNat(scan, n.whole);
      }
    } else {
      NumeralDouble(n);
      DoubleDecodes(scan, NumeralText(n));
    }
  }

  lemma {:induction false} DoubleDecodes(scan: DoubleScan, text: string)
    requires IsDouble(text, true)
    ensures DecodeNumber(scan, text) == match scan(text) case None => None case Some(d) => Some(Real(d))
  {}

  lemma {:induction false} NumeralDouble(n: Numeral)
    requires GoodNumeral(n) && (n.fraction.Some? || n.exponent.Some?)
    ensures IsDouble(NumeralText(n), true)
  {
    hide Decimal;
    var digits := Decimal(n.whole);
    assert Tail(n) != "" && Tail(n)[0] in {'.', 'e', 'E'};
    hide Tail;
    if n.negative {
      assert NumeralText(n)[1..] == digits + Tail(n);
      TailDouble(digits, Tail(n), false);
    } else {
      assert NumeralText(n) == digits + Tail(n);
      TailDouble(digits, Tail(n), true);
    }
  }

  // What reading a value must give, when `ts` follows it.
  ghost predicate Reads(r: Result, v: Option<Value>, ts: seq<Token>) {
    if v.Some? then r == Result(true, v.value, ts, []) else !r.ok
  }

  /** The reader, in front of the tokens of a JSON text, reads exactly that text. */
  lemma {:induction false} ReadJson(cfg: Config, j: Json, ts: seq<Token>, node: Value)
    requires Good(j)
    ensures Reads(ReadValue(cfg, Lexes(j) + ts, node), Denotes(cfg.scan, j), ts)
    decreases j, 1
  {
    match j
    case ArrayOf(_, items) =>
      hide ReadValue, ReadElements, ItemTokens, DenoteItems, GoodItems;
      ReadBrackets(cfg, items, ts, node);
      if items != [] {
        ReadItems(cfg, items, [Token(ArrayEnd, "]")] + ts, []);
        NoSlots(cfg.scan);
        assert ([Token(ArrayEnd, "]")] + ts)[1..] == ts;
      } else {
        NoSlots(cfg.scan);
      }
    case ObjectOf(_, fields) =>
      hide ReadValue, ReadMembers, FieldTokens, DenoteFields, GoodFields;
      ReadBraces(cfg, fields, ts, node);
      NoFields(cfg.scan, []);
      if fields == [] {
        ReadEmptyBraces(cfg, ts);
      } else {
        ReadFields(cfg, fields, [Token(ObjectEnd, "}")] + ts, "", []);
        assert ([Token(ObjectEnd, "}")] + ts)[1..] == ts;
      }
    case _ => ReadScalarText(cfg, j, ts, node);
  }

  lemma {:induction false} ReadScalarText(cfg: Config, j: Json, ts: seq<Token>, node: Value)
    requires Good(j) && !j.ArrayOf? && !j.ObjectOf?
    ensures Reads(ReadValue(cfg, Lexes(j) + ts, node), Denotes(cfg.scan, j), ts)
  {
    hide DecodeNumber, DecodeString, NumeralText, NumeralValue, StringText, Meanings;
    var all := Lexes(j) + ts;
    assert SkipComments(all) == all && Rest(all) == ts;
    match j
    case NumberOf(n) => DecodeNumeral(cfg.scan, n);
    case StringOf(ps) => EscapedTextDecodes(ps);
    case _ =>
  }

  lemma {:induction false} NoSlots(scan: DoubleScan)
    ensures DenoteItems(scan, []) == Some([]) && forall w: seq<Slot> :: [] + w == w
  {}

  lemma {:induction false} NoFields(scan: DoubleScan, done: seq<Member>)
    ensures DenoteFields(scan, [], done) == Some(done)
  {}

  lemma {:induction false} ReadBrackets(cfg: Config, items: seq<Item>, ts: seq<Token>, node: Value)
    requires GoodItems(items)
    ensures var all := Lexes(ArrayOf("", items)) + ts;
            var rest := ItemTokens(items, true) + ([Token(ArrayEnd, "]")] + ts);
            if items == [] then ReadValue(cfg, all, node) == Result(true, Array([]), ts, [])
            else ReadValue(cfg, all, node) == ReadElements(cfg, rest, [])
  {
    hide ReadElements;
    var end := [Token(ArrayEnd, "]")];
    var rest := ItemTokens(items, true) + (end + ts);
    var all := Lexes(ArrayOf("", items)) + ts;
    assert all == [Token(ArrayBegin, "[")] + rest;
    assert SkipComments(all) == all && Rest(all) == rest;
    if items == [] {
      assert rest == end + ts && Rest(rest) == ts;
    } else {
      assert items[0].value < items[0];
      assert rest[0] == Lexes(items[0].value)[0];
    }
  }

  lemma {:induction false} ReadBraces(cfg: Config, fields: seq<Field>, ts: seq<Token>, node: Value)
    requires GoodFields(fields)
    ensures var all := Lexes(ObjectOf("", fields)) + ts;
            var rest := FieldTokens(fields, true) + ([Token(ObjectEnd, "}")] + ts);
            ReadValue(cfg, all, node) == ReadMembers(cfg, rest, "", [])
  {
    hide ReadMembers, ReadScalar, FieldTokens, GoodFields;
    var rest := FieldTokens(fields, true) + ([Token(ObjectEnd, "}")] + ts);
    var all := Lexes(ObjectOf("", fields)) + ts;
    assert all == [Token(ObjectBegin, "{")] + rest;
    assert SkipComments(all) == all && Rest(all) == rest;
  }

  lemma {:induction false} ReadEmptyBraces(cfg: Config, ts: seq<Token>)
    ensures ReadMembers(cfg, FieldTokens([], true) + ([Token(ObjectEnd, "}")] + ts), "", [])
            == Result(true, Object([]), ts, [])
  {
    hide ReadMember;
    var rest := [Token(ObjectEnd, "}")] + ts;
    assert [] + rest == rest && SkipComments(rest) == rest && Rest(rest) == ts;
  }

  /** The elements of an array, up to what follows the last: the closing bracket, or anything else, which is
      taken for a comma whatever it is. */
  lemma {:induction false} ReadItems(cfg: Config, items: seq<Item>, tail: seq<Token>, done: seq<Slot>)
    requires GoodItems(items) && items != [] && tail != [] && tail[0].kind != Comment
    ensures var r := ReadElements(cfg, ItemTokens(items, true) + tail, done);
            match DenoteItems(cfg.scan, items)
            case None => !r.ok
            case Some(w) =>
              if tail[0].kind == ArrayEnd then r == Result(true, Array(done + w), tail[1..], [])
              else r == ReadElements(cfg, tail[1..], done + w)
    decreases items, 0
  {
    hide ReadValue, ReadElements, Lexes, Denotes, Good;
    assert items[0].value < items[0];
    var i := items[0];
    var more := ItemTokens(items[1..], false) + tail;
    var all := ItemTokens(items, true) + tail;
    assert all == Lexes(i.value) + more by {
      assert [] + (Lexes(i.value) + ItemTokens(items[1..], false)) == Lexes(i.value) + ItemTokens(items[1..], false);
      Assoc(Lexes(i.value), ItemTokens(items[1..], false), tail);
    }
    ReadJson(cfg, i.value, more, Null);
    ElementsRound(cfg, all, done);
    var r := ReadValue(cfg, all, Null);
    if r.ok {
      var slot := [Slot(true, r.value)];
      if |items| == 1 {
        NoSlots(cfg.scan);
        assert items[1..] == [] && slot + [] == slot;
        assert more == tail;
      } else {
        ItemsComma(items[1..], tail);
        ReadItems(cfg, items[1..], tail, done + slot);
        match DenoteItems(cfg.scan, items[1..])
        case None =>
        case Some(w) => Assoc(done, slot, w);
      }
    }
  }

  lemma {:induction false} ItemsComma(items: seq<Item>, tail: seq<Token>)
    requires GoodItems(items) && items != []
    ensures var more := ItemTokens(items, false) + tail;
            more != [] && more[0] == COMMA && more[1..] == ItemTokens(items, true) + tail
  {
    hide Lexes;
    assert items[0].value < items[0];
    var t := Lexes(items[0].value) + ItemTokens(items[1..], false);
    assert [] + t == t;
    Assoc([COMMA], t, tail);
    assert ([COMMA] + (t + tail))[1..] == t + tail;
  }

  // The name decoded last.
  function LastName(fields: seq<Field>): string
    requires GoodFields(fields) && fields != []
    decreases fields
  {
    if |fields| == 1 then Meanings(fields[0].name) else LastName(fields[1..])
  }

  /** The members of an object, up to what follows the last: the closing brace or a comma. */
  lemma {:induction false} ReadFields(cfg: Config, fields: seq<Field>, tail: seq<Token>, name: string,
                                      done: seq<Member>)
    requires GoodFields(fields) && fields != [] && tail != [] && tail[0].kind in {ObjectEnd, ArraySeparator}
    ensures var r := ReadMembers(cfg, FieldTokens(fields, true) + tail, name, done);
            match DenoteFields(cfg.scan, fields, done)
            case None => !r.ok
            case Some(w) =>
              if tail[0].kind == ObjectEnd then r == Result(true, Object(w), tail[1..], [])
              else r == ReadMembers(cfg, tail[1..], LastName(fields), w)
    decreases fields, 0
  {
    hide ReadValue, ReadMembers, ReadMember, Lexes, Denotes, Good, PutMember, GetMember, Meanings, AllValid;
    assert fields[0].value < fields[0];
    var f := fields[0];
    var key := CStr(Meanings(f.name));
    var more := FieldTokens(fields[1..], false) + tail;
    var rest := [COLON] + (Lexes(f.value) + more);
    FirstField(cfg, fields, tail, name, done);
    assert Rest(rest) == Lexes(f.value) + more;
    ReadJson(cfg, f.value, more, GetMember(done, key));
    MemberRound(cfg, rest, Meanings(f.name), done);
    var r := ReadValue(cfg, Rest(rest), GetMember(done, key));
    if r.ok {
      var done' := PutMember(done, key, r.value);
      if |fields| == 1 {
        NoFields(cfg.scan, done');
        assert fields[1..] == [];
        assert more == tail;
      } else {
        FieldsComma(fields[1..], tail);
        ReadFields(cfg, fields[1..], tail, Meanings(f.name), done');
      }
    }
  }

  lemma {:induction false} FirstField(cfg: Config, fields: seq<Field>, tail: seq<Token>, name: string,
                                      done: seq<Member>)
    requires GoodFields(fields) && fields != []
    ensures var f := fields[0];
            var rest := [COLON] + (Lexes(f.value) + (FieldTokens(fields[1..], false) + tail));
            ReadMembers(cfg, FieldTokens(fields, true) + tail, name, done)
            == ReadMember(cfg, rest, Meanings(f.name), done)
  {
    hide ReadMember, Lexes, Good, Meanings, AllValid, StringText, DecodeString, White;
    assert fields[0].value < fields[0];
    var f := fields[0];
    var named, more := Token(String, StringText(f.name)), FieldTokens(fields[1..], false);
    var all := FieldTokens(fields, true) + tail;
    var rest := [COLON] + (Lexes(f.value) + (more + tail));
    assert all == [named] + rest by {
      assert [] + ([named, COLON] + (Lexes(f.value) + more)) == [named, COLON] + (Lexes(f.value) + more);
      assert [named, COLON] == [named] + [COLON];
      Assoc([named, COLON], Lexes(f.value) + more, tail);
      Assoc(Lexes(f.value), more, tail);
      Assoc([named], [COLON], Lexes(f.value) + (more + tail));
    }
    assert SkipComments(all) == all && Rest(all) == rest;
    EscapedTextDecodes(f.name);
  }

  lemma {:induction false} FieldsComma(fields: seq<Field>, tail: seq<Token>)
    requires GoodFields(fields) && fields != []
    ensures var more := FieldTokens(fields, false) + tail;
            more != [] && more[0] == COMMA && more[1..] == FieldTokens(fields, true) + tail
  {
    hide Lexes, StringText;
    var f := fields[0];
    assert f.value < f;
    var t := [Token(String, StringText(f.name)), COLON] + (Lexes(f.value) + FieldTokens(fields[1..], false));
    assert [] + t == t;
    Assoc([COMMA], t, tail);
    assert ([COMMA] + (t + tail))[1..] == t + tail;
  }

  ////////// Whole documents //////////

  /** Every JSON text of RFC 8259, with any white space around it and in it, in any spelling: parse succeeds and
      yields what the text means, unless a number is one sscanf refuses or the root one a strict reader does. */
  lemma {:induction false} JsonParses(cfg: Config, before: string, j: Json, after: string, root: Value)
    requires Good(j) && White(before) && White(after)
    ensures var r := Parse(cfg, before + (Print(j) + after), root);
            match Denotes(cfg.scan, j)
            case None => !r.ok
            case Some(v) => if RootAllowed(cfg, v) then r == Result(true, v, [], []) else !r.ok
  {
    LexNothing();
    hide Lex, ReadValue, Print, Lexes, Denotes, Good, White;
    LexWhite(after, "");
    assert after + "" == after;
    LexJson(j, after);
    LexWhite(before, Print(j) + after);
    assert Lexes(j) + [] == Lexes(j);
    ReadJson(cfg, j, [], root);
  }

  lemma {:induction false} LexNothing()
    ensures Lex("") == []
  {}

  ////////// Not JSON //////////

  /** A comma before the closing bracket is refused. */
  lemma {:induction false} TrailingCommaInArray(cfg: Config, items: seq<Item>, ts: seq<Token>, node: Value)
    requires GoodItems(items) && items != []
    ensures !ReadElements(cfg, ItemTokens(items, true) + ([COMMA] + ([Token(ArrayEnd, "]")] + ts)), []).ok
  {
    var close := [Token(ArrayEnd, "]")] + ts;
    var tail := [COMMA] + close;
    assert tail[1..] == close;
    ReadItems(cfg, items, tail, []);
    hide DenoteItems, ItemTokens, ReadElements;
    BracketIsNoValue(cfg, ts);
    match DenoteItems(cfg.scan, items)
    case None =>
    case Some(w) => ElementsRound(cfg, close, [] + w);
  }

  lemma {:induction false} BracketIsNoValue(cfg: Config, ts: seq<Token>)
    ensures !ReadValue(cfg, [Token(ArrayEnd, "]")] + ts, Null).ok
  {
    hide ReadElements, ReadMembers;
    var close := [Token(ArrayEnd, "]")] + ts;
    assert SkipComments(close) == close;
  }

  /** Any token will do between two elements: the check of the separator is never true. */
  lemma {:induction false} AnySeparator(cfg: Config, items: seq<Item>, mark: Token, ts: seq<Token>)
    requires GoodItems(items) && items != [] && mark.kind !in {ArrayEnd, Comment}
    ensures ReadElements(cfg, ItemTokens(items, true) + ([mark] + ts), []).ok
            == ReadElements(cfg, ItemTokens(items, true) + ([COMMA] + ts), []).ok
    ensures var r := ReadElements(cfg, ItemTokens(items, true) + ([mark] + ts), []);
            r.ok ==> r == ReadElements(cfg, ItemTokens(items, true) + ([COMMA] + ts), [])
  {
    hide ReadElements, ItemTokens, DenoteItems;
    ReadItems(cfg, items, [mark] + ts, []);
    ReadItems(cfg, items, [COMMA] + ts, []);
    assert ([mark] + ts)[1..] == ts && ([COMMA] + ts)[1..] == ts;
  }

  /** A comma before the closing brace is refused, exactly unless the last name is empty: then the reader takes
      the brace as it would that of an empty object. */
  lemma {:induction false} TrailingCommaInObject(cfg: Config, fields: seq<Field>, ts: seq<Token>)
    requires GoodFields(fields) && fields != [] && DenoteFields(cfg.scan, fields, []).Some?
    ensures ReadMembers(cfg, FieldTokens(fields, true) + ([COMMA] + ([Token(ObjectEnd, "}")] + ts)), "", []).ok
            <==> LastName(fields) == ""
  {
    var close := [Token(ObjectEnd, "}")] + ts;
    var tail := [COMMA] + close;
    assert tail[1..] == close;
    hide DenoteFields, FieldTokens, ReadMembers, GoodFields, LastName;
    ReadFields(cfg, fields, tail, "", []);
    BraceCloses(cfg, ts, LastName(fields), DenoteFields(cfg.scan, fields, []).value);
  }

  lemma {:induction false} BraceCloses(cfg: Config, ts: seq<Token>, name: string, members: seq<Member>)
    ensures ReadMembers(cfg, [Token(ObjectEnd, "}")] + ts, name, members).ok <==> name == ""
  {
    hide ReadMember, Recover;
    var close := [Token(ObjectEnd, "}")] + ts;
    assert SkipComments(close) == close;
  }

  ////////// Comments //////////

  // A text in which nothing ends a comment begun with a star.
  predicate NoStarSlash(s: string) { forall i | 0 <= i < |s| - 1 :: !(s[i] == '*' && s[i + 1] == '/') }

  lemma {:induction false} ScanToStarSlash(body: string, rest: string)
    requires NoStarSlash(body) && (body != "" ==> body[|body| - 1] != '*')
    ensures ScanCStyle(body + ("*/" + rest)) == Scan(|body| + 2, true)
  {
    if body == "" {
      assert body + ("*/" + rest) == "*/" + rest;
    } else {
      var all := body + ("*/" + rest);
      assert all[1..] == body[1..] + ("*/" + rest);
      assert |body| > 1 ==> all[1] == body[1];
      ScanToStarSlash(body[1..], rest);
    }
  }

  lemma {:induction false} ScanToLineEnd(body: string, end: char, rest: string)
    requires '\r' !in body && '\n' !in body && end in {'\r', '\n'}
    ensures ScanLine(body + ([end] + rest)) == |body| + 1
  {
    var all := body + ([end] + rest);
    if body == "" {
      assert all == [end] + rest;
    } else {
      assert all[1..] == body[1..] + ([end] + rest);
      ScanToLineEnd(body[1..], end, rest);
    }
  }

  /** Both forms of a comment are one token. */
  lemma {:induction false} LexComments(body: string, rest: string)
    ensures NoStarSlash(body) && (body != "" ==> body[|body| - 1] != '*') ==>
              Lex("/*" + body + "*/" + rest) == [Token(Comment, "/*" + body + "*/")] + Lex(rest)
    ensures '\r' !in body && '\n' !in body ==>
              Lex("//" + body + "\n" + rest) == [Token(Comment, "//" + body + "\n")] + Lex(rest)
  {
    hide Lex;
    if NoStarSlash(body) && (body != "" ==> body[|body| - 1] != '*') {
      var text := "/*" + body + "*/";
      assert (text + rest)[1..][1..] == body + ("*/" + rest);
      ScanToStarSlash(body, rest);
      LexOne(text, rest, Comment);
    }
    if '\r' !in body && '\n' !in body {
      var text := "//" + body + "\n";
      assert (text + rest)[1..][1..] == body + (['\n'] + rest);
      ScanToLineEnd(body, '\n', rest);
      LexOne(text, rest, Comment);
    }
  }

  /** A comment before a value is skipped where comments are allowed, and refused where they are not. */
  lemma {:induction false} CommentBeforeValue(cfg: Config, c: Token, ts: seq<Token>, node: Value)
    requires c.kind == Comment
    ensures if cfg.features.allowComments then ReadValue(cfg, [c] + ts, node) == ReadValue(cfg, ts, node)
            else !ReadValue(cfg, [c] + ts, node).ok
  {
    hide ReadElements, ReadMembers;
    assert ([c] + ts)[1..] == ts;
    assert SkipComments(SkipComments(ts)) == SkipComments(ts) by { SkipTwice(ts); }
  }

  lemma {:induction false} SkipTwice(ts: seq<Token>)
    ensures SkipComments(SkipComments(ts)) == SkipComments(ts)
  {
    if ts != [] && ts[0].kind == Comment { SkipTwice(ts[1..]); }
  }
}
