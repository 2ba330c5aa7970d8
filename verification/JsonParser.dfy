/**
 The reader of json/json_reader.cpp as a function of the tokens left to read.  `Reader` in
 JsonReader.dfy is the cursor program that computes it.
 */
module JsonParser {
  import opened Wrappers
  import opened CText
  import opened JsonValue
  import opened JsonLexer

  datatype Features = Features(allowComments: bool, strictRoot: bool)

  datatype Message =
    | ValueExpected | MissingColon | MissingCommaOrObjectEnd | MissingObjectEndOrName
    | NotANumber | EmptyEscape | BadEscape | SurrogateSixExpected | SurrogateExpected
    | FourDigitsExpected | HexDigitExpected | RootNotContainer

  datatype ErrorInfo = ErrorInfo(message: Message, token: Token)

  // What sscanf("%lf") makes of a number token; it is not part of this model.
  type DoubleScan = string -> Option<real>

  ////////// Strings //////////

  datatype Hex = Hex(value: nat) | BadHex(message: Message)

  datatype CodePoint = CodePoint(value: nat, len: nat) | BadPoint(message: Message)

  datatype Text = Text(s: string) | BadText(message: Message)

  function HexDigit(c: char): (d: int)
    ensures -1 <= d < 16
  {
    if '0' <= c <= '9' then c as int - '0' as int
    else if 'a' <= c <= 'f' then c as int - 'a' as int + 10
    else if 'A' <= c <= 'F' then c as int - 'A' as int + 10
    else -1
  }

  function HexDigits(s: string, value: nat): (r: Hex)
    ensures r.Hex? && |s| == 0 ==> r.value == value
    ensures r.Hex? && |s| == 1 ==> r.value < 0x10 * value + 0x10
    ensures r.Hex? && |s| == 2 ==> r.value < 0x100 * value + 0x100
    ensures r.Hex? && |s| == 3 ==> r.value < 0x1000 * value + 0x1000
    ensures r.Hex? && |s| == 4 ==> r.value < 0x10000 * value + 0x10000
  {
    if s == "" then Hex(value)
    else if HexDigit(s[0]) < 0 then BadHex(HexDigitExpected)
    else HexDigits(s[1..], value * 16 + HexDigit(s[0]))
  }

  // decodeUnicodeEscapeSequence
  function DecodeHex4(s: string): (r: Hex)
    ensures r.Hex? ==> r.value < 0x10000 && |s| >= 4
  {
    if |s| < 4 then BadHex(FourDigitsExpected) else HexDigits(s[..4], 0)
  }

  /** decodeUnicodeCodePoint, after the `\u`: no text makes it deliver a number beyond the last
      code point. */
  function DecodePoint(s: string): (r: CodePoint)
    ensures r.CodePoint? ==> r.value <= 0x10FFFF && 0 < r.len <= |s|
  {
    match DecodeHex4(s)
    case BadHex(m) => BadPoint(m)
    case Hex(high) =>
      if 0xD800 <= high <= 0xDBFF then
        if |s| - 4 < 6 then BadPoint(SurrogateSixExpected)
        else if s[4] != '\\' || s[5] != 'u' then BadPoint(SurrogateExpected)
        else match DecodeHex4(s[6..])
          case BadHex(m) => BadPoint(m)
          case Hex(low) => CodePoint(0x10000 + high % 0x400 * 0x400 + low % 0x400, 10)
      else CodePoint(high, 4)
  }

  // codePointToUTF8
  function Utf8(cp: nat): string {
    if cp <= 0x7F then [cp as char]
    else if cp <= 0x7FF then
      [(0xC0 + cp / 0x40) as char, (0x80 + cp % 0x40) as char]
    else if cp <= 0xFFFF then
      [(0xE0 + cp / 0x1000) as char, (0x80 + cp / 0x40 % 0x40) as char, (0x80 + cp % 0x40) as char]
    else if cp <= 0x10FFFF then
      [(0xF0 + cp / 0x40000) as char, (0x80 + cp / 0x1000 % 0x40) as char,
       (0x80 + cp / 0x40 % 0x40) as char, (0x80 + cp % 0x40) as char]
    else ""
  }

  // The one-letter escapes.
  function Unescape(c: char): Option<char> {
    if c == '"' || c == '/' || c == '\\' then Some(c)
    else if c == 'b' then Some(8 as char)
    else if c == 'f' then Some(12 as char)
    else if c == 'n' then Some('\n')
    else if c == 'r' then Some('\r')
    else if c == 't' then Some('\t')
    else None
  }

  // The loop of decodeString: `body` is left to read, `decoded` is what the loop has appended.
  function DecodeBody(body: string, decoded: string): Text
    decreases |body|
  {
    if body == "" || body[0] == '"' then Text(decoded)
    else if body[0] != '\\' then DecodeBody(body[1..], decoded + [body[0]])
    else if |body| == 1 then BadText(EmptyEscape)
    else if body[1] == 'u' then
      match DecodePoint(body[2..])
      case BadPoint(m) => BadText(m)
      case CodePoint(cp, n) => DecodeBody(body[2 + n..], decoded + Utf8(cp))
    else match Unescape(body[1])
      case None => BadText(BadEscape)
      case Some(c) => DecodeBody(body[2..], decoded + [c])
  }

  // decodeString: the text of a string token between its quotes
  function DecodeString(text: string): Text {
    if |text| < 2 then Text("") else DecodeBody(text[1..|text| - 1], "")
  }

  ////////// Numbers //////////

  datatype Whole = Whole(n: int) | TooBig | NotDigit

  // `at` tells whether the text starts where the token does.
  predicate IsDouble(text: string, at: bool) {
    text != "" &&
    (|| text[0] == '.' || text[0] == 'e' || text[0] == 'E' || text[0] == '+'
     || (text[0] == '-' && !at)
     || IsDouble(text[1..], false))
  }

  function DecodeDigits(digits: string, value: nat, threshold: nat): Whole {
    if digits == "" then Whole(value)
    else if !Digit(digits[0]) then NotDigit
    else if value >= threshold then TooBig
    else DecodeDigits(digits[1..], value * 10 + (digits[0] as int - '0' as int), threshold)
  }

  // Nothing when the text is not a number.
  function DecodeDouble(scan: DoubleScan, text: string): Option<Value> {
    match scan(text)
    case None => None
    case Some(d) => Some(Real(d))
  }

  function Negative(text: string): bool { text != "" && text[0] == '-' }

  function Threshold(negative: bool): nat { (if negative then -MIN_INT else MAX_UINT) / 10 }

  function DecodeNumber(scan: DoubleScan, text: string): Option<Value> {
    if IsDouble(text, true) then DecodeDouble(scan, text)
    else
      match DecodeDigits(if Negative(text) then text[1..] else text, 0, Threshold(Negative(text)))
      case NotDigit => None
      case TooBig => DecodeDouble(scan, text)
      case Whole(n) =>
        Some(if Negative(text) then Int(-n) else if n <= MAX_INT then Int(n) else UInt(n))
  }

  ////////// Values //////////

  datatype Result = Result(ok: bool, value: Value, rest: seq<Token>, errors: seq<ErrorInfo>)

  // recoverFromError: past the first token of that kind, or the end of the stream
  function Recover(ts: seq<Token>, kind: Kind): (r: seq<Token>)
    ensures |r| <= |ts|
  {
    if ts == [] || ts[0].kind == kind || ts[0].kind == EndOfStream then Rest(ts)
    else Recover(ts[1..], kind)
  }

  // addErrorAndRecover
  function Fail(m: Message, token: Token, value: Value, ts: seq<Token>, kind: Kind): Result {
    Result(false, value, Recover(ts, kind), [ErrorInfo(m, token)])
  }

  // The parameters of a reader that do not change while it reads.
  datatype Config = Config(features: Features, scan: DoubleScan)

  // The cases of readValue that read no further token.
  function ReadScalar(cfg: Config, t: Token, rest: seq<Token>, node: Value): (r: Result)
    ensures r.rest == rest && (r.ok <==> r.errors == [])
    ensures r.ok ==> t.kind in {Number, String, True, False, NullWord}
  {
    match t.kind
    case Number => (
      match DecodeNumber(cfg.scan, t.text)
      case Some(v) => Result(true, v, rest, [])
      case None => Result(false, node, rest, [ErrorInfo(NotANumber, t)]))
    case String => (
      match DecodeString(t.text)
      case Text(s) => Result(true, Str(s), rest, [])
      case BadText(m) => Result(false, node, rest, [ErrorInfo(m, t)]))
    case True => Result(true, Bool(true), rest, [])
    case False => Result(true, Bool(false), rest, [])
    case NullWord => Result(true, Null, rest, [])
    case _ => Result(false, node, rest, [ErrorInfo(ValueExpected, t)])
  }

  /** readValue with `node` as what the current node holds: what it returns, what it leaves in that node, the
      tokens it has not read, and the errors it appends. */
  function ReadValue(cfg: Config, ts: seq<Token>, node: Value): (r: Result)
    ensures |r.rest| <= |ts|
    ensures r.ok ==> |r.rest| < |ts|
    ensures r.ok <==> r.errors == []
    decreases |ts|, 1, 0
  {
    var ts := if cfg.features.allowComments then SkipComments(ts) else ts;
    var t, rest := Next(ts), Rest(ts);
    match t.kind
    case ObjectBegin => ReadMembers(cfg, rest, "", [])
    case ArrayBegin =>
      if Next(rest).kind == ArrayEnd then Result(true, Array([]), Rest(rest), [])
      else ReadElements(cfg, rest, [])
    case _ => ReadScalar(cfg, t, rest, node)
  }

  // The loop of readArray, with `slots` in the node.
  function ReadElements(cfg: Config, ts: seq<Token>, slots: seq<Slot>): (r: Result)
    ensures |r.rest| <= |ts|
    ensures r.ok ==> |r.rest| < |ts|
    ensures r.ok <==> r.errors == []
    decreases |ts|, 2, 0
  {
    var r := ReadValue(cfg, ts, Null);
    var slots := PutSlot(slots, |slots|, r.value);
    if !r.ok then Result(false, Array(slots), Recover(r.rest, ArrayEnd), r.errors)
    else
      var ts := SkipComments(r.rest);
      if Next(ts).kind == ArrayEnd then Result(true, Array(slots), Rest(ts), [])
      else ReadElements(cfg, Rest(ts), slots)
  }

  // The loop of readObject, with `members` in the node and `name` the last name decoded.
  function ReadMembers(cfg: Config, ts: seq<Token>, name: string, members: seq<Member>): (r: Result)
    ensures |r.rest| <= |ts|
    ensures r.ok ==> |r.rest| < |ts|
    ensures r.ok <==> r.errors == []
    decreases |ts|, 2, 0
  {
    var ts := SkipComments(ts);
    var t, node := Next(ts), Object(members);
    if t.kind == ObjectEnd && name == "" then Result(true, node, Rest(ts), [])
    else if t.kind != String then Fail(MissingObjectEndOrName, t, node, Rest(ts), ObjectEnd)
    else match DecodeString(t.text)
      case BadText(m) => Fail(m, t, node, Rest(ts), ObjectEnd)
      case Text(name) => ReadMember(cfg, Rest(ts), name, members)
  }

  // The rest of the loop body of readObject, from the colon on.
  function ReadMember(cfg: Config, ts: seq<Token>, name: string, members: seq<Member>): (r: Result)
    ensures |r.rest| <= |ts|
    ensures r.ok <==> r.errors == []
    decreases |ts|, 2, 1
  {
    var colon := Next(ts);
    if colon.kind != MemberSeparator then
      Fail(MissingColon, colon, Object(members), Rest(ts), ObjectEnd)
    else
      var key := CStr(name);
      var r := ReadValue(cfg, Rest(ts), GetMember(members, key));
      var members := PutMember(members, key, r.value);
      var comma := Next(r.rest);
      if !r.ok then Result(false, Object(members), Recover(r.rest, ObjectEnd), r.errors)
      else if comma.kind != ObjectEnd && comma.kind != ArraySeparator && comma.kind != Comment then
        Fail(MissingCommaOrObjectEnd, comma, Object(members), Rest(r.rest), ObjectEnd)
      else
        var ts := SkipComments(r.rest);
        if Next(ts).kind == ObjectEnd then Result(true, Object(members), Rest(ts), [])
        else ReadMembers(cfg, Rest(ts), name, members)
  }

  /** parse: `root` is what the caller's value holds before the call. */
  function Parse(cfg: Config, document: string, root: Value): (r: Result)
    ensures r.ok <==> r.errors == []
  {
    var r := ReadValue(cfg, Lex(document), root);
    var ts := if cfg.features.allowComments then SkipComments(r.rest) else r.rest;
    if cfg.features.strictRoot && !r.value.Array? && !r.value.Object? then
      Result(false, r.value, Rest(ts), r.errors + [ErrorInfo(RootNotContainer, Token(Error, document))])
    else r.(rest := Rest(ts))
  }
}
