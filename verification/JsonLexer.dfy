/**
 What readToken of json/json_reader.cpp recognises: the text left to read, cut into tokens.
 */
module JsonLexer {

  datatype Kind =
    | EndOfStream | ObjectBegin | ObjectEnd | ArrayBegin | ArrayEnd | String | Number
    | True | False | NullWord | ArraySeparator | MemberSeparator | Comment | Error

  datatype Token = Token(kind: Kind, text: string)

  // How many characters a scanning loop consumes, and whether it found what it looked for.
  datatype Scan = Scan(len: nat, ok: bool)

  datatype Scanned = Scanned(kind: Kind, len: nat)

  predicate Space(c: char) { c == ' ' || c == '\t' || c == '\r' || c == '\n' }

  predicate Digit(c: char) { '0' <= c <= '9' }

  predicate NumberChar(c: char) {
    Digit(c) || c == '.' || c == 'e' || c == 'E' || c == '+' || c == '-'
  }

  function Shift(n: nat, s: Scan): Scan { Scan(n + s.len, s.ok) }

  function SkipSpaces(s: string): (r: string)
    ensures |r| <= |s|
    ensures r == "" || !Space(r[0])
  {
    if s == "" || !Space(s[0]) then s else SkipSpaces(s[1..])
  }

  // readString, after the opening quote
  function ScanString(s: string): (r: Scan)
    ensures r.len <= |s|
    ensures r.ok ==> r.len > 0
  {
    if s == "" then Scan(0, false)
    else if s[0] == '\\' then
      if |s| == 1 then Scan(1, false) else Shift(2, ScanString(s[2..]))
    else if s[0] == '"' then Scan(1, true)
    else Shift(1, ScanString(s[1..]))
  }

  // readNumber, after the first character
  function ScanNumber(s: string): (n: nat)
    ensures n <= |s|
  {
    if s == "" || !NumberChar(s[0]) then 0 else 1 + ScanNumber(s[1..])
  }

  // readCStyleComment, after the opening mark
  function ScanCStyle(s: string): (r: Scan)
    ensures r.len <= |s|
  {
    if s == "" then Scan(0, false)
    else if |s| > 1 && s[0] == '*' && s[1] == '/' then Scan(2, true)
    else Shift(1, ScanCStyle(s[1..]))
  }

  // readCppStyleComment, after the opening mark
  function ScanLine(s: string): (n: nat)
    ensures n <= |s|
  {
    if s == "" then 0
    else if s[0] == '\r' || s[0] == '\n' then 1
    else 1 + ScanLine(s[1..])
  }

  // readComment, after the first slash
  function ScanComment(s: string): (r: Scan)
    ensures r.len <= |s|
  {
    if s == "" then Scan(0, false)
    else if s[0] == '*' then Shift(1, ScanCStyle(s[1..]))
    else if s[0] == '/' then Scan(1 + ScanLine(s[1..]), true)
    else Scan(1, false)
  }

  // match
  function ScanWord(s: string, word: string): (r: Scan)
    ensures r.len <= |s|
  {
    if word <= s then Scan(|word|, true) else Scan(0, false)
  }

  function Checked(kind: Kind, s: Scan): Scanned {
    Scanned(if s.ok then kind else Error, 1 + s.len)
  }

  // The switch of readToken, on a text that does not start with a space.
  function ScanToken(s: string): (r: Scanned)
    requires s != ""
    ensures 1 <= r.len <= |s|
  {
    var c, t := s[0], s[1..];
    if c == '{' then Scanned(ObjectBegin, 1)
    else if c == '}' then Scanned(ObjectEnd, 1)
    else if c == '[' then Scanned(ArrayBegin, 1)
    else if c == ']' then Scanned(ArrayEnd, 1)
    else if c == '"' then Checked(String, ScanString(t))
    else if c == '/' then Checked(Comment, ScanComment(t))
    else if Digit(c) || c == '-' then Scanned(Number, 1 + ScanNumber(t))
    else if c == 't' then Checked(True, ScanWord(t, "rue"))
    else if c == 'f' then Checked(False, ScanWord(t, "alse"))
    else if c == 'n' then Checked(NullWord, ScanWord(t, "ull"))
    else if c == ',' then Scanned(ArraySeparator, 1)
    else if c == ':' then Scanned(MemberSeparator, 1)
    else if c == '\0' then Scanned(EndOfStream, 1)
    else Scanned(Error, 1)
  }

  /** The tokens successive calls of readToken deliver before the end of the document; from there
      on it delivers `EndOfStream` for ever. */
  function Lex(s: string): seq<Token>
    decreases |s|
  {
    var t := SkipSpaces(s);
    if t == "" then []
    else
      var k := ScanToken(t);
      [Token(k.kind, t[..k.len])] + Lex(t[k.len..])
  }

  function Next(ts: seq<Token>): Token {
    if ts == [] then Token(EndOfStream, "") else ts[0]
  }

  function Rest(ts: seq<Token>): (r: seq<Token>)
    ensures |r| <= |ts| && (ts != [] ==> |r| == |ts| - 1)
  {
    if ts == [] then [] else ts[1..]
  }

  function SkipComments(ts: seq<Token>): (r: seq<Token>)
    ensures |r| <= |ts|
    ensures Next(r).kind != Comment
  {
    if ts != [] && ts[0].kind == Comment then SkipComments(ts[1..]) else ts
  }

  // A text that cannot prolong a number written before it.
  predicate Delimited(rest: string) { rest == "" || !NumberChar(rest[0]) }

  predicate Blank(s: string) { forall i | 0 <= i < |s| :: Space(s[i]) }

  lemma {:induction false} LexBlank(blank: string, rest: string)
    requires Blank(blank)
    ensures Lex(blank + rest) == Lex(rest)
  {
    if blank == "" {
      assert blank + rest == rest;
    } else {
      assert (blank + rest)[1..] == blank[1..] + rest;
      assert Blank(blank[1..]);
      LexBlank(blank[1..], rest);
    }
  }

  lemma {:induction false} LexOne(text: string, rest: string, kind: Kind)
    requires text != "" && !Space(text[0])
    requires ScanToken(text + rest) == Scanned(kind, |text|)
    ensures Lex(text + rest) == [Token(kind, text)] + Lex(rest)
  {
    var s := text + rest;
    assert SkipSpaces(s) == s;
    assert s[..|text|] == text && s[|text|..] == rest;
  }

  lemma {:induction false} ScanNumberAll(digits: string, rest: string)
    requires forall i | 0 <= i < |digits| :: NumberChar(digits[i])
    requires Delimited(rest)
    ensures ScanNumber(digits + rest) == |digits|
  {
    if digits == "" {
      assert digits + rest == rest;
    } else {
      assert (digits + rest)[1..] == digits[1..] + rest;
      ScanNumberAll(digits[1..], rest);
    }
  }
}
