/**
 Reader of json/json_reader.cpp: a cursor over the document, a stack of nodes under construction
 and a list of errors.  A node on the stack is the value its pointer refers to; popping a child
 writes it back through the reference its parent gave out.
 */
module JsonReader {
  import opened Wrappers
  import opened CText
  import opened JsonValue
  import opened JsonLexer
  import opened JsonParser

  class Reader {
    const cfg: Config
    var document: string
    var current: nat
    var nodes: seq<Value>
    var errors: seq<ErrorInfo>

    constructor (cfg: Config)
      ensures this.cfg == cfg && Valid()
    {
      this.cfg := cfg;
      document, current, nodes, errors := "", 0, [], [];
    }

    // The cursor stays within the document.
    ghost predicate Valid()
      reads this
    {
      current <= |document|
    }

    // The text left to read.
    ghost function Left(): string
      requires Valid()
      reads this
    {
      document[current..]
    }

    ghost function Ahead(): seq<Token>
      requires Valid()
      reads this
    {
      Lex(document[current..])
    }

    ////////// Characters //////////

    method GetNextChar() returns (c: char)
      requires Valid()
      modifies this`current
      ensures Valid()
      ensures old(current) == |document| ==> c == '\0' && current == old(current)
      ensures old(current) < |document| ==> c == document[old(current)] && current == old(current) + 1
    {
      if current == |document| { return '\0'; }
      c := document[current];
      current := current + 1;
    }

    method SkipSpaces()
      requires Valid()
      modifies this`current
      ensures Valid() && old(current) <= current
      ensures Left() == JsonLexer.SkipSpaces(old(Left()))
    {
      while current != |document|
        invariant old(current) <= current <= |document|
        invariant JsonLexer.SkipSpaces(document[current..]) == JsonLexer.SkipSpaces(old(Left()))
      {
        if !Space(document[current]) { break; }
        assert document[current..][1..] == document[current + 1..];
        current := current + 1;
      }
    }

    method Match(word: string) returns (ok: bool)
      requires Valid()
      modifies this`current
      ensures Valid() && old(current) <= current
      ensures Scan(current - old(current), ok) == ScanWord(old(Left()), word)
    {
      if |document| - current < |word| { return false; }
      var index := |word|;
      while index > 0
        invariant 0 <= index <= |word|
        invariant forall k | index <= k < |word| :: document[current + k] == word[k]
      {
        index := index - 1;
        if document[current + index] != word[index] {
          assert Left()[index] == document[current + index];
          return false;
        }
      }
      current := current + |word|;
      return true;
    }

    method ReadNumber()
      requires Valid()
      modifies this`current
      ensures Valid()
      ensures current == old(current) + ScanNumber(old(Left()))
    {
      while current != |document|
        invariant old(current) <= current <= |document|
        invariant ScanNumber(old(Left())) == current - old(current) + ScanNumber(document[current..])
      {
        if !NumberChar(document[current]) { break; }
        assert document[current..][1..] == document[current + 1..];
        current := current + 1;
      }
    }

    method ReadString() returns (ok: bool)
      requires Valid()
      modifies this`current
      ensures Valid() && old(current) <= current
      ensures Scan(current - old(current), ok) == ScanString(old(Left()))
    {
      var c := '\0';
      while current != |document| && c != '"'
        invariant old(current) <= current <= |document|
        invariant c != '"' ==>
                    ScanString(old(Left())) == Shift(current - old(current), ScanString(document[current..]))
        invariant c == '"' ==> ScanString(old(Left())) == Scan(current - old(current), true)
        decreases |document| - current
      {
        ghost var left := document[current..];
        c := GetNextChar();
        assert left[1..] == document[current..];
        if c == '\\' {
          var _ := GetNextChar();
          assert |left| > 1 ==> left[2..] == document[current..];
        }
      }
      return c == '"';
    }

    method ReadCStyleComment() returns (ok: bool)
      requires Valid()
      modifies this`current
      ensures Valid() && old(current) <= current
      ensures Scan(current - old(current), ok) == ScanCStyle(old(Left()))
    {
      while current != |document|
        invariant old(current) <= current <= |document|
        invariant ScanCStyle(old(Left())) == Shift(current - old(current), ScanCStyle(document[current..]))
        decreases |document| - current
      {
        ghost var left := document[current..];
        var c := GetNextChar();
        assert left[1..] == document[current..];
        if c == '*' && current < |document| && document[current] == '/' {
          assert ScanCStyle(left) == Scan(2, true);
          var _ := GetNextChar();
          return true;
        }
      }
      var c := GetNextChar();
      return c == '/';
    }

    method ReadLineComment()
      requires Valid()
      modifies this`current
      ensures Valid()
      ensures current == old(current) + ScanLine(old(Left()))
    {
      while current != |document|
        invariant old(current) <= current <= |document|
        invariant ScanLine(old(Left())) == current - old(current) + ScanLine(document[current..])
        decreases |document| - current
      {
        ghost var left := document[current..];
        var c := GetNextChar();
        assert left[1..] == document[current..];
        if c == '\r' || c == '\n' { return; }
      }
    }

    method ReadComment() returns (ok: bool)
      requires Valid()
      modifies this`current
      ensures Valid() && old(current) <= current
      ensures Scan(current - old(current), ok) == ScanComment(old(Left()))
    {
      ghost var left := Left();
      var c := GetNextChar();
      assert left != "" ==> left[1..] == Left();
      ok := false;
      if c == '*' {
        ok := ReadCStyleComment();
      } else if c == '/' {
        ReadLineComment();
        ok := true;
      }
    }

    ////////// Tokens //////////

    // The switch of readToken.
    method ReadKind() returns (kind: Kind)
      requires Valid()
      modifies this`current
      ensures Valid() && old(current) <= current
      ensures old(Left()) == "" ==> kind == EndOfStream && current == old(current)
      ensures old(Left()) != "" ==> ScanToken(old(Left())) == Scanned(kind, current - old(current))
      ensures kind == String ==> current - old(current) >= 2
    {
      hide ScanString, ScanComment, ScanNumber, ScanWord;
      ghost var left := Left();
      var c := GetNextChar();
      assert left != "" ==> left[1..] == Left();
      var ok := true;
      kind := EndOfStream;
      match c {
        case '{' => kind := ObjectBegin;
        case '}' => kind := ObjectEnd;
        case '[' => kind := ArrayBegin;
        case ']' => kind := ArrayEnd;
        case '"' => kind := String; ok := ReadString();
        case '/' => kind := Comment; ok := ReadComment();
        case 't' => kind := True; ok := Match("rue");
        case 'f' => kind := False; ok := Match("alse");
        case 'n' => kind := NullWord; ok := Match("ull");
        case ',' => kind := ArraySeparator;
        case ':' => kind := MemberSeparator;
        case '\0' =>
        case _ =>
          if Digit(c) || c == '-' {
            kind := Number;
            ReadNumber();
          } else {
            ok := false;
          }
      }
      if !ok { kind := Error; }
    }

    method ReadToken() returns (token: Token)
      requires Valid()
      modifies this`current
      ensures Valid() && old(current) <= current
      ensures token == Next(old(Ahead())) && Ahead() == Rest(old(Ahead()))
      ensures token.kind != EndOfStream ==> old(current) < current && token.text != ""
      ensures token.kind == String ==> |token.text| >= 2
    {
      hide ScanToken;
      SkipSpaces();
      var start := current;
      ghost var left := Left();
      var kind := ReadKind();
      token := Token(kind, document[start..current]);
      assert left[..current - start] == document[start..current];
      assert left[current - start..] == Left();
    }

    // skipCommentTokens when comments are allowed, and the comment loops of readObject and readArray
    method ReadTokenSkippingComments() returns (token: Token)
      requires Valid()
      modifies this`current
      ensures Valid() && old(current) <= current
      ensures token == Next(SkipComments(old(Ahead()))) && Ahead() == Rest(SkipComments(old(Ahead())))
      ensures token.kind != EndOfStream ==> old(current) < current && token.text != ""
      ensures token.kind == String ==> |token.text| >= 2
    {
      hide Lex;
      ghost var ts := Ahead();
      token := ReadToken();
      while token.kind == Comment
        invariant old(current) <= current <= |document|
        invariant SkipComments(ts) == SkipComments(old(Ahead())) && token == Next(ts) && Ahead() == Rest(ts)
        invariant token.kind != EndOfStream ==> old(current) < current && token.text != ""
        invariant token.kind == String ==> |token.text| >= 2
        decreases |document| - current, if token.kind == Comment then 1 else 0
      {
        ts := Ahead();
        token := ReadToken();
      }
    }

    ////////// Token contents //////////

    method DecodeHex4(s: string) returns (r: Hex)
      ensures r == JsonParser.DecodeHex4(s)
    {
      if |s| < 4 { return BadHex(FourDigitsExpected); }
      var unicode: nat := 0;
      for index := 0 to 4
        invariant HexDigits(s[index..4], unicode) == HexDigits(s[..4], 0)
      {
        assert s[index..4][1..] == s[index + 1..4];
        var d := HexDigit(s[index]);
        if d < 0 { return BadHex(HexDigitExpected); }
        unicode := unicode * 16 + d;
      }
      r := Hex(unicode);
    }

    method DecodePoint(s: string) returns (r: CodePoint)
      ensures r == JsonParser.DecodePoint(s)
    {
      var high := DecodeHex4(s);
      if high.BadHex? { return BadPoint(high.message); }
      var unicode, len := high.value, 4;
      if 0xD800 <= unicode <= 0xDBFF {
        if |s| - 4 < 6 { return BadPoint(SurrogateSixExpected); }
        if s[4] != '\\' || s[5] != 'u' { return BadPoint(SurrogateExpected); }
        var low := DecodeHex4(s[6..]);
        if low.BadHex? { return BadPoint(low.message); }
        unicode, len := 0x10000 + unicode % 0x400 * 0x400 + low.value % 0x400, 10;
      }
      r := CodePoint(unicode, len);
    }

    method DecodeString(text: string) returns (r: Text)
      requires |text| >= 2
      ensures r == JsonParser.DecodeString(text)
    {
      hide JsonParser.DecodePoint, Utf8, Unescape;
      var end := |text| - 1;
      var i, decoded := 1, "";
      while i != end
        invariant 1 <= i <= end
        invariant DecodeBody(text[i..end], decoded) == DecodeBody(text[1..end], "")
        decreases end - i
      {
        ghost var body := text[i..end];
        var c := text[i];
        i := i + 1;
        assert body[1..] == text[i..end];
        if c == '"' {
          break;
        } else if c == '\\' {
          if i == end { return BadText(EmptyEscape); }
          var escape := text[i];
          i := i + 1;
          assert body[2..] == text[i..end];
          if escape == 'u' {
            var point := DecodePoint(text[i..end]);
            if point.BadPoint? { return BadText(point.message); }
            i := i + point.len;
            assert body[2 + point.len..] == text[i..end];
            decoded := decoded + Utf8(point.value);
          } else {
            var plain := Unescape(escape);
            if plain.None? { return BadText(BadEscape); }
            decoded := decoded + [plain.value];
          }
        } else {
          decoded := decoded + [c];
        }
      }
      r := Text(decoded);
    }

    // What decodeNumber stores in the node; nothing when the text is not a number.
    method DecodeNumber(text: string) returns (r: Option<Value>)
      requires text != ""
      ensures r == JsonParser.DecodeNumber(cfg.scan, text)
    {
      var isDouble := false;
      for i := 0 to |text|
        invariant IsDouble(text, true) == (isDouble || IsDouble(text[i..], i == 0))
      {
        assert text[i..][1..] == text[i + 1..];
        var c := text[i];
        isDouble := isDouble || c == '.' || c == 'e' || c == 'E' || c == '+' || (c == '-' && i != 0);
      }
      if isDouble { return DecodeDouble(cfg.scan, text); }
      var isNegative := text[0] == '-';
      var i := if isNegative then 1 else 0;
      var threshold := Threshold(isNegative);
      var value: nat := 0;
      ghost var whole := DecodeDigits(text[i..], 0, threshold);
      while i < |text|
        invariant i <= |text|
        invariant DecodeDigits(text[i..], value, threshold) == whole
      {
        var c := text[i];
        assert text[i..][1..] == text[i + 1..];
        i := i + 1;
        if !Digit(c) { return None; }
        if value >= threshold { return DecodeDouble(cfg.scan, text); }
        value := value * 10 + (c as int - '0' as int);
      }
      var n: int := value;
      r := Some(if isNegative then Int(-n) else if value <= MAX_INT then Int(value) else UInt(value));
    }

    ////////// Values //////////

    ghost predicate HasNode()
      reads this
    {
      Valid() && nodes != []
    }

    // currentValue()
    function Top(): Value
      requires nodes != []
      reads this
    {
      nodes[|nodes| - 1]
    }

    method SetTop(v: Value)
      requires nodes != []
      modifies this`nodes
      ensures nodes == old(nodes)[|old(nodes)| - 1 := v]
    {
      nodes := nodes[|nodes| - 1 := v];
    }

    method AddError(m: Message, token: Token)
      modifies this`errors
      ensures errors == old(errors) + [ErrorInfo(m, token)]
    {
      errors := errors + [ErrorInfo(m, token)];
    }

    method RecoverFromError(kind: Kind)
      requires Valid()
      modifies this`current, this`errors
      ensures Valid() && old(current) <= current && errors == old(errors)
      ensures Ahead() == Recover(old(Ahead()), kind)
    {
      hide Lex;
      var errorCount := |errors|;
      ghost var ts := Ahead();
      var skip := ReadToken();
      while skip.kind != kind && skip.kind != EndOfStream
        invariant old(current) <= current <= |document|
        invariant errors == old(errors)
        invariant Recover(ts, kind) == Recover(old(Ahead()), kind) && skip == Next(ts) && Ahead() == Rest(ts)
        decreases |document| - current, if skip.kind == EndOfStream then 0 else 1
      {
        ts := Ahead();
        skip := ReadToken();
      }
      errors := errors[..errorCount];
    }

    // What one of the read methods does to the reader, as the result of the parsing function.
    twostate predicate Did(ok: bool, r: Result)
      requires old(Valid()) && Valid() && old(nodes) != []
      reads this
    {
      && ok == r.ok && Ahead() == r.rest
      && nodes == old(nodes)[|old(nodes)| - 1 := r.value]
      && errors == old(errors) + r.errors
    }

    method ReadValue() returns (ok: bool)
      requires HasNode()
      modifies this`current, this`nodes, this`errors
      ensures HasNode() && old(current) <= current && (ok ==> old(current) < current)
      ensures Did(ok, JsonParser.ReadValue(cfg, old(Ahead()), old(Top())))
      decreases |document| - current, 1
    {
      hide Lex, ReadElements, ReadMembers, ReadScalar;
      var token;
      if cfg.features.allowComments {
        token := ReadTokenSkippingComments();
      } else {
        token := ReadToken();
      }
      match token.kind {
        case ObjectBegin => ok := ReadObject();
        case ArrayBegin => ok := ReadArray();
        case _ => ok := SetScalar(token);
      }
    }

    // The cases of readValue that read no further token.
    method SetScalar(token: Token) returns (ok: bool)
      requires HasNode() && (token.kind != EndOfStream ==> token.text != "")
      requires token.kind == String ==> |token.text| >= 2
      modifies this`nodes, this`errors
      ensures HasNode() && Did(ok, ReadScalar(cfg, token, old(Ahead()), old(Top())))
    {
      hide Lex, JsonParser.DecodeNumber, JsonParser.DecodeString;
      match token.kind {
        case Number =>
          var v := DecodeNumber(token.text);
          ok := v.Some?;
          if ok { SetTop(v.value); } else { AddError(NotANumber, token); }
        case String =>
          var s := DecodeString(token.text);
          ok := s.Text?;
          if ok { SetTop(Str(s.s)); } else { AddError(s.message, token); }
        case True => ok := true; SetTop(Bool(true));
        case False => ok := true; SetTop(Bool(false));
        case NullWord => ok := true; SetTop(Null);
        case _ => ok := false; AddError(ValueExpected, token);
      }
    }

    // Push the node a reference gives, read a value into it, and pop it.
    method ReadChild(node: Value) returns (ok: bool, child: Value)
      requires HasNode()
      modifies this`current, this`nodes, this`errors
      ensures HasNode() && old(current) <= current && (ok ==> old(current) < current)
      ensures nodes == old(nodes)
      ensures var r := JsonParser.ReadValue(cfg, old(Ahead()), node);
              ok == r.ok && child == r.value && Ahead() == r.rest && errors == old(errors) + r.errors
      decreases |document| - current, 2
    {
      hide Lex, JsonParser.ReadValue;
      nodes := nodes + [node];
      ok := ReadValue();
      child := Top();
      nodes := nodes[..|nodes| - 1];
    }

    method ReadArray() returns (ok: bool)
      requires HasNode()
      modifies this`current, this`nodes, this`errors
      ensures HasNode() && old(current) <= current
      ensures Did(ok, if Next(old(Ahead())).kind == ArrayEnd then Result(true, Array([]), Rest(old(Ahead())), [])
                      else ReadElements(cfg, old(Ahead()), []))
      decreases |document| - current, 3
    {
      hide Lex, JsonParser.ReadValue, Recover, PutSlot;
      ghost var ts := Ahead();
      SetTop(Array([]));
      SkipSpaces();
      LexSkip(old(Left()));
      if current < |document| && document[current] == ']' {
        var _ := ReadToken();
        return true;
      }
      var index := 0;
      while true
        invariant HasNode() && old(current) <= current
        invariant |nodes| == |old(nodes)| && Top().Array? && |Top().slots| == index
        invariant nodes == old(nodes)[|old(nodes)| - 1 := Top()]
        invariant errors == old(errors)
        invariant ReadElements(cfg, Ahead(), Top().slots) == ReadElements(cfg, ts, [])
        decreases |document| - current
      {
        ghost var ahead := Ahead();
        var slots := Top().slots;
        var child;
        ok, child := ReadChild(Null);
        SetTop(Array(PutSlot(slots, index, child)));
        index := index + 1;
        if !ok {
          RecoverFromError(ArrayEnd);
          return;
        }
        var token := ReadTokenSkippingComments();
        if token.kind == ArrayEnd { return true; }
      }
    }

    method ReadObject() returns (ok: bool)
      requires HasNode()
      modifies this`current, this`nodes, this`errors
      ensures HasNode() && old(current) <= current
      ensures Did(ok, ReadMembers(cfg, old(Ahead()), "", []))
      decreases |document| - current, 3
    {
      hide Lex, JsonParser.ReadMember, JsonParser.DecodeString;
      ghost var ts := Ahead();
      SetTop(Object([]));
      var name := "";
      while true
        invariant HasNode() && old(current) <= current
        invariant |nodes| == |old(nodes)| && Top().Object?
        invariant nodes == old(nodes)[|old(nodes)| - 1 := Top()]
        invariant errors == old(errors)
        invariant ReadMembers(cfg, Ahead(), name, Top().members) == ReadMembers(cfg, ts, "", [])
        decreases |document| - current
      {
        var tokenName := ReadTokenSkippingComments();
        if tokenName.kind == ObjectEnd && name == "" { return true; }
        if tokenName.kind != String {
          ok := AddErrorAndRecover(MissingObjectEndOrName, tokenName, ObjectEnd);
          return;
        }
        var decoded := DecodeString(tokenName.text);
        if decoded.BadText? {
          ok := AddErrorAndRecover(decoded.message, tokenName, ObjectEnd);
          return;
        }
        name := decoded.s;
        var more;
        ok, more := ReadMember(name);
        if !more { return; }
      }
    }

    static predicate Separates(kind: Kind) {
      kind == ObjectEnd || kind == ArraySeparator || kind == Comment
    }

    // The token after a member value, and the first one that is not a comment.
    method ReadSeparator() returns (first: Token, last: Token)
      requires Valid()
      modifies this`current
      ensures Valid() && old(current) <= current
      ensures first == Next(old(Ahead()))
      ensures if Separates(first.kind) then
                last == Next(SkipComments(old(Ahead()))) && Ahead() == Rest(SkipComments(old(Ahead())))
              else Ahead() == Rest(old(Ahead()))
    {
      hide Lex;
      first := ReadToken();
      last := first;
      if first.kind == Comment {
        last := ReadTokenSkippingComments();
      }
    }

    // The rest of the loop body of readObject, from the colon on; `more` when the loop goes on.
    method ReadMember(name: string) returns (ok: bool, more: bool)
      requires HasNode() && Top().Object?
      modifies this`current, this`nodes, this`errors
      ensures HasNode() && old(current) <= current
      ensures var r := JsonParser.ReadMember(cfg, old(Ahead()), name, old(Top().members));
              if more then
                && Top().Object? && nodes == old(nodes)[|old(nodes)| - 1 := Top()] && errors == old(errors)
                && ReadMembers(cfg, Ahead(), name, Top().members) == r
              else Did(ok, r)
      decreases |document| - current, 3
    {
      hide Lex, JsonParser.ReadValue, ReadMembers, GetMember, PutMember, Recover, CStr;
      more := false;
      var colon := ReadToken();
      if colon.kind != MemberSeparator {
        ok := AddErrorAndRecover(MissingColon, colon, ObjectEnd);
        return;
      }
      var members, key := Top().members, CStr(name);
      var child;
      ok, child := ReadChild(GetMember(members, key));
      SetTop(Object(PutMember(members, key, child)));
      if !ok {
        RecoverFromError(ObjectEnd);
        return;
      }
      var first, comma := ReadSeparator();
      if !Separates(first.kind) {
        ok := AddErrorAndRecover(MissingCommaOrObjectEnd, first, ObjectEnd);
        return;
      }
      more := comma.kind != ObjectEnd;
    }

    method AddErrorAndRecover(m: Message, token: Token, kind: Kind) returns (ok: bool)
      requires Valid()
      modifies this`current, this`errors
      ensures Valid() && old(current) <= current && !ok
      ensures errors == old(errors) + [ErrorInfo(m, token)]
      ensures Ahead() == Recover(old(Ahead()), kind)
    {
      AddError(m, token);
      RecoverFromError(kind);
      ok := false;
    }

    /** parse: on every document it terminates with the cursor inside the document, delivers what
        the parsing function says, and returns true exactly when the error list is empty. */
    method Parse(document: string, root: Value) returns (ok: bool, value: Value)
      modifies this
      ensures Valid() && this.document == document
      ensures var r := JsonParser.Parse(cfg, document, root);
              ok == r.ok && value == r.value && errors == r.errors && Ahead() == r.rest
      ensures ok <==> errors == []
      ensures nodes == [value]
    {
      hide Lex, JsonParser.ReadValue;
      this.document, current, errors := document, 0, [];
      while nodes != []
        modifies this`nodes
      {
        nodes := nodes[..|nodes| - 1];
      }
      nodes := [root];
      assert document[0..] == document;
      ok := ReadValue();
      value := Top();
      if cfg.features.allowComments {
        var _ := ReadTokenSkippingComments();
      } else {
        var _ := ReadToken();
      }
      if cfg.features.strictRoot && !value.Array? && !value.Object? {
        AddError(RootNotContainer, Token(Error, document));
        ok := false;
      }
    }
  }

  lemma {:induction false} LexSkip(s: string)
    ensures Lex(JsonLexer.SkipSpaces(s)) == Lex(s)
    ensures var t := JsonLexer.SkipSpaces(s);
            (t != "" && t[0] == ']') <==> Next(Lex(s)).kind == ArrayEnd
  {
    hide ScanString, ScanComment, ScanWord, ScanNumber;
    var t := JsonLexer.SkipSpaces(s);
    assert JsonLexer.SkipSpaces(t) == t;
  }
}
