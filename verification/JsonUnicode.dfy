/**
 Unicode escapes: section 7 of RFC 8259 says how a scalar value is written with `\u`, sections 3
 and 4 of RFC 3629 which bytes stand for it.  The decoder of json/json_reader.cpp meets both.
 */
module JsonUnicode {
  import opened Sequences
  import opened JsonLexer
  import opened JsonParser

  predicate Scalar(cp: nat) { cp < 0xD800 || 0xE000 <= cp <= 0x10FFFF }

  ////////// The bytes of a scalar value //////////

  predicate Byte(c: char, lo: int, hi: int) { lo <= c as int <= hi }

  predicate Tail(c: char) { Byte(c, 0x80, 0xBF) }

  // The UTF8-char rule of the grammar in section 4 of RFC 3629.
  predicate Utf8Char(b: string) {
    || (|b| == 1 && Byte(b[0], 0, 0x7F))
    || (|b| == 2 && Byte(b[0], 0xC2, 0xDF) && Tail(b[1]))
    || (|b| == 3 && Byte(b[0], 0xE0, 0xE0) && Byte(b[1], 0xA0, 0xBF) && Tail(b[2]))
    || (|b| == 3 && Byte(b[0], 0xE1, 0xEC) && Tail(b[1]) && Tail(b[2]))
    || (|b| == 3 && Byte(b[0], 0xED, 0xED) && Byte(b[1], 0x80, 0x9F) && Tail(b[2]))
    || (|b| == 3 && Byte(b[0], 0xEE, 0xEF) && Tail(b[1]) && Tail(b[2]))
    || (|b| == 4 && Byte(b[0], 0xF0, 0xF0) && Byte(b[1], 0x90, 0xBF) && Tail(b[2]) && Tail(b[3]))
    || (|b| == 4 && Byte(b[0], 0xF1, 0xF3) && Tail(b[1]) && Tail(b[2]) && Tail(b[3]))
    || (|b| == 4 && Byte(b[0], 0xF4, 0xF4) && Byte(b[1], 0x80, 0x8F) && Tail(b[2]) && Tail(b[3]))
  }

  // The bits the table of section 3 of RFC 3629 distributes over the bytes, put together again.
  function Utf8Value(b: string): int
    requires Utf8Char(b)
  {
    if |b| == 1 then b[0] as int
    else if |b| == 2 then (b[0] as int - 0xC0) * 0x40 + (b[1] as int - 0x80)
    else if |b| == 3 then
      (b[0] as int - 0xE0) * 0x1000 + (b[1] as int - 0x80) * 0x40 + (b[2] as int - 0x80)
    else
      (b[0] as int - 0xF0) * 0x40000 + (b[1] as int - 0x80) * 0x1000
      + (b[2] as int - 0x80) * 0x40 + (b[3] as int - 0x80)
  }

  /** codePointToUTF8 gives the one byte sequence the standard assigns to a scalar value. */
  lemma {:induction false} Utf8Correct(cp: nat, b: string)
    requires Scalar(cp)
    ensures Utf8Char(Utf8(cp)) && Utf8Value(Utf8(cp)) == cp
    ensures Utf8Char(b) && Utf8Value(b) == cp ==> b == Utf8(cp)
  {
    Utf8Encodes(cp);
    if Utf8Char(b) && Utf8Value(b) == cp {
      Utf8Unique(b, Utf8(cp));
    }
  }

  lemma {:induction false} Utf8Unique(b: string, c: string)
    requires Utf8Char(b) && Utf8Char(c) && Utf8Value(b) == Utf8Value(c)
    ensures b == c
  {
    assert |b| == |c|;
    assert b[0] == c[0];
    if |b| > 1 { assert b[1] == c[1]; }
    if |b| > 2 { assert b[2] == c[2]; }
    if |b| > 3 { assert b[3] == c[3]; }
  }

  lemma {:induction false} Utf8Encodes(cp: nat)
    requires Scalar(cp)
    ensures Utf8Char(Utf8(cp)) && Utf8Value(Utf8(cp)) == cp
  {
    assert cp / 0x1000 == cp / 0x40 / 0x40 && cp / 0x40000 == cp / 0x1000 / 0x40;
  }

  ////////// Escapes //////////

  const LOWER := "0123456789abcdef"
  const UPPER := "0123456789ABCDEF"

  // The digit of value d, in either case.
  predicate SpellsDigit(c: char, d: int) { 0 <= d < 16 && (LOWER[d] == c || UPPER[d] == c) }

  // Four hexadecimal digits, of either case, that spell n.
  predicate SpellsHex(h: string, n: int) {
    && |h| == 4 && 0 <= n < 0x10000
    && SpellsDigit(h[0], n / 0x1000) && SpellsDigit(h[1], n / 0x100 % 0x10)
    && SpellsDigit(h[2], n / 0x10 % 0x10) && SpellsDigit(h[3], n % 0x10)
  }

  lemma {:induction false} DigitSpelled(c: char, d: int)
    requires SpellsDigit(c, d)
    ensures HexDigit(c) == d && c != '"' && c != '\\'
  {}

  /** `text` writes the scalar value as section 7 of RFC 8259 says: one escape, or above U+FFFF the
      twelve characters of a surrogate pair. */
  predicate Escapes(text: string, cp: nat) {
    if cp < 0x10000 then |text| == 6 && text[..2] == "\\u" && SpellsHex(text[2..], cp)
    else
      && |text| == 12 && text[..2] == "\\u" && text[6..8] == "\\u"
      && SpellsHex(text[2..6], 0xD800 + (cp - 0x10000) / 0x400)
      && SpellsHex(text[8..], 0xDC00 + (cp - 0x10000) % 0x400)
  }

  lemma {:induction false} DecodeSpelled(h: string, n: int, rest: string)
    requires SpellsHex(h, n)
    ensures DecodeHex4(h + rest) == Hex(n)
  {
    var a, b, c, d := n / 0x1000, n / 0x100 % 0x10, n / 0x10 % 0x10, n % 0x10;
    assert n == a * 0x1000 + b * 0x100 + c * 0x10 + d by { FourDigits(n); }
    DigitSpelled(h[0], a);
    DigitSpelled(h[1], b);
    DigitSpelled(h[2], c);
    DigitSpelled(h[3], d);
    hide SpellsDigit, HexDigit;
    assert (h + rest)[..4] == h;
    DecodeDigits4(h);
  }

  lemma {:induction false} FourDigits(n: int)
    requires 0 <= n < 0x10000
    ensures n == n / 0x1000 * 0x1000 + n / 0x100 % 0x10 * 0x100 + n / 0x10 % 0x10 * 0x10 + n % 0x10
  {
    assert n / 0x10 / 0x10 == n / 0x100 && n / 0x100 / 0x10 == n / 0x1000;
  }

  lemma {:induction false} DecodeDigits4(h: string)
    requires |h| == 4 && forall i | 0 <= i < 4 :: HexDigit(h[i]) >= 0
    ensures HexDigits(h, 0)
            == Hex(HexDigit(h[0]) * 0x1000 + HexDigit(h[1]) * 0x100 + HexDigit(h[2]) * 0x10 + HexDigit(h[3]))
  {
    hide HexDigit;
    assert h == [h[0]] + ([h[1]] + ([h[2]] + [h[3]]));
    assert h[1..] == [h[1]] + ([h[2]] + [h[3]]) && h[1..][1..] == [h[2]] + [h[3]] && h[1..][1..][1..] == [h[3]];
    assert h[1..][1..][1..][1..] == "";
    var n := HexDigit(h[0]) * 0x1000 + HexDigit(h[1]) * 0x100 + HexDigit(h[2]) * 0x10 + HexDigit(h[3]);
    var a := HexDigit(h[0]);
    var b := a * 16 + HexDigit(h[1]);
    var c := b * 16 + HexDigit(h[2]);
    assert HexDigits(h[1..][1..][1..], c) == Hex(n);
    assert HexDigits(h[1..][1..], b) == Hex(n);
    assert HexDigits(h[1..], a) == Hex(n);
  }

  lemma {:induction false} DecodeEscape(text: string, cp: nat, rest: string, decoded: string)
    requires Scalar(cp) && Escapes(text, cp)
    ensures DecodeBody(text + rest, decoded) == DecodeBody(rest, decoded + Utf8(cp))
  {
    hide Utf8, DecodePoint;
    var body := text + rest;
    assert body[0] == text[..2][0] && body[1] == text[..2][1];
    assert body[2..] == text[2..] + rest;
    DecodeEscapedPoint(text, cp, rest);
    assert body[|text|..] == rest;
  }

  lemma {:induction false} DecodeEscapedPoint(text: string, cp: nat, rest: string)
    requires Scalar(cp) && Escapes(text, cp)
    ensures DecodePoint(text[2..] + rest) == CodePoint(cp, |text| - 2)
  {
    hide DecodeHex4, SpellsHex;
    var s := text[2..] + rest;
    if cp < 0x10000 {
      DecodeSpelled(text[2..], cp, rest);
    } else {
      var high, low := 0xD800 + (cp - 0x10000) / 0x400, 0xDC00 + (cp - 0x10000) % 0x400;
      assert s == text[2..6] + (text[6..] + rest);
      DecodeSpelled(text[2..6], high, text[6..] + rest);
      assert s[4] == text[6..8][0] && s[5] == text[6..8][1];
      assert s[6..] == text[8..] + rest;
      DecodeSpelled(text[8..], low, rest);
      assert high % 0x400 == (cp - 0x10000) / 0x400 && low % 0x400 == (cp - 0x10000) % 0x400;
    }
  }

  ////////// Strings //////////

  // The letters of the two-character escapes, and what they stand for.
  const LETTERS := "\"\\/bfnrt"
  const MEANT := [0x22, 0x5C, 0x2F, 0x08, 0x0C, 0x0A, 0x0D, 0x09]

  /** What section 7 of RFC 8259 makes a string of: characters that stand for themselves, two-character
      escapes, and `\u` escapes. */
  datatype Piece = Plain(c: char) | Short(k: nat) | Unicode(cp: nat, text: string)

  predicate Valid(p: Piece) {
    match p
    case Plain(c) => c != '"' && c != '\\'
    case Short(k) => k < 8
    case Unicode(cp, text) => Scalar(cp) && Escapes(text, cp)
  }

  function Spelling(p: Piece): string
    requires Valid(p)
  {
    match p
    case Plain(c) => [c]
    case Short(k) => ['\\', LETTERS[k]]
    case Unicode(_, text) => text
  }

  function Meaning(p: Piece): string
    requires Valid(p)
  {
    match p
    case Plain(c) => [c]
    case Short(k) => [MEANT[k] as char]
    case Unicode(cp, _) => Utf8(cp)
  }

  predicate AllValid(ps: seq<Piece>) { forall i | 0 <= i < |ps| :: Valid(ps[i]) }

  function Spellings(ps: seq<Piece>): string
    requires AllValid(ps)
  {
    if ps == [] then "" else Spelling(ps[0]) + Spellings(ps[1..])
  }

  function Meanings(ps: seq<Piece>): string
    requires AllValid(ps)
  {
    if ps == [] then "" else Meaning(ps[0]) + Meanings(ps[1..])
  }

  lemma {:induction false} DecodeShort(k: nat, rest: string, decoded: string)
    requires k < 8
    ensures DecodeBody(['\\', LETTERS[k]] + rest, decoded) == DecodeBody(rest, decoded + [MEANT[k] as char])
  {
    hide DecodePoint;
    var body := ['\\', LETTERS[k]] + rest;
    assert body[2..] == rest;
  }

  lemma {:induction false} DecodePiece(p: Piece, rest: string, decoded: string)
    requires Valid(p)
    ensures DecodeBody(Spelling(p) + rest, decoded) == DecodeBody(rest, decoded + Meaning(p))
  {
    hide Utf8, DecodePoint, Escapes;
    match p
    case Plain(c) => assert ([c] + rest)[1..] == rest;
    case Short(k) => DecodeShort(k, rest, decoded);
    case Unicode(cp, text) => DecodeEscape(text, cp, rest, decoded);
  }

  lemma {:induction false} DecodePieces(ps: seq<Piece>, decoded: string)
    requires AllValid(ps)
    ensures DecodeBody(Spellings(ps), decoded) == Text(decoded + Meanings(ps))
  {
    hide DecodeBody, Valid, Spelling, Meaning;
    if ps == [] {
      DecodeNothing(decoded);
      assert decoded + "" == decoded;
    } else {
      DecodePiece(ps[0], Spellings(ps[1..]), decoded);
      DecodePieces(ps[1..], decoded + Meaning(ps[0]));
      Assoc(decoded, Meaning(ps[0]), Meanings(ps[1..]));
    }
  }

  lemma {:induction false} DecodeNothing(decoded: string)
    ensures DecodeBody("", decoded) == Text(decoded)
  {}

  function StringText(ps: seq<Piece>): string
    requires AllValid(ps)
  {
    "\"" + Spellings(ps) + "\""
  }

  /** For every string section 7 of RFC 8259 allows, plain characters, two-character escapes and `\u` escapes
      in any order and however spelled, decodeString yields exactly what it means, in UTF-8. */
  lemma {:induction false} EscapedTextDecodes(ps: seq<Piece>)
    requires AllValid(ps)
    ensures DecodeString(StringText(ps)) == Text(Meanings(ps))
  {
    hide DecodeBody, Valid, Spellings, Meanings;
    var text := StringText(ps);
    assert text[1..|text| - 1] == Spellings(ps);
    DecodePieces(ps, "");
    assert "" + Meanings(ps) == Meanings(ps);
  }

  /** A backslash before any other letter is refused, whatever came before it. */
  lemma {:induction false} OtherEscapesRefused(ps: seq<Piece>, c: char, rest: string, decoded: string)
    requires AllValid(ps) && c != 'u' && forall k | 0 <= k < 8 :: LETTERS[k] != c
    ensures DecodeBody(Spellings(ps) + ['\\', c] + rest, decoded) == BadText(BadEscape)
  {
    if ps == [] {
      assert "" + ['\\', c] + rest == ['\\', c] + rest;
      assert LETTERS[0] != c && LETTERS[1] != c && LETTERS[2] != c && LETTERS[3] != c;
      assert LETTERS[4] != c && LETTERS[5] != c && LETTERS[6] != c && LETTERS[7] != c;
    } else {
      hide DecodeBody, Valid, Spelling, Meaning;
      var more := Spellings(ps[1..]) + ['\\', c] + rest;
      assert Spellings(ps) + ['\\', c] + rest == Spelling(ps[0]) + more;
      DecodePiece(ps[0], more, decoded);
      OtherEscapesRefused(ps[1..], c, rest, decoded + Meaning(ps[0]));
    }
  }
}
