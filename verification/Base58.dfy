/**
 Base58 and Base58Check of shared/base58.h: byte strings as texts over an alphabet of 58 letters, and
 the same with four check bytes.
 */
module Base58Text {
  import opened Wrappers
  import opened CText
  import opened Numerals
  import opened BigNum

  // pszBase58, in two halves
  const LOW := "ipshnaf39wBUDNEGHJKLM4PQRST7V"
  const HIGH := "WXYZ2bcdeCg65jkm8oFqr1tuvAxyz"
  const ALPHABET := LOW + HIGH

  // strchr(pszBase58, c), as an index
  function Find(c: char, from: nat): (i: int)
    requires from <= |ALPHABET|
    ensures i == -1 || (from <= i < |ALPHABET| && ALPHABET[i] == c)
    ensures i == -1 ==> forall k | from <= k < |ALPHABET| :: ALPHABET[k] != c
    decreases |ALPHABET| - from
  {
    if from == |ALPHABET| then -1 else if ALPHABET[from] == c then from else Find(c, from + 1)
  }

  predicate Letter(c: char) { Find(c, 0) >= 0 }

  function Index(c: char): int { Find(c, 0) }

  predicate Letters(s: string) { forall i | 0 <= i < |s| :: Letter(s[i]) }

  predicate Spaces(s: string) { forall i | 0 <= i < |s| :: IsSpace(s[i]) }

  function Indices(s: string): (r: seq<int>)
    ensures |r| == |s|
  {
    seq(|s|, i requires 0 <= i < |s| => Index(s[i]))
  }

  function Spell(ds: seq<int>): (r: string)
    requires Below(Base58, ds)
    ensures |r| == |ds|
  {
    seq(|ds|, i requires 0 <= i < |ds| => ALPHABET[ds[i]])
  }

  ////////// The alphabet //////////

  lemma {:induction false} LowDistinct(i: nat, j: nat)
    requires i < j < |LOW|
    ensures LOW[i] != LOW[j]
  {}

  lemma {:induction false} HighDistinct(i: nat, j: nat)
    requires i < j < |HIGH|
    ensures HIGH[i] != HIGH[j]
  {}

  lemma {:induction false} LowHighDistinct(i: nat, j: nat)
    requires i < 15 && j < |HIGH|
    ensures LOW[i] != HIGH[j]
  {}

  lemma {:induction false} LowHighDistinct'(i: nat, j: nat)
    requires 15 <= i < |LOW| && j < |HIGH|
    ensures LOW[i] != HIGH[j]
  {}

  // Fifty-eight different letters, none of them a space.
  lemma {:induction false} Distinct(i: nat, j: nat)
    requires i < j < |ALPHABET|
    ensures ALPHABET[i] != ALPHABET[j]
  {
    if j < |LOW| {
      LowDistinct(i, j);
    } else if i >= |LOW| {
      HighDistinct(i - |LOW|, j - |LOW|);
    } else if i < 15 {
      LowHighDistinct(i, j - |LOW|);
    } else {
      LowHighDistinct'(i, j - |LOW|);
    }
  }

  lemma {:induction false} NoSpace(i: nat)
    requires i < |ALPHABET|
    ensures !IsSpace(ALPHABET[i]) && ALPHABET[i] != '\0'
  {
    if i < |LOW| { assert ALPHABET[i] == LOW[i]; } else { assert ALPHABET[i] == HIGH[i - |LOW|]; }
  }

  lemma {:induction false} IndexOf(i: nat)
    requires i < |ALPHABET|
    ensures Index(ALPHABET[i]) == i
  {
    var k := Index(ALPHABET[i]);
    assert k >= 0;
    if k < i {
      Distinct(k, i);
    } else if i < k {
      Distinct(i, k);
    }
  }

  ////////// Texts and bytes //////////

  /** EncodeBase58: the bytes as a number in base 58, with a first letter for every leading zero
      byte. */
  function Encode(b: Octets): string {
    HornerNat(Bytes, b);
    HornerOfDigits(Base58, Horner(Bytes, b));
    Spell(Zeros(LeadingZeros(b)) + Digits(Base58, Horner(Bytes, b)))
  }

  function CountLetters(s: string): (n: nat)
    ensures n <= |s| && Letters(s[..n]) && (n < |s| ==> !Letter(s[n]))
  {
    if s == "" || !Letter(s[0]) then 0
    else
      var n := 1 + CountLetters(s[1..]);
      assert s[..n] == [s[0]] + s[1..][..n - 1];
      n
  }

  lemma {:induction false} IndicesBelow(s: string)
    requires Letters(s)
    ensures Below(Base58, Indices(s))
  {}

  // The bytes a text of letters stands for.
  function Value(s: string): Octets
    requires Letters(s)
  {
    IndicesBelow(s);
    HornerNat(Base58, Indices(s));
    HornerOfDigits(Bytes, Horner(Base58, Indices(s)));
    Zeros(LeadingZeros(Indices(s))) + Digits(Bytes, Horner(Base58, Indices(s)))
  }

  /** DecodeBase58 of a C string. */
  function Decode(s: string): Option<Octets> {
    var t := DropSpaces(CStr(s));
    var n := CountLetters(t);
    if Spaces(t[n..]) then Some(Value(t[..n])) else None
  }

  lemma {:induction false} IndicesOfSpell(ds: seq<int>)
    requires Below(Base58, ds)
    ensures Letters(Spell(ds)) && Indices(Spell(ds)) == ds
  {
    var s := Spell(ds);
    forall i | 0 <= i < |s| ensures Letter(s[i]) && Index(s[i]) == ds[i] { IndexOf(ds[i]); }
  }

  lemma {:induction false} SpellOfIndices(s: string)
    requires Letters(s)
    ensures Below(Base58, Indices(s)) && Spell(Indices(s)) == s
  {}

  lemma {:induction false} SkipsAll(a: string, s: string)
    requires Spaces(a)
    ensures DropSpaces(a + s) == DropSpaces(s)
  {
    if a == "" {
      assert a + s == s;
    } else {
      assert (a + s)[1..] == a[1..] + s;
      SkipsAll(a[1..], s);
    }
  }

  lemma {:induction false} CountsAll(body: string, rest: string)
    requires Letters(body) && (rest == "" || !Letter(rest[0]))
    ensures CountLetters(body + rest) == |body|
  {
    if body == "" {
      assert body + rest == rest;
    } else {
      assert (body + rest)[1..] == body[1..] + rest;
      CountsAll(body[1..], rest);
    }
  }

  lemma {:induction false} LetterNotSpace(c: char)
    requires Letter(c)
    ensures !IsSpace(c) && c != '\0'
  {
    NoSpace(Index(c));
  }

  // A text of letters between spaces.
  ghost predicate Padded(s: string, a: string, body: string, c: string) {
    s == a + body + c && Spaces(a) && Letters(body) && Spaces(c)
  }

  /** Spaces around a text are ignored. */
  lemma {:induction false} DecodePadded(s: string, a: string, body: string, c: string)
    requires Padded(s, a, body, c)
    ensures Decode(s) == Some(Value(body))
  {
    hide Value, Find;
    forall i | 0 <= i < |s| ensures s[i] != '\0' {
      if |a| <= i < |a| + |body| { LetterNotSpace(body[i - |a|]); }
      else if i < |a| { assert IsSpace(a[i]); }
      else { assert IsSpace(c[i - |a| - |body|]); }
    }
    assert CStr(s) == s;
    assert s == a + (body + c);
    SkipsAll(a, body + c);
    if c != "" && Letter(c[0]) { LetterNotSpace(c[0]); }
    var t := DropSpaces(body + c);
    if body == "" {
      assert body + c == c;
      SkipsAll(c, "");
      assert c + "" == c;
      assert t[..0] == body;
    } else {
      LetterNotSpace(body[0]);
      assert t == body + c;
      CountsAll(body, c);
      assert t[..|body|] == body && t[|body|..] == c;
    }
  }

  /** A text is accepted exactly when it is letters between spaces. */
  lemma {:induction false} DecodeAccepts(s: string)
    requires '\0' !in s
    ensures Decode(s).Some? <==> exists a: string, body: string, c: string :: Padded(s, a, body, c)
  {
    hide Value, Find, DropSpaces, Letters, Spaces;
    if Decode(s).Some? {
      var t := DropSpaces(s);
      var n := CountLetters(t);
      var a := SkipSplits(s);
      assert t == t[..n] + t[n..];
      assert a + t[..n] + t[n..] == a + (t[..n] + t[n..]);
      assert Padded(s, a, t[..n], t[n..]);
    }
    if exists a: string, body: string, c: string :: Padded(s, a, body, c) {
      var a: string, body: string, c: string :| Padded(s, a, body, c);
      DecodePadded(s, a, body, c);
    }
  }

  lemma {:induction false} SkipSplits(s: string) returns (a: string)
    ensures s == a + DropSpaces(s) && Spaces(a)
  {
    if s == "" || !IsSpace(s[0]) {
      return "";
    }
    var b := SkipSplits(s[1..]);
    a := [s[0]] + b;
    var t := DropSpaces(s);
    assert DropSpaces(s[1..]) == t;
    hide DropSpaces, IsSpace;
    assert s == [s[0]] + s[1..] && [s[0]] + (b + t) == a + t;
  }

  /** Decoding undoes encoding, for every byte string. */
  lemma {:induction false} DecodeEncode(b: Octets)
    ensures Letters(Encode(b)) && Decode(Encode(b)) == Some(b)
  {
    hide Decode, Find, Horner, Digits;
    HornerNat(Bytes, b);
    var n := Horner(Bytes, b);
    HornerOfDigits(Base58, n);
    var k, ds := LeadingZeros(b), Digits(Base58, n);
    IndicesOfSpell(Zeros(k) + ds);
    assert "" + Encode(b) + "" == Encode(b);
    DecodePadded(Encode(b), "", Encode(b), "");
    assert n == 0 ==> ds == [] by { if n == 0 { DigitsZero(); } }
    LeadingZerosOf(k, ds);
    HornerDropsZeros(Base58, k, ds);
    ZerosAndDigits(Bytes, b);
  }

  lemma {:induction false} DigitsZero()
    ensures Digits(Base58, 0) == [] && Digits(Bytes, 0) == []
  {}

  /** Encoding undoes decoding, for every text of letters. */
  lemma {:induction false} EncodeDecode(s: string)
    requires Letters(s)
    ensures Decode(s) == Some(Value(s)) && Encode(Value(s)) == s
  {
    hide Decode, Find, Horner, Digits;
    assert "" + s + "" == s;
    DecodePadded(s, "", s, "");
    SpellOfIndices(s);
    var ds := Indices(s);
    HornerNat(Base58, ds);
    var n := Horner(Base58, ds);
    HornerOfDigits(Bytes, n);
    var k, bytes := LeadingZeros(ds), Digits(Bytes, n);
    assert n == 0 ==> bytes == [] by { if n == 0 { DigitsZero(); } }
    LeadingZerosOf(k, bytes);
    HornerDropsZeros(Bytes, k, bytes);
    ZerosAndDigits(Base58, ds);
  }

  ////////// The loops //////////

  lemma {:induction false} MpiOfReversed(b: Octets)
    ensures FromVch(Reverse(b) + [0]) == Horner(Bytes, b)
  {
    hide Horner;
    assert Reverse(Reverse(b) + [0]) == [0] + b;
    HornerDropsZero(b);
  }

  method EncodeBase58(b: Octets) returns (str: string)
    ensures str == Encode(b)
  {
    hide Find, Horner, Spell, Digits;
    var bn := FromVch(Reverse(b) + [0]);
    MpiOfReversed(b);
    HornerNat(Bytes, b);
    HornerOfDigits(Base58, bn);
    ghost var all := Digits(Base58, bn);
    str := SpellBackwards(bn);
    var p := 0;
    while p < |b| && b[p] == 0
      invariant p <= LeadingZeros(b) && Below(Base58, Zeros(p) + all)
      invariant Reverse(str) == Spell(Zeros(p) + all)
    {
      SpellCons(0, Zeros(p) + all, str);
      assert [0] + (Zeros(p) + all) == Zeros(p + 1) + all;
      str := str + [ALPHABET[0]];
      p := p + 1;
    }
    str := Reverse(str);
  }

  // The division loop: the letters of a number, last one first
  method SpellBackwards(n: nat) returns (str: string)
    ensures Below(Base58, Digits(Base58, n)) && Reverse(str) == Spell(Zeros(0) + Digits(Base58, n))
  {
    hide Find, Horner, Spell;
    HornerOfDigits(Base58, n);
    ghost var all := Digits(Base58, n);
    ghost var low: seq<int> := [];
    str := "";
    var bn := n;
    assert all == all + low;
    SpellNothing();
    while bn > 0
      invariant Below(Base58, low) && all == Digits(Base58, bn) + low
      invariant Reverse(str) == Spell(low)
    {
      var c := bn % 58;
      assert Digits(Base58, bn) + low == Digits(Base58, bn / 58) + ([c] + low);
      SpellCons(c, low, str);
      low := [c] + low;
      bn := bn / 58;
      str := str + [ALPHABET[c]];
    }
    assert all == low == Zeros(0) + low;
  }

  lemma {:induction false} SpellNothing()
    ensures Spell([]) == ""
  {}

  lemma {:induction false} SpellCons(d: int, ds: seq<int>, str: string)
    requires 0 <= d < 58 && Below(Base58, ds) && Reverse(str) == Spell(ds)
    ensures Below(Base58, [d] + ds) && Reverse(str + [ALPHABET[d]]) == Spell([d] + ds)
  {
    var r, all := Reverse(str + [ALPHABET[d]]), Spell([d] + ds);
    forall i | 0 <= i < |r| ensures r[i] == all[i] {
      if i > 0 { assert r[i] == Reverse(str)[i - 1]; }
    }
  }

  method DecodeBase58(psz: string) returns (r: Option<Octets>)
    ensures r == Decode(psz)
  {
    hide Find, Digits, Horner, DropSpaces, CountLetters, Index, Letter, CStr, LeadingZeros, Indices;
    var s := CStr(psz);
    var start := FirstNonSpace(s);
    ghost var t := s[start..];
    var p, bn := ReadLetters(s, start);
    ghost var body := s[start..p];
    assert t[..|body|] == body && t[|body|..] == s[p..];
    if !Spaces(s[p..]) { return None; }
    IndicesBelow(body);
    HornerNat(Base58, Indices(body));
    var bytes := BigEndian(bn);
    var zeros := CountZeroLetters(s, start, p);
    assert Zeros(zeros) + bytes == Value(body);
    r := Some(Zeros(zeros) + bytes);
  }

  // getvch, without its sign byte, most significant byte first
  method BigEndian(n: nat) returns (bytes: seq<int>)
    ensures bytes == Digits(Bytes, n)
  {
    hide Digits;
    var vch := ToVch(n);
    VchOf(n);
    if |vch| >= 2 && vch[|vch| - 1] == 0 && vch[|vch| - 2] >= 0x80 {
      vch := vch[..|vch| - 1];
    }
    ReverseTwice(Digits(Bytes, n));
    bytes := Reverse(vch);
  }

  method FirstNonSpace(s: string) returns (start: nat)
    ensures start <= |s| && s[start..] == DropSpaces(s)
  {
    start := 0;
    while start < |s| && IsSpace(s[start])
      invariant start <= |s| && DropSpaces(s[start..]) == DropSpaces(s)
    {
      assert s[start..][1..] == s[start + 1..];
      start := start + 1;
    }
  }

  method ReadLetters(s: string, start: nat) returns (p: nat, bn: int)
    requires start <= |s|
    ensures start <= p <= |s| && p - start == CountLetters(s[start..])
    ensures Letters(s[start..p]) && (p < |s| ==> !Letter(s[p]))
    ensures bn == Horner(Base58, Indices(s[start..p]))
  {
    hide Find, Horner, Indices, CountLetters, Letters;
    assert s[start..start] == "" && Letters("") by { NoLetters(); }
    assert Horner(Base58, Indices("")) == 0 by { NoDigits(); }
    p, bn := start, 0;
    while p < |s| && Index(s[p]) >= 0
      invariant start <= p <= |s| && Letters(s[start..p])
      invariant bn == Horner(Base58, Indices(s[start..p]))
    {
      HornerSnoc(s[start..p], s[p]);
      LettersSnoc(s[start..p], s[p]);
      assert s[start..p + 1] == s[start..p] + [s[p]];
      bn := bn * 58 + Index(s[p]);
      p := p + 1;
    }
    assert s[start..] == s[start..p] + s[p..];
    CountsAll(s[start..p], s[p..]);
  }

  lemma {:induction false} NoDigits()
    ensures Horner(Base58, Indices("")) == 0
  {}

  lemma {:induction false} NoLetters()
    ensures Letters("")
  {}

  lemma {:induction false} LettersSnoc(s: string, c: char)
    requires Letters(s) && Letter(c)
    ensures Letters(s + [c])
  {
    hide Letter;
  }

  lemma {:induction false} HornerSnoc(s: string, c: char)
    ensures Horner(Base58, Indices(s + [c])) == 58 * Horner(Base58, Indices(s)) + Index(c)
  {
    hide Find;
    assert Indices(s + [c])[..|s|] == Indices(s);
  }

  method CountZeroLetters(s: string, start: nat, ghost p: nat) returns (zeros: nat)
    requires start <= p <= |s| && Letters(s[start..p]) && (p < |s| ==> !Letter(s[p]))
    ensures zeros == LeadingZeros(Indices(s[start..p]))
  {
    zeros := 0;
    while start + zeros < |s| && s[start + zeros] == ALPHABET[0]
      invariant zeros <= LeadingZeros(Indices(s[start..p])) && start + zeros <= p
    {
      ZeroLetter(s[start..p], zeros, s, start, p);
      zeros := zeros + 1;
    }
    ZeroLetterEnds(s[start..p], zeros, s, start, p);
  }

  // getvch of a number that is not negative: its bytes, with a zero on top when the top bit is set
  lemma {:induction false} VchOf(n: nat)
    ensures var ds, vch := Digits(Bytes, n), ToVch(n);
            if |vch| >= 2 && vch[|vch| - 1] == 0 && vch[|vch| - 2] >= 0x80
            then vch[..|vch| - 1] == Reverse(ds) else vch == Reverse(ds)
  {
    HornerOfDigits(Bytes, n);
    DigitsZero();
    hide Digits, Horner;
    var ds, vch := Digits(Bytes, n), ToVch(n);
    if ds != [] {
      if ds[0] >= 128 {
        assert ToMpi(n) == [0] + ds;
        assert vch[..|vch| - 1] == Reverse(ds);
      } else {
        assert vch[|vch| - 1] == ds[0];
      }
    }
  }

  lemma {:induction false} ZeroLetter(body: string, k: nat, s: string, start: nat, p: nat)
    requires start <= p <= |s| && body == s[start..p] && Letters(body)
    requires p < |s| ==> !Letter(s[p])
    requires k <= LeadingZeros(Indices(body)) && start + k < |s| && s[start + k] == ALPHABET[0]
    ensures k < LeadingZeros(Indices(body)) && start + k < p
  {
    hide Find;
    IndexOf(0);
    if start + k < p { assert Indices(body)[k] == Index(s[start + k]); }
  }

  lemma {:induction false} ZeroLetterEnds(body: string, k: nat, s: string, start: nat, p: nat)
    requires start <= p <= |s| && body == s[start..p] && Letters(body)
    requires k <= LeadingZeros(Indices(body))
    requires start + k >= |s| || s[start + k] != ALPHABET[0]
    ensures k == LeadingZeros(Indices(body))
  {
    if k < |body| { assert Indices(body)[k] == Index(body[k]) && s[start + k] == body[k]; }
  }

  ////////// With check bytes //////////

  type Check = c: Octets | |c| == 4 witness [0, 0, 0, 0]

  // The first four bytes of the hash, which is not part of this model.
  type Hash = Octets -> Check

  function EncodeCheck(hash: Hash, b: Octets): string {
    Encode(b + hash(b))
  }

  function DecodeCheck(hash: Hash, s: string): Option<Octets> {
    match Decode(s)
    case None => None
    case Some(b) =>
      if |b| < 4 then None
      else
        var data: Octets, check := b[..|b| - 4], b[|b| - 4..];
        if hash(data) == check then Some(data) else None
  }

  /** A text with its check bytes gives the bytes back. */
  lemma {:induction false} CheckRoundTrip(hash: Hash, b: Octets)
    ensures DecodeCheck(hash, EncodeCheck(hash, b)) == Some(b)
  {
    hide Encode, Decode;
    var all: Octets := b + hash(b);
    DecodeEncode(all);
    assert all[..|all| - 4] == b && all[|all| - 4..] == hash(b);
  }

  /** A text is accepted with its check bytes if and only if it is the text of some bytes and their hash. */
  lemma {:induction false} CheckAccepts(hash: Hash, s: string, b: Octets)
    ensures DecodeCheck(hash, s) == Some(b) <==> Decode(s) == Some(b + hash(b))
  {
    hide Decode;
    var all: Octets := b + hash(b);
    assert all[..|all| - 4] == b && all[|all| - 4..] == hash(b);
    match Decode(s)
    case None =>
    case Some(c) => if |c| >= 4 { assert c == c[..|c| - 4] + c[|c| - 4..]; }
  }

  /** What a text means: read in base 58, with the letters' places in the alphabet for digits, it is the number
      the bytes are in base 256, and it starts with as many first letters as they with zeros. */
  lemma {:induction false} EncodeMeans(b: Octets)
    ensures var s := Encode(b);
            && |Indices(s)| == |s|
            && (forall i | 0 <= i < |s| :: 0 <= Indices(s)[i] < 58 && s[i] == ALPHABET[Indices(s)[i]])
            && Horner(Base58, Indices(s)) == Horner(Bytes, b)
            && LeadingZeros(Indices(s)) == LeadingZeros(b)
  {
    hide Decode, Find, Horner, Digits;
    HornerNat(Bytes, b);
    var n := Horner(Bytes, b);
    HornerOfDigits(Base58, n);
    var k, ds := LeadingZeros(b), Digits(Base58, n);
    IndicesOfSpell(Zeros(k) + ds);
    assert n == 0 ==> ds == [] by { if n == 0 { DigitsZero(); } }
    LeadingZerosOf(k, ds);
    HornerDropsZeros(Base58, k, ds);
  }
}
