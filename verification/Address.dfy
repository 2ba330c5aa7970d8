/**
 Addresses: a version byte and data, written in Base58Check, as CBase58Data of shared/base58.h and
 src/NewcoinAddress/NewcoinAddress.cpp hold and read them.  The hash, the dictionary of words and the
 making of a key from a pass phrase are parameters.
 */
module Address {
  import opened Wrappers
  import opened CText
  import opened Numerals
  import opened Base58Text
  import Keys = Rfc1751Keys

  const VER_NONE := 1
  const VER_NODE_PUBLIC := 28
  const VER_NODE_PRIVATE := 32
  const VER_ACCOUNT_ID := 0
  const VER_ACCOUNT_PUBLIC := 35
  const VER_ACCOUNT_PRIVATE := 34
  const VER_FAMILY_GENERATOR := 41
  const VER_FAMILY_SEED := 33

  /** ToString */
  function ToText(hash: Hash, version: byte, data: Octets): string {
    EncodeCheck(hash, [version] + data)
  }

  // The data SetString takes from a text when it wants this version.
  function Accept(hash: Hash, text: string, version: byte): Option<Octets> {
    match DecodeCheck(hash, text)
    case None => None
    case Some(b) => if b == [] || b[0] != version then None else Some(b[1..])
  }

  /** An address's text is accepted by the setter of its own version, which restores its data, and by no
      other. */
  lemma {:induction false} OwnVersionOnly(hash: Hash, version: byte, data: Octets, wanted: byte)
    ensures Accept(hash, ToText(hash, version, data), wanted) == if wanted == version then Some(data) else None
  {
    hide EncodeCheck, DecodeCheck;
    CheckRoundTrip(hash, [version] + data);
    assert ([version] + data)[1..] == data;
  }

  /** Whatever a setter accepts is the text of the address it sets, between spaces. */
  lemma {:induction false} AcceptedIsText(hash: Hash, s: string, version: byte) returns (a: string, c: string)
    requires '\0' !in s && Accept(hash, s, version).Some?
    ensures Spaces(a) && Spaces(c)
    ensures s == a + ToText(hash, version, Accept(hash, s, version).value) + c
  {
    hide Encode, Decode, Padded, Value, Spaces;
    DecodeAccepts(s);
    assert exists a: string, body: string, c: string :: Padded(s, a, body, c);
    var a', body, c' :| Padded(s, a', body, c');
    a, c := a', c';
    PaddedParts(s, a, body, c);
    DecodePadded(s, a, body, c);
    EncodeDecode(body);
    var b := Value(body);
    var data := Accept(hash, s, version).value;
    assert b[..|b| - 4] == [version] + data;
    assert b == b[..|b| - 4] + b[|b| - 4..];
  }

  lemma {:induction false} PaddedParts(s: string, a: string, body: string, c: string)
    requires Padded(s, a, body, c)
    ensures s == a + body + c && Spaces(a) && Letters(body) && Spaces(c)
  {}

  ////////// Seeds //////////

  function ToBits(n: byte): bv8 { n as bv8 }

  function ToByte(b: bv8): (n: byte) { b as int }

  lemma {:induction false} ToBitsToByte(b: bv8)
    ensures ToBits(ToByte(b)) == b
  {}

  lemma {:induction false} ToByteNext(b: bv8)
    requires ToByte(b) < 255
    ensures ToByte(b + 1) == ToByte(b) + 1
  {}

  lemma {:induction false} Counted(n: byte) returns (b: bv8)
    ensures ToByte(b) == n
    decreases n
  {
    b := 0;
    if n > 0 {
      hide ToByte;
      b := Counted(n - 1);
      ToByteNext(b);
      b := b + 1;
    }
  }

  lemma {:induction false} ToByteToBits(n: byte)
    ensures ToByte(ToBits(n)) == n
  {
    hide ToByte, ToBits;
    var b := Counted(n);
    ToBitsToByte(b);
  }

  type Seed = s: Octets | |s| == 16 witness Zeros(16)

  // uint128 of a vector: a vector of another length counts as zero
  function Seed128(data: Octets): Seed {
    if |data| == 16 then data else Zeros(16)
  }

  // The seed is kept with its last byte first.
  function ToKey(seed: Octets): (r: seq<bv8>)
    ensures |r| == |seed|
  {
    seq(|seed|, i requires 0 <= i < |seed| => ToBits(seed[|seed| - 1 - i]))
  }

  function FromKey(key: seq<bv8>): (r: Octets)
    ensures |r| == |key|
  {
    seq(|key|, i requires 0 <= i < |key| => ToByte(key[|key| - 1 - i]))
  }

  lemma {:induction false} FromKeyToKey(seed: Octets)
    ensures FromKey(ToKey(seed)) == seed
  {
    hide ToBits, ToByte;
    var r := FromKey(ToKey(seed));
    forall i | 0 <= i < |seed| ensures r[i] == seed[i] { ToByteToBits(seed[i]); }
  }

  /** The words are of the seed's bytes from the last to the first. */
  lemma {:induction false} KeyReversed(seed: Octets, i: nat)
    requires i < |seed|
    ensures ToByte(ToKey(seed)[i]) == seed[|seed| - 1 - i]
  {
    hide ToBits, ToByte;
    ToByteToBits(seed[|seed| - 1 - i]);
  }

  /** humanSeed1751 */
  function Seed1751(dict: seq<string>, data: Octets, before: Keys.Beyond): string
    requires |dict| == 2048
  {
    Keys.Key2Eng(dict, ToKey(Seed128(data)), before)
  }

  // Some word of the seed is the one that is never found.
  ghost predicate HasLost(data: Octets, before: Keys.Beyond) {
    var key := ToKey(Seed128(data));
    Keys.HasLost(key[..8], before) || Keys.HasLost(key[8..], before)
  }

  // What text is read with.
  datatype Reader = Reader(hash: Hash, dict: seq<string>, beyond: Keys.Beyond, passPhrase: string -> Seed)

  ghost predicate Good(rd: Reader) { Keys.Dictionary(rd.dict) }

  // The texts setSeedGeneric refuses.
  predicate Refused(hash: Hash, text: string) {
    || text == "" || Accept(hash, text, VER_ACCOUNT_ID).Some? || Accept(hash, text, VER_ACCOUNT_PUBLIC).Some?
    || Accept(hash, text, VER_ACCOUNT_PRIVATE).Some? || Accept(hash, text, VER_NODE_PUBLIC).Some?
    || Accept(hash, text, VER_NODE_PRIVATE).Some?
  }

  // The seed setSeedGeneric takes from a text.
  function Generic(rd: Reader, text: string): Option<Octets>
    requires |rd.dict| == 2048
  {
    if Refused(rd.hash, text) then None
    else if Accept(rd.hash, text, VER_FAMILY_SEED).Some? then Accept(rd.hash, text, VER_FAMILY_SEED)
    else
      match Keys.Eng2Key(rd.dict, text, rd.beyond)
      case Done(key) => Some(FromKey(key))
      case Fails(_) => Some(rd.passPhrase(text))
  }

  /** Account and node texts are refused. */
  lemma {:induction false} GenericRefuses(rd: Reader, version: byte, data: Octets)
    requires |rd.dict| == 2048
    requires version in {VER_ACCOUNT_ID, VER_ACCOUNT_PUBLIC, VER_ACCOUNT_PRIVATE, VER_NODE_PUBLIC, VER_NODE_PRIVATE}
    ensures Generic(rd, ToText(rd.hash, version, data)).None?
  {
    hide Accept, ToText;
    OwnVersionOnly(rd.hash, version, data, version);
  }

  /** A seed is restored from its own text. */
  lemma {:induction false} GenericRestores(rd: Reader, data: Octets)
    requires |rd.dict| == 2048
    ensures Generic(rd, ToText(rd.hash, VER_FAMILY_SEED, data)) == Some(data)
  {
    hide Accept;
    var text := ToText(rd.hash, VER_FAMILY_SEED, data);
    TextNotEmpty(rd.hash, VER_FAMILY_SEED, data);
    hide ToText;
    OwnVersionOnly(rd.hash, VER_FAMILY_SEED, data, VER_FAMILY_SEED);
    OwnVersionOnly(rd.hash, VER_FAMILY_SEED, data, VER_ACCOUNT_ID);
    OwnVersionOnly(rd.hash, VER_FAMILY_SEED, data, VER_ACCOUNT_PUBLIC);
    OwnVersionOnly(rd.hash, VER_FAMILY_SEED, data, VER_ACCOUNT_PRIVATE);
    OwnVersionOnly(rd.hash, VER_FAMILY_SEED, data, VER_NODE_PUBLIC);
    OwnVersionOnly(rd.hash, VER_FAMILY_SEED, data, VER_NODE_PRIVATE);
  }

  lemma {:induction false} TextNotEmpty(hash: Hash, version: byte, data: Octets)
    ensures ToText(hash, version, data) != ""
  {
    hide Encode, Decode;
    var b: Octets := [version] + data;
    var all: Octets := b + hash(b);
    DecodeEncode(all);
    DecodeNothing();
  }

  lemma {:induction false} DecodeNothing()
    ensures Decode("") == Some([])
  {
    hide Decode, Value;
    assert Padded("", "", "", "");
    DecodePadded("", "", "", "");
    ValueNothing();
  }

  lemma {:induction false} ValueNothing()
    ensures Value("") == []
  {
    assert Indices("") == [];
    DigitsZero();
  }

  lemma {:induction false} Ends(s: string, t: string)
    requires s + t != ""
    ensures (s + t)[0] == if s == "" then t[0] else s[0]
    ensures (s + t)[|s + t| - 1] == if t == "" then s[|s| - 1] else t[|t| - 1]
  {}

  // A space inside a text makes it no Base58.
  lemma {:induction false} SpacedIsNotBase58(s: string, k: nat)
    requires '\0' !in s && Keys.Trimmed(s) && k < |s| && s[k] == ' '
    ensures Decode(s).None?
  {
    hide Decode, Letter;
    DecodeAccepts(s);
    if exists a: string, body: string, c: string :: Padded(s, a, body, c) {
      var a: string, body: string, c: string :| Padded(s, a, body, c);
      assert s == a + (body + c);
      Ends(a, body + c);
      Ends(a + body, c);
      assert s == body;
      LetterNotSpace(body[k]);
    }
  }

  /** The words of a seed restore its 128 bits, exactly when none of its twelve groups is 570; otherwise the text is
      taken for a pass phrase. */
  lemma {:induction false} GenericWords(rd: Reader, data: Octets, before: Keys.Beyond)
    requires Good(rd)
    ensures var text := Seed1751(rd.dict, data, before);
            Generic(rd, text) == Some(if HasLost(data, before) then rd.passPhrase(text) else Seed128(data))
  {
    hide Decode, Keys.Key2Eng, Keys.Eng2Key, ToKey, FromKey, Keys.HasLost;
    var key := ToKey(Seed128(data));
    var text := Seed1751(rd.dict, data, before);
    var k := Keys.KeyTextSpaced(rd.dict, key, before);
    SpacedIsNotBase58(text, k);
    Keys.KeyRoundTrip(rd.dict, key, before, rd.beyond);
    FromKeyToKey(Seed128(data));
  }

  // The words are those of a key's own text, and none of them is lost.
  ghost predicate IsKeyText(dict: seq<string>, text: string, key: seq<bv8>, before: Keys.Beyond)
    requires |dict| == 2048
  {
    && |key| == 16 && Keys.Words(text) == Keys.Words(Keys.Key2Eng(dict, key, before))
    && !Keys.HasLost(key[..8], before) && !Keys.HasLost(key[8..], before)
  }

  /** Any other text is a pass phrase: one that is not empty, that no account, node or seed setter accepts and
      that does not hold the words of a key. */
  lemma {:induction false} GenericPhrase(rd: Reader, text: string, before: Keys.Beyond)
    requires Good(rd) && text != "" && !Refused(rd.hash, text) && Accept(rd.hash, text, VER_FAMILY_SEED).None?
    requires forall key: seq<bv8> :: !IsKeyText(rd.dict, text, key, before)
    ensures Generic(rd, text) == Some(rd.passPhrase(text))
  {
    hide Accept, Keys.Eng2Key, Keys.Key2Eng, Keys.Words, Keys.HasLost, Refused;
    var r := Keys.Eng2Key(rd.dict, text, rd.beyond);
    forall key: seq<bv8> ensures r != Keys.Done(key) {
      assert !IsKeyText(rd.dict, text, key, before);
      Keys.Eng2KeyIff(rd.dict, text, key, before, rd.beyond);
    }
  }

  /** And a text that does is that key, if nothing accepts it before. */
  lemma {:induction false} GenericKeyText(rd: Reader, text: string, key: seq<bv8>, before: Keys.Beyond)
    requires Good(rd) && text != "" && !Refused(rd.hash, text) && Accept(rd.hash, text, VER_FAMILY_SEED).None?
    requires IsKeyText(rd.dict, text, key, before)
    ensures Generic(rd, text) == Some(FromKey(key))
  {
    hide Accept, Keys.Eng2Key, Keys.Key2Eng, Keys.Words, Keys.HasLost, Refused;
    Keys.Eng2KeyIff(rd.dict, text, key, before, rd.beyond);
  }

  ////////// The class //////////

  class NewcoinAddress {
    var version: byte
    var data: Octets

    constructor ()
      ensures version == VER_NONE && data == []
    {
      version := VER_NONE;
      data := [];
    }

    /** SetString: whatever is not taken clears the object. */
    method SetString(hash: Hash, text: string, wanted: byte) returns (ok: bool)
      modifies this
      ensures ok == Accept(hash, text, wanted).Some?
      ensures ok ==> version == wanted && data == Accept(hash, text, wanted).value
      ensures !ok ==> version == VER_NONE && data == []
    {
      hide DecodeCheck;
      var decoded := DecodeCheck(hash, text);
      if decoded.None? || decoded.value == [] || decoded.value[0] != wanted {
        data := [];
        version := VER_NONE;
        return false;
      }
      version := decoded.value[0];
      data := decoded.value[1..];
      ok := true;
    }

    method SetData(v: byte, bytes: Octets)
      modifies this
      ensures version == v && data == bytes
    {
      version := v;
      data := bytes;
    }

    /** setSeed1751: the code of eng2key; a seed is set when it is 1. */
    method SetSeed1751(rd: Reader, text: string) returns (code: int)
      requires |rd.dict| == 2048
      modifies this
      ensures var r := Keys.Eng2Key(rd.dict, text, rd.beyond);
              if r.Done? then code == 1 && version == VER_FAMILY_SEED && data == FromKey(r.value)
              else code == r.code && version == old(version) && data == old(data)
    {
      hide Keys.Eng2Key;
      var r := Keys.Eng2Key(rd.dict, text, rd.beyond);
      if r.Fails? { return r.code; }
      code := 1;
      SetData(VER_FAMILY_SEED, FromKey(r.value));
    }

    /** setSeedGeneric: refused texts leave the object unchanged; every other text makes it a seed. */
    method SetSeedGeneric(rd: Reader, text: string) returns (ok: bool)
      requires |rd.dict| == 2048
      modifies this
      ensures ok == Generic(rd, text).Some?
      ensures ok ==> version == VER_FAMILY_SEED && data == Generic(rd, text).value
      ensures !ok ==> version == old(version) && data == old(data)
    {
      hide Accept, Keys.Eng2Key;
      var temp := new NewcoinAddress();
      if text == "" { return false; }
      var id := temp.SetString(rd.hash, text, VER_ACCOUNT_ID);
      if id { return false; }
      var public := temp.SetString(rd.hash, text, VER_ACCOUNT_PUBLIC);
      if public { return false; }
      var private := temp.SetString(rd.hash, text, VER_ACCOUNT_PRIVATE);
      if private { return false; }
      var nodePublic := temp.SetString(rd.hash, text, VER_NODE_PUBLIC);
      if nodePublic { return false; }
      var nodePrivate := temp.SetString(rd.hash, text, VER_NODE_PRIVATE);
      if nodePrivate { return false; }
      ok := true;
      var seed := SetString(rd.hash, text, VER_FAMILY_SEED);
      if !seed {
        Keys.CodesOf(rd.dict, text, rd.beyond);
        var code := SetSeed1751(rd, text);
        if code != 1 { SetData(VER_FAMILY_SEED, rd.passPhrase(text)); }
      }
    }
  }
}
