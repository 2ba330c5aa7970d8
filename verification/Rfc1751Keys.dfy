/**
 Words for keys: btoe, etob, key2eng and eng2key of shared/rfc1751.cpp, over the bit fields of Rfc1751.
 `standard` changes copies of the letters only, so words are looked up as they are written.
 */
module Rfc1751Keys {
  import opened CText
  import opened Rfc1751

  ////////// The dictionary //////////

  function Number(x: Index): (v: nat)
    ensures v < 2048
  {
    x as nat
  }

  function ToIndex(v: nat): (x: Index)
    requires v < 2048
  {
    v as bv11
  }

  lemma {:induction false} ToIndexNumber(x: Index)
    ensures ToIndex(Number(x)) == x
  {}

  lemma {:induction false} NumberNext(x: Index)
    requires Number(x) < 2047
    ensures Number(x + 1) == Number(x) + 1
  {}

  lemma {:induction false} Counted(v: nat) returns (x: Index)
    requires v < 2048
    ensures Number(x) == v
  {
    x := 0;
    if v > 0 {
      hide Number;
      x := Counted(v - 1);
      NumberNext(x);
      x := x + 1;
    }
  }

  lemma {:induction false} NumberToIndex(v: nat)
    requires v < 2048
    ensures Number(ToIndex(v)) == v
  {
    hide Number, ToIndex;
    var x := Counted(v);
    ToIndexNumber(x);
  }

  ghost predicate Ascending(dict: seq<string>, lo: nat, hi: nat)
    requires hi <= |dict|
  {
    forall i, j | lo <= i < j < hi :: Less(dict[i], dict[j])
  }

  predicate NoSpaces(w: string) { forall i | 0 <= i < |w| :: !IsSpace(w[i]) }

  // What pcDict is: 571 words of at most three letters, then 1477 of four, both in order.
  ghost predicate Dictionary(dict: seq<string>) {
    && |dict| == 2048
    && (forall i | 0 <= i < 571 :: 1 <= |dict[i]| <= 3)
    && (forall i | 571 <= i < 2048 :: |dict[i]| == 4)
    && Ascending(dict, 0, 571) && Ascending(dict, 571, 2048)
    && forall i | 0 <= i < 2048 :: NoSpaces(dict[i]) && '\0' !in dict[i]
  }

  // Where a word is in part of the dictionary.
  function Position(dict: seq<string>, w: string, lo: nat, hi: nat): (v: int)
    requires lo <= hi <= |dict|
    ensures v == -1 || (lo <= v < hi && dict[v] == w)
    ensures v == -1 ==> forall i | lo <= i < hi :: dict[i] != w
    decreases hi - lo
  {
    if lo == hi then -1 else if dict[lo] == w then lo else Position(dict, w, lo + 1, hi)
  }

  lemma {:induction false} PositionUnique(dict: seq<string>, i: nat, lo: nat, hi: nat)
    requires lo <= i < hi <= |dict| && Ascending(dict, lo, hi)
    ensures Position(dict, dict[i], lo, hi) == i
  {
    hide Less;
    var v := Position(dict, dict[i], lo, hi);
    if v < i { LessIrreflexive(dict[i]); } else if v > i { LessIrreflexive(dict[i]); }
  }

  /** wsrch: the binary search finds what is there, and only that. */
  method Wsrch(dict: seq<string>, word: string, min: nat, max: nat) returns (result: int)
    requires min <= max <= |dict| && Ascending(dict, min, max)
    ensures result == Position(dict, word, min, max)
  {
    hide Less;
    result := -1;
    var lo, hi := min, max;
    while result < 0 && lo != hi
      invariant min <= lo <= hi <= max
      invariant result == -1 || (min <= result < max && dict[result] == word)
      invariant result == -1 ==> forall i | min <= i < lo :: Less(dict[i], word)
      invariant result == -1 ==> forall i | hi <= i < max :: Less(word, dict[i])
      decreases result < 0, hi - lo
    {
      var mid := lo + (hi - lo) / 2;
      if word == dict[mid] {
        result := mid;
      } else if Less(word, dict[mid]) {
        forall i | mid < i < max ensures Less(word, dict[i]) { LessTransitive(word, dict[mid], dict[i]); }
        hi := mid;
      } else {
        LessTotal(word, dict[mid]);
        forall i | min <= i < mid ensures Less(dict[i], word) { LessTransitive(dict[i], dict[mid], word); }
        lo := mid + 1;
      }
    }
    if result >= 0 { PositionUnique(dict, result, min, max); } else { LessIrreflexive(word); }
  }

  // The search etob makes for a word of this length; the upper bound of the short words is one too low.
  function Lookup(dict: seq<string>, w: string): (v: int)
    requires |dict| == 2048
  {
    if |w| < 4 then Position(dict, w, 0, 570) else Position(dict, w, 571, 2048)
  }

  /** Every word of the dictionary is found at its own index, but for the one at 570. */
  lemma {:induction false} LookupWord(dict: seq<string>, i: nat)
    requires Dictionary(dict) && i < 2048
    ensures Lookup(dict, dict[i]) == if i == 570 then -1 else i
  {
    hide Less;
    if i < 570 {
      PositionUnique(dict, i, 0, 570);
    } else if i == 570 {
      var v := Position(dict, dict[i], 0, 570);
      if v >= 0 { LessIrreflexive(dict[i]); }
    } else {
      PositionUnique(dict, i, 571, 2048);
    }
  }

  ////////// Parity //////////

  function Pair(s: seq<bv8>, k: nat): bv32
    requires k < 32 && |s| >= 10
  {
    Extract(s, 2 * k, 2)
  }

  function Plus(x: bv32, y: bv32): bv32 { x + y }

  // The sum of the first n pairs of bits.
  function PairSum(s: seq<bv8>, n: nat): bv32
    requires n <= 32 && |s| >= 10
  {
    if n == 0 then 0 else Plus(PairSum(s, n - 1), Pair(s, n - 1))
  }

  function Parity(s: seq<bv8>): bv32
    requires |s| >= 10
  {
    PairSum(s, 32)
  }

  lemma {:induction false} PairSumLocal(s: seq<bv8>, t: seq<bv8>, n: nat)
    requires n <= 32 && |s| >= 10 && |t| >= 10
    requires forall i | 0 <= i < 8 :: s[i] == t[i]
    ensures PairSum(s, n) == PairSum(t, n)
  {
    hide Extract, Plus, Bit;
    if n > 0 {
      PairSumLocal(s, t, n - 1);
      forall i | 2 * n - 2 <= i < 2 * n ensures Bit(s, i) == Bit(t, i) { BitLocal(s, t, i); }
      ExtractLocal(s, t, 2 * n - 2, 2);
    }
  }

  lemma {:induction false} BitLocal(s: seq<bv8>, t: seq<bv8>, i: nat)
    requires i / 8 < |s| && i / 8 < |t| && s[i / 8] == t[i / 8]
    ensures Bit(s, i) == Bit(t, i)
  {}

  function CheckByte(p: bv32): bv8 { Low(Shl(p, 6)) }

  function Two(x: bv32): bv32 { x & 3 }

  // The sum fits the check byte's two bits exactly when that is the byte btoe would store.
  lemma {:induction false} CheckBits(s: seq<bv8>, p: bv32)
    requires |s| >= 11 && s[8] & 0x3F == 0
    ensures Two(p) == Extract(s, 64, 2) <==> s[8] == CheckByte(p)
  {}

  lemma {:induction false} CheckByteLow(p: bv32)
    ensures CheckByte(p) & 0x3F == 0
  {}

  ////////// Eight bytes and six words //////////

  // Nine bytes of buffer and what lies beyond it in memory, which is read and must not matter.
  type Beyond = s: seq<bv8> | |s| >= 2 witness [0, 0]

  // The buffer of btoe once the parity is in place.
  function Buffer(data: seq<bv8>, before: Beyond): (r: seq<bv8>)
    requires |data| == 8
    ensures |r| == 9 && r[..8] == data
  {
    data + [CheckByte(Parity(data + before))]
  }

  function Spell(dict: seq<string>, xs: seq<Index>): (r: seq<string>)
    requires |dict| == 2048
    ensures |r| == |xs| && forall i | 0 <= i < |xs| :: r[i] == dict[Number(xs[i])]
  {
    seq(|xs|, i requires 0 <= i < |xs| => dict[Number(xs[i])])
  }

  // The words of btoe.
  function Btoe(dict: seq<string>, data: seq<bv8>, before: Beyond): (r: seq<string>)
    requires |dict| == 2048 && |data| == 8
    ensures |r| == 6
  {
    Spell(dict, Groups(Buffer(data, before)))
  }

  datatype Outcome<T> = Done(value: T) | Fails(code: int)

  // The indices of the words; the first that has none decides.
  function Indices(dict: seq<string>, ws: seq<string>): (r: Outcome<seq<Index>>)
    requires |dict| == 2048
    ensures r.Done? ==> |r.value| == |ws|
  {
    if ws == [] then Done([])
    else
      var before := Indices(dict, ws[..|ws| - 1]);
      var w := ws[|ws| - 1];
      if before.Fails? then before
      else if |w| > 4 || |w| < 1 then Fails(-1)
      else if Lookup(dict, w) < 0 then Fails(0)
      else Done(before.value + [ToIndex(Lookup(dict, w))])
  }

  /** etob */
  function Etob(dict: seq<string>, ws: seq<string>, beyond: Beyond): (r: Outcome<seq<bv8>>)
    requires |dict| == 2048
    ensures r.Done? ==> |r.value| == 8 && |ws| == 6
  {
    if |ws| != 6 then Fails(-1)
    else
      var xs := Indices(dict, ws);
      if xs.Fails? then Fails(xs.code)
      else
        var b := InsertAll(xs.value, 6);
        if Two(Parity(b + beyond)) != Extract(b + beyond, 64, 2) then Fails(-2) else Done(b[..8])
  }

  lemma {:induction false} IndicesSpell(dict: seq<string>, ws: seq<string>)
    requires Dictionary(dict)
    ensures var r := Indices(dict, ws);
            r.Done? ==> Spell(dict, r.value) == ws && forall i | 0 <= i < |ws| :: Number(r.value[i]) != 570
  {
    hide Less, Number, ToIndex, Ascending, NoSpaces, Position;
    if ws != [] && Indices(dict, ws).Done? {
      IndicesSpell(dict, ws[..|ws| - 1]);
      var w := ws[|ws| - 1];
      var v := Lookup(dict, w);
      NumberToIndex(v);
      assert ws == ws[..|ws| - 1] + [w];
    }
  }

  // One more index spelled: its word is looked up behind those before it.
  lemma {:induction false} IndicesNext(dict: seq<string>, ws: seq<string>, x: Index)
    requires Dictionary(dict)
    ensures var before := Indices(dict, ws);
            Indices(dict, ws + [dict[Number(x)]])
            == if before.Fails? then before else if Number(x) == 570 then Fails(0) else Done(before.value + [x])
  {
    LookupWord(dict, Number(x));
    ToIndexNumber(x);
    hide Number, ToIndex, Lookup, Less, Ascending, NoSpaces;
    assert (ws + [dict[Number(x)]])[..|ws|] == ws;
  }

  lemma {:induction false} SpellIndices(dict: seq<string>, xs: seq<Index>)
    requires Dictionary(dict)
    ensures Indices(dict, Spell(dict, xs))
            == if exists i | 0 <= i < |xs| :: Number(xs[i]) == 570 then Fails(0) else Done(xs)
  {
    hide Number, Dictionary, Indices;
    assert |dict| == 2048 by { DictionarySize(dict); }
    if xs == [] {
      assert Spell(dict, xs) == [];
      NoIndices(dict);
    } else {
      var n := |xs| - 1;
      assert Spell(dict, xs) == Spell(dict, xs[..n]) + [dict[Number(xs[n])]];
      SpellIndices(dict, xs[..n]);
      IndicesNext(dict, Spell(dict, xs[..n]), xs[n]);
      assert forall i | 0 <= i < n :: xs[i] == xs[..n][i];
      assert xs == xs[..n] + [xs[n]];
    }
  }

  lemma {:induction false} DictionarySize(dict: seq<string>)
    requires Dictionary(dict)
    ensures |dict| == 2048
  {}

  lemma {:induction false} NoIndices(dict: seq<string>)
    requires |dict| == 2048
    ensures Indices(dict, []) == Done([])
  {}

  /** Words made from eight bytes read back as those bytes, whatever lies beyond the buffers, exactly
      when none of them is the word at 570; otherwise that word is reported as unknown. */
  lemma {:induction false} EtobBtoe(dict: seq<string>, data: seq<bv8>, before: Beyond, beyond: Beyond)
    requires Dictionary(dict) && |data| == 8
    ensures Etob(dict, Btoe(dict, data, before), beyond)
            == if exists i | 0 <= i < 6 :: Number(Groups(Buffer(data, before))[i]) == 570 then Fails(0) else Done(data)
  {
    hide Groups, InsertAll, Number, Extract, PairSum, CheckByte, Two, Spell, Indices, Packed;
    var b := Buffer(data, before);
    var xs := Groups(b);
    SpellIndices(dict, xs);
    if Indices(dict, Spell(dict, xs)).Done? {
      InsertAllPacks(xs);
      CheckByteLow(Parity(data + before));
      PackGroups(b);
      assert b[..9] == b;
      assert Packed(xs) == b;
      PairSumLocal(data + before, b + beyond, 32);
      CheckBits(b + beyond, Parity(b + beyond));
    }
  }

  /** Six words that are accepted are the words of the bytes they give. */
  lemma {:induction false} BtoeEtob(dict: seq<string>, ws: seq<string>, before: Beyond, beyond: Beyond)
    requires Dictionary(dict) && Etob(dict, ws, beyond).Done?
    ensures Btoe(dict, Etob(dict, ws, beyond).value, before) == ws
    ensures forall i | 0 <= i < 6 :: Number(Groups(Buffer(Etob(dict, ws, beyond).value, before))[i]) != 570
  {
    hide Groups, InsertAll, Number, Extract, PairSum, CheckByte, Two, Spell, Indices, Packed;
    IndicesSpell(dict, ws);
    var xs := Indices(dict, ws).value;
    InsertAllPacks(xs);
    GroupsOfPacked(xs, []);
    var b := Packed(xs);
    assert b + [] == b;
    CheckBits(b + beyond, Parity(b + beyond));
    PairSumLocal(b[..8] + before, b + beyond, 32);
    assert b == b[..8] + [b[8]];
    assert b == Buffer(b[..8], before);
  }

  /** What lies beyond the buffer does not matter to btoe, nor to etob. */
  lemma {:induction false} BeyondIgnored(dict: seq<string>, data: seq<bv8>, ws: seq<string>, m: Beyond, m': Beyond)
    requires |dict| == 2048 && |data| == 8
    ensures Btoe(dict, data, m) == Btoe(dict, data, m')
    ensures Etob(dict, ws, m) == Etob(dict, ws, m')
  {
    hide Groups, InsertAll, Extract, PairSum, CheckByte, Two, Spell, Indices, Bit;
    PairSumLocal(data + m, data + m', 32);
    if |ws| == 6 && Indices(dict, ws).Done? {
      var b := InsertAll(Indices(dict, ws).value, 6);
      PairSumLocal(b + m, b + m', 32);
      forall i | 64 <= i < 66 ensures Bit(b + m, i) == Bit(b + m', i) { BitLocal(b + m, b + m', i); }
      ExtractLocal(b + m, b + m', 64, 2);
    }
  }

  ////////// The loops //////////

  /** The parity loop of btoe and of etob. */
  method SumPairs(b: array<bv8>) returns (p: bv32)
    requires b.Length >= 10
    ensures p == Parity(b[..])
  {
    hide Extract, Plus;
    p := 0;
    var i := 0;
    while i < 64
      invariant 0 <= i <= 64 && i % 2 == 0
      invariant p == PairSum(b[..], i / 2)
    {
      p := Plus(p, Pair(b[..], i / 2));
      i := i + 2;
    }
  }

  /** insert, in place */
  method InsertInto(b: array<bv8>, x: bv32, start: nat, length: nat)
    requires b.Length >= 9 && length <= 11 && start + length <= 66
    modifies b
    ensures b[..9] == Insert(old(b[..9]), x, start, length)
    ensures b[9..] == old(b[9..])
  {
    hide Shl, High, Mid, Low, Or;
    var shift := (8 - (start + length) % 8) % 8;
    var y, k := Shl(x, shift), start / 8;
    var cl, cc, cr := High(y), Mid(y), Low(y);
    if shift + length > 16 {
      b[k] := Or(b[k], cl);
      b[k + 1] := Or(b[k + 1], cc);
      b[k + 2] := Or(b[k + 2], cr);
    } else if shift + length > 8 {
      b[k] := Or(b[k], cc);
      b[k + 1] := Or(b[k + 1], cr);
    } else {
      b[k] := Or(b[k], cr);
    }
  }

  // memset
  method Clear(b: array<bv8>)
    requires b.Length >= 9
    modifies b
    ensures b[..9] == NOTHING && b[9..] == old(b[9..])
  {
    var k := 0;
    while k < 9
      invariant 0 <= k <= 9
      invariant b[..k] == NOTHING[..k] && b[9..] == old(b[9..])
    {
      b[k] := 0;
      k := k + 1;
    }
    assert NOTHING[..9] == NOTHING;
  }

  lemma {:induction false} Halves(s: seq<bv8>)
    requires |s| >= 9
    ensures s == s[..9] + s[9..]
  {}

  /** etob; `b` is the memory from its buffer on. */
  method ReadWords(dict: seq<string>, ws: seq<string>, b: array<bv8>) returns (code: int, data: seq<bv8>)
    requires Dictionary(dict) && b.Length >= 11
    modifies b
    ensures var r := Etob(dict, ws, old(b[9..]));
            if r.Done? then code == 1 && data == r.value else code == r.code && code < 1
  {
    hide Less, Number, ToIndex, Insert, Extract, PairSum, Two, Lookup, Wide;
    ghost var beyond := b[9..];
    data := [];
    if |ws| != 6 { return -1, data; }
    Clear(b);
    ghost var xs: seq<Index> := [];
    var i, p := 0, 0;
    while i < 6
      invariant 0 <= i <= 6 && p == 11 * i
      invariant |xs| == i && Indices(dict, ws[..i]) == Done(xs)
      invariant b[..9] == Filled(xs) && b[9..] == beyond
    {
      var w := ws[i];
      assert ws[..i + 1][..i] == ws[..i] && ws[..i + 1][i] == w;
      if |w| > 4 || |w| < 1 {
        IndicesFail(dict, ws, i + 1);
        return -1, data;
      }
      var v := Wsrch(dict, w, if |w| < 4 then 0 else 571, if |w| < 4 then 570 else 2048);
      assert v == Lookup(dict, w) by { LookupIs(dict, w); }
      if v < 0 {
        IndicesFail(dict, ws, i + 1);
        return 0, data;
      }
      var x := ToIndex(v);
      FilledNext(xs, x);
      InsertInto(b, Wide(x), p, 11);
      xs := xs + [x];
      p := p + 11;
      i := i + 1;
    }
    assert ws[..6] == ws;
    FilledAll(xs);
    code, data := CheckParity(b);
  }

  // The end of etob: the parity of the words against the last two bits.
  method CheckParity(b: array<bv8>) returns (code: int, data: seq<bv8>)
    requires b.Length >= 11
    ensures var s := b[..9] + b[9..];
            if Two(Parity(s)) != Extract(s, 64, 2) then code == -2 && data == [] else code == 1 && data == b[..9][..8]
  {
    hide PairSum, Two, Extract;
    Halves(b[..]);
    assert b[..][..9] == b[..9] && b[..][9..] == b[9..];
    var q := SumPairs(b);
    if Two(q) != Extract(b[..], 64, 2) { return -2, []; }
    return 1, b[..8];
  }

  lemma {:induction false} LookupIs(dict: seq<string>, w: string)
    requires |dict| == 2048
    ensures Lookup(dict, w) == if |w| < 4 then Position(dict, w, 0, 570) else Position(dict, w, 571, 2048)
  {}

  // Once a word has failed the words after it change nothing.
  lemma {:induction false} IndicesFail(dict: seq<string>, ws: seq<string>, n: nat)
    requires |dict| == 2048 && n <= |ws| && Indices(dict, ws[..n]).Fails?
    ensures Indices(dict, ws) == Indices(dict, ws[..n])
    decreases |ws|
  {
    hide Lookup, ToIndex;
    if n == |ws| {
      assert ws[..n] == ws;
    } else {
      assert ws[..|ws| - 1][..n] == ws[..n];
      IndicesFail(dict, ws[..|ws| - 1], n);
    }
  }

  // The buffer with the first words in place.
  ghost function Filled(xs: seq<Index>): (r: seq<bv8>)
    requires |xs| <= 6
    ensures |r| == 9
    decreases |xs|
  {
    if xs == [] then NOTHING
    else Insert(Filled(xs[..|xs| - 1]), Wide(xs[|xs| - 1]), 11 * (|xs| - 1), 11)
  }

  lemma {:induction false} FilledNext(xs: seq<Index>, x: Index)
    requires |xs| < 6
    ensures Filled(xs + [x]) == Insert(Filled(xs), Wide(x), 11 * |xs|, 11)
  {
    hide Insert, Wide;
    assert (xs + [x])[..|xs|] == xs;
  }

  lemma {:induction false} FilledIs(xs: seq<Index>, n: nat)
    requires n <= |xs| == 6
    ensures Filled(xs[..n]) == InsertAll(xs, n)
  {
    hide Insert, Wide;
    if n > 0 {
      FilledIs(xs, n - 1);
      assert xs[..n][..n - 1] == xs[..n - 1];
    }
  }

  lemma {:induction false} FilledAll(xs: seq<Index>)
    requires |xs| == 6
    ensures Filled(xs) == InsertAll(xs, 6)
  {
    hide Filled, InsertAll;
    FilledIs(xs, 6);
    assert xs[..6] == xs;
  }

  /** btoe; `b` is the memory from its buffer on, not yet written. */
  method WriteWords(dict: seq<string>, data: seq<bv8>, b: array<bv8>) returns (text: string)
    requires |dict| == 2048 && |data| == 8 && b.Length >= 10
    modifies b
    ensures text == Line(Btoe(dict, data, old(b[8..])))
  {
    hide Groups, Extract, PairSum, Number, Line, CheckByte;
    ghost var before := b[8..];
    var k := 0;
    while k < 8
      invariant 0 <= k <= 8
      invariant b[..k] == data[..k] && b[8..] == before
    {
      b[k] := data[k];
      k := k + 1;
    }
    assert data[..8] == data;
    assert b[..] == data + before;
    var p := SumPairs(b);
    b[8] := CheckByte(p);
    var buffer := b[..9];
    assert buffer == Buffer(data, before);
    var xs := Groups(buffer);
    var ws := Spell(dict, xs);
    text := ws[0] + " " + ws[1] + " " + ws[2] + " " + ws[3] + " " + ws[4] + " " + ws[5];
    LineOfSix(ws);
  }

  ////////// Texts //////////

  // Words with a space between.
  function Line(ws: seq<string>): string
    requires ws != []
  {
    if |ws| == 1 then ws[0] else Line(ws[..|ws| - 1]) + " " + ws[|ws| - 1]
  }

  lemma {:induction false} LineOfSix(ws: seq<string>)
    requires |ws| == 6
    ensures Line(ws) == ws[0] + " " + ws[1] + " " + ws[2] + " " + ws[3] + " " + ws[4] + " " + ws[5]
  {
    LineNext(ws, 1);
    LineNext(ws, 2);
    LineNext(ws, 3);
    LineNext(ws, 4);
    LineNext(ws, 5);
    hide Line;
    assert ws[..6] == ws;
  }

  lemma {:induction false} LineNext(ws: seq<string>, n: nat)
    requires 1 <= n < |ws|
    ensures Line(ws[..1]) == ws[0]
    ensures Line(ws[..n + 1]) == Line(ws[..n]) + " " + ws[n]
  {
    assert ws[..n + 1][..n] == ws[..n];
  }

  // boost::trim
  function TrimRight(s: string): string {
    if s == "" || !IsSpace(s[|s| - 1]) then s else TrimRight(s[..|s| - 1])
  }

  function WordEnd(s: string): (n: nat)
    ensures n <= |s| && NoSpaces(s[..n]) && (n < |s| ==> IsSpace(s[n]))
  {
    if s == "" || IsSpace(s[0]) then 0
    else
      var n := 1 + WordEnd(s[1..]);
      assert s[..n] == [s[0]] + s[1..][..n - 1];
      n
  }

  // boost::split at spaces, runs of them compressed
  function Split(s: string): (r: seq<string>)
    ensures r != []
    decreases |s|
  {
    var n := WordEnd(s);
    if n == |s| then [s] else [s[..n]] + Split(DropSpaces(s[n..][1..]))
  }

  function Words(s: string): seq<string> { Split(TrimRight(DropSpaces(s))) }

  // Text that neither begins nor ends with a space.
  predicate Trimmed(s: string) { s != "" && !IsSpace(s[0]) && !IsSpace(s[|s| - 1]) }

  lemma {:induction false} DropKeepsEnd(s: string)
    requires s != "" && !IsSpace(s[|s| - 1])
    ensures var r := DropSpaces(s); Trimmed(r)
  {
    if IsSpace(s[0]) { DropKeepsEnd(s[1..]); }
  }

  lemma {:induction false} DropAppends(s: string, t: string)
    requires s != "" && !IsSpace(s[|s| - 1])
    ensures DropSpaces(s + t) == DropSpaces(s) + t
  {
    if IsSpace(s[0]) {
      assert (s + t)[1..] == s[1..] + t;
      DropAppends(s[1..], t);
    }
  }

  lemma {:induction false} WordEndIs(s: string, n: nat)
    requires n <= |s| && NoSpaces(s[..n]) && (n < |s| ==> IsSpace(s[n]))
    ensures WordEnd(s) == n
  {
    if n > 0 {
      assert s[0] == s[..n][0];
      assert s[1..][..n - 1] == s[..n][1..];
      WordEndIs(s[1..], n - 1);
    }
  }

  lemma {:induction false} SplitWord(w: string)
    requires w != "" && NoSpaces(w)
    ensures Split(w) == [w] && Trimmed(w)
  {
    assert w[..|w|] == w;
    WordEndIs(w, |w|);
  }

  lemma {:induction false} SplitMore(s: string, w: string)
    requires Trimmed(s) && w != "" && NoSpaces(w)
    ensures Split(s + " " + w) == Split(s) + [w] && Trimmed(s + " " + w)
    decreases |s|
  {
    assert IsSpace(' ');
    var t := s + " " + w;
    var n := WordEnd(s);
    assert t[..n] == s[..n];
    if n < |s| { assert t[n] == s[n]; } else { assert t[n] == ' '; }
    WordEndIs(t, n);
    if n == |s| {
      assert t[n..][1..] == w && s[..n] == s;
      SplitWord(w);
    } else {
      var u := s[n..][1..];
      assert t[n..][1..] == u + (" " + w);
      assert !IsSpace(s[|s| - 1]) && IsSpace(s[n]);
      assert u[|u| - 1] == s[|s| - 1];
      DropAppends(u, " " + w);
      DropKeepsEnd(u);
      var v := DropSpaces(u);
      assert v + (" " + w) == v + " " + w;
      SplitMore(v, w);
    }
  }

  ghost predicate Printable(ws: seq<string>) { forall i | 0 <= i < |ws| :: ws[i] != "" && NoSpaces(ws[i]) }

  lemma {:induction false} SplitLine(ws: seq<string>)
    requires ws != [] && Printable(ws)
    ensures Trimmed(Line(ws)) && Split(Line(ws)) == ws
  {
    var n := |ws| - 1;
    if n == 0 {
      SplitWord(ws[0]);
      assert ws == [ws[0]];
    } else {
      LineNext(ws, n);
      hide Split, Trimmed, NoSpaces, Line;
      var front, w := ws[..n], ws[n];
      assert ws[..n + 1] == ws && ws == front + [w];
      SplitLine(front);
      SplitMore(Line(front), w);
    }
  }

  /** Words written on a line are read off it again. */
  lemma {:induction false} WordsOfLine(ws: seq<string>)
    requires ws != [] && Printable(ws)
    ensures Words(Line(ws)) == ws
  {
    hide Split, Line;
    SplitLine(ws);
  }

  ////////// Keys //////////

  /** key2eng */
  function Key2Eng(dict: seq<string>, key: seq<bv8>, before: Beyond): string
    requires |dict| == 2048 && |key| == 16
  {
    Line(Btoe(dict, key[..8], before)) + " " + Line(Btoe(dict, key[8..], before))
  }

  /** eng2key */
  function Eng2Key(dict: seq<string>, human: string, beyond: Beyond): (r: Outcome<seq<bv8>>)
    requires |dict| == 2048
  {
    var ws := Words(human);
    if |ws| != 12 then Fails(-1)
    else
      var first := Etob(dict, ws[..6], beyond);
      if first.Fails? then first
      else
        var second := Etob(dict, ws[6..], beyond);
        if second.Fails? then second else Done(first.value + second.value)
  }

  lemma {:induction false} IndicesCode(dict: seq<string>, ws: seq<string>)
    requires |dict| == 2048
    ensures Indices(dict, ws).Fails? ==> Indices(dict, ws).code in {0, -1}
  {
    hide Lookup, ToIndex;
    if ws != [] { IndicesCode(dict, ws[..|ws| - 1]); }
  }

  // The codes other than 1.
  lemma {:induction false} CodesOf(dict: seq<string>, human: string, beyond: Beyond)
    requires |dict| == 2048
    ensures Eng2Key(dict, human, beyond).Fails? ==> Eng2Key(dict, human, beyond).code in {0, -1, -2}
  {
    hide Words, Indices, InsertAll, Extract, PairSum, Two;
    var ws := Words(human);
    if |ws| == 12 {
      IndicesCode(dict, ws[..6]);
      IndicesCode(dict, ws[6..]);
    }
  }

  // Some group of the key is the index of the word that is never found.
  ghost predicate HasLost(half: seq<bv8>, before: Beyond)
    requires |half| == 8
  {
    exists i | 0 <= i < 6 :: Number(Groups(Buffer(half, before))[i]) == 570
  }

  lemma {:induction false} BtoePrintable(dict: seq<string>, half: seq<bv8>, before: Beyond)
    requires Dictionary(dict) && |half| == 8
    ensures Printable(Btoe(dict, half, before))
  {
    hide Groups, Number, Less, Buffer;
  }

  lemma {:induction false} LineAppends(a: seq<string>, b: seq<string>)
    requires a != [] && b != []
    ensures Line(a + b) == Line(a) + " " + Line(b)
    decreases |b|
  {
    var n := |b| - 1;
    assert (a + b)[..|a| + n] == a + b[..n];
    if n == 0 {
      assert a + b[..n] == a;
    } else {
      LineAppends(a, b[..n]);
      var x, y, z := Line(a), Line(b[..n]), b[n];
      assert x + " " + y + " " + z == x + " " + (y + " " + z);
    }
  }

  // The twelve words of a key.
  lemma {:induction false} KeyWords(dict: seq<string>, key: seq<bv8>, before: Beyond)
    requires Dictionary(dict) && |key| == 16
    ensures Words(Key2Eng(dict, key, before)) == Btoe(dict, key[..8], before) + Btoe(dict, key[8..], before)
  {
    hide Btoe, Words, Line;
    var a, b := Btoe(dict, key[..8], before), Btoe(dict, key[8..], before);
    BtoePrintable(dict, key[..8], before);
    BtoePrintable(dict, key[8..], before);
    LineAppends(a, b);
    WordsOfLine(a + b);
  }

  lemma {:induction false} LineNoNul(ws: seq<string>)
    requires ws != [] && forall i | 0 <= i < |ws| :: '\0' !in ws[i]
    ensures '\0' !in Line(ws)
  {
    if |ws| > 1 { LineNoNul(ws[..|ws| - 1]); }
  }

  // A key's text begins and ends with letters and has a space between its halves.
  lemma {:induction false} KeyTextSpaced(dict: seq<string>, key: seq<bv8>, before: Beyond) returns (k: nat)
    requires Dictionary(dict) && |key| == 16
    ensures var text := Key2Eng(dict, key, before);
            '\0' !in text && Trimmed(text) && k < |text| && text[k] == ' '
  {
    hide Groups, Number, Less, Buffer, Line, Ascending, NoSpaces, Trimmed;
    var a, b := Btoe(dict, key[..8], before), Btoe(dict, key[8..], before);
    BtoePrintable(dict, key[..8], before);
    BtoePrintable(dict, key[8..], before);
    LineAppends(a, b);
    SplitLine(a + b);
    LineNoNul(a + b);
    k := |Line(a)|;
  }

  /** A key's text reads back as that key, exactly when none of its twelve groups is 570; otherwise
      eng2key reports a word that is not in the dictionary. */
  lemma {:induction false} KeyRoundTrip(dict: seq<string>, key: seq<bv8>, before: Beyond, beyond: Beyond)
    requires Dictionary(dict) && |key| == 16
    ensures Eng2Key(dict, Key2Eng(dict, key, before), beyond)
            == if HasLost(key[..8], before) || HasLost(key[8..], before) then Fails(0) else Done(key)
  {
    hide Btoe, Etob, Key2Eng, Words, Groups, Number, Buffer;
    KeyWords(dict, key, before);
    var a, b := Btoe(dict, key[..8], before), Btoe(dict, key[8..], before);
    assert (a + b)[..6] == a && (a + b)[6..] == b;
    EtobBtoe(dict, key[..8], before, beyond);
    EtobBtoe(dict, key[8..], before, beyond);
    assert key[..8] + key[8..] == key;
  }

  /** A text that is accepted holds the words of the key it gives, in its order and its case. */
  lemma {:induction false} AcceptedIsKeyText(dict: seq<string>, human: string, before: Beyond, beyond: Beyond)
    requires Dictionary(dict) && Eng2Key(dict, human, beyond).Done?
    ensures var key := Eng2Key(dict, human, beyond).value;
            |key| == 16 && Words(human) == Words(Key2Eng(dict, key, before))
  {
    hide Btoe, Etob, Key2Eng, Words;
    var ws := Words(human);
    var key := Eng2Key(dict, human, beyond).value;
    BtoeEtob(dict, ws[..6], before, beyond);
    BtoeEtob(dict, ws[6..], before, beyond);
    var a, b := Etob(dict, ws[..6], beyond).value, Etob(dict, ws[6..], beyond).value;
    assert key[..8] == a && key[8..] == b;
    KeyWords(dict, key, before);
    assert ws[..6] + ws[6..] == ws;
  }

  /** A text is accepted, as a certain key, exactly when its words are those of the key's own text, as written,
      and none of them is the one at 570: no letter is folded and no other spelling taken. */
  lemma {:induction false} Eng2KeyIff(dict: seq<string>, human: string, key: seq<bv8>, before: Beyond, beyond: Beyond)
    requires Dictionary(dict)
    ensures Eng2Key(dict, human, beyond) == Done(key)
            <==> && |key| == 16 && Words(human) == Words(Key2Eng(dict, key, before))
                 && !HasLost(key[..8], before) && !HasLost(key[8..], before)
  {
    hide Key2Eng, Words, HasLost, Etob, Dictionary;
    assert |dict| == 2048 by { DictionarySize(dict); }
    if Eng2Key(dict, human, beyond) == Done(key) {
      AcceptedIsKeyText(dict, human, before, beyond);
      KeyRoundTrip(dict, key, before, beyond);
    } else if |key| == 16 && Words(human) == Words(Key2Eng(dict, key, before)) {
      KeyRoundTrip(dict, key, before, beyond);
    }
  }

  /** Such keys exist: this one has 570 for its first group, and its own text is refused. */
  lemma {:induction false} LostKey(dict: seq<string>, before: Beyond, beyond: Beyond)
    requires Dictionary(dict)
    ensures var key: seq<bv8> := [0x47, 0x40, 0, 0, 0, 0, 0, 0, 0, 0, 0, 0, 0, 0, 0, 0];
            Eng2Key(dict, Key2Eng(dict, key, before), beyond) == Fails(0)
  {
    hide Eng2Key, Key2Eng, Groups, Number;
    var key: seq<bv8> := [0x47, 0x40, 0, 0, 0, 0, 0, 0, 0, 0, 0, 0, 0, 0, 0, 0];
    var b := Buffer(key[..8], before);
    assert b[0] == 0x47 && b[1] == 0x40;
    GroupBits(b);
    LostWord();
    assert Number(Groups(b)[0]) == 570;
    KeyRoundTrip(dict, key, before, beyond);
  }

  lemma {:induction false} LostWord()
    ensures Number(Word0(0x47, 0x40)) == 570
  {}
}
