/**
 The texts eng2key of shared/rfc1751.cpp takes apart, and the codes it returns: words may be spread over a text
 with any white space, and the first word that will not do decides the code.
 */
module Rfc1751Texts {
  import opened CText
  import opened Rfc1751
  import opened Rfc1751Keys

  ////////// White space //////////

  predicate Gap(s: string) { forall i | 0 <= i < |s| :: s[i] as int in {0x09, 0x0A, 0x0B, 0x0C, 0x0D, 0x20} }

  // The words with gaps between them, none of which is empty.
  function Spread(ws: seq<string>, gaps: seq<string>): string
    requires |gaps| == |ws| - 1
  {
    if |ws| == 1 then ws[0]
    else Spread(ws[..|ws| - 1], gaps[..|gaps| - 1]) + gaps[|gaps| - 1] + ws[|ws| - 1]
  }

  ghost predicate Gaps(gaps: seq<string>) { forall i | 0 <= i < |gaps| :: gaps[i] != "" && Gap(gaps[i]) }

  lemma {:induction false} GapDrops(gap: string, t: string)
    requires Gap(gap)
    ensures DropSpaces(gap + t) == DropSpaces(t)
  {
    if gap == "" {
      assert gap + t == t;
    } else {
      assert (gap + t)[1..] == gap[1..] + t;
      GapDrops(gap[1..], t);
    }
  }

  lemma {:induction false} GapTrims(t: string, gap: string)
    requires Gap(gap)
    ensures TrimRight(t + gap) == TrimRight(t)
  {
    if gap == "" {
      assert t + gap == t;
    } else {
      var n := |gap| - 1;
      assert (t + gap)[|t + gap| - 1] == gap[n];
      assert (t + gap)[..|t + gap| - 1] == t + gap[..n];
      GapTrims(t, gap[..n]);
    }
  }

  lemma {:induction false} SplitGap(s: string, gap: string, w: string)
    requires Trimmed(s) && gap != "" && Gap(gap) && w != "" && NoSpaces(w)
    ensures Split(s + gap + w) == Split(s) + [w] && Trimmed(s + gap + w)
    decreases |s|
  {
    var t := s + gap + w;
    assert t[0] == s[0] && t[|t| - 1] == w[|w| - 1];
    var n := WordEnd(s);
    assert t[..n] == s[..n];
    if n < |s| { assert t[n] == s[n]; } else { assert t[n] == gap[0]; }
    WordEndIs(t, n);
    if n == |s| {
      assert t[n..][1..] == gap[1..] + w && s[..n] == s;
      GapDrops(gap[1..], w);
      SplitWord(w);
    } else {
      SplitGapInside(s, gap, w, n);
    }
  }

  lemma {:induction false} SplitGapInside(s: string, gap: string, w: string, n: nat)
    requires Trimmed(s) && gap != "" && Gap(gap) && w != "" && NoSpaces(w)
    requires n == WordEnd(s) < |s| && WordEnd(s + gap + w) == n
    ensures Split(s + gap + w) == Split(s) + [w]
    decreases |s|, 0
  {
    var t, u := s + gap + w, s[n..][1..];
    assert t[..n] == s[..n];
    assert t[n..][1..] == u + (gap + w);
    assert !IsSpace(s[|s| - 1]) && IsSpace(s[n]);
    assert u[|u| - 1] == s[|s| - 1];
    DropAppends(u, gap + w);
    DropKeepsEnd(u);
    var v := DropSpaces(u);
    assert v + (gap + w) == v + gap + w;
    SplitGap(v, gap, w);
  }

  lemma {:induction false} SplitSpread(ws: seq<string>, gaps: seq<string>)
    requires |gaps| == |ws| - 1 && Printable(ws) && Gaps(gaps)
    ensures Trimmed(Spread(ws, gaps)) && Split(Spread(ws, gaps)) == ws
  {
    var n := |ws| - 1;
    if n == 0 {
      SplitWord(ws[0]);
      assert ws == [ws[0]];
    } else {
      hide Split, Trimmed, NoSpaces, Gap;
      assert ws == ws[..n] + [ws[n]];
      SplitSpread(ws[..n], gaps[..n - 1]);
      SplitGap(Spread(ws[..n], gaps[..n - 1]), gaps[n - 1], ws[n]);
    }
  }

  /** Words are read off a text whatever white space is around and between them. */
  lemma {:induction false} WordsOfSpread(before: string, ws: seq<string>, gaps: seq<string>, after: string)
    requires |gaps| == |ws| - 1 && Printable(ws) && Gaps(gaps) && Gap(before) && Gap(after)
    ensures Words(before + (Spread(ws, gaps) + after)) == ws
  {
    hide Split, Spread;
    var s := Spread(ws, gaps);
    SplitSpread(ws, gaps);
    GapDrops(before, s + after);
    assert (s + after)[0] == s[0];
    assert DropSpaces(s + after) == s + after;
    GapTrims(s, after);
    assert TrimRight(s) == s;
  }

  ////////// Codes //////////

  // A word that is looked up with success.
  ghost predicate Known(dict: seq<string>, w: string)
    requires |dict| == 2048
  {
    exists j | 0 <= j < 2048 && j != 570 :: dict[j] == w
  }

  lemma {:induction false} KnownIff(dict: seq<string>, w: string)
    requires Dictionary(dict)
    ensures Known(dict, w) <==> 1 <= |w| <= 4 && Lookup(dict, w) >= 0
  {
    hide Ascending, NoSpaces;
    if Known(dict, w) {
      var j :| 0 <= j < 2048 && j != 570 && dict[j] == w;
      LookupWord(dict, j);
    }
    if 1 <= |w| <= 4 && Lookup(dict, w) >= 0 { assert dict[Lookup(dict, w)] == w; }
  }

  lemma {:induction false} KnownIndices(dict: seq<string>, ws: seq<string>)
    requires Dictionary(dict) && forall i | 0 <= i < |ws| :: Known(dict, ws[i])
    ensures Indices(dict, ws).Done?
  {
    hide Known, Lookup, ToIndex, Ascending, NoSpaces;
    if ws != [] {
      KnownIndices(dict, ws[..|ws| - 1]);
      KnownIff(dict, ws[|ws| - 1]);
    }
  }

  /** The code of etob, for six words: the first that is not known decides, with -1 if its length is not one to
      four and 0 otherwise; six known words are refused only for their parity, with -2. */
  lemma {:induction false} EtobCodes(dict: seq<string>, ws: seq<string>, i: nat, beyond: Beyond)
    requires Dictionary(dict) && |ws| == 6 && i <= 6 && forall j | 0 <= j < i :: Known(dict, ws[j])
    ensures i < 6 && !Known(dict, ws[i]) ==>
              Etob(dict, ws, beyond) == Fails(if 1 <= |ws[i]| <= 4 then 0 else -1)
    ensures i == 6 ==> Etob(dict, ws, beyond).Done? || Etob(dict, ws, beyond) == Fails(-2)
  {
    hide Known, Lookup, ToIndex, Ascending, NoSpaces, InsertAll, Two, Extract, PairSum;
    KnownIndices(dict, ws[..i]);
    if i < 6 {
      KnownIff(dict, ws[i]);
      if !Known(dict, ws[i]) {
        assert ws[..i + 1][..i] == ws[..i] && ws[..i + 1][i] == ws[i];
        IndicesFail(dict, ws, i + 1);
      }
    } else {
      assert ws[..6] == ws;
    }
  }
}
