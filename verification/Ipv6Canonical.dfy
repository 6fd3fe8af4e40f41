/** The text `tor_inet_ntop` chooses for an address, and why it is the recommended one
    (section 4 of RFC 5952) and parses back to the same address. */
module Ipv6Canonical {
  import opened Text
  import opened Ipv6Grammar
  import opened Ipv6Parser
  import Ipv6Theorems
  import Ipv4

  type Words = ws: seq<Word> | |ws| == 8 witness [0, 0, 0, 0, 0, 0, 0, 0]

  // ---------------------------------------------------------------- zero runs

  predicate ZeroRun(ws: seq<Word>, p: int, n: nat) {
    0 <= p && p + n <= |ws| && forall i :: p <= i < p + n ==> ws[i] == 0
  }

  function ZeroLen(ws: seq<Word>, i: nat): (n: nat)
    requires i <= |ws|
    ensures ZeroRun(ws, i, n)
    ensures i + n < |ws| ==> ws[i + n] != 0
    decreases |ws| - i
  {
    if i < |ws| && ws[i] == 0 then 1 + ZeroLen(ws, i + 1) else 0
  }

  lemma {:induction false} ZeroLenMax(ws: seq<Word>, i: nat, m: nat)
    requires ZeroRun(ws, i, m)
    ensures m <= ZeroLen(ws, i)
    decreases m
  {
    if m > 0 {
      ZeroLenMax(ws, i + 1, m - 1);
    }
  }

  lemma SubRun(ws: seq<Word>, p: int, n: nat, m: nat)
    requires ZeroRun(ws, p, n) && m <= n
    ensures ZeroRun(ws, p, m)
  {
  }

  /** The leftmost of the longest zero runs that start at `i` or later. */
  function Best(ws: seq<Word>, i: nat): (r: (int, nat))
    requires i <= |ws|
    decreases |ws| - i
  {
    if i == |ws| then (-1, 0)
    else
      var r := Best(ws, i + 1);
      var n := ZeroLen(ws, i);
      if n > 0 && n >= r.1 then (i, n) else r
  }

  lemma {:induction false} BestIsBest(ws: seq<Word>, i: nat)
    requires i <= |ws|
    ensures var r := Best(ws, i);
            && (r.1 == 0 ==> r.0 == -1)
            && (r.1 > 0 ==> i <= r.0 && ZeroRun(ws, r.0, r.1))
            && forall q, m :: i <= q && 0 < m && ZeroRun(ws, q, m) ==> m <= r.1 && (m == r.1 ==> r.0 <= q)
    decreases |ws| - i
  {
    if i < |ws| {
      BestIsBest(ws, i + 1);
      var n := ZeroLen(ws, i);
      forall m: nat | 0 < m && ZeroRun(ws, i, m) ensures m <= n {
        ZeroLenMax(ws, i, m);
      }
    }
  }

  /** The run the printer compresses, at least two words long; position -1 if there is none. */
  function Gap(ws: Words): (int, nat) {
    var r := Best(ws, 0);
    if r.1 <= 1 then (-1, 0) else r
  }

  /** What makes a gap the one RFC 5952 asks for: longest, then leftmost, never one word. */
  ghost predicate RecommendedGap(ws: Words, p: int, n: nat) {
    if p == -1 then
      n == 0 && forall q :: !ZeroRun(ws, q, 2)
    else
      n >= 2 && ZeroRun(ws, p, n) && forall q, m :: 0 < m && ZeroRun(ws, q, m) ==> m <= n && (m == n ==> p <= q)
  }

  lemma GapIsRecommended(ws: Words)
    ensures RecommendedGap(ws, Gap(ws).0, Gap(ws).1)
    ensures var (p, n) := Gap(ws); p >= 0 && p + n < 8 ==> ws[p + n] != 0
  {
    BestIsBest(ws, 0);
    var (p, n) := Gap(ws);
    if p >= 0 && p + n < 8 && ws[p + n] == 0 {
      assert ZeroRun(ws, p, n + 1);
    }
  }

  lemma RecommendedGapUnique(ws: Words, p: int, n: nat)
    requires RecommendedGap(ws, p, n)
    ensures (p, n) == Gap(ws)
  {
    GapIsRecommended(ws);
    var (p', n') := Gap(ws);
    if p' != -1 {
      SubRun(ws, p', n', 2);
    }
    if p != -1 {
      SubRun(ws, p, n, 2);
    }
  }

  // ---------------------------------------------------------------- the chosen text

  function Hex(ws: seq<Word>): (gs: seq<string>)
    ensures |gs| == |ws|
    ensures forall i :: 0 <= i < |ws| ==> gs[i] == Numeral(16, ws[i])
  {
    seq(|ws|, i requires 0 <= i < |ws| => Numeral(16, ws[i]))
  }

  lemma HexGroups(ws: seq<Word>)
    ensures AreGroups(Hex(ws)) && GroupValues(Hex(ws)) == ws
  {
    forall i | 0 <= i < |ws| ensures IsGroup(Hex(ws)[i]) && GroupValue(Hex(ws)[i]) == ws[i] {
      NumeralWidth(16, ws[i]);
      NumeralValue(16, ws[i]);
    }
  }

  /** Addresses printed with a dotted tail: IPv4-compatible and IPv4-mapped ones. */
  predicate IsDotted(ws: Words) {
    && ws[0] == 0 && ws[1] == 0 && ws[2] == 0 && ws[3] == 0 && ws[4] == 0
    && ((ws[5] == 0 && ws[6] != 0 && ws[7] != 0) || ws[5] == 0xffff)
  }

  function TailQuad(ws: Words): Ipv4.Quad {
    [ws[6] / 256, ws[6] % 256, ws[7] / 256, ws[7] % 256]
  }

  function FormOf(ws: Words): Address6 {
    if IsDotted(ws) then
      Address6([], true, if ws[5] == 0 then [] else [Numeral(16, ws[5])], Some(Ipv4.QuadText(TailQuad(ws))))
    else
      var (p, n) := Gap(ws);
      if 0 <= p && p + n <= 8 then Address6(Hex(ws[..p]), true, Hex(ws[p + n..]), None)
      else Address6(Hex(ws), false, [], None)
  }

  /** The text printed for the eight words. */
  function PrintV6(ws: Words): string {
    Show(FormOf(ws))
  }

  lemma QuadTextIsTail(q: Ipv4.Quad)
    ensures IsTail(Ipv4.QuadText(q))
    ensures TailWords(Ipv4.QuadText(q)) == [q[0] * 256 + q[1], q[2] * 256 + q[3]]
  {
    Ipv4.QuadTextJoins(q);
    var parts := Ipv4.OctetTexts(q);
    forall i | 0 <= i < 4 ensures Ipv4.IsNumber3(parts[i]) && ValueIn(10, parts[i]) == q[i] {
      NumeralWidth(10, q[i]);
      NumeralValue(10, q[i]);
    }
  }

  lemma ZerosOf(ws: seq<Word>, p: nat, n: nat)
    requires ZeroRun(ws, p, n)
    ensures ws[p..p + n] == Zeros(n)
  {
  }

  lemma DottedDenotes(ws: Words)
    requires IsDotted(ws)
    ensures WellFormed(FormOf(ws)) && Denotes(FormOf(ws)) == ws
  {
    var f := FormOf(ws);
    hide IsTail, TailWords, Ipv4.QuadText, Numeral;
    QuadTextIsTail(TailQuad(ws));
    assert TailWords(f.tail.value) == ws[6..];
    if ws[5] == 0 {
      ZerosOf(ws, 0, 6);
      assert ws == Zeros(6) + ws[6..];
    } else {
      HexGroups(ws[5..6]);
      assert f.after == Hex(ws[5..6]);
      ZerosOf(ws, 0, 5);
      assert ws == Zeros(5) + ws[5..6] + ws[6..];
    }
  }

  lemma GapDenotes(ws: Words, p: nat, n: nat)
    requires ZeroRun(ws, p, n) && n >= 1
    ensures var f := Address6(Hex(ws[..p]), true, Hex(ws[p + n..]), None);
            WellFormed(f) && Denotes(f) == ws
  {
    HexGroups(ws[..p]);
    HexGroups(ws[p + n..]);
    ZerosOf(ws, p, n);
    assert ws == ws[..p] + ws[p..p + n] + ws[p + n..];
  }

  /** The chosen text denotes the address. */
  lemma FormDenotes(ws: Words)
    ensures WellFormed(FormOf(ws)) && Denotes(FormOf(ws)) == ws
  {
    if IsDotted(ws) {
      DottedDenotes(ws);
    } else {
      GapIsRecommended(ws);
      var (p, n) := Gap(ws);
      if p >= 0 {
        GapDenotes(ws, p, n);
      } else {
        HexGroups(ws);
        assert Zeros(0) == [];
      }
    }
  }

  /** Round trip: for every address, parsing what the printer chose gives it back. */
  lemma ParseOfPrint(ws: Words)
    ensures ParseV6(PrintV6(ws)) == Some(ws)
  {
    FormDenotes(ws);
    Ipv6Theorems.ParseShow(FormOf(ws));
  }

  /** No output is longer than 39 characters. */
  lemma PrintLength(ws: Words)
    ensures |PrintV6(ws)| <= 39
    ensures IsDotted(ws) ==> |PrintV6(ws)| <= 22
  {
    var f := FormOf(ws);
    FormDenotes(ws);
    ShowClosed(f);
    if IsDotted(ws) {
      Ipv4.QuadTextJoins(TailQuad(ws));
    }
    ClosingFree(f.before);
    ClosingFree(f.after);
    GapIsRecommended(ws);
  }

  predicate LowerHex(c: char) {
    IsDigit(c) || 'a' <= c <= 'f'
  }

  lemma {:induction false} NumeralLower(base: nat, n: nat)
    requires base == 10 || base == 16
    ensures forall i :: 0 <= i < |Numeral(base, n)| ==> LowerHex(Numeral(base, n)[i])
    decreases n
  {
    if n >= base {
      NumeralLower(base, n / base);
    }
  }

  /** Outside the dotted forms the text follows sections 4.1 to 4.3 of RFC 5952: groups
      are lower case without leading zeros, and `::` replaces the leftmost longest run of
      at least two zero words, if there is one. */
  lemma PrintIsRecommended(ws: Words)
    requires !IsDotted(ws)
    ensures var f := FormOf(ws);
            && PrintV6(ws) == Show(f) && f.tail.None?
            && (f.gap ==> RecommendedGap(ws, |f.before|, 8 - |f.before| - |f.after|))
            && (!f.gap ==> RecommendedGap(ws, -1, 0))
            && forall g :: g in f.before || g in f.after ==>
                 (|g| > 1 ==> g[0] != '0') && forall i :: 0 <= i < |g| ==> LowerHex(g[i])
  {
    GapIsRecommended(ws);
    var f := FormOf(ws);
    forall g | g in f.before || g in f.after
      ensures (|g| > 1 ==> g[0] != '0') && forall i :: 0 <= i < |g| ==> LowerHex(g[i])
    {
      var w :| g == Numeral(16, w);
      NumeralLower(16, w);
    }
  }

  /** Reading any accepted text and printing it again gives the chosen text, which
      printing leaves unchanged. */
  lemma Canonicalise(s: string)
    requires ParseV6(s).Some?
    ensures |ParseV6(s).value| == 8
    ensures ParseV6(PrintV6(ParseV6(s).value)) == ParseV6(s)
  {
    var t := Ipv6Theorems.ParseSound(s);
    Ipv6Theorems.ParseShow(t);
    ParseOfPrint(ParseV6(s).value);
  }
}
