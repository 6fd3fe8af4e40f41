/** The IPv6 parser accepts exactly the texts of the grammar and returns what they denote. */
module Ipv6Theorems {
  import opened Text
  import opened Ipv6Grammar
  import opened Ipv6Parser
  import Ipv4

  // ------------------------------------------- every well-formed text is accepted

  /** The words from `pos` on begin with `text`, counting an imaginary colon after their end. */
  predicate Reads(s: string, eow: nat, pos: nat, text: string)
    requires eow <= |s|
  {
    && pos + |text| <= eow + 1
    && forall i :: 0 <= i < |text| ==> text[i] == (if pos + i < eow then s[pos + i] else ':')
  }

  lemma ReadsAppend(s: string, eow: nat, pos: nat, a: string, b: string)
    requires eow <= |s|
    ensures Reads(s, eow, pos, a + b) <==> Reads(s, eow, pos, a) && Reads(s, eow, pos + |a|, b)
  {
    var t := a + b;
    assert forall i :: 0 <= i < |a| ==> t[i] == a[i];
    assert forall i :: 0 <= i < |b| ==> t[|a| + i] == b[i];
    if Reads(s, eow, pos, t) {
      forall i | 0 <= i < |b|
        ensures b[i] == (if pos + |a| + i < eow then s[pos + |a| + i] else ':')
      {
        assert t[|a| + i] == b[i];
      }
    }
  }

  /** One step of the scan over a group and its colon. */
  lemma ScanGroup(s: string, eow: nat, pos: nat, ws: seq<Word>, gap: int, g: string)
    requires WordsEnd(s, eow) && IsGroup(g) && |ws| <= 7
    requires Reads(s, eow, pos, g + ":")
    requires pos + |g| == eow ==> eow == |s|
    ensures Scan(s, eow, pos, ws, gap) == Scan(s, eow, pos + |g| + 1, ws + [GroupValue(g)], gap)
  {
    ReadsAppend(s, eow, pos, g, ":");
    GroupText(s, eow, pos, g);
    hide Reads, WordsEnd, IsGroup;
    ReadGroupOf(s, eow, pos, g);
    hide ReadGroup;
  }

  lemma GroupText(s: string, eow: nat, pos: nat, g: string)
    requires eow <= |s| && g != [] && Reads(s, eow, pos, g) && Reads(s, eow, pos + |g|, ":")
    ensures pos + |g| <= eow && s[pos..pos + |g|] == g
    ensures pos + |g| < eow ==> s[pos + |g|] == ':'
  {
    assert s[pos..pos + |g|] == g;
    if pos + |g| < eow {
      assert ":"[0] == s[pos + |g|];
    }
  }

  /** The scan reads a block of colon-terminated groups; the last colon may be the
      imaginary one. */
  lemma {:induction false} ScanGroups(s: string, eow: nat, pos: nat, ws: seq<Word>, gap: int, gs: seq<string>)
    requires WordsEnd(s, eow) && AreGroups(gs) && |ws| + |gs| <= 8
    requires Reads(s, eow, pos, Closing(gs))
    requires pos + |Closing(gs)| == eow + 1 ==> eow == |s|
    ensures Scan(s, eow, pos, ws, gap) == Scan(s, eow, pos + |Closing(gs)|, ws + GroupValues(gs), gap)
    decreases |gs|
  {
    hide *;
    WordsEndInside(s, eow);
    if gs == [] {
      NoGroups(ws);
    } else {
      var g, rest := gs[0], Closing(gs[1..]);
      ClosingStep(gs);
      ReadsFits(s, eow, pos, Closing(gs));
      ReadsAppend(s, eow, pos, g + ":", rest);
      ScanGroup(s, eow, pos, ws, gap, g);
      ScanGroups(s, eow, pos + |g| + 1, ws + [GroupValue(g)], gap, gs[1..]);
      GroupValuesStep(ws, gs);
    }
  }

  lemma ReadsFits(s: string, eow: nat, pos: nat, text: string)
    requires eow <= |s| && Reads(s, eow, pos, text)
    ensures pos + |text| <= eow + 1
  {
  }

  lemma NoGroups(ws: seq<Word>)
    ensures Closing([]) == "" && ws + GroupValues([]) == ws
  {
  }

  lemma ClosingStep(gs: seq<string>)
    requires gs != [] && AreGroups(gs)
    ensures Closing(gs) == (gs[0] + ":") + Closing(gs[1..])
    ensures |Closing(gs)| == |gs[0]| + 1 + |Closing(gs[1..])|
    ensures IsGroup(gs[0]) && AreGroups(gs[1..])
    ensures |Closing(gs)| == |gs[0]| + 1 <==> gs[1..] == []
  {
    ClosingFree(gs[1..]);
  }

  lemma GroupValuesStep(ws: seq<Word>, gs: seq<string>)
    requires gs != []
    ensures ws + [GroupValue(gs[0])] + GroupValues(gs[1..]) == ws + GroupValues(gs)
  {
  }

  /** The scan over `::` or over the extra colon that makes a gap. */
  lemma ScanGap(s: string, eow: nat, before: seq<string>)
    requires WordsEnd(s, eow) && AreGroups(before) && |before| <= 7
    requires Reads(s, eow, 0, Closed(before, true, []))
    requires |Closed(before, true, [])| <= eow
    ensures Scan(s, eow, 0, [], -1) ==
            Scan(s, eow, |Closed(before, true, [])|, GroupValues(before), |before|)
  {
    hide *;
    GapForms(before);
    WordsEndInside(s, eow);
    if before == [] {
      ReadsDouble(s, eow);
      ScanGapStart(s, eow);
      NoGroups([]);
    } else {
      var b := Closing(before);
      ReadsAppend(s, eow, 0, b, ":");
      ReadsColon(s, eow, |b|);
      ScanGapColon(s, eow, |b|, GroupValues(before));
      ScanGroups(s, eow, 0, [], -1, before);
      assert [] + GroupValues(before) == GroupValues(before);
    }
  }

  lemma ReadsDouble(s: string, eow: nat)
    requires 2 <= eow <= |s| && Reads(s, eow, 0, "::")
    ensures s[0] == ':' && s[1] == ':'
  {
    assert "::"[0] == s[0 + 0] && "::"[1] == s[0 + 1];
  }

  lemma ReadsColon(s: string, eow: nat, pos: nat)
    requires pos < eow <= |s| && Reads(s, eow, pos, ":")
    ensures s[pos] == ':'
  {
    assert ":"[0] == s[pos + 0];
  }

  lemma ScanGapStart(s: string, eow: nat)
    requires WordsEnd(s, eow) && eow >= 2 && s[0] == ':' && s[1] == ':'
    ensures Scan(s, eow, 0, [], -1) == Scan(s, eow, 2, [], 0)
  {
  }

  lemma ScanGapColon(s: string, eow: nat, pos: nat, ws: seq<Word>)
    requires WordsEnd(s, eow) && pos < eow && s[pos] == ':' && 0 < |ws| <= 7
    ensures Scan(s, eow, pos, ws, -1) == Scan(s, eow, pos + 1, ws, |ws|)
  {
  }

  /** What the scan returns on the closed form of some groups. */
  lemma ScanClosed(s: string, eow: nat, before: seq<string>, gap: bool, after: seq<string>)
    requires WordsEnd(s, eow) && AreGroups(before) && AreGroups(after)
    requires |before| + |after| <= (if gap then 7 else 8) && (!gap ==> after == [])
    requires Reads(s, eow, 0, Closed(before, gap, after)) && |Closed(before, gap, after)| >= eow
    requires |Closed(before, gap, after)| == eow + 1 ==> eow == |s| && (!gap || after != [])
    ensures Scan(s, eow, 0, [], -1) ==
            Some(Scanned(GroupValues(before) + GroupValues(after), if gap then |before| else -1))
  {
    hide Scan, Reads, WordsEnd, AreGroups;
    var c := Closed(before, gap, after);
    ScanEnd(s, eow, |c|, GroupValues(before) + GroupValues(after), if gap then |before| else -1);
    if !gap {
      assert c == Closing(before);
      ScanGroups(s, eow, 0, [], -1, before);
      assert [] + GroupValues(before) == GroupValues(before) + GroupValues(after);
    } else {
      ScanClosedGap(s, eow, before, after);
    }
  }

  lemma ScanEnd(s: string, eow: nat, pos: nat, ws: seq<Word>, gap: int)
    requires WordsEnd(s, eow) && pos >= eow
    ensures Scan(s, eow, pos, ws, gap) == Some(Scanned(ws, gap))
  {
  }

  lemma ScanClosedGap(s: string, eow: nat, before: seq<string>, after: seq<string>)
    requires WordsEnd(s, eow) && AreGroups(before) && AreGroups(after) && |before| + |after| <= 7
    requires Reads(s, eow, 0, Closed(before, true, after))
    requires |Closed(before, true, after)| == eow + 1 ==> eow == |s| && after != []
    ensures Scan(s, eow, 0, [], -1) == Scan(s, eow, |Closed(before, true, after)|,
                                            GroupValues(before) + GroupValues(after), |before|)
  {
    hide Scan, Reads, AreGroups;
    WordsEndInside(s, eow);
    var lead := Closed(before, true, []);
    assert Closed(before, true, after) == lead + Closing(after);
    ReadsFits(s, eow, 0, Closed(before, true, after));
    ReadsAppend(s, eow, 0, lead, Closing(after));
    ClosingFree(after);
    ScanGap(s, eow, before);
    ScanGroups(s, eow, |lead|, GroupValues(before), |before|, after);
  }

  lemma {:induction false} FirstDotIs(s: string, i: nat)
    requires i <= |s| && (i < |s| ==> s[i] == '.')
    requires forall k :: 0 <= k < i ==> s[k] != '.'
    ensures FirstDot(s) == i
  {
    var j := FirstDot(s);
    assert j <= i && i <= j;
  }

  lemma {:induction false} BackTo(s: string, pos: nat, i: nat)
    requires i <= pos < |s| && !IsDigit(s[i])
    requires forall k :: i < k <= pos ==> IsDigit(s[k])
    ensures BackOverDigits(s, pos) == i
  {
    if i < pos {
      BackTo(s, pos - 1, i);
    }
  }

  /** The first dot lies in the tail, one to three digits past the words. */
  lemma CutTail(c: string, q: string)
    requires c != [] && c[|c| - 1] == ':' && Free(c, '.') && IsTail(q)
    ensures Cut(c + q) == Some((|c|, Some(q)))
    ensures !EndsInLoneColon(c + q)
  {
    hide IsTail, Cut, FirstDot, BackOverDigits, Free;
    var s := c + q;
    var n := TailShape(q);
    FreeBefore(c, q);
    FirstDotIs(s, |c| + n);
    BackTo(s, |c| + n - 1, |c| - 1);
    assert s[|c|..] == q;
    CutAt(s, |c| + n, |c| - 1);
  }

  lemma FreeBefore(c: string, q: string)
    requires Free(c, '.')
    ensures forall k :: 0 <= k < |c| ==> (c + q)[k] != '.'
  {
  }

  lemma CutAt(s: string, dot: nat, colon: nat)
    requires dot < |s| && FirstDot(s) == dot && colon < dot && BackOverDigits(s, dot - 1) == colon
    requires s[colon] == ':' && IsTail(s[colon + 1..])
    ensures Cut(s) == Some((colon + 1, Some(s[colon + 1..])))
  {
    hide FirstDot, BackOverDigits, IsTail;
  }

  /** A tail starts with digits and a dot and ends with a digit. */
  lemma TailShape(q: string) returns (n: nat)
    requires IsTail(q)
    ensures 1 <= n < |q| && q[n] == '.' && IsDigit(q[|q| - 1])
    ensures forall k :: 0 <= k < n ==> IsDigit(q[k])
  {
    hide ValueIn;
    var parts := Split(q, '.');
    assert Ipv4.IsNumber3(parts[0]);
    Ipv4.FirstPiece(q, 3);
    n := |parts[0]|;
    forall k | 0 <= k < n ensures IsDigit(q[k]) {
      assert q[k] == parts[0][k];
    }
    LastOfTail(q);
  }

  lemma {:induction false} LastOfTail(q: string)
    requires forall i :: 0 <= i < |Split(q, '.')| ==> Split(q, '.')[i] != [] && AllDigits(Split(q, '.')[i])
    ensures q != [] && IsDigit(q[|q| - 1])
  {
    var parts := Split(q, '.');
    Ipv4.FirstPiece(q, 3);
    var n := |parts[0]|;
    assert parts[0] != [];
    if |parts| == 1 {
      assert q == parts[0];
    } else {
      assert forall i :: 0 <= i < |parts[1..]| ==> parts[1..][i] == parts[i + 1];
      LastOfTail(q[n + 1..]);
      assert q[n + 1..][|q| - n - 2] == q[|q| - 1];
    }
  }

  /** A text without a tail has no dot and does not end in a lone colon. */
  lemma CutNone(t: Address6)
    requires WellFormed(t) && t.tail.None?
    ensures Cut(Show(t)) == Some((|Show(t)|, None))
    ensures !EndsInLoneColon(Show(t))
  {
    hide *;
    var s, c := Show(t), Closed(t.before, t.gap, t.after);
    PlainParts(t);
    ShowClosed(t);
    ClosedFree(t.before, t.gap, t.after);
    if t.gap && t.after == [] {
      GapForms(t.before);
      ClosingFree(t.before);
      NoDotIn(s, s);
      NotLone(s);
    } else {
      var last := if t.gap then t.after else t.before;
      ClosedEnds(t.before, t.gap, t.after);
      ClosingFree(last);
      var l := Closing(last);
      assert c[|c| - 2] == l[|l| - 2];
      NoDotIn(s, c);
      assert s[|s| - 1] == c[|c| - 2];
      NotLone(s);
    }
    FirstDotIs(s, |s|);
    NoDotNoCut(s);
  }

  lemma PlainParts(t: Address6)
    requires WellFormed(t) && t.tail.None?
    ensures AreGroups(t.before) && AreGroups(t.after)
    ensures !t.gap ==> t.after == [] && t.before != []
  {
  }

  lemma NoDotIn(s: string, c: string)
    requires Free(c, '.') && (s == c || s + ":" == c)
    ensures forall k :: 0 <= k < |s| ==> s[k] == c[k] && s[k] != '.'
  {
    assert s == c[..|s|];
  }

  lemma NotLone(s: string)
    requires s != [] && (IsXDigit(s[|s| - 1]) || (|s| > 1 && s[|s| - 2] == ':'))
    ensures !EndsInLoneColon(s)
  {
  }

  lemma NoDotNoCut(s: string)
    requires FirstDot(s) == |s|
    ensures Cut(s) == Some((|s|, None))
  {
  }

  /** A closed form ends in the closed groups of its last block. */
  lemma ClosedEnds(before: seq<string>, gap: bool, after: seq<string>)
    requires !gap ==> after == []
    ensures var l := Closing(if gap then after else before);
            var c := Closed(before, gap, after);
            |l| <= |c| && c[|c| - |l|..] == l
  {
    assert Closing([]) == "";
  }

  /** The words of a shown text read as the closed form of its groups. */
  lemma ShowReads(t: Address6, eow: nat)
    requires WellFormed(t)
    requires eow == if t.tail.Some? then |Closed(t.before, t.gap, t.after)| else |Show(t)|
    ensures eow <= |Show(t)|
    ensures var c := Closed(t.before, t.gap, t.after);
            && Reads(Show(t), eow, 0, c) && |c| >= eow
            && (|c| == eow + 1 ==> eow == |Show(t)| && (!t.gap || t.after != []))
  {
    ShowClosed(t);
    var s, c := Show(t), Closed(t.before, t.gap, t.after);
    if t.tail.Some? {
      assert s == c + t.tail.value;
    } else if !(t.gap && t.after == []) {
      assert c == s + ":";
    }
  }

  /** Where the words of a shown text end. */
  lemma CutShow(t: Address6)
    requires WellFormed(t)
    ensures !EndsInLoneColon(Show(t))
    ensures Cut(Show(t)) == Some((if t.tail.Some? then |Closed(t.before, t.gap, t.after)| else |Show(t)|, t.tail))
  {
    if t.tail.Some? {
      ShowClosed(t);
      ClosedFree(t.before, t.gap, t.after);
      ClosingFree(t.before);
      CutTail(Closed(t.before, t.gap, t.after), t.tail.value);
    } else {
      CutNone(t);
    }
  }

  /** Completeness: every well-formed text parses to the words it denotes. */
  lemma ParseShow(t: Address6)
    requires WellFormed(t)
    ensures ParseV6(Show(t)) == Some(Denotes(t))
  {
    hide Show, Closed, Cut, Scan, Finish, Denotes, Reads, EndsInLoneColon, GroupValues, TailWords, IsTail, IsGroup;
    var eow := if t.tail.Some? then |Closed(t.before, t.gap, t.after)| else |Show(t)|;
    CutShow(t);
    ShowReads(t, eow);
    ScanClosed(Show(t), eow, t.before, t.gap, t.after);
    FinishDenotes(t, if t.tail.Some? then TailWords(t.tail.value) else []);
  }

  lemma FinishDenotes(t: Address6, tail: seq<Word>)
    requires WellFormed(t)
    requires tail == if t.tail.Some? then TailWords(t.tail.value) else []
    ensures Finish(Scanned(GroupValues(t.before) + GroupValues(t.after), if t.gap then |t.before| else -1), tail)
            == Some(Denotes(t))
  {
    var b, a := GroupValues(t.before), GroupValues(t.after);
    assert (b + a)[..|b|] == b && (b + a)[|b|..] == a;
    if !t.gap {
      assert Zeros(0) == [] && a == [];
      assert b + Zeros(0) + a + tail == b + a + tail;
    }
  }

  // ------------------------------------------- nothing else is accepted

  /** The part of a text the scan has consumed, described by its groups. */
  ghost predicate Consumed(s: string, eow: nat, pos: nat, before: seq<string>, gap: bool, after: seq<string>) {
    && WordsEnd(s, eow) && AreGroups(before) && AreGroups(after) && (!gap ==> after == [])
    && pos == |Closed(before, gap, after)| && Reads(s, eow, 0, Closed(before, gap, after))
    && (pos == eow + 1 ==> eow == |s| && (if gap then after != [] else before != []))
  }

  function WordsOf(before: seq<string>, after: seq<string>): seq<Word> {
    GroupValues(before) + GroupValues(after)
  }

  function GapOf(before: seq<string>, gap: bool): int {
    if gap then |before| else -1
  }

  lemma AreGroupsAppend(gs: seq<string>, g: string)
    requires AreGroups(gs) && IsGroup(g)
    ensures AreGroups(gs + [g])
  {
  }

  /** Reading one more group extends the description. */
  lemma ConsumeGroup(s: string, eow: nat, pos: nat, before: seq<string>, gap: bool, after: seq<string>, g: string)
    requires Consumed(s, eow, pos, before, gap, after) && IsGroup(g)
    requires Reads(s, eow, pos, g + ":")
    requires pos + |g| == eow ==> eow == |s|
    ensures gap ==> Consumed(s, eow, pos + |g| + 1, before, gap, after + [g])
    ensures gap ==> WordsOf(before, after + [g]) == WordsOf(before, after) + [GroupValue(g)]
    ensures !gap ==> Consumed(s, eow, pos + |g| + 1, before + [g], gap, [])
    ensures !gap ==> WordsOf(before + [g], []) == WordsOf(before, after) + [GroupValue(g)]
  {
    var c := Closed(before, gap, after);
    ReadsAppend(s, eow, 0, c, g + ":");
    if gap {
      ClosingAppend(after, g);
      AreGroupsAppend(after, g);
      assert Closed(before, gap, after + [g]) == c + (g + ":");
    } else {
      ClosingAppend(before, g);
      AreGroupsAppend(before, g);
      assert Closed(before + [g], gap, []) == c + (g + ":");
    }
  }

  lemma GapForms(before: seq<string>)
    requires AreGroups(before)
    ensures Closed(before, false, []) == Closing(before)
    ensures Closed(before, true, []) == if before == [] then "::" else Closing(before) + ":"
    ensures before == [] ==> Closing(before) == ""
  {
    assert Closing([]) == "";
  }

  lemma ReadsOne(s: string, eow: nat, pos: nat)
    requires eow <= |s| && pos < eow && s[pos] == ':'
    ensures Reads(s, eow, pos, ":")
    ensures pos + 1 < eow && s[pos + 1] == ':' ==> Reads(s, eow, pos, "::")
  {
  }

  lemma ConsumedParts(s: string, eow: nat, pos: nat, before: seq<string>, gap: bool)
    ensures Consumed(s, eow, pos, before, gap, []) <==>
            && WordsEnd(s, eow) && AreGroups(before)
            && pos == |Closed(before, gap, [])| && Reads(s, eow, 0, Closed(before, gap, []))
            && (pos == eow + 1 ==> eow == |s| && !gap && before != [])
  {
  }

  /** Reading `::`, or the colon after a group, opens the gap. */
  lemma ConsumeGap(s: string, eow: nat, pos: nat, before: seq<string>)
    requires Consumed(s, eow, pos, before, false, [])
    requires before == [] ==> pos + 2 <= eow && s[pos] == ':' && s[pos + 1] == ':'
    requires before != [] ==> pos + 1 <= eow && s[pos] == ':'
    ensures Consumed(s, eow, |Closed(before, true, [])|, before, true, [])
    ensures |Closed(before, true, [])| == pos + if before == [] then 2 else 1
  {
    hide *;
    ConsumedParts(s, eow, pos, before, false);
    ConsumedParts(s, eow, |Closed(before, true, [])|, before, true);
    GapForms(before);
    WordsEndInside(s, eow);
    ReadsOne(s, eow, pos);
    if before != [] {
      ReadsAppend(s, eow, 0, Closing(before), ":");
    }
  }

  lemma WordsEndInside(s: string, eow: nat)
    requires WordsEnd(s, eow)
    ensures eow <= |s|
  {
  }

  /** A group the scan reads is a group of the grammar, followed by its colon. */
  lemma GroupRead(s: string, eow: nat, pos: nat)
    requires WordsEnd(s, eow) && pos < eow && IsXDigit(s[pos]) && ReadGroup(s, eow, pos).Some?
    ensures var (v, next) := ReadGroup(s, eow, pos).value;
            var g := s[pos..next];
            && IsGroup(g) && v == GroupValue(g) && Reads(s, eow, pos, g + ":")
            && (next == eow ==> eow == |s|)
  {
    var next := ReadGroup(s, eow, pos).value.1;
    GroupFits(s, eow, pos);
    var g := s[pos..next];
    GroupValueExact(g);
    assert g[|g| - 1] == s[next - 1];
  }

  /** A successful scan consumed the closed form of some groups. */
  lemma {:induction false} ScanSound(s: string, eow: nat, pos: nat, before: seq<string>, gap: bool, after: seq<string>)
      returns (before': seq<string>, gap': bool, after': seq<string>, pos': nat)
    requires Consumed(s, eow, pos, before, gap, after)
    requires Scan(s, eow, pos, WordsOf(before, after), GapOf(before, gap)).Some?
    ensures Consumed(s, eow, pos', before', gap', after') && pos' >= eow
    ensures Scan(s, eow, pos, WordsOf(before, after), GapOf(before, gap)) ==
            Some(Scanned(WordsOf(before', after'), GapOf(before', gap')))
    decreases eow - pos
  {
    hide ReadGroup, Reads, Closed, GroupValue, AreGroups;
    before', gap', after', pos' := before, gap, after, pos;
    if pos < eow {
      if IsXDigit(s[pos]) {
        GroupRead(s, eow, pos);
        var next := ReadGroup(s, eow, pos).value.1;
        var g := s[pos..next];
        ConsumeGroup(s, eow, pos, before, gap, after, g);
        if gap {
          before', gap', after', pos' := ScanSound(s, eow, next + 1, before, gap, after + [g]);
        } else {
          before', gap', after', pos' := ScanSound(s, eow, next + 1, before + [g], gap, []);
        }
      } else {
        ConsumeGap(s, eow, pos, before);
        before', gap', after', pos' := ScanSound(s, eow, |Closed(before, true, [])|, before, true, []);
      }
    }
  }

  /** A closed form that does not end in `::` ends in a lone colon. */
  lemma ClosedEnd(before: seq<string>, gap: bool, after: seq<string>)
    requires AreGroups(before) && AreGroups(after) && (!gap ==> after == [])
    requires if gap then after != [] else |before| == 8
    ensures EndsInLoneColon(Closed(before, gap, after))
  {
    ClosingFree(before);
    ClosingFree(after);
    var c, l := Closed(before, gap, after), Closing(if gap then after else before);
    assert c[|c| - 1] == l[|l| - 1] && c[|c| - 2] == l[|l| - 2];
  }

  /** The reading of an accepted text once its words have been scanned. */
  lemma ReadingShows(s: string, eow: nat, pos: nat, t: Address6)
    requires Consumed(s, eow, pos, t.before, t.gap, t.after) && pos >= eow && !EndsInLoneColon(s)
    requires WellFormed(t) && Cut(s) == Some((eow, t.tail))
    ensures Show(t) == s
  {
    hide Cut, IsTail;
    var c := Closed(t.before, t.gap, t.after);
    ShowClosed(t);
    if t.tail.Some? {
      CutProper(s);
      ReadsPrefix(s, eow, c);
      assert s == s[..eow] + s[eow..];
    } else if pos == eow + 1 {
      ReadsPast(s, c);
      assert s == c[..|s|] && Show(t) == c[..|Show(t)|];
    } else {
      ReadsPrefix(s, eow, c);
      assert s == s[..eow] == c;
      if !(t.gap && t.after == []) {
        ClosedEnd(t.before, t.gap, t.after);
      }
    }
  }

  lemma ReadsPrefix(s: string, eow: nat, c: string)
    requires |c| == eow <= |s| && Reads(s, eow, 0, c)
    ensures s[..eow] == c
  {
  }

  lemma ReadsPast(s: string, c: string)
    requires |c| == |s| + 1 && Reads(s, |s|, 0, c)
    ensures s + ":" == c
  {
  }

  lemma CutProper(s: string)
    requires Cut(s).Some? && Cut(s).value.1.Some?
    ensures Cut(s).value.0 < |s|
  {
    LastOfTail(s[Cut(s).value.0..]);
  }

  /** Soundness: an accepted text has a reading in the grammar. */
  lemma ParseSound(s: string) returns (t: Address6)
    requires ParseV6(s).Some?
    ensures WellFormed(t) && Show(t) == s
  {
    var cut := Cut(s).value;
    var eow, tail := cut.0, cut.1;
    assert Consumed(s, eow, 0, [], false, []);
    assert WordsOf([], []) == [];
    var before, gap, after, pos := ScanSound(s, eow, 0, [], false, []);
    t := Address6(before, gap, after, tail);
    assert Finish(Scanned(WordsOf(before, after), GapOf(before, gap)), TailOf(cut)).Some?;
    assert WellFormed(t);
    ReadingShows(s, eow, pos, t);
  }

  /** The parser is the grammar: a text is accepted with the words `ws` exactly when
      some well-formed reading of it denotes `ws`. */
  lemma ParserIsGrammar(s: string, ws: seq<Word>)
    ensures ParseV6(s) == Some(ws) <==> exists t :: WellFormed(t) && Show(t) == s && Denotes(t) == ws
  {
    if ParseV6(s) == Some(ws) {
      var t := ParseSound(s);
      ParseShow(t);
      assert WellFormed(t) && Show(t) == s && Denotes(t) == ws;
    }
    forall t | WellFormed(t) && Show(t) == s && Denotes(t) == ws
      ensures ParseV6(s) == Some(ws)
    {
      ParseShow(t);
    }
  }
}
