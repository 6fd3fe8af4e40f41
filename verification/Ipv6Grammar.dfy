/** The text form of IPv6 addresses as section 2.2 of RFC 4291 describes it, stated
    without reference to how networking/add.c scans or prints it. */
module Ipv6Grammar {
  import opened Text
  import Ipv4

  type Word = w: nat | w <= 0xffff

  /** A text cut into its parts: hex groups before and after an optional `::`, and
      an optional dotted quad at the end. */
  datatype Address6 = Address6(before: seq<string>, gap: bool, after: seq<string>, tail: Option<string>)

  predicate IsGroup(g: string) {
    1 <= |g| <= 4 && AllXDigits(g)
  }

  predicate AreGroups(gs: seq<string>) {
    forall i :: 0 <= i < |gs| ==> IsGroup(gs[i])
  }

  /** Four numbers of one to three digits, each at most 255. Unlike `tor_inet_aton`,
      the IPv6 parser lets them start with zeros. */
  predicate IsTail(q: string) {
    var parts := Split(q, '.');
    Ipv4.AreNumbers(parts, 4) && forall i :: 0 <= i < 4 ==> ValueIn(10, parts[i]) <= 255
  }

  function TailWords(q: string): (ws: seq<Word>)
    requires IsTail(q)
    ensures |ws| == 2
  {
    var v := Ipv4.ValuesOf(Split(q, '.'));
    [v[0] * 256 + v[1], v[2] * 256 + v[3]]
  }

  /** How many of the eight words the text spells out. */
  function Spelled(t: Address6): nat {
    |t.before| + |t.after| + (if t.tail.Some? then 2 else 0)
  }

  /** `::` stands for at least one group; without it all eight words are spelled out. */
  predicate WellFormed(t: Address6) {
    && AreGroups(t.before) && AreGroups(t.after)
    && (t.tail.Some? ==> IsTail(t.tail.value))
    && (if t.gap then Spelled(t) <= 7 else t.after == [] && Spelled(t) == 8)
  }

  function Items(groups: seq<string>, tail: Option<string>): seq<string> {
    if tail.Some? then groups + [tail.value] else groups
  }

  function Show(t: Address6): string {
    if t.gap then Join(t.before, ':') + "::" + Join(Items(t.after, t.tail), ':')
    else Join(Items(t.before, t.tail), ':')
  }

  function GroupValue(g: string): Word {
    if ValueIn(16, g) <= 0xffff then ValueIn(16, g) else 0xffff
  }

  function GroupValues(gs: seq<string>): (ws: seq<Word>)
    ensures |ws| == |gs|
    ensures forall i :: 0 <= i < |gs| ==> ws[i] == GroupValue(gs[i])
  {
    seq(|gs|, i requires 0 <= i < |gs| => GroupValue(gs[i]))
  }

  lemma GroupValueExact(g: string)
    requires IsGroup(g)
    ensures GroupValue(g) == ValueIn(16, g)
  {
    HexWidth(g);
  }

  function Zeros(n: nat): (ws: seq<Word>)
    ensures |ws| == n && forall i :: 0 <= i < n ==> ws[i] == 0
  {
    seq(n, _ => 0)
  }

  /** The eight words a well-formed text denotes. */
  function Denotes(t: Address6): (ws: seq<Word>)
    requires WellFormed(t)
    ensures |ws| == 8
  {
    GroupValues(t.before) + Zeros(8 - Spelled(t)) + GroupValues(t.after)
      + (if t.tail.Some? then TailWords(t.tail.value) else [])
  }

  // ------------------------------------------- colon-terminated groups

  /** Each group followed by a colon: the shape a left-to-right scan consumes. */
  function Closing(gs: seq<string>): string {
    if gs == [] then "" else gs[0] + ":" + Closing(gs[1..])
  }

  function Closed(before: seq<string>, gap: bool, after: seq<string>): string {
    (if gap then (if before == [] then "::" else Closing(before) + ":") else Closing(before)) + Closing(after)
  }

  lemma {:induction false} ClosingAppend(gs: seq<string>, g: string)
    ensures Closing(gs + [g]) == Closing(gs) + g + ":"
  {
    if gs == [] {
      assert [g][1..] == [];
    } else {
      assert (gs + [g])[1..] == gs[1..] + [g];
      ClosingAppend(gs[1..], g);
    }
  }

  lemma {:induction false} JoinIsClosing(gs: seq<string>, last: string)
    ensures Join(gs + [last], ':') == Closing(gs) + last
  {
    if gs != [] {
      assert (gs + [last])[1..] == gs[1..] + [last];
      JoinIsClosing(gs[1..], last);
    }
  }

  lemma JoinClosed(gs: seq<string>)
    requires gs != []
    ensures Join(gs, ':') + ":" == Closing(gs)
  {
    var last := |gs| - 1;
    assert gs == gs[..last] + [gs[last]];
    JoinIsClosing(gs[..last], gs[last]);
    ClosingAppend(gs[..last], gs[last]);
  }

  /** How the shown text relates to the closed form of its groups. */
  lemma ShowClosed(t: Address6)
    requires !t.gap ==> t.after == [] && (t.before != [] || t.tail.Some?)
    ensures t.tail.Some? ==> Show(t) == Closed(t.before, t.gap, t.after) + t.tail.value
    ensures t.tail.None? && t.gap && t.after == [] ==> Show(t) == Closed(t.before, t.gap, t.after)
    ensures t.tail.None? && !(t.gap && t.after == []) ==> Show(t) + ":" == Closed(t.before, t.gap, t.after)
  {
    if t.gap {
      var lead := Join(t.before, ':') + "::";
      if t.before != [] {
        JoinClosed(t.before);
      }
      assert lead == Closed(t.before, true, []);
      if t.tail.Some? {
        JoinIsClosing(t.after, t.tail.value);
        assert Show(t) == lead + (Closing(t.after) + t.tail.value);
      } else if t.after != [] {
        JoinClosed(t.after);
        assert Show(t) + ":" == lead + (Join(t.after, ':') + ":");
      }
    } else {
      assert Closing(t.after) == "";
      if t.tail.Some? {
        JoinIsClosing(t.before, t.tail.value);
      } else {
        JoinClosed(t.before);
      }
    }
  }

  lemma {:induction false} ClosingFree(gs: seq<string>)
    requires AreGroups(gs)
    ensures Free(Closing(gs), '.')
    ensures gs != [] ==> |Closing(gs)| >= 2 && Closing(gs)[|Closing(gs)| - 1] == ':'
    ensures gs != [] ==> IsXDigit(Closing(gs)[|Closing(gs)| - 2])
    ensures |Closing(gs)| <= 5 * |gs|
    ensures |Closing(gs)| >= 2 * |gs|
  {
    if gs != [] {
      ClosingFree(gs[1..]);
      assert IsGroup(gs[0]);
      var s := Closing(gs);
      assert s == gs[0] + ":" + Closing(gs[1..]);
      if gs[1..] == [] {
        assert s == gs[0] + ":";
        assert s[|s| - 2] == gs[0][|gs[0]| - 1];
      } else {
        var r := Closing(gs[1..]);
        assert s[|s| - 1] == r[|r| - 1] && s[|s| - 2] == r[|r| - 2];
      }
      assert forall i :: 0 <= i < |gs[0]| ==> gs[0][i] != '.';
    }
  }

  lemma ClosedFree(before: seq<string>, gap: bool, after: seq<string>)
    requires AreGroups(before) && AreGroups(after)
    ensures Free(Closed(before, gap, after), '.')
    ensures var s := Closed(before, gap, after);
            s != [] ==> s[|s| - 1] == ':'
  {
    ClosingFree(before);
    ClosingFree(after);
  }
}
