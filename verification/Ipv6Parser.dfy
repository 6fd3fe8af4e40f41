/** `tor_inet_pton` for AF_INET6 (networking/add.c): a left-to-right scan with one
    moving index, followed by a block move that opens the gap. */
module Ipv6Parser {
  import opened Text
  import opened Ipv6Grammar

  // ---------------------------------------------------------------- strtol

  /** Index just past the hex digits that start at `pos`. */
  function XRunEnd(s: string, pos: nat): (e: nat)
    requires pos <= |s|
    ensures pos <= e <= |s|
    decreases |s| - pos
  {
    if pos < |s| && IsXDigit(s[pos]) then XRunEnd(s, pos + 1) else pos
  }

  lemma {:induction false} XRunEndIs(s: string, pos: nat, e: nat)
    requires pos <= e <= |s|
    requires forall i :: pos <= i < e ==> IsXDigit(s[i])
    requires e < |s| ==> !IsXDigit(s[e])
    ensures XRunEnd(s, pos) == e
    decreases e - pos
  {
    if pos < e {
      XRunEndIs(s, pos + 1, e);
    }
  }

  lemma {:induction false} XRunDigits(s: string, pos: nat)
    requires pos <= |s|
    ensures forall i :: pos <= i < XRunEnd(s, pos) ==> IsXDigit(s[i])
    decreases |s| - pos
  {
    if pos < |s| && IsXDigit(s[pos]) {
      XRunDigits(s, pos + 1);
    }
  }

  predicate HasHexPrefix(s: string, pos: nat) {
    pos + 2 < |s| && s[pos] == '0' && (s[pos + 1] == 'x' || s[pos + 1] == 'X') && IsXDigit(s[pos + 2])
  }

  const LONG_MAX: nat := 0x7fff_ffff_ffff_ffff

  /** `strtol(src, &next, 16)` where `src` points at a hex digit: an optional `0x`
      that digits follow, then the run of digits; the value saturates. */
  function Strtol16(s: string, pos: nat): (r: (nat, nat))
    requires pos < |s| && IsXDigit(s[pos])
    ensures pos < r.1 <= |s|
  {
    var start := if HasHexPrefix(s, pos) then pos + 2 else pos;
    var e := XRunEnd(s, start);
    var v := ValueIn(16, s[start..e]);
    (if v > LONG_MAX then LONG_MAX else v, e)
  }

  // ---------------------------------------------------------------- the word scan

  datatype Scanned = Scanned(words: seq<Word>, gap: int)

  /** The words end at the end of the text, or just after the colon before a dotted tail. */
  predicate WordsEnd(s: string, eow: nat) {
    eow <= |s| && (eow < |s| ==> eow > 0 && s[eow - 1] == ':')
  }

  /** The group at `pos`, with the index after it, if it passes the scan's checks. */
  function ReadGroup(s: string, eow: nat, pos: nat): (r: Option<(Word, nat)>)
    requires WordsEnd(s, eow) && pos < eow && IsXDigit(s[pos])
    ensures r.Some? ==> pos < r.value.1 <= eow
  {
    var (v, next) := Strtol16(s, pos);
    var len := if next == |s| then eow - pos else next - pos;
    if len > 4 then None
    else if len > 1 && !IsXDigit(s[pos + 1]) then None
    else if (next == |s| || s[next] != ':') && next != eow then None
    else
      GroupFits(s, eow, pos);
      Some((v, next))
  }

  /** The loop over the words, from position `pos` with the words read so far and
      the gap position, -1 for none. */
  function Scan(s: string, eow: nat, pos: nat, ws: seq<Word>, gap: int): Option<Scanned>
    requires WordsEnd(s, eow)
    decreases eow - pos
  {
    if pos >= eow then Some(Scanned(ws, gap))
    else if |ws| > 7 then None
    else if IsXDigit(s[pos]) then
      match ReadGroup(s, eow, pos)
      case None => None
      case Some((v, next)) => Scan(s, eow, next + 1, ws + [v], gap)
    else if s[pos] == ':' && |ws| > 0 && gap == -1 then Scan(s, eow, pos + 1, ws, |ws|)
    else if s[pos] == ':' && |ws| == 0 && pos + 1 < eow && s[pos + 1] == ':' && gap == -1 then
      Scan(s, eow, pos + 2, ws, 0)
    else None
  }

  // ---------------------------------------------------------------- the whole parse

  /** Index of the first dot, or the length when there is none. */
  function FirstDot(s: string): (i: nat)
    ensures i <= |s|
    ensures i < |s| ==> s[i] == '.'
    ensures forall k :: 0 <= k < i ==> s[k] != '.'
  {
    if s == [] || s[0] == '.' then 0 else 1 + FirstDot(s[1..])
  }

  /** Walk back from `pos` over digits, stopping at the first character at the latest. */
  function BackOverDigits(s: string, pos: nat): (i: nat)
    requires pos < |s|
    ensures i <= pos
  {
    if pos > 0 && IsDigit(s[pos]) then BackOverDigits(s, pos - 1) else pos
  }

  predicate EndsInLoneColon(s: string) {
    |s| > 2 && s[|s| - 1] == ':' && s[|s| - 2] != ':'
  }

  /** Where the words end and the dotted tail begins, if the tail is acceptable. */
  function Cut(s: string): (r: Option<(nat, Option<string>)>)
    ensures r.Some? ==> WordsEnd(s, r.value.0)
    ensures r.Some? && r.value.1.Some? ==>
      r.value.0 > 0 && s[r.value.0 - 1] == ':' && r.value.1.value == s[r.value.0..] && IsTail(s[r.value.0..])
    ensures r.Some? && r.value.1.None? ==> r.value.0 == |s|
  {
    var dot := FirstDot(s);
    if dot == |s| then Some((|s|, None))
    else if dot == 0 then None
    else
      var colon := BackOverDigits(s, dot - 1);
      if s[colon] != ':' || !IsTail(s[colon + 1..]) then None
      else Some((colon + 1, Some(s[colon + 1..])))
  }

  /** Final length check and gap expansion. */
  function Finish(r: Scanned, tail: seq<Word>): (ws: Option<seq<Word>>)
    ensures ws.Some? && -1 <= r.gap <= |r.words| ==> |ws.value| == 8
  {
    var spelled := |r.words| + |tail|;
    if spelled > 8 || (spelled == 8 && r.gap != -1) || (spelled < 8 && r.gap == -1) then None
    else if r.gap == -1 then Some(r.words + tail)
    else if 0 <= r.gap <= |r.words| then Some(r.words[..r.gap] + Zeros(8 - spelled) + r.words[r.gap..] + tail)
    else None
  }

  function TailOf(cut: (nat, Option<string>)): seq<Word>
    requires cut.1.Some? ==> IsTail(cut.1.value)
  {
    if cut.1.Some? then TailWords(cut.1.value) else []
  }

  function ParseV6(s: string): Option<seq<Word>> {
    if EndsInLoneColon(s) then None
    else match Cut(s)
      case None => None
      case Some(cut) =>
        match Scan(s, cut.0, 0, [], -1)
        case None => None
        case Some(r) => Finish(r, TailOf(cut))
  }

  // ------------------------------------------- the scan consumes groups

  /** Past the length checks the number is a plain run of at most four digits, so
      neither assertion on its value can fire. */
  lemma GroupFits(s: string, eow: nat, pos: nat)
    requires WordsEnd(s, eow) && pos < eow && IsXDigit(s[pos])
    requires var next := Strtol16(s, pos).1;
             var len := if next == |s| then eow - pos else next - pos;
             len <= 4 && (len > 1 ==> IsXDigit(s[pos + 1]))
    ensures var (v, next) := Strtol16(s, pos);
            v <= 0xffff && next <= eow && next - pos <= 4 && IsGroup(s[pos..next]) && v == ValueIn(16, s[pos..next])
  {
    if HasHexPrefix(s, pos) {
      XRunDigits(s, pos + 2);
    }
    var next := XRunEnd(s, pos);
    XRunDigits(s, pos);
    HexWidth(s[pos..next]);
  }

  /** One group is read as written when a colon or the end of the text follows it. */
  lemma ReadGroupOf(s: string, eow: nat, pos: nat, g: string)
    requires WordsEnd(s, eow) && IsGroup(g) && pos + |g| <= eow && s[pos..pos + |g|] == g
    requires pos + |g| < eow ==> s[pos + |g|] == ':'
    requires pos + |g| == eow ==> eow == |s|
    ensures IsXDigit(s[pos])
    ensures ReadGroup(s, eow, pos) == Some((GroupValue(g), pos + |g|))
  {
    var next := pos + |g|;
    assert forall i :: pos <= i < next ==> s[i] == g[i - pos];
    XRunEndIs(s, pos, next);
    if |g| > 1 {
      assert IsXDigit(s[pos + 1]);
    }
    assert !HasHexPrefix(s, pos);
    HexWidth(g);
  }
}
