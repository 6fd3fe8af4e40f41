/** `tor_inet_pton` and `tor_inet_ntop` (networking/add.c), in the form the program
    gives them: buffers filled by moving indices, and a gap opened in place. */
module Ipv6Codec {
  import opened Text
  import opened Ipv6Grammar
  import opened Ipv6Parser
  import opened Ipv6Canonical
  import Ipv4

  function Hi(w: Word): Byte { w / 256 }

  function Lo(w: Word): Byte { w % 256 }

  function Word16(hi: Byte, lo: Byte): (w: Word)
    ensures Hi(w) == hi && Lo(w) == lo
  {
    var h: int := hi;
    h * 256 + lo
  }

  /** The sixteen bytes of eight words, high byte first. */
  function Bytes(ws: seq<Word>): (bs: seq<Byte>)
    requires |ws| == 8
    ensures |bs| == 16
  {
    seq(16, i requires 0 <= i < 16 => if i % 2 == 0 then Hi(ws[i / 2]) else Lo(ws[i / 2]))
  }

  function WordsOfBytes(bs: seq<Byte>): (ws: seq<Word>)
    requires |bs| == 16
    ensures |ws| == 8
  {
    seq(8, i requires 0 <= i < 8 => Word16(bs[2 * i], bs[2 * i + 1]))
  }

  lemma BytesOfWords(bs: seq<Byte>)
    requires |bs| == 16
    ensures Bytes(WordsOfBytes(bs)) == bs
  {
    var ws := WordsOfBytes(bs);
    forall i | 0 <= i < 16 ensures Bytes(ws)[i] == bs[i] {
      var k := i / 2;
      assert ws[k] == Word16(bs[2 * k], bs[2 * k + 1]);
    }
  }

  // ---------------------------------------------------------------- parsing

  /** `memmove(&words[to], &words[from], n)`. */
  method MoveWords(words: array<Word>, to: nat, from: nat, n: nat)
    requires to + n <= words.Length && from + n <= words.Length
    modifies words
    ensures words[..] == old(words[..to]) + old(words[from..from + n]) + old(words[to + n..])
  {
    forall k | 0 <= k < n {
      words[to + k] := words[from + k];
    }
    assert forall k :: to <= k < to + n ==> words[k] == old(words[from + (k - to)]) by {
      forall k | to <= k < to + n ensures words[k] == old(words[from + (k - to)]) {
        assert words[to + (k - to)] == old(words[from + (k - to)]);
      }
    }
  }

  /** `memset(&words[from], 0, n)`. */
  method ClearWords(words: array<Word>, from: nat, n: nat)
    requires from + n <= words.Length
    modifies words
    ensures words[..] == old(words[..from]) + Zeros(n) + old(words[from + n..])
  {
    forall k | from <= k < from + n {
      words[k] := 0;
    }
  }

  /** The test and the arithmetic on a dotted tail, against the grammar. */
  lemma TailScan(q: string)
    ensures IsTail(q) <==>
            var scan := Ipv4.ScanOctets(q, 4);
            scan.Some? && forall i :: 0 <= i < 4 ==> scan.value[i] <= 255
    ensures IsTail(q) ==>
            var b := Ipv4.ScanOctets(q, 4).value;
            TailWords(q) == [b[0] * 256 + b[1], b[2] * 256 + b[3]]
  {
    Ipv4.ScanIsSplit(q, 4);
    var parts := Split(q, '.');
    if Ipv4.AreNumbers(parts, 4) {
      assert forall i :: 0 <= i < 4 ==> Ipv4.ValuesOf(parts)[i] == ValueIn(10, parts[i]);
    }
  }

  /** The `tor_sscanf` on the dotted tail, with the range check on its bytes. */
  method ReadTail(q: string) returns (ok: bool, w6: Word, w7: Word)
    ensures ok == IsTail(q)
    ensures ok ==> TailWords(q) == [w6, w7]
  {
    TailScan(q);
    hide IsTail, TailWords, Ipv4.ScanOctets;
    var scan := Ipv4.ScanOctets(q, 4);
    if scan.None? { return false, 0, 0; }
    var b1, b2, b3, b4 := scan.value[0], scan.value[1], scan.value[2], scan.value[3];
    if b1 > 255 || b2 > 255 || b3 > 255 || b4 > 255 { return false, 0, 0; }
    ok, w6, w7 := true, b1 * 256 + b2, b3 * 256 + b4;
  }

  /** Find where the words of the text end, and store a dotted tail in the last two words. */
  method CutTailOff(src: string, words: array<Word>) returns (ok: bool, eow: nat, hasTail: bool)
    requires words.Length == 8
    modifies words
    ensures ok == Cut(src).Some?
    ensures ok ==> eow == Cut(src).value.0 && hasTail == Cut(src).value.1.Some?
    ensures ok && hasTail ==> words[6..] == TailOf(Cut(src).value)
  {
    hide IsTail, TailWords;
    ok, eow, hasTail := true, |src|, false;
    var dot := FirstDot(src);
    if dot == |src| { return; }
    if dot == 0 { return false, 0, false; }
    var p := dot - 1;
    while p > 0 && IsDigit(src[p])
      invariant 0 <= p < |src|
      invariant BackOverDigits(src, p) == BackOverDigits(src, dot - 1)
    {
      p := p - 1;
    }
    if src[p] != ':' { return false, 0, false; }
    eow := p + 1;
    var w6, w7;
    ok, w6, w7 := ReadTail(src[eow..]);
    if !ok { return; }
    words[6], words[7] := w6, w7;
    hasTail := true;
    assert words[6..] == [w6, w7];
  }

  /** One group at `src`: the checks around `strtol`. */
  method ReadWord(str: string, eow: nat, src: nat) returns (ok: bool, r: Word, next: nat)
    requires WordsEnd(str, eow) && src < eow && IsXDigit(str[src])
    ensures ok == ReadGroup(str, eow, src).Some?
    ensures ok ==> ReadGroup(str, eow, src).value == (r, next)
  {
    var (v, e) := Strtol16(str, src);
    var len := if e == |str| then eow - src else e - src;
    if len > 4 { return false, 0, 0; }
    if len > 1 && !IsXDigit(str[src + 1]) { return false, 0, 0; }
    GroupFits(str, eow, src);
    assert 0 <= v < 65536;
    if (e == |str| || str[e] != ':') && e != eow { return false, 0, 0; }
    ok, r, next := true, v, e;
  }

  /** The loop that reads the words before `eow` into the array. A dotted tail may
      already sit in the last two words. */
  method ScanWords(str: string, eow: nat, words: array<Word>) returns (ok: bool, i: nat, gapPos: int)
    requires words.Length == 8 && WordsEnd(str, eow)
    modifies words
    ensures ok == Scan(str, eow, 0, [], -1).Some?
    ensures i <= 8 && -1 <= gapPos <= i
    ensures ok ==> Scan(str, eow, 0, [], -1) == Some(Scanned(words[..i], gapPos))
    ensures forall k :: i <= k < 8 ==> words[k] == old(words[k])
  {
    hide ReadGroup;
    var src := 0;
    ok, i, gapPos := true, 0, -1;
    while src < eow
      invariant i <= 8 && -1 <= gapPos <= i
      invariant Scan(str, eow, 0, [], -1) == Scan(str, eow, src, words[..i], gapPos)
      invariant forall k :: i <= k < 8 ==> words[k] == old(words[k])
      decreases eow - src
    {
      if i > 7 { return false, i, gapPos; }
      if IsXDigit(str[src]) {
        var read, r, next := ReadWord(str, eow, src);
        if !read { return false, i, gapPos; }
        ghost var before := words[..i];
        words[i] := r;
        i := i + 1;
        assert words[..i] == before + [r];
        src := next + 1;
      } else if str[src] == ':' && i > 0 && gapPos == -1 {
        gapPos := i;
        src := src + 1;
      } else if str[src] == ':' && i == 0 && src + 1 < eow && str[src + 1] == ':' && gapPos == -1 {
        gapPos := i;
        src := src + 2;
      } else {
        return false, i, gapPos;
      }
    }
  }

  /** Open the gap in place: move the words after it up to the tail, and clear it.
      The move stays inside the array and clear of the dotted tail. */
  method OpenGap(words: array<Word>, gapPos: nat, setWords: nat, tailWords: nat)
    requires words.Length == 8 && gapPos + tailWords <= setWords <= 7
    modifies words
    ensures words[..] == old(words[..gapPos]) + Zeros(8 - setWords)
                         + old(words[gapPos..setWords - tailWords]) + old(words[8 - tailWords..])
  {
    var nToMove := setWords - tailWords - gapPos;
    var gapLen := 8 - setWords;
    assert nToMove >= 0;
    OpenGapSeq(words[..], gapPos, gapLen, nToMove);
    MoveWords(words, gapPos + gapLen, gapPos, nToMove);
    ClearWords(words, gapPos, gapLen);
  }

  lemma OpenGapSeq(w: seq<Word>, gapPos: nat, gapLen: nat, n: nat)
    requires gapPos + gapLen + n <= |w|
    ensures var moved := w[..gapPos + gapLen] + w[gapPos..gapPos + n] + w[gapPos + gapLen + n..];
            && |moved| == |w|
            && moved[..gapPos] + Zeros(gapLen) + moved[gapPos + gapLen..]
               == w[..gapPos] + Zeros(gapLen) + w[gapPos..gapPos + n] + w[gapPos + gapLen + n..]
  {
  }

  /** The length check after the scan, and the gap. */
  method Assemble(words: array<Word>, i: nat, gapPos: int, tailWords: nat) returns (ok: bool)
    requires words.Length == 8 && i <= 8 && tailWords <= 2 && -1 <= gapPos <= i
    modifies words
    ensures var f := Finish(Scanned(old(words[..i]), gapPos), old(words[8 - tailWords..]));
            ok == f.Some? && (ok ==> words[..] == f.value)
  {
    var setWords := i + tailWords;
    if setWords > 8 || (setWords == 8 && gapPos != -1) || (setWords < 8 && gapPos == -1) {
      return false;
    }
    if gapPos >= 0 {
      OpenGap(words, gapPos, setWords, tailWords);
      assert old(words[..i])[..gapPos] == old(words[..gapPos]);
      assert old(words[..i])[gapPos..] == old(words[gapPos..i]);
    } else {
      assert words[..] == words[..i] + words[8 - tailWords..];
    }
    ok := true;
  }

  /** `tor_inet_pton(AF_INET6, …)`: the result is written only on success. */
  method PtonV6(str: string, dst: array<Byte>) returns (ok: bool)
    requires dst.Length == 16
    modifies dst
    ensures ok == ParseV6(str).Some?
    ensures ok ==> |ParseV6(str).value| == 8 && dst[..] == Bytes(ParseV6(str).value)
    ensures !ok ==> dst[..] == old(dst[..])
  {
    hide Scan, Cut, IsTail, TailWords, Finish;
    if EndsInLoneColon(str) { return false; }
    var words := new Word[8](_ => 0xf8f8);
    var eow, hasTail, i, gapPos;
    ok, eow, hasTail := CutTailOff(str, words);
    if !ok { return; }
    ghost var tail := words[6..];
    ok, i, gapPos := ScanWords(str, eow, words);
    if !ok { return; }
    var tailWords := if hasTail then 2 else 0;
    FinishByLength(Scanned(words[..i], gapPos), words[8 - tailWords..], TailOf(Cut(str).value));
    assert i + tailWords <= 8 ==> words[8 - tailWords..] == TailOf(Cut(str).value) by {
      assert hasTail && i <= 6 ==> words[6..] == tail;
    }
    ok := Assemble(words, i, gapPos, tailWords);
    if !ok { return; }
    WriteBytes(words[..], dst);
  }

  /** Whether the count is right does not depend on what the tail holds; a tail that the
      words overran is refused. */
  lemma FinishByLength(r: Scanned, tail: seq<Word>, other: seq<Word>)
    requires |tail| == |other|
    ensures Finish(r, tail).Some? <==> Finish(r, other).Some?
    ensures Finish(r, tail).Some? ==> |r.words| + |tail| <= 8
  {
  }

  method WriteBytes(words: seq<Word>, dst: array<Byte>)
    requires |words| == 8 && dst.Length == 16
    modifies dst
    ensures dst[..] == Bytes(words)
  {
    var i := 0;
    while i < 8
      invariant 0 <= i <= 8
      invariant forall k :: 0 <= k < 2 * i ==> dst[k] == if k % 2 == 0 then Hi(words[k / 2]) else Lo(words[k / 2])
    {
      dst[2 * i] := Hi(words[i]);
      dst[2 * i + 1] := Lo(words[i]);
      i := i + 1;
    }
  }

  // ---------------------------------------------------------------- printing

  /** The longest run found so far is the best of those that start before `i`. */
  ghost predicate BestBefore(ws: seq<Word>, i: nat, p: int, n: nat) {
    && (n == 0 ==> p == -1)
    && (n > 0 ==> p < i && ZeroRun(ws, p, n))
    && forall q, m :: q < i && 0 < m && ZeroRun(ws, q, m) ==> m <= n && (m == n ==> p <= q)
  }

  lemma {:induction false} ZeroLenCap(ws: seq<Word>, q: nat, e: nat)
    requires q <= e <= |ws| && (e < |ws| ==> ws[e] != 0)
    ensures q + ZeroLen(ws, q) <= e
    decreases e - q
  {
    if q < e && ws[q] == 0 {
      ZeroLenCap(ws, q + 1, e);
    }
  }

  /** A run that ends at `e`, just before a non-zero word or the end, caps every run inside it. */
  lemma RunCap(ws: seq<Word>, s: nat, e: nat)
    requires s <= e <= |ws| && (e < |ws| ==> ws[e] != 0)
    ensures forall q, m :: s <= q < e && 0 < m && ZeroRun(ws, q, m) ==> m <= e - q
  {
    forall q, m | s <= q < e && 0 < m && ZeroRun(ws, q, m) ensures m <= e - q {
      ZeroLenMax(ws, q, m);
      ZeroLenCap(ws, q, e);
    }
  }

  /** The search for the gap to compress. */
  method FindGap(words: array<Word>) returns (longestGapPos: int, longestGapLen: nat)
    requires words.Length == 8
    ensures longestGapPos == Gap(words[..]).0
    ensures longestGapPos != -1 ==> longestGapLen == Gap(words[..]).1
  {
    ghost var ws := words[..];
    var i, curGapPos, curGapLen := 0, -1, 0;
    longestGapPos, longestGapLen := -1, 0;
    while i < 8
      invariant 0 <= i <= 8
      invariant BestBefore(ws, i, longestGapPos, longestGapLen)
    {
      if words[i] == 0 {
        ghost var start := i;
        curGapPos := i;
        i := i + 1;
        curGapLen := 1;
        while i < 8 && words[i] == 0
          invariant start < i <= 8 && curGapLen == i - start
          invariant ZeroRun(ws, start, i - start)
        {
          i := i + 1;
          curGapLen := curGapLen + 1;
        }
        RunCap(ws, start, i);
        if curGapLen > longestGapLen {
          longestGapPos := curGapPos;
          longestGapLen := curGapLen;
        }
      } else {
        i := i + 1;
      }
    }
    ghost var q := longestGapPos;
    if longestGapLen <= 1 {
      longestGapPos := -1;
    }
    BestBeforeIsGap(ws, q, longestGapPos, longestGapLen);
  }

  lemma BestBeforeIsGap(ws: Words, q: int, p: int, n: nat)
    requires BestBefore(ws, 8, q, n) && p == (if n <= 1 then -1 else q)
    ensures p == Gap(ws).0 && (p != -1 ==> n == Gap(ws).1)
  {
    RecommendedGapUnique(ws, p, if p == -1 then 0 else n);
  }

  /** What the print loop has written before it looks at word `i`. */
  function Printed(ws: Words, p: int, n: nat, i: nat): string
    requires i <= 8 && p + n <= 8
  {
    if 0 <= p < i && p + n <= i then Closed(Hex(ws[..p]), true, Hex(ws[p + n..i])) else Closing(Hex(ws[..i]))
  }

  lemma HexStep(ws: seq<Word>, a: nat, i: nat)
    requires a <= i < |ws|
    ensures Hex(ws[a..i + 1]) == Hex(ws[a..i]) + [Numeral(16, ws[i])]
  {
  }

  /** One word adds its group and, but for the last, a colon. */
  lemma PrintedStep(ws: Words, p: int, n: nat, i: nat)
    requires i < 8 && p + n <= 8 && -1 <= p && (p == -1 || i < p || p + n <= i) && (p >= 0 ==> n >= 2)
    ensures Printed(ws, p, n, i + 1) == Printed(ws, p, n, i) + (Numeral(16, ws[i]) + ":")
  {
    var g := Numeral(16, ws[i]);
    if 0 <= p < i {
      HexStep(ws, p + n, i);
      ClosedStep(Hex(ws[..p]), Hex(ws[p + n..i]), g);
    } else {
      HexStep(ws, 0, i);
      assert ws[0..i] == ws[..i] && ws[0..i + 1] == ws[..i + 1];
      ClosingStep(Hex(ws[..i]), g);
    }
  }

  lemma ClosingStep(gs: seq<string>, g: string)
    ensures Closing(gs + [g]) == Closing(gs) + (g + ":")
  {
    ClosingAppend(gs, g);
  }

  lemma ClosedStep(before: seq<string>, after: seq<string>, g: string)
    ensures Closed(before, true, after + [g]) == Closed(before, true, after) + (g + ":")
  {
    ClosingAppend(after, g);
    var lead := Closed(before, true, []);
    assert Closed(before, true, after) == lead + Closing(after);
    assert Closed(before, true, after + [g]) == lead + Closing(after + [g]);
  }

  /** The gap adds one colon, or two at the very start. */
  lemma PrintedGap(ws: Words, p: nat, n: nat)
    requires p + n <= 8 && n >= 2
    ensures Printed(ws, p, n, p + n) == Printed(ws, p, n, p) + (if p == 0 then "::" else ":")
  {
    assert ws[p + n..p + n] == [];
    assert Hex([]) == [];
    if p > 0 {
      assert Hex(ws[..p]) != [];
    }
  }

  /** At the end only the colon after the last group is missing. */
  lemma PrintedEnd(ws: Words, p: int, n: nat)
    requires !IsDotted(ws) && (p, n) == (Gap(ws).0, if p == -1 then n else Gap(ws).1)
    requires p + n <= 8 && -1 <= p && (p >= 0 ==> n >= 2)
    ensures p >= 0 && p + n == 8 ==> PrintV6(ws) == Printed(ws, p, n, 8)
    ensures p == -1 || p + n < 8 ==> PrintV6(ws) + ":" == Printed(ws, p, n, 8)
  {
    var f := FormOf(ws);
    assert ws[..8] == ws;
    if p >= 0 {
      assert ws[p + n..8] == ws[p + n..];
      assert f == Address6(Hex(ws[..p]), true, Hex(ws[p + n..]), None);
    }
    ShowClosed(f);
  }

  /** `tor_snprintf` at an offset of the buffer: as much of the text as fits, then NUL. */
  method Snprintf(buf: array<char>, cp: nat, text: string)
    requires cp + |text| < buf.Length
    modifies buf
    ensures buf[..cp + |text|] == old(buf[..cp]) + text && buf[cp + |text|] == '\0'
  {
    forall k | 0 <= k < |text| {
      buf[cp + k] := text[k];
    }
    buf[cp + |text|] := '\0';
    assert forall k :: cp <= k < cp + |text| ==> buf[k] == text[k - cp] by {
      forall k | cp <= k < cp + |text| ensures buf[k] == text[k - cp] {
        assert buf[cp + (k - cp)] == text[k - cp];
      }
    }
  }

  /** Write a text and its NUL at the start of a buffer that holds them. */
  method CopyText(buf: array<char>, text: string)
    requires |text| < buf.Length
    modifies buf
    ensures buf[..|text|] == text && buf[|text|] == '\0'
  {
    forall k | 0 <= k < |text| {
      buf[k] := text[k];
    }
    buf[|text|] := '\0';
  }

  /** Append one group, and its colon unless it is the last. */
  method PutGroup(buf: array<char>, cp: nat, w: Word, last: bool) returns (next: nat)
    requires cp + 6 < buf.Length
    modifies buf
    ensures cp < next <= cp + 5
    ensures buf[..next] + (if last then ":" else "") == old(buf[..cp]) + (Numeral(16, w) + ":")
  {
    NumeralWidth(16, w);
    var text := Numeral(16, w);
    hide Numeral;
    Snprintf(buf, cp, text);
    next := cp + |text|;
    if !last {
      buf[next] := ':';
      next := next + 1;
      assert buf[..next] == buf[..next - 1] + ":";
    }
  }

  /** The loop that writes the groups and the gap into the local buffer. */
  method PrintGroups(words: array<Word>, gapPos: int, ghost gapLen: nat, buf: array<char>) returns (cp: nat)
    requires words.Length == 8 && buf.Length == 64 && !IsDotted(words[..])
    requires gapPos == Gap(words[..]).0 && gapLen == Gap(words[..]).1
    modifies buf
    ensures cp < 64 && buf[..cp] == PrintV6(old(words[..]))
  {
    hide *;
    ghost var ws := words[..];
    GapFacts(ws);
    var i := 0;
    cp := 0;
    PrintedStart(ws, gapPos, gapLen);
    ghost var open := false;  // the text ends with a group whose colon is left out
    while i < 8
      invariant 0 <= i <= 8 && words[..] == ws
      invariant gapPos == -1 || i <= gapPos || gapPos + gapLen <= i
      invariant cp <= 5 * i + 2
      invariant open <==> i == 8 && !(gapPos >= 0 && gapPos + gapLen == 8)
      invariant buf[..cp] + (if open then ":" else "") == Printed(ws, gapPos, gapLen, i)
    {
      assert buf[..cp] == Printed(ws, gapPos, gapLen, i);
      if words[i] == 0 && gapPos == i {
        PrintedGap(ws, gapPos, gapLen);
        ghost var before := buf[..cp];
        if i == 0 {
          buf[cp] := ':';
          cp := cp + 1;
        }
        buf[cp] := ':';
        cp := cp + 1;
        assert buf[..cp] == before + (if i == 0 then "::" else ":");
        assert buf[..cp] + "" == buf[..cp];
        while i < 8 && words[i] == 0
          invariant gapPos <= i <= gapPos + gapLen
        {
          i := i + 1;
        }
      } else {
        PrintedStep(ws, gapPos, gapLen, i);
        open := i == 7;
        cp := PutGroup(buf, cp, words[i], i == 7);
        i := i + 1;
      }
    }
    PrintedEnd(ws, gapPos, gapLen);
    if open {
      assert buf[..cp] == (buf[..cp] + ":")[..cp];
      assert PrintV6(ws) == (PrintV6(ws) + ":")[..|PrintV6(ws)|];
    } else {
      assert buf[..cp] + "" == buf[..cp];
    }
  }

  lemma GapFacts(ws: Words)
    ensures var (p, n) := Gap(ws);
            && p >= -1 && p + n <= 8
            && (p == -1 ==> n == 0)
            && (p >= 0 ==> n >= 2)
            && (p >= 0 && p + n < 8 ==> ws[p + n] != 0)
            && forall k :: 0 <= p <= k < p + n ==> ws[k] == 0
  {
    GapIsRecommended(ws);
  }

  lemma PrintedStart(ws: Words, p: int, n: nat)
    requires p + n <= 8 && -1 <= p
    ensures Printed(ws, p, n, 0) == ""
  {
    assert Hex(ws[..0]) == [];
  }

  /** `tor_inet_ntop(AF_INET6, …)`: the answer is null, with the caller's buffer
      untouched, exactly when the text and its NUL do not fit the length given. */
  method NtopV6(src: array<Byte>, dst: array<char>, len: nat) returns (ok: bool)
    requires src.Length == 16 && dst.Length >= len
    modifies dst
    ensures ok <==> |PrintV6(WordsOfBytes(old(src[..])))| + 1 <= len
    ensures ok ==> var text := PrintV6(WordsOfBytes(old(src[..])));
                   dst[..|text|] == text && dst[|text|] == '\0'
    ensures !ok ==> dst[..] == old(dst[..])
  {
    hide PrintV6, WordsOfBytes;
    var words := new Word[8];
    ReadWords(src, words);
    var buf := new char[64];
    var cp := FillBuffer(words, src, buf);
    if cp + 1 > len { return false; }
    CopyText(dst, buf[..cp]);
    ok := true;
  }

  method ReadWords(src: array<Byte>, words: array<Word>)
    requires src.Length == 16 && words.Length == 8
    modifies words
    ensures words[..] == WordsOfBytes(src[..])
  {
    var i := 0;
    while i < 8
      invariant 0 <= i <= 8
      invariant forall k :: 0 <= k < i ==> words[k] == Word16(src[2 * k], src[2 * k + 1])
    {
      words[i] := Word16(src[2 * i], src[2 * i + 1]);
      i := i + 1;
    }
  }

  method FillBuffer(words: array<Word>, src: array<Byte>, buf: array<char>) returns (cp: nat)
    requires words.Length == 8 && src.Length == 16 && buf.Length == 64
    requires words[..] == WordsOfBytes(src[..])
    modifies buf
    ensures cp < 64 && buf[..cp] == PrintV6(old(words[..]))
  {
    hide PrintV6, Gap, WordsOfBytes;
    if words[0] == 0 && words[1] == 0 && words[2] == 0 && words[3] == 0 && words[4] == 0
       && ((words[5] == 0 && words[6] != 0 && words[7] != 0) || words[5] == 0xffff) {
      assert IsDotted(words[..]);
      cp := PrintDotted(words, src, buf);
    } else {
      assert !IsDotted(words[..]);
      var gapPos, gapLen := FindGap(words);
      cp := PrintGroups(words, gapPos, Gap(words[..]).1, buf);
    }
  }

  /** The two dotted formats. */
  method PrintDotted(words: array<Word>, src: array<Byte>, buf: array<char>) returns (cp: nat)
    requires words.Length == 8 && src.Length == 16 && buf.Length == 64
    requires words[..] == WordsOfBytes(src[..]) && IsDotted(words[..])
    modifies buf
    ensures cp < 64 && buf[..cp] == PrintV6(old(words[..]))
  {
    hide *;
    SourceTail(words[..], src[..]);
    var text := DottedFormat(words[..], src[12], src[13], src[14], src[15]);
    CopyText(buf, text);
    cp := |text|;
  }

  method DottedFormat(ws: Words, a: Byte, b: Byte, c: Byte, d: Byte) returns (text: string)
    requires IsDotted(ws) && TailQuad(ws) == [a, b, c, d]
    ensures text == PrintV6(ws) && |text| <= 22
  {
    var q: Ipv4.Quad := [a, b, c, d];
    var quad := Ipv4.QuadText(q);
    text := if ws[5] == 0 then "::" + quad else "::" + Numeral(16, ws[5]) + ":" + quad;
    Ipv4.QuadTextJoins(q);
    NumeralWidth(16, ws[5]);
    DottedText(ws, text, quad);
  }

  lemma SourceTail(ws: Words, bs: seq<Byte>)
    requires |bs| == 16 && ws == WordsOfBytes(bs)
    ensures TailQuad(ws) == [bs[12], bs[13], bs[14], bs[15]]
  {
    assert ws[6] == Word16(bs[12], bs[13]) && ws[7] == Word16(bs[14], bs[15]);
  }

  lemma DottedText(ws: Words, text: string, quad: string)
    requires IsDotted(ws) && quad == Ipv4.QuadText(TailQuad(ws))
    requires text == if ws[5] == 0 then "::" + quad else "::" + Numeral(16, ws[5]) + ":" + quad
    ensures text == PrintV6(ws)
  {
    var f := FormOf(ws);
    assert f.before == [] && f.gap && f.tail == Some(quad);
    assert f.after == if ws[5] == 0 then [] else [Numeral(16, ws[5])];
    ShowClosed(f);
    hide FormOf, Show, IsDotted, TailQuad;
    if ws[5] != 0 {
      assert f.after[1..] == [];
      assert Closing(f.after) == Numeral(16, ws[5]) + ":" + "";
    }
  }

  /** For every 128-bit address, parsing what the printer produced gives the address back. */
  lemma AddressRoundTrip(bs: seq<Byte>)
    requires |bs| == 16
    ensures ParseV6(PrintV6(WordsOfBytes(bs))) == Some(WordsOfBytes(bs))
    ensures Bytes(WordsOfBytes(bs)) == bs
  {
    ParseOfPrint(WordsOfBytes(bs));
    BytesOfWords(bs);
  }
}
