/** What the IPv6 codec prints and reads, said about the texts themselves: which addresses get a
    dotted tail, where `::` stands, and which letters count. */
module AddressTexts {
  import opened Text
  import opened Ipv6Grammar
  import opened Ipv6Parser
  import opened Ipv6Canonical
  import opened Ipv6Codec
  import Ipv4
  import Ipv6Theorems

  // ---------------------------------------------------------------- dotted tails

  /** The last two words as a dotted quad, high byte first. */
  lemma TailInPlaces(ws: Words)
    ensures Ipv4.QuadText(TailQuad(ws)) ==
            Numeral(10, ws[6] / 256) + "." + Numeral(10, ws[6] % 256) + "."
            + Numeral(10, ws[7] / 256) + "." + Numeral(10, ws[7] % 256)
  {
    hide Numeral;
  }

  lemma DottedShown(ws: Words)
    requires IsDotted(ws)
    ensures PrintV6(ws) ==
            (if ws[5] == 0 then "::" else "::" + Numeral(16, ws[5]) + ":") + Ipv4.QuadText(TailQuad(ws))
  {
    var quad := Ipv4.QuadText(TailQuad(ws));
    hide IsDotted;
    DottedText(ws, if ws[5] == 0 then "::" + quad else "::" + Numeral(16, ws[5]) + ":" + quad, quad);
  }

  /** A mapped address, five zero words and then ffff, prints as `::ffff:` and its last four
      bytes in decimal. */
  lemma MappedText(ws: Words)
    requires ws[0] == ws[1] == ws[2] == ws[3] == ws[4] == 0 && ws[5] == 65535
    ensures PrintV6(ws) ==
            "::ffff:" + (Numeral(10, ws[6] / 256) + "." + Numeral(10, ws[6] % 256) + "."
                         + Numeral(10, ws[7] / 256) + "." + Numeral(10, ws[7] % 256))
  {
    assert IsDotted(ws);
    hide *;
    Ffff();
    TailInPlaces(ws);
    DottedShown(ws);
    assert "::" + "ffff" + ":" == "::ffff:";
  }

  lemma Ffff()
    ensures Numeral(16, 65535) == "ffff"
  {
    HexText(65535);
  }

  /** A compatible address, six zero words and then two that are not zero, prints as `::` and
      its last four bytes in decimal. */
  lemma CompatibleText(ws: Words)
    requires ws[0] == ws[1] == ws[2] == ws[3] == ws[4] == ws[5] == 0 && ws[6] != 0 && ws[7] != 0
    ensures PrintV6(ws) ==
            "::" + (Numeral(10, ws[6] / 256) + "." + Numeral(10, ws[6] % 256) + "."
                    + Numeral(10, ws[7] / 256) + "." + Numeral(10, ws[7] % 256))
  {
    assert IsDotted(ws);
    hide *;
    TailInPlaces(ws);
    DottedShown(ws);
  }

  lemma NoDotShown(t: Address6)
    requires AreGroups(t.before) && AreGroups(t.after) && t.tail.None? && (!t.gap ==> t.after == [] && t.before != [])
    ensures forall i :: 0 <= i < |Show(t)| ==> Show(t)[i] != '.'
  {
    hide Show, Closed, IsGroup;
    ShowClosed(t);
    ClosedFree(t.before, t.gap, t.after);
    Ipv6Theorems.NoDotIn(Show(t), Closed(t.before, t.gap, t.after));
  }

  /** No other address prints with a dot. */
  lemma NoDotsElsewhere(ws: Words)
    requires !(ws[0] == ws[1] == ws[2] == ws[3] == ws[4] == 0 && ws[5] == 65535)
    requires !(ws[0] == ws[1] == ws[2] == ws[3] == ws[4] == ws[5] == 0 && ws[6] != 0 && ws[7] != 0)
    ensures forall i :: 0 <= i < |PrintV6(ws)| ==> PrintV6(ws)[i] != '.'
  {
    assert !IsDotted(ws);
    FormDenotes(ws);
    var f := FormOf(ws);
    assert f.tail.None?;
    hide FormOf, IsDotted, Denotes, Show;
    NoDotShown(f);
  }

  // ---------------------------------------------------------------- hex groups and the gap

  /** Without two zero words side by side, and no dotted tail, eight groups joined by colons. */
  lemma EightGroups(ws: Words)
    requires !(ws[0] == ws[1] == ws[2] == ws[3] == ws[4] == 0)
    requires forall i :: 0 <= i < 7 ==> ws[i] != 0 || ws[i + 1] != 0
    ensures PrintV6(ws) == Join(Hex(ws), ':')
  {
    assert !IsDotted(ws);
    NoRun(ws);
    RecommendedGapUnique(ws, -1, 0);
    assert Hex(ws) + [] == Hex(ws);
  }

  lemma NoRun(ws: Words)
    requires forall i :: 0 <= i < 7 ==> ws[i] != 0 || ws[i + 1] != 0
    ensures RecommendedGap(ws, -1, 0)
  {
    forall q ensures !ZeroRun(ws, q, 2) {
      if 0 <= q < 7 {
        assert ws[q] != 0 || ws[q + 1] != 0;
      }
    }
  }

  /** Otherwise the run of zero words from `p` to `p + n` that is longest, and the first of its
      length, gives way to `::`. */
  lemma GapInText(ws: Words, p: nat, n: nat)
    requires n >= 2 && p + n <= 8 && forall i :: p <= i < p + n ==> ws[i] == 0
    requires forall q, m: nat :: ZeroRun(ws, q, m) && m > 0 ==> m <= n && (m == n ==> p <= q)
    requires !(ws[0] == ws[1] == ws[2] == ws[3] == ws[4] == 0 && ws[5] == 65535)
    requires !(ws[0] == ws[1] == ws[2] == ws[3] == ws[4] == ws[5] == 0 && ws[6] != 0 && ws[7] != 0)
    ensures PrintV6(ws) == Join(Hex(ws[..p]), ':') + "::" + Join(Hex(ws[p + n..]), ':')
  {
    assert !IsDotted(ws);
    RunIsRecommended(ws, p, n);
    RecommendedGapUnique(ws, p, n);
    hide Gap, RecommendedGap, IsDotted;
  }

  lemma RunIsRecommended(ws: Words, p: nat, n: nat)
    requires n >= 2 && p + n <= 8 && forall i :: p <= i < p + n ==> ws[i] == 0
    requires forall q, m: nat :: ZeroRun(ws, q, m) && m > 0 ==> m <= n && (m == n ==> p <= q)
    ensures RecommendedGap(ws, p, n)
  {
  }

  // ---------------------------------------------------------------- byte order

  /** Words are stored with the high byte first. */
  lemma NetworkOrder(bs: seq<Byte>, i: nat)
    requires |bs| == 16 && i < 8
    ensures var high: nat, low: nat := bs[2 * i], bs[2 * i + 1];
            WordsOfBytes(bs)[i] == 256 * high + low
    ensures Bytes(WordsOfBytes(bs)) == bs
  {
    BytesOfWords(bs);
    hide Bytes;
    WordAt(bs, i);
  }

  lemma WordAt(bs: seq<Byte>, i: nat)
    requires |bs| == 16 && i < 8
    ensures var high: nat, low: nat := bs[2 * i], bs[2 * i + 1];
            WordsOfBytes(bs)[i] == 256 * high + low
  {
  }

  // ---------------------------------------------------------------- what is read

  function LowerChar(c: char): char {
    if 'A' <= c <= 'F' then 'a' + (c - 'A') else c
  }

  function Lower(s: string): (r: string)
    ensures |r| == |s| && forall i :: 0 <= i < |s| ==> r[i] == LowerChar(s[i])
  {
    seq(|s|, i requires 0 <= i < |s| => LowerChar(s[i]))
  }

  function LowerAll(gs: seq<string>): (r: seq<string>)
    ensures |r| == |gs| && forall i :: 0 <= i < |gs| ==> r[i] == Lower(gs[i])
  {
    seq(|gs|, i requires 0 <= i < |gs| => Lower(gs[i]))
  }

  lemma LowerConcat(a: string, b: string)
    ensures Lower(a + b) == Lower(a) + Lower(b)
  {
  }

  lemma {:induction false} LowerValue(s: string)
    ensures ValueIn(16, Lower(s)) == ValueIn(16, s) && (AllXDigits(Lower(s)) <==> AllXDigits(s))
    decreases |s|
  {
    if s != [] {
      var rest, c := s[..|s| - 1], s[|s| - 1];
      LowerValue(rest);
      assert Lower(s)[..|s| - 1] == Lower(rest);
      assert DigitValue(LowerChar(c)) == DigitValue(c) && (IsXDigit(LowerChar(c)) <==> IsXDigit(c));
      assert s == rest + [c] && Lower(s) == Lower(rest) + [LowerChar(c)];
    }
  }

  lemma {:induction false} LowerJoin(gs: seq<string>, sep: char)
    requires LowerChar(sep) == sep
    ensures Lower(Join(gs, sep)) == Join(LowerAll(gs), sep)
  {
    if |gs| > 1 {
      LowerJoin(gs[1..], sep);
      assert LowerAll(gs)[1..] == LowerAll(gs[1..]);
      LowerConcat(gs[0] + [sep], Join(gs[1..], sep));
      LowerConcat(gs[0], [sep]);
      assert Lower([sep]) == [sep];
    }
  }

  lemma LowerDigits(s: string)
    requires AllDigits(s)
    ensures Lower(s) == s
  {
    forall i | 0 <= i < |s| ensures Lower(s)[i] == s[i] {
      assert IsDigit(s[i]);
    }
  }

  lemma LowerTail(q: string)
    requires IsTail(q)
    ensures Lower(q) == q
  {
    var parts := Split(q, '.');
    JoinSplit(q, '.');
    LowerJoin(parts, '.');
    forall i | 0 <= i < |parts| ensures LowerAll(parts)[i] == parts[i] {
      assert Ipv4.IsNumber3(parts[i]);
      LowerDigits(parts[i]);
    }
    assert LowerAll(parts) == parts;
  }

  lemma LowerGroups(gs: seq<string>)
    requires AreGroups(gs)
    ensures AreGroups(LowerAll(gs)) && GroupValues(LowerAll(gs)) == GroupValues(gs)
  {
    forall i | 0 <= i < |gs| ensures IsGroup(LowerAll(gs)[i]) && GroupValue(LowerAll(gs)[i]) == GroupValue(gs[i]) {
      LowerValue(gs[i]);
    }
  }

  lemma LowerShow(t: Address6, l: Address6)
    requires WellFormed(t) && l == t.(before := LowerAll(t.before), after := LowerAll(t.after))
    ensures Show(l) == Lower(Show(t))
  {
    if t.tail.Some? {
      LowerTail(t.tail.value);
    }
    assert LowerAll(Items(t.after, t.tail)) == Items(l.after, l.tail);
    assert LowerAll(Items(t.before, t.tail)) == Items(l.before, l.tail);
    LowerJoin(Items(t.after, t.tail), ':');
    LowerJoin(Items(t.before, t.tail), ':');
    LowerJoin(t.before, ':');
    LowerConcat(Join(t.before, ':') + "::", Join(Items(t.after, t.tail), ':'));
    LowerConcat(Join(t.before, ':'), "::");
    assert Lower("::") == "::";
  }

  /** Upper case and lower case hex digits read the same. */
  lemma CaseDoesNotMatter(s: string)
    requires ParseV6(s).Some?
    ensures ParseV6(Lower(s)) == ParseV6(s)
  {
    var t := Ipv6Theorems.ParseSound(s);
    var l := t.(before := LowerAll(t.before), after := LowerAll(t.after));
    LowerShow(t, l);
    LowerGroups(t.before);
    LowerGroups(t.after);
    hide Show, ParseV6, Lower, IsTail, TailWords;
    Ipv6Theorems.ParseShow(t);
    Ipv6Theorems.ParseShow(l);
  }

  /** Eight groups of one to four hex digits, joined by colons, read as their values. */
  lemma EightGroupsRead(gs: seq<string>)
    requires |gs| == 8 && forall i :: 0 <= i < 8 ==> 1 <= |gs[i]| <= 4 && AllXDigits(gs[i])
    ensures var r := ParseV6(Join(gs, ':'));
            r.Some? && |r.value| == 8 && forall i :: 0 <= i < 8 ==> r.value[i] == ValueIn(16, gs[i])
  {
    var t := Address6(gs, false, [], None);
    Ipv6Theorems.ParseShow(t);
    forall i | 0 <= i < 8 ensures GroupValue(gs[i]) == ValueIn(16, gs[i]) {
      GroupValueExact(gs[i]);
    }
    assert Zeros(0) == [];
  }

  /** With `::` between them, up to seven groups in all, the missing words are zero. */
  lemma GapRead(b: seq<string>, a: seq<string>)
    requires |b| + |a| <= 7
    requires forall i :: 0 <= i < |b| ==> 1 <= |b[i]| <= 4 && AllXDigits(b[i])
    requires forall i :: 0 <= i < |a| ==> 1 <= |a[i]| <= 4 && AllXDigits(a[i])
    ensures var r := ParseV6(Join(b, ':') + "::" + Join(a, ':'));
            && r.Some? && |r.value| == 8
            && (forall i :: 0 <= i < |b| ==> r.value[i] == ValueIn(16, b[i]))
            && (forall i :: |b| <= i < 8 - |a| ==> r.value[i] == 0)
            && (forall i :: 0 <= i < |a| ==> r.value[8 - |a| + i] == ValueIn(16, a[i]))
  {
    var t := Address6(b, true, a, None);
    Ipv6Theorems.ParseShow(t);
    ValuesAre(b);
    ValuesAre(a);
    ShownGap(b, a);
    hide *;
    GapDenoted(b, a);
  }

  lemma ValuesAre(gs: seq<string>)
    requires forall i :: 0 <= i < |gs| ==> 1 <= |gs[i]| <= 4 && AllXDigits(gs[i])
    ensures AreGroups(gs) && forall i :: 0 <= i < |gs| ==> GroupValues(gs)[i] == ValueIn(16, gs[i])
  {
    forall i | 0 <= i < |gs| ensures GroupValue(gs[i]) == ValueIn(16, gs[i]) {
      GroupValueExact(gs[i]);
    }
  }

  lemma ShownGap(b: seq<string>, a: seq<string>)
    ensures Show(Address6(b, true, a, None)) == Join(b, ':') + "::" + Join(a, ':')
    ensures AreGroups(b) && AreGroups(a) && |b| + |a| <= 7 ==> WellFormed(Address6(b, true, a, None))
  {
    hide Join;
  }

  lemma GapDenoted(b: seq<string>, a: seq<string>)
    requires WellFormed(Address6(b, true, a, None))
    ensures var d := Denotes(Address6(b, true, a, None));
            && |d| == 8 && |b| + |a| <= 7
            && (forall i :: 0 <= i < |b| ==> d[i] == GroupValues(b)[i])
            && (forall i :: |b| <= i < 8 - |a| ==> d[i] == 0)
            && (forall i :: 0 <= i < |a| ==> d[8 - |a| + i] == GroupValues(a)[i])
  {
    hide GroupValue;
  }

  /** After `::ffff:` any dotted quad is read whose numbers have one to three digits and are at
      most 255, leading zeros or not; its bytes fill the last two words. */
  lemma MappedRead(ps: seq<string>)
    requires |ps| == 4 && forall p :: p in ps ==> 1 <= |p| <= 3 && AllDigits(p) && ValueIn(10, p) <= 255
    ensures var r := ParseV6("::ffff:" + Join(ps, '.'));
            && r.Some? && |r.value| == 8 && (forall i :: 0 <= i < 5 ==> r.value[i] == 0) && r.value[5] == 65535
            && r.value[6] == 256 * ValueIn(10, ps[0]) + ValueIn(10, ps[1])
            && r.value[7] == 256 * ValueIn(10, ps[2]) + ValueIn(10, ps[3])
  {
    hide *;
    var q := Join(ps, '.');
    JoinedTail(ps, q);
    GroupOfFs();
    ShownMapped(q);
    MappedDenoted(q);
    Ipv6Theorems.ParseShow(Address6([], true, ["ffff"], Some(q)));
  }

  lemma JoinedTail(ps: seq<string>, q: string)
    requires |ps| == 4 && q == Join(ps, '.')
    requires forall p :: p in ps ==> 1 <= |p| <= 3 && AllDigits(p) && ValueIn(10, p) <= 255
    ensures IsTail(q)
    ensures TailWords(q) ==
            [256 * ValueIn(10, ps[0]) + ValueIn(10, ps[1]), 256 * ValueIn(10, ps[2]) + ValueIn(10, ps[3])]
  {
    hide Join, ValueIn, Split;
    forall p | p in ps ensures Free(p, '.') && Ipv4.IsNumber3(p) {
    }
    SplitJoin(ps, '.');
    hide AllDigits, Free;
    MappedTail(ps, q);
  }

  lemma MappedTail(ps: seq<string>, q: string)
    requires Split(q, '.') == ps && |ps| == 4
    requires forall p :: p in ps ==> Ipv4.IsNumber3(p) && ValueIn(10, p) <= 255
    ensures IsTail(q)
    ensures TailWords(q) ==
            [256 * ValueIn(10, ps[0]) + ValueIn(10, ps[1]), 256 * ValueIn(10, ps[2]) + ValueIn(10, ps[3])]
  {
    hide Split, Ipv4.IsNumber3, ValueIn;
    assert ps[0] in ps && ps[1] in ps && ps[2] in ps && ps[3] in ps;
  }

  lemma GroupOfFs()
    ensures IsGroup("ffff") && GroupValue("ffff") == 65535
  {
    Ffff();
    NumeralValue(16, 65535);
    hide Numeral, ValueIn;
  }

  lemma ShownMapped(q: string)
    ensures Show(Address6([], true, ["ffff"], Some(q))) == "::ffff:" + q
  {
    var items := ["ffff"] + [q];
    assert items[0] == "ffff" && items[1..] == [q];
    assert Join([q], ':') == q && Join(items, ':') == "ffff" + [':'] + q && Join([], ':') == "";
    hide Join;
    assert "" + "::" + ("ffff" + [':'] + q) == "::ffff:" + q;
  }

  lemma MappedDenoted(q: string)
    requires IsTail(q) && IsGroup("ffff") && GroupValue("ffff") == 65535
    ensures WellFormed(Address6([], true, ["ffff"], Some(q)))
    ensures Denotes(Address6([], true, ["ffff"], Some(q))) == [0, 0, 0, 0, 0, 65535] + TailWords(q)
  {
    hide GroupValue, IsTail, TailWords;
  }

  /** Nothing is accepted that has another character than hex digits, colons and dots. */
  lemma AcceptedLetters(s: string)
    requires ParseV6(s).Some?
    ensures forall i :: 0 <= i < |s| ==> IsXDigit(s[i]) || s[i] == ':' || s[i] == '.'
  {
    var t := Ipv6Theorems.ParseSound(s);
    hide ParseV6;
    ShownLetters(t);
  }

  ghost predicate Plausible(s: string) {
    forall i :: 0 <= i < |s| ==> IsXDigit(s[i]) || s[i] == ':' || s[i] == '.'
  }

  lemma {:induction false} JoinPlausible(gs: seq<string>, sep: char)
    requires (sep == ':' || sep == '.') && forall i :: 0 <= i < |gs| ==> Plausible(gs[i])
    ensures Plausible(Join(gs, sep))
  {
    if |gs| > 1 {
      JoinPlausible(gs[1..], sep);
    }
  }

  lemma ShownLetters(t: Address6)
    requires WellFormed(t)
    ensures Plausible(Show(t))
  {
    hide Join;
    if t.tail.Some? {
      var q := t.tail.value;
      JoinSplit(q, '.');
      forall i | 0 <= i < 4 ensures Plausible(Split(q, '.')[i]) {
        assert Ipv4.IsNumber3(Split(q, '.')[i]);
      }
      JoinPlausible(Split(q, '.'), '.');
    }
    JoinPlausible(t.before, ':');
    JoinPlausible(Items(t.before, t.tail), ':');
    JoinPlausible(Items(t.after, t.tail), ':');
  }

  // ---------------------------------------------------------------- how many words a text spells out

  predicate HasDot(p: string) {
    exists i :: 0 <= i < |p| && p[i] == '.'
  }

  /** The words spelled out by the pieces between colons: none by an empty piece, two by a
      dotted one, one by any other. */
  function WordsIn(parts: seq<string>): nat {
    if parts == [] then 0
    else (if parts[0] == "" then 0 else if HasDot(parts[0]) then 2 else 1) + WordsIn(parts[1..])
  }

  lemma {:induction false} WordsInConcat(a: seq<string>, b: seq<string>)
    ensures WordsIn(a + b) == WordsIn(a) + WordsIn(b)
  {
    if a == [] {
      assert a + b == b;
    } else {
      assert (a + b)[1..] == a[1..] + b;
      WordsInConcat(a[1..], b);
    }
  }

  lemma {:induction false} WordsInGroups(gs: seq<string>)
    requires AreGroups(gs)
    ensures WordsIn(gs) == |gs|
  {
    if gs != [] {
      assert IsGroup(gs[0]) && !HasDot(gs[0]);
      WordsInGroups(gs[1..]);
    }
  }

  lemma TailHasDot(q: string)
    requires IsTail(q)
    ensures q != "" && HasDot(q) && Free(q, ':')
  {
    var n := Ipv6Theorems.TailShape(q);
    JoinSplit(q, '.');
    forall i | 0 <= i < 4 ensures Plausible(Split(q, '.')[i]) && Free(Split(q, '.')[i], ':') {
      assert Ipv4.IsNumber3(Split(q, '.')[i]);
    }
    JoinFree(Split(q, '.'));
  }

  lemma {:induction false} JoinFree(parts: seq<string>)
    requires forall i :: 0 <= i < |parts| ==> Free(parts[i], ':')
    ensures Free(Join(parts, '.'), ':')
  {
    if |parts| > 1 {
      JoinFree(parts[1..]);
    }
  }

  /** An empty piece where there is nothing else. */
  function OrEmpty(gs: seq<string>): seq<string> {
    if gs == [] then [""] else gs
  }

  lemma {:induction false} JoinConcat(a: seq<string>, b: seq<string>)
    requires a != [] && b != []
    ensures Join(a + b, ':') == Join(a, ':') + ":" + Join(b, ':')
  {
    if |a| == 1 {
      assert (a + b)[1..] == b;
    } else {
      assert (a + b)[1..] == a[1..] + b;
      JoinConcat(a[1..], b);
    }
  }

  lemma PiecesOfGap(before: seq<string>, after: seq<string>)
    ensures Join(before, ':') + "::" + Join(after, ':') == Join(OrEmpty(before) + [""] + OrEmpty(after), ':')
  {
    var b, a := OrEmpty(before), OrEmpty(after);
    assert Join(b, ':') == Join(before, ':') && Join(a, ':') == Join(after, ':');
    JoinConcat(b, [""] + a);
    JoinConcat([""], a);
    assert b + ([""] + a) == b + [""] + a;
    assert Join([""], ':') == "";
    hide Join;
    assert ":" + ("" + ":" + Join(a, ':')) == "::" + Join(a, ':');
  }

  lemma PiecesOfShow(t: Address6)
    requires WellFormed(t)
    ensures Split(Show(t), ':') ==
            if t.gap then OrEmpty(t.before) + [""] + OrEmpty(Items(t.after, t.tail)) else Items(t.before, t.tail)
  {
    if t.tail.Some? {
      TailHasDot(t.tail.value);
    }
    hide Join, Split, IsTail;
    forall g | g in t.before || g in t.after ensures Free(g, ':') {
      assert IsGroup(g);
    }
    if t.gap {
      PiecesOfGap(t.before, Items(t.after, t.tail));
      SplitJoin(OrEmpty(t.before) + [""] + OrEmpty(Items(t.after, t.tail)), ':');
    } else {
      SplitJoin(Items(t.before, t.tail), ':');
    }
  }

  lemma WordsInItems(gs: seq<string>, tail: Option<string>)
    requires AreGroups(gs) && (tail.Some? ==> IsTail(tail.value))
    ensures WordsIn(OrEmpty(Items(gs, tail))) == |gs| + (if tail.Some? then 2 else 0)
    ensures forall i :: 0 <= i < |Items(gs, tail)| ==> Items(gs, tail)[i] != ""
  {
    WordsInGroups(gs);
    if tail.Some? {
      TailHasDot(tail.value);
      WordsInConcat(gs, [tail.value]);
    }
    forall i | 0 <= i < |gs| ensures gs[i] != "" {
      assert IsGroup(gs[i]);
    }
  }

  /** An accepted text with an empty piece, that is with `::`, spells out at most seven words,
      one without spells out eight; and every other piece is a group of at most four hex
      digits, or the dotted tail at the end. */
  lemma AcceptedPieces(s: string)
    requires ParseV6(s).Some?
    ensures var parts := Split(s, ':');
            && (if "" in parts then WordsIn(parts) <= 7 else WordsIn(parts) == 8)
            && forall i :: 0 <= i < |parts| && parts[i] != "" && !(i == |parts| - 1 && HasDot(parts[i])) ==>
                 |parts[i]| <= 4 && AllXDigits(parts[i])
  {
    var t := Ipv6Theorems.ParseSound(s);
    var parts := Split(s, ':');
    hide ParseV6, Show, Split, IsTail, AllXDigits;
    PiecesOfShow(t);
    var none: Option<string> := None;
    WordsInItems(t.before, none);
    assert Items(t.before, none) == t.before;
    WordsInItems(t.before, t.tail);
    WordsInItems(t.after, t.tail);
    if t.tail.Some? {
      TailHasDot(t.tail.value);
    }
    if t.gap {
      WordsInConcat(OrEmpty(t.before) + [""], OrEmpty(Items(t.after, t.tail)));
      WordsInConcat(OrEmpty(t.before), [""]);
      assert WordsIn([""]) == 0;
      assert parts[|OrEmpty(t.before)|] == "";
    }
    forall i | 0 <= i < |parts| && parts[i] != "" && !(i == |parts| - 1 && HasDot(parts[i]))
      ensures |parts[i]| <= 4 && AllXDigits(parts[i])
    {
      PieceIsGroup(t, parts, i);
    }
  }

  /** The dotted tail of an accepted text is the last piece, four numbers of one to three digits,
      each at most 255. */
  lemma AcceptedTail(s: string)
    requires ParseV6(s).Some?
    ensures var parts := Split(s, ':');
            forall i :: 0 <= i < |parts| && HasDot(parts[i]) ==>
              && i == |parts| - 1 && |Split(parts[i], '.')| == 4
              && forall p :: p in Split(parts[i], '.') ==> 1 <= |p| <= 3 && AllDigits(p) && ValueIn(10, p) <= 255
  {
    var t := Ipv6Theorems.ParseSound(s);
    hide ParseV6, Show, Split, IsTail;
    PiecesOfShow(t);
    var parts := Split(s, ':');
    forall i | 0 <= i < |parts| && HasDot(parts[i])
      ensures i == |parts| - 1 && t.tail == Some(parts[i])
    {
      if t.tail.Some? && i == |parts| - 1 {
        assert parts[i] == t.tail.value;
      } else {
        DotlessPiece(t, parts, i);
      }
    }
    if t.tail.Some? {
      TailNumbers(t.tail.value);
    }
  }

  lemma DotlessPiece(t: Address6, parts: seq<string>, i: nat)
    requires WellFormed(t) && i < |parts| && (t.tail.Some? ==> i < |parts| - 1)
    requires parts == if t.gap then OrEmpty(t.before) + [""] + OrEmpty(Items(t.after, t.tail))
                      else Items(t.before, t.tail)
    ensures !HasDot(parts[i])
  {
    hide IsTail;
    forall g | IsGroup(g) || g == "" ensures !HasDot(g) {
    }
    if t.gap {
      var b, a := OrEmpty(t.before), OrEmpty(Items(t.after, t.tail));
      if i < |b| {
        assert parts[i] == b[i];
      } else if i > |b| {
        assert parts[i] == a[i - |b| - 1];
      }
    }
  }

  lemma TailNumbers(q: string)
    requires IsTail(q)
    ensures |Split(q, '.')| == 4
    ensures forall p :: p in Split(q, '.') ==> 1 <= |p| <= 3 && AllDigits(p) && ValueIn(10, p) <= 255
  {
    var parts := Split(q, '.');
    hide Split, ValueIn, AllDigits;
    forall p | p in parts ensures 1 <= |p| <= 3 && AllDigits(p) && ValueIn(10, p) <= 255 {
      var i :| 0 <= i < |parts| && parts[i] == p;
      assert Ipv4.IsNumber3(parts[i]);
    }
  }

  lemma PieceIsGroup(t: Address6, parts: seq<string>, i: nat)
    requires WellFormed(t) && i < |parts| && parts[i] != "" && (t.tail.Some? ==> HasDot(t.tail.value))
    requires parts == if t.gap then OrEmpty(t.before) + [""] + OrEmpty(Items(t.after, t.tail))
                      else Items(t.before, t.tail)
    requires !(i == |parts| - 1 && HasDot(parts[i]))
    ensures IsGroup(parts[i])
  {
    hide IsTail, IsGroup, HasDot;
    if t.gap {
      var b, a := OrEmpty(t.before), OrEmpty(Items(t.after, t.tail));
      if i < |b| {
        assert parts[i] == b[i];
      } else if i > |b| {
        assert parts[i] == a[i - |b| - 1];
      }
    }
  }
}
