/** Tor version ordering (networking/lib/version.c): a comparator built on wrapping
    subtraction, the sorting and deduplication of version lists, and the verdict on a
    recommended-version list. Parsing a version string is a parameter. */
module Version {
  import opened Text

  /** Fields in the order they are compared. `gitTag` holds the meaningful bytes only;
      its length is compared before its contents. */
  datatype Version = Version(major: int, minor: int, micro: int, status: int, patchlevel: int,
                             statusTag: string, svnRevision: int, gitTag: seq<nat>)

  // ---------------------------------------------------------------- comparing

  const TWO31: int := 0x8000_0000
  const TWO32: int := 0x1_0000_0000

  predicate IsInt32(x: int) {
    -TWO31 <= x < TWO31
  }

  /** `(int)(aval - bval)` on 32-bit unsigned values. */
  function WrappedDifference(a: int, b: int): (d: int)
    ensures IsInt32(d)
  {
    var u := (a - b) % TWO32;
    if u >= TWO31 then u - TWO32 else u
  }

  function Sign(x: int): int {
    if x < 0 then -1 else if x > 0 then 1 else 0
  }

  /** The `CMP` macro on one field. */
  function CompareField(a: int, b: int): (r: int)
    ensures r == -1 || r == 0 || r == 1
  {
    Sign(WrappedDifference(a, b))
  }

  /** `strcmp` and `memcmp`, up to the size of the answer. */
  function CompareSeq(a: seq<int>, b: seq<int>): (r: int)
    ensures r == -1 || r == 0 || r == 1
  {
    if a == [] && b == [] then 0
    else if a == [] then -1
    else if b == [] then 1
    else if a[0] != b[0] then Sign(a[0] - b[0])
    else CompareSeq(a[1..], b[1..])
  }

  function Codes(s: string): (cs: seq<int>)
    ensures |cs| == |s| && forall i :: 0 <= i < |s| ==> cs[i] == s[i] as int
  {
    seq(|s|, i requires 0 <= i < |s| => s[i] as int)
  }

  function Strcmp(a: string, b: string): int {
    CompareSeq(Codes(a), Codes(b))
  }

  /** The first answer that is not zero. */
  function Then(first: int, second: int): int {
    if first != 0 then first else second
  }

  /** `tor_version_compare`. */
  function Compare(a: Version, b: Version): int {
    Then(CompareField(a.major, b.major),
    Then(CompareField(a.minor, b.minor),
    Then(CompareField(a.micro, b.micro),
    Then(CompareField(a.status, b.status),
    Then(CompareField(a.patchlevel, b.patchlevel),
    Then(Strcmp(a.statusTag, b.statusTag),
    Then(CompareField(a.svnRevision, b.svnRevision),
    Then(CompareField(|a.gitTag|, |b.gitTag|),
         CompareSeq(a.gitTag, b.gitTag)))))))))
  }

  /** `tor_version_same_series`. */
  predicate SameSeries(a: Version, b: Version) {
    a.major == b.major && a.minor == b.minor && a.micro == b.micro
  }

  /** The difference of two fields is itself a 32-bit number. */
  predicate Fits(a: int, b: int) {
    IsInt32(a - b)
  }

  /** Exactly when the wrapping subtraction has the true sign. It always tells equal fields. */
  lemma FieldSignExact(a: int, b: int)
    requires IsInt32(a) && IsInt32(b)
    ensures CompareField(a, b) == Sign(a - b) <==> Fits(a, b)
    ensures CompareField(a, b) == 0 <==> a == b
  {
    var d := a - b;
    if d < 0 {
      assert d % TWO32 == d + TWO32;
    } else {
      assert d % TWO32 == d;
    }
  }

  /** Outside that range the comparator runs in a circle, so it orders nothing. */
  lemma WrappedFieldsCycle()
    ensures var a, b, c := 0, 0x6000_0000, -0x4000_0000;
            && IsInt32(a) && IsInt32(b) && IsInt32(c)
            && CompareField(a, b) == -1 && CompareField(b, c) == -1 && CompareField(c, a) == -1
  {
    assert (0 - 0x6000_0000) % TWO32 == 0xA000_0000;
    assert (0x6000_0000 + 0x4000_0000) % TWO32 == 0xA000_0000;
    assert (-0x4000_0000) % TWO32 == 0xC000_0000;
  }

  // ---------------------------------------------------------------- a total preorder

  predicate InRange(x: int) {
    0 <= x < TWO31
  }

  /** Numeric fields as the parser's range checks leave them. The revision number after
      `(r` has no such check. */
  predicate Ranged(v: Version) {
    && InRange(v.major) && InRange(v.minor) && InRange(v.micro) && InRange(v.status)
    && InRange(v.patchlevel) && InRange(v.svnRevision) && InRange(|v.gitTag|)
  }

  /** Numeric fields as 32-bit integers hold them. */
  predicate IsMachine(v: Version) {
    && IsInt32(v.major) && IsInt32(v.minor) && IsInt32(v.micro) && IsInt32(v.status)
    && IsInt32(v.patchlevel) && IsInt32(v.svnRevision) && InRange(|v.gitTag|)
  }

  /** If the first field that differs is a number, its difference is a 32-bit number. */
  predicate FirstDifferenceFits(a: Version, b: Version) {
    if a.major != b.major then Fits(a.major, b.major)
    else if a.minor != b.minor then Fits(a.minor, b.minor)
    else if a.micro != b.micro then Fits(a.micro, b.micro)
    else if a.status != b.status then Fits(a.status, b.status)
    else if a.patchlevel != b.patchlevel then Fits(a.patchlevel, b.patchlevel)
    else a.statusTag != b.statusTag || Fits(a.svnRevision, b.svnRevision)
  }

  /** A version as one sequence of numbers whose lexicographic order is the comparison.
      A terminator below every character ends the status tag. */
  function Key(v: Version): seq<int> {
    [v.major] + ([v.minor] + ([v.micro] + ([v.status] + ([v.patchlevel] + KeyTail(v)))))
  }

  function KeyTail(v: Version): seq<int> {
    Codes(v.statusTag) + [-1] + ([v.svnRevision] + ([|v.gitTag|] + v.gitTag))
  }

  lemma {:induction false} CompareSeqFlip(a: seq<int>, b: seq<int>)
    ensures CompareSeq(b, a) == -CompareSeq(a, b)
  {
    if a != [] && b != [] && a[0] == b[0] {
      CompareSeqFlip(a[1..], b[1..]);
    }
  }

  lemma {:induction false} CompareSeqZero(a: seq<int>, b: seq<int>)
    ensures CompareSeq(a, b) == 0 <==> a == b
  {
    if a != [] && b != [] {
      CompareSeqZero(a[1..], b[1..]);
      assert a == [a[0]] + a[1..] && b == [b[0]] + b[1..];
    }
  }

  lemma {:induction false} CompareSeqTransitive(a: seq<int>, b: seq<int>, c: seq<int>)
    requires CompareSeq(a, b) <= 0 && CompareSeq(b, c) <= 0
    ensures CompareSeq(a, c) <= 0
    ensures CompareSeq(a, c) == 0 ==> CompareSeq(a, b) == 0 && CompareSeq(b, c) == 0
  {
    if a != [] && b != [] && c != [] {
      if a[0] == b[0] && b[0] == c[0] {
        CompareSeqTransitive(a[1..], b[1..], c[1..]);
      }
    }
  }

  lemma CompareSeqCons(x: int, a: seq<int>, y: int, b: seq<int>)
    ensures CompareSeq([x] + a, [y] + b) == Then(Sign(x - y), CompareSeq(a, b))
  {
    assert ([x] + a)[1..] == a && ([y] + b)[1..] == b;
  }

  /** A terminated block of non-negative codes is compared before what follows it. */
  lemma {:induction false} CompareSeqBlock(s: seq<int>, a: seq<int>, t: seq<int>, b: seq<int>)
    requires (forall i :: 0 <= i < |s| ==> s[i] >= 0) && (forall i :: 0 <= i < |t| ==> t[i] >= 0)
    ensures CompareSeq(s + [-1] + a, t + [-1] + b) == Then(CompareSeq(s, t), CompareSeq(a, b))
  {
    if s == [] && t == [] {
      assert s + [-1] + a == [-1] + a && t + [-1] + b == [-1] + b;
      CompareSeqCons(-1, a, -1, b);
    } else if s == [] {
      assert s + [-1] + a == [-1] + a && t + [-1] + b == [t[0]] + (t[1..] + [-1] + b);
    } else if t == [] {
      assert t + [-1] + b == [-1] + b && s + [-1] + a == [s[0]] + (s[1..] + [-1] + a);
    } else {
      assert s + [-1] + a == [s[0]] + (s[1..] + [-1] + a);
      assert t + [-1] + b == [t[0]] + (t[1..] + [-1] + b);
      CompareSeqCons(s[0], s[1..] + [-1] + a, t[0], t[1..] + [-1] + b);
      CompareSeqBlock(s[1..], a, t[1..], b);
    }
  }

  lemma StrcmpZero(a: string, b: string)
    ensures Strcmp(a, b) == 0 <==> a == b
  {
    CompareSeqZero(Codes(a), Codes(b));
    if Codes(a) == Codes(b) {
      assert forall i :: 0 <= i < |a| ==> a[i] as int == Codes(a)[i] == Codes(b)[i] == b[i] as int;
    }
  }

  lemma TailOrder(a: Version, b: Version)
    ensures CompareSeq(KeyTail(a), KeyTail(b)) ==
            Then(Strcmp(a.statusTag, b.statusTag),
            Then(Sign(a.svnRevision - b.svnRevision),
            Then(Sign(|a.gitTag| - |b.gitTag|), CompareSeq(a.gitTag, b.gitTag))))
  {
    hide CompareSeq;
    CompareSeqCons(|a.gitTag|, a.gitTag, |b.gitTag|, b.gitTag);
    var g, h := [|a.gitTag|] + a.gitTag, [|b.gitTag|] + b.gitTag;
    CompareSeqCons(a.svnRevision, g, b.svnRevision, h);
    CompareSeqBlock(Codes(a.statusTag), [a.svnRevision] + g, Codes(b.statusTag), [b.svnRevision] + h);
  }

  lemma KeyOrder(a: Version, b: Version)
    ensures CompareSeq(Key(a), Key(b)) ==
            Then(Sign(a.major - b.major),
            Then(Sign(a.minor - b.minor),
            Then(Sign(a.micro - b.micro),
            Then(Sign(a.status - b.status),
            Then(Sign(a.patchlevel - b.patchlevel), CompareSeq(KeyTail(a), KeyTail(b)))))))
  {
    hide CompareSeq, KeyTail, Sign;
    var a5, b5 := [a.patchlevel] + KeyTail(a), [b.patchlevel] + KeyTail(b);
    CompareSeqCons(a.patchlevel, KeyTail(a), b.patchlevel, KeyTail(b));
    CompareSeqCons(a.status, a5, b.status, b5);
    var a4, b4 := [a.status] + a5, [b.status] + b5;
    CompareSeqCons(a.micro, a4, b.micro, b4);
    var a3, b3 := [a.micro] + a4, [b.micro] + b4;
    CompareSeqCons(a.minor, a3, b.minor, b3);
    CompareSeqCons(a.major, [a.minor] + a3, b.major, [b.minor] + b3);
  }

  /** Exactly when the field-by-field comparator gives the lexicographic order of the keys. */
  lemma CompareExact(a: Version, b: Version)
    requires IsMachine(a) && IsMachine(b)
    ensures Compare(a, b) == CompareSeq(Key(a), Key(b)) <==> FirstDifferenceFits(a, b)
  {
    hide CompareSeq, CompareField, Key, KeyTail, Strcmp, Fits;
    FieldSignExact(a.major, b.major);
    FieldSignExact(a.minor, b.minor);
    FieldSignExact(a.micro, b.micro);
    FieldSignExact(a.status, b.status);
    FieldSignExact(a.patchlevel, b.patchlevel);
    StrcmpZero(a.statusTag, b.statusTag);
    FieldSignExact(a.svnRevision, b.svnRevision);
    LengthFits(a, b);
    TailOrder(a, b);
    KeyOrder(a, b);
  }

  lemma LengthFits(a: Version, b: Version)
    requires IsMachine(a) && IsMachine(b)
    ensures CompareField(|a.gitTag|, |b.gitTag|) == Sign(|a.gitTag| - |b.gitTag|)
  {
    FieldSignExact(|a.gitTag|, |b.gitTag|);
  }

  /** On fields in range the comparator is the lexicographic order of the keys. */
  lemma CompareIsKeyOrder(a: Version, b: Version)
    requires Ranged(a) && Ranged(b)
    ensures Compare(a, b) == CompareSeq(Key(a), Key(b))
  {
    CompareExact(a, b);
  }

  // ---------------------------------------------------------------- version strings

  /** What parsing guarantees: the numbers read by `NUMBER` are from 0 to 2^31-1, the status
      is one of a few, the revision after `(r` is whatever fits an `int`, and a git tag, which
      excludes a revision, is at most a digest. */
  predicate AsParsed(v: Version) {
    && InRange(v.major) && InRange(v.minor) && InRange(v.micro) && InRange(v.status) && InRange(v.patchlevel)
    && IsInt32(v.svnRevision) && |v.gitTag| <= 20 && (v.svnRevision == 0 || v.gitTag == [])
  }

  type Parser = p: string -> Option<Version> | forall s :: p(s).Some? ==> AsParsed(p(s).value) witness s => None

  /** `compare_tor_version_str_ptr_`: parseable strings come first, in version order. */
  function CompareStrings(parse: Parser, a: string, b: string): int {
    match (parse(a), parse(b))
    case (Some(va), Some(vb)) => Compare(va, vb)
    case (Some(_), None) => -1
    case (None, Some(_)) => 1
    case (None, None) => Strcmp(a, b)
  }

  /** Keys of strings, those of parseable strings before all others. */
  function StringKey(parse: Parser, s: string): seq<int> {
    match parse(s)
    case Some(v) => [0] + Key(v)
    case None => [1] + Codes(s)
  }

  /** Two strings do not agree with the order if they are versions that differ first in their
      revision numbers, too far apart for an `int`. */
  predicate Agree(parse: Parser, a: string, b: string) {
    match (parse(a), parse(b))
    case (Some(va), Some(vb)) =>
      va.(svnRevision := 0, gitTag := []) == vb.(svnRevision := 0, gitTag := []) ==>
        Fits(va.svnRevision, vb.svnRevision)
    case _ => true
  }

  /** Exactly when the comparator on strings is the order of their keys. */
  lemma StringsInKeyOrder(parse: Parser, a: string, b: string)
    ensures CompareStrings(parse, a, b) == CompareSeq(StringKey(parse, a), StringKey(parse, b)) <==> Agree(parse, a, b)
  {
    match (parse(a), parse(b))
    case (Some(va), Some(vb)) =>
      CompareExact(va, vb);
      assert FirstDifferenceFits(va, vb) <==> Agree(parse, a, b);
      CompareSeqCons(0, Key(va), 0, Key(vb));
    case (Some(va), None) => CompareSeqCons(0, Key(va), 1, Codes(b));
    case (None, Some(vb)) => CompareSeqCons(1, Codes(a), 0, Key(vb));
    case (None, None) => CompareSeqCons(1, Codes(a), 1, Codes(b));
  }

  /** The comparator is the order of the keys on all strings of a set. */
  ghost predicate Coherent(parse: Parser, u: set<string>) {
    forall a, b :: a in u && b in u ==> Agree(parse, a, b)
  }

  /** Non-negative revision numbers always cohere. */
  lemma NonNegativeRevisionsCohere(parse: Parser, u: set<string>)
    requires forall a :: a in u && parse(a).Some? ==> parse(a).value.svnRevision >= 0
    ensures Coherent(parse, u)
  {
  }

  /** The comparator on two versions that differ in their revisions alone. */
  function CompareRevisions(v: Version, x: int, y: int): int {
    Compare(v.(svnRevision := x), v.(svnRevision := y))
  }

  lemma OnlyRevisionDecides(v: Version, x: int, y: int)
    requires AsParsed(v) && v.gitTag == []
    ensures CompareRevisions(v, x, y) == CompareField(x, y)
  {
    StrcmpZero(v.statusTag, v.statusTag);
    FieldSignExact(v.major, v.major);
    FieldSignExact(v.minor, v.minor);
    FieldSignExact(v.micro, v.micro);
    FieldSignExact(v.status, v.status);
    FieldSignExact(v.patchlevel, v.patchlevel);
    FieldSignExact(0, 0);
    hide CompareField, Strcmp;
  }

  /** The circle as versions a parser may return: they differ in the revision alone. */
  lemma RevisionsCycle(v: Version)
    requires AsParsed(v) && v.gitTag == []
    ensures var a, b, c := 0, 0x6000_0000, -0x4000_0000;
            && AsParsed(v.(svnRevision := a)) && AsParsed(v.(svnRevision := b)) && AsParsed(v.(svnRevision := c))
            && CompareRevisions(v, a, b) == -1 && CompareRevisions(v, b, c) == -1 && CompareRevisions(v, c, a) == -1
  {
    WrappedFieldsCycle();
    OnlyRevisionDecides(v, 0, 0x6000_0000);
    OnlyRevisionDecides(v, 0x6000_0000, -0x4000_0000);
    OnlyRevisionDecides(v, -0x4000_0000, 0);
    hide CompareField, CompareRevisions;
  }

  /** Swapping two revisions anywhere in a range swaps the answer. */
  ghost predicate Antisymmetric(v: Version, lo: int, hi: int) {
    forall x, y :: lo <= x <= hi && lo <= y <= hi ==> CompareRevisions(v, x, y) == -CompareRevisions(v, y, x)
  }

  lemma FarApart(x: int)
    requires IsInt32(x) && IsInt32(x + TWO31)
    ensures CompareField(x, x + TWO31) == -1 && CompareField(x + TWO31, x) == -1
  {
    assert (-TWO31) % TWO32 == TWO31 && TWO31 % TWO32 == TWO31;
  }

  /** Which ranges of revisions the comparator orders, exactly: those narrower than 2^31. On
      them it is the order of the numbers; on any wider one two revisions are each less than
      the other. */
  lemma RevisionRangeExact(v: Version, lo: int, hi: int)
    requires AsParsed(v) && v.gitTag == [] && IsInt32(lo) && IsInt32(hi) && lo <= hi
    ensures Antisymmetric(v, lo, hi) <==> hi - lo < TWO31
    ensures hi - lo < TWO31 ==>
              forall x, y :: lo <= x <= hi && lo <= y <= hi ==> CompareRevisions(v, x, y) == Sign(x - y)
  {
    hide Compare, CompareField, CompareRevisions;
    if hi - lo < TWO31 {
      forall x, y | lo <= x <= hi && lo <= y <= hi ensures CompareRevisions(v, x, y) == Sign(x - y) {
        OnlyRevisionDecides(v, x, y);
        FieldSignExact(x, y);
      }
    } else {
      FarApart(lo);
      OnlyRevisionDecides(v, lo, lo + TWO31);
      OnlyRevisionDecides(v, lo + TWO31, lo);
      assert CompareRevisions(v, lo, lo + TWO31) != -CompareRevisions(v, lo + TWO31, lo);
    }
  }

  /** On a coherent set, a total preorder: reflexive, antisymmetric in sign, and transitive,
      with strictness carried along. */
  lemma TotalPreorder(parse: Parser, u: set<string>, a: string, b: string, c: string)
    requires Coherent(parse, u) && a in u && b in u && c in u
    ensures CompareStrings(parse, a, a) == 0
    ensures CompareStrings(parse, b, a) == -CompareStrings(parse, a, b)
    ensures CompareStrings(parse, a, b) <= 0 && CompareStrings(parse, b, c) <= 0 ==>
              CompareStrings(parse, a, c) <= 0
              && (CompareStrings(parse, a, c) == 0 ==>
                    CompareStrings(parse, a, b) == 0 && CompareStrings(parse, b, c) == 0)
  {
    StringsInKeyOrder(parse, a, a);
    StringsInKeyOrder(parse, a, b);
    StringsInKeyOrder(parse, b, a);
    StringsInKeyOrder(parse, b, c);
    StringsInKeyOrder(parse, a, c);
    var ka, kb, kc := StringKey(parse, a), StringKey(parse, b), StringKey(parse, c);
    hide CompareStrings, StringKey, Agree;
    CompareSeqZero(ka, ka);
    CompareSeqFlip(ka, kb);
    if CompareSeq(ka, kb) <= 0 && CompareSeq(kb, kc) <= 0 {
      CompareSeqTransitive(ka, kb, kc);
    }
  }

  // ---------------------------------------------------------------- sorting

  ghost predicate Ordered(parse: Parser, xs: seq<string>) {
    forall i, j :: 0 <= i < j < |xs| ==> CompareStrings(parse, xs[i], xs[j]) <= 0
  }

  ghost predicate StrictlyOrdered(parse: Parser, xs: seq<string>) {
    forall i, j :: 0 <= i < j < |xs| ==> CompareStrings(parse, xs[i], xs[j]) < 0
  }

  function Members(xs: seq<string>): set<string> {
    set x | x in xs
  }

  ghost predicate Within(xs: seq<string>, u: set<string>) {
    forall i :: 0 <= i < |xs| ==> xs[i] in u
  }

  ghost predicate Sortable(parse: Parser, u: set<string>, xs: seq<string>) {
    Coherent(parse, u) && Within(xs, u) && Ordered(parse, xs)
  }

  /** Everything before position `k` is at most `x`, everything from there on at least. */
  ghost predicate Belongs(parse: Parser, xs: seq<string>, x: string, k: nat) {
    && k <= |xs|
    && (forall i :: 0 <= i < k ==> CompareStrings(parse, xs[i], x) <= 0)
    && (forall i :: k <= i < |xs| ==> CompareStrings(parse, x, xs[i]) <= 0)
  }

  /** Where a string belongs in an ordered list. */
  method Place(parse: Parser, ghost u: set<string>, xs: seq<string>, x: string) returns (k: nat)
    ensures k <= |xs|
    ensures Sortable(parse, u, xs) && x in u ==> Belongs(parse, xs, x, k)
  {
    k := |xs|;
    while k > 0 && CompareStrings(parse, xs[k - 1], x) > 0
      invariant k <= |xs|
      invariant Sortable(parse, u, xs) && x in u ==> forall i :: k <= i < |xs| ==> CompareStrings(parse, x, xs[i]) <= 0
    {
      if Sortable(parse, u, xs) && x in u {
        TotalPreorder(parse, u, xs[k - 1], x, x);
      }
      k := k - 1;
    }
    if k > 0 && Sortable(parse, u, xs) && x in u {
      forall i | 0 <= i < k ensures CompareStrings(parse, xs[i], x) <= 0 {
        TotalPreorder(parse, u, xs[i], xs[k - 1], x);
      }
    }
  }

  /** `smartlist_sort`, here by insertion: a rearrangement, and ordered if the comparator is
      an order on the list. */
  method Sort(parse: Parser, xs: seq<string>) returns (r: seq<string>)
    ensures multiset(r) == multiset(xs)
    ensures Coherent(parse, Members(xs)) ==> Ordered(parse, r)
  {
    hide *;
    ghost var u := Members(xs);
    r := [];
    var i := 0;
    NothingToSort(parse, u, xs);
    while i < |xs|
      invariant 0 <= i <= |xs|
      invariant multiset(r) == multiset(xs[..i])
      invariant Coherent(parse, u) ==> Sortable(parse, u, r)
    {
      var k := Place(parse, u, r, xs[i]);
      InsertKeepsAll(r, k, xs, i);
      if Coherent(parse, u) {
        InsertSortable(parse, u, r, k, xs[i]);
      }
      r := r[..k] + [xs[i]] + r[k..];
      i := i + 1;
    }
    assert xs[..i] == xs;
    SortableIsOrdered(parse, u, r);
  }

  lemma NothingToSort(parse: Parser, u: set<string>, xs: seq<string>)
    ensures Coherent(parse, u) ==> Sortable(parse, u, [])
    ensures u == Members(xs) ==> forall i :: 0 <= i < |xs| ==> xs[i] in u
  {
  }

  lemma SortableIsOrdered(parse: Parser, u: set<string>, r: seq<string>)
    ensures Sortable(parse, u, r) ==> Ordered(parse, r)
  {
  }

  lemma InsertKeepsAll(r: seq<string>, k: nat, xs: seq<string>, i: nat)
    requires k <= |r| && i < |xs| && multiset(r) == multiset(xs[..i])
    ensures multiset(r[..k] + [xs[i]] + r[k..]) == multiset(xs[..i + 1])
  {
    assert r == r[..k] + r[k..] && xs[..i + 1] == xs[..i] + [xs[i]];
  }

  lemma InsertSortable(parse: Parser, u: set<string>, xs: seq<string>, k: nat, x: string)
    requires Sortable(parse, u, xs) && x in u && Belongs(parse, xs, x, k)
    ensures Sortable(parse, u, xs[..k] + [x] + xs[k..])
  {
    hide CompareStrings, Coherent;
  }

  lemma EquivalentTransitive(parse: Parser, u: set<string>, a: string, b: string, c: string)
    requires Coherent(parse, u)
    requires a in u && b in u && c in u
    requires CompareStrings(parse, a, b) == 0 && CompareStrings(parse, b, c) == 0
    ensures CompareStrings(parse, a, c) == 0
  {
    TotalPreorder(parse, u, a, b, c);
    TotalPreorder(parse, u, c, b, a);
    TotalPreorder(parse, u, b, c, a);
    TotalPreorder(parse, u, a, c, b);
  }

  /** Every string of `xs` has an equal one in `r`. */
  ghost predicate Represents(parse: Parser, r: seq<string>, xs: seq<string>) {
    forall x :: x in xs ==> exists y :: y in r && CompareStrings(parse, y, x) == 0
  }

  lemma DropOne(parse: Parser, u: set<string>, before: seq<string>, i: nat)
    requires Coherent(parse, u)
    requires i < |before| && Ordered(parse, before) && Within(before, u)
    ensures var r := before[..i] + before[i + 1..];
            Ordered(parse, r) && Within(r, u) && multiset(r) <= multiset(before)
  {
    hide CompareStrings, Coherent;
    assert before == before[..i] + [before[i]] + before[i + 1..];
  }

  lemma DropEqual(parse: Parser, u: set<string>, xs: seq<string>, before: seq<string>, i: nat)
    requires Coherent(parse, u)
    requires 1 <= i < |before| && Ordered(parse, before) && Within(before, u) && Within(xs, u)
    requires CompareStrings(parse, before[i - 1], before[i]) == 0 && Represents(parse, before, xs)
    ensures var r := before[..i] + before[i + 1..];
            && Ordered(parse, r) && Within(r, u) && multiset(r) <= multiset(before)
            && Represents(parse, r, xs)
  {
    hide CompareStrings, Coherent;
    var r := before[..i] + before[i + 1..];
    DropOne(parse, u, before, i);
    forall x | x in xs ensures exists y :: y in r && CompareStrings(parse, y, x) == 0 {
      var y :| y in before && CompareStrings(parse, y, x) == 0;
      if y == before[i] {
        EquivalentTransitive(parse, u, before[i - 1], y, x);
        assert before[i - 1] == r[i - 1];
      } else {
        var k :| 0 <= k < |before| && before[k] == y;
        assert y == r[if k < i then k else k - 1];
      }
    }
  }

  lemma ExtendStrict(parse: Parser, u: set<string>, r: seq<string>, i: nat)
    requires Coherent(parse, u)
    requires 1 <= i < |r| && Ordered(parse, r) && Within(r, u)
    requires StrictlyOrdered(parse, r[..i]) && CompareStrings(parse, r[i - 1], r[i]) != 0
    ensures StrictlyOrdered(parse, r[..i + 1])
  {
    forall j | 0 <= j < i ensures CompareStrings(parse, r[j], r[i]) < 0 {
      TotalPreorder(parse, u, r[j], r[i - 1], r[i]);
    }
    forall j, k | 0 <= j < k < i ensures CompareStrings(parse, r[j], r[k]) < 0 {
      assert r[..i][j] == r[j] && r[..i][k] == r[k];
    }
  }

  /** The first `i` entries are done: what is left of `xs` is ordered and represents it all. */
  ghost predicate Deduplicated(parse: Parser, u: set<string>, xs: seq<string>, r: seq<string>, i: nat) {
    && Ordered(parse, r) && Within(r, u) && Represents(parse, r, xs)
    && 1 <= i && (r != [] ==> i <= |r| && StrictlyOrdered(parse, r[..i]))
  }

  lemma NothingDropped(parse: Parser, u: set<string>, xs: seq<string>)
    requires Sortable(parse, u, xs)
    ensures Deduplicated(parse, u, xs, xs, 1)
  {
    forall x | x in xs ensures CompareStrings(parse, x, x) == 0 {
      TotalPreorder(parse, u, x, x, x);
    }
  }

  lemma DropNext(parse: Parser, u: set<string>, xs: seq<string>, r: seq<string>, i: nat)
    requires Sortable(parse, u, xs) && Deduplicated(parse, u, xs, r, i)
    requires i < |r| && CompareStrings(parse, r[i - 1], r[i]) == 0
    ensures Deduplicated(parse, u, xs, r[..i] + r[i + 1..], i)
  {
    DropEqual(parse, u, xs, r, i);
    var s := r[..i] + r[i + 1..];
    assert s[..i] == r[..i];
  }

  lemma KeepNext(parse: Parser, u: set<string>, xs: seq<string>, r: seq<string>, i: nat)
    requires Sortable(parse, u, xs) && Deduplicated(parse, u, xs, r, i)
    requires i < |r| && CompareStrings(parse, r[i - 1], r[i]) != 0
    ensures Deduplicated(parse, u, xs, r, i + 1)
  {
    ExtendStrict(parse, u, r, i);
  }

  lemma AllDone(parse: Parser, u: set<string>, xs: seq<string>, r: seq<string>, i: nat)
    requires Deduplicated(parse, u, xs, r, i) && i >= |r|
    ensures StrictlyOrdered(parse, r) && Represents(parse, r, xs)
  {
    if r != [] { assert r[..i] == r; }
  }

  /** No two neighbours among the first `i` entries are equal, and nothing was added. */
  ghost predicate Thinned(parse: Parser, xs: seq<string>, r: seq<string>, i: nat) {
    && multiset(r) <= multiset(xs) && (|r| > 0 ==> 1 <= i <= |r|)
    && forall j :: 1 <= j < i && j < |r| ==> CompareStrings(parse, r[j - 1], r[j]) != 0
  }

  lemma ThinDrop(parse: Parser, xs: seq<string>, r: seq<string>, i: nat)
    requires Thinned(parse, xs, r, i) && 1 <= i < |r|
    ensures Thinned(parse, xs, r[..i] + r[i + 1..], i)
  {
    hide CompareStrings;
    assert r == r[..i] + [r[i]] + r[i + 1..];
    assert forall j :: 0 <= j < i ==> (r[..i] + r[i + 1..])[j] == r[j];
  }

  lemma ThinKeep(parse: Parser, xs: seq<string>, r: seq<string>, i: nat)
    requires Thinned(parse, xs, r, i) && 1 <= i < |r| && CompareStrings(parse, r[i - 1], r[i]) != 0
    ensures Thinned(parse, xs, r, i + 1)
  {
    hide CompareStrings;
  }

  lemma ThinEnds(parse: Parser, xs: seq<string>, r: seq<string>, i: nat)
    ensures Thinned(parse, xs, xs, 1)
    ensures Thinned(parse, xs, r, i) && i >= |r| ==> multiset(r) <= multiset(xs) && NoEqualNeighbours(parse, r)
  {
    hide CompareStrings;
  }

  ghost predicate NoEqualNeighbours(parse: Parser, r: seq<string>) {
    forall j :: 1 <= j < |r| ==> CompareStrings(parse, r[j - 1], r[j]) != 0
  }

  /** `smartlist_uniq`: of each run of equal neighbours only the first stays. On a list the
      comparator orders, that leaves one of each class. */
  method Uniq(parse: Parser, xs: seq<string>) returns (r: seq<string>)
    ensures multiset(r) <= multiset(xs) && NoEqualNeighbours(parse, r)
    ensures forall u :: Sortable(parse, u, xs) ==> StrictlyOrdered(parse, r) && Represents(parse, r, xs)
  {
    hide *;
    r := xs;
    ThinEnds(parse, xs, [], 0);
    forall u | Sortable(parse, u, xs) ensures Deduplicated(parse, u, xs, r, 1) {
      NothingDropped(parse, u, xs);
    }
    var i := 1;
    while i < |r|
      invariant 1 <= i && Thinned(parse, xs, r, i)
      invariant forall u :: Sortable(parse, u, xs) ==> Deduplicated(parse, u, xs, r, i)
      decreases |r| - i
    {
      if CompareStrings(parse, r[i - 1], r[i]) == 0 {
        forall u | Sortable(parse, u, xs) ensures Deduplicated(parse, u, xs, r[..i] + r[i + 1..], i) {
          DropNext(parse, u, xs, r, i);
        }
        ThinDrop(parse, xs, r, i);
        r := r[..i] + r[i + 1..];
      } else {
        ThinKeep(parse, xs, r, i);
        forall u | Sortable(parse, u, xs) ensures Deduplicated(parse, u, xs, r, i + 1) {
          KeepNext(parse, u, xs, r, i);
        }
        i := i + 1;
      }
    }
    ThinEnds(parse, xs, r, i);
    forall u | Sortable(parse, u, xs) ensures StrictlyOrdered(parse, r) && Represents(parse, r, xs) {
      AllDone(parse, u, xs, r, i);
    }
  }

  /** `sort_version_list`: a rearrangement, or with duplicates removed part of one without
      equal neighbours. If the comparator is an order on the list, the result is ordered, or
      strictly increasing with one member of every class of equal versions. */
  method SortVersionList(parse: Parser, versions: seq<string>, removeDuplicates: bool) returns (r: seq<string>)
    ensures !removeDuplicates ==> multiset(r) == multiset(versions)
    ensures removeDuplicates ==> multiset(r) <= multiset(versions) && NoEqualNeighbours(parse, r)
    ensures Coherent(parse, Members(versions)) ==>
              if removeDuplicates then StrictlyOrdered(parse, r) && Represents(parse, r, versions)
              else Ordered(parse, r)
  {
    r := Sort(parse, versions);
    ghost var sorted := r;
    SameMembers(r, versions);
    if removeDuplicates {
      r := Uniq(parse, r);
      assert Coherent(parse, Members(versions)) ==> Sortable(parse, Members(versions), sorted);
    }
  }

  lemma SameMembers(a: seq<string>, b: seq<string>)
    requires multiset(a) == multiset(b)
    ensures forall x :: x in a <==> x in b
  {
    assert forall x :: x in a <==> x in multiset(a);
    assert forall x :: x in b <==> x in multiset(b);
  }

  /** Two strictly increasing lists that represent each other have the same classes in the
      same order, so deduplication leaves no choice but that of each representative. */
  lemma {:induction false} StrictListsAgree(parse: Parser, u: set<string>, r: seq<string>, q: seq<string>)
    requires Coherent(parse, u)
    requires Within(r, u) && Within(q, u)
    requires StrictlyOrdered(parse, r) && StrictlyOrdered(parse, q)
    requires Represents(parse, r, q) && Represents(parse, q, r)
    ensures |r| == |q| && forall i :: 0 <= i < |r| ==> CompareStrings(parse, r[i], q[i]) == 0
  {
    if q != [] {
      NotEmpty(parse, r, q);
    }
    if r != [] {
      NotEmpty(parse, q, r);
    }
    if r != [] && q != [] {
      HeadNotAfter(parse, u, r, q);
      HeadNotAfter(parse, u, q, r);
      TotalPreorder(parse, u, r[0], q[0], q[0]);
      TailRepresents(parse, u, r, q);
      TailRepresents(parse, u, q, r);
      StrictListsAgree(parse, u, r[1..], q[1..]);
    }
  }

  lemma NotEmpty(parse: Parser, r: seq<string>, q: seq<string>)
    requires q != [] && Represents(parse, r, q)
    ensures r != []
  {
    assert q[0] in q;
  }

  /** The first of a strictly increasing list that represents another is not after its first. */
  lemma HeadNotAfter(parse: Parser, u: set<string>, r: seq<string>, q: seq<string>)
    requires Coherent(parse, u)
    requires r != [] && q != [] && Within(r, u) && Within(q, u)
    requires StrictlyOrdered(parse, r) && Represents(parse, r, q)
    ensures CompareStrings(parse, r[0], q[0]) <= 0
  {
    hide CompareStrings, Coherent;
    assert q[0] in q;
    var y :| y in r && CompareStrings(parse, y, q[0]) == 0;
    var k :| 0 <= k < |r| && r[k] == y;
    TotalPreorder(parse, u, r[0], r[0], r[0]);
    TotalPreorder(parse, u, r[0], r[k], q[0]);
  }

  lemma TailRepresents(parse: Parser, u: set<string>, r: seq<string>, q: seq<string>)
    requires Coherent(parse, u)
    requires r != [] && q != [] && Within(r, u) && Within(q, u)
    requires StrictlyOrdered(parse, q) && CompareStrings(parse, q[0], r[0]) == 0
    requires Represents(parse, r, q)
    ensures Represents(parse, r[1..], q[1..])
  {
    forall x | x in q[1..] ensures exists y :: y in r[1..] && CompareStrings(parse, y, x) == 0 {
      var k :| 0 <= k < |q[1..]| && q[1..][k] == x;
      assert x == q[k + 1] && x in q;
      var y :| y in r && CompareStrings(parse, y, x) == 0;
      assert CompareStrings(parse, q[0], x) < 0;
      if y == r[0] {
        EquivalentTransitive(parse, u, q[0], y, x);
      }
      var j :| 0 <= j < |r| && r[j] == y;
      assert y == r[1..][j - 1];
    }
  }

  // ---------------------------------------------------------------- recommended versions

  datatype Status = VS_RECOMMENDED | VS_OLD | VS_NEW | VS_NEW_IN_SERIES | VS_UNRECOMMENDED | VS_EMPTY

  predicate IsSpace(c: char) {
    c == ' ' || c == '\t' || c == '\r' || c == '\n'
  }

  function Trim(s: string): string
    decreases |s|
  {
    if s != [] && IsSpace(s[0]) then Trim(s[1..])
    else if s != [] && IsSpace(s[|s| - 1]) then Trim(s[..|s| - 1])
    else s
  }

  /** The list split at commas, each entry trimmed and without a leading `Tor `. */
  function Entries(list: string): (es: seq<string>)
    ensures |es| == |Split(list, ',')|
  {
    var parts := Split(list, ',');
    seq(|parts|, i requires 0 <= i < |parts| => StripTor(Trim(parts[i])))
  }

  function StripTor(s: string): string {
    if "Tor " <= s then s[4..] else s
  }

  ghost predicate Among(parse: Parser, entries: seq<string>, v: Version) {
    exists i :: 0 <= i < |entries| && parse(entries[i]) == Some(v)
  }

  /** Some entry of the list parses as this version. */
  ghost predicate Listed(parse: Parser, list: string, v: Version) {
    Among(parse, Entries(list), v)
  }

  /** The verdict in terms of the listed versions alone. */
  ghost function Verdict(parse: Parser, mine: Version, list: string): Status {
    var newer := exists v :: Listed(parse, list, v) && Compare(mine, v) < 0;
    var older := exists v :: Listed(parse, list, v) && Compare(mine, v) > 0;
    var inSeries := exists v :: Listed(parse, list, v) && SameSeries(mine, v);
    var newerInSeries := exists v :: Listed(parse, list, v) && SameSeries(mine, v) && Compare(mine, v) < 0;
    if list == [] then VS_EMPTY
    else if exists v :: Listed(parse, list, v) && Compare(mine, v) == 0 then VS_RECOMMENDED
    else if inSeries && !newerInSeries && newer then VS_NEW_IN_SERIES
    else if newer && !older then VS_OLD
    else if older && !newer then VS_NEW
    else VS_UNRECOMMENDED
  }

  /** `tor_version_is_obsolete`, for a version of one's own that has been parsed. The loop
      stops at the first equal entry. */
  method IsObsolete(parse: Parser, mine: Version, list: string) returns (ret: Status)
    ensures ret == Verdict(parse, mine, list)
  {
    hide Compare, SameSeries, Entries;
    var foundNewer, foundOlder, foundNewerInSeries, foundAnyInSeries := false, false, false, false;
    var entries := Entries(list);
    if |list| == 0 { return VS_EMPTY; }
    var i := 0;
    while i < |entries|
      invariant 0 <= i <= |entries|
      invariant forall v :: Among(parse, entries[..i], v) ==> Compare(mine, v) != 0
      invariant foundNewer <==> exists v :: Among(parse, entries[..i], v) && Compare(mine, v) < 0
      invariant foundOlder <==> exists v :: Among(parse, entries[..i], v) && Compare(mine, v) > 0
      invariant foundAnyInSeries <==> exists v :: Among(parse, entries[..i], v) && SameSeries(mine, v)
      invariant foundNewerInSeries <==>
                exists v :: Among(parse, entries[..i], v) && SameSeries(mine, v) && Compare(mine, v) < 0
    {
      var other := parse(entries[i]);
      OneMore(parse, entries, i);
      if other.Some? {
        var same := SameSeries(mine, other.value);
        if same { foundAnyInSeries := true; }
        var r := Compare(mine, other.value);
        if r == 0 {
          assert Listed(parse, list, other.value);
          return VS_RECOMMENDED;
        } else if r < 0 {
          foundNewer := true;
          if same { foundNewerInSeries := true; }
        } else {
          foundOlder := true;
        }
      }
      i := i + 1;
    }
    assert entries[..i] == entries;
    assert forall v :: Listed(parse, list, v) <==> Among(parse, entries, v);
    if foundAnyInSeries && !foundNewerInSeries && foundNewer { ret := VS_NEW_IN_SERIES; }
    else if foundNewer && !foundOlder { ret := VS_OLD; }
    else if foundOlder && !foundNewer { ret := VS_NEW; }
    else { ret := VS_UNRECOMMENDED; }
  }

  lemma OneMore(parse: Parser, entries: seq<string>, i: nat)
    requires i < |entries|
    ensures forall v :: Among(parse, entries[..i + 1], v) <==>
              Among(parse, entries[..i], v) || parse(entries[i]) == Some(v)
  {
    var a, b := entries[..i], entries[..i + 1];
    forall v | Among(parse, a, v) ensures Among(parse, b, v) {
      var k :| 0 <= k < |a| && parse(a[k]) == Some(v);
      assert parse(b[k]) == Some(v);
    }
    assert b[i] == entries[i];
  }

  /** The verdict depends only on which versions are listed, not on their order, repetition,
      spelling or on unparseable entries. */
  lemma VerdictBySet(parse: Parser, mine: Version, l1: string, l2: string)
    requires l1 != [] && l2 != []
    requires forall v :: Listed(parse, l1, v) <==> Listed(parse, l2, v)
    ensures Verdict(parse, mine, l1) == Verdict(parse, mine, l2)
  {
    hide Listed, Compare, SameSeries;
  }

  /** What each verdict says about the listed versions, exactly. */
  lemma VerdictMeaning(parse: Parser, mine: Version, list: string)
    ensures Verdict(parse, mine, list) == VS_EMPTY <==> list == []
    ensures list != [] ==>
              (Verdict(parse, mine, list) == VS_RECOMMENDED <==>
               exists v :: Listed(parse, list, v) && Compare(mine, v) == 0)
    ensures list != [] ==>
              (Verdict(parse, mine, list) == VS_OLD <==>
               (exists v :: Listed(parse, list, v)) && forall v :: Listed(parse, list, v) ==> Compare(mine, v) < 0)
    ensures list != [] ==>
              (Verdict(parse, mine, list) == VS_NEW <==>
               (exists v :: Listed(parse, list, v)) && forall v :: Listed(parse, list, v) ==> Compare(mine, v) > 0)
    ensures list != [] ==>
              (Verdict(parse, mine, list) == VS_NEW_IN_SERIES <==>
               && (forall v :: Listed(parse, list, v) ==> Compare(mine, v) != 0)
               && (exists v :: Listed(parse, list, v)
                               && mine.major == v.major && mine.minor == v.minor && mine.micro == v.micro)
               && (forall v :: Listed(parse, list, v)
                               && mine.major == v.major && mine.minor == v.minor && mine.micro == v.micro ==>
                     Compare(mine, v) > 0)
               && exists v :: Listed(parse, list, v) && Compare(mine, v) < 0)
  {
    hide Listed, Compare;
  }
}
