/** The Tor version order and the reading of version lists, field by field and letter by letter. */
module VersionTexts {
  import opened Text
  import opened Version

  // ---------------------------------------------------------------- the order

  /** The first place where two sequences differ decides, and a proper prefix comes first. */
  lemma {:induction false} FirstPlaceDecides(p: seq<int>, x: int, a: seq<int>, y: int, b: seq<int>)
    ensures x < y ==> CompareSeq(p + [x] + a, p + [y] + b) == -1 && CompareSeq(p + [y] + b, p + [x] + a) == 1
    ensures CompareSeq(p, p + [x] + a) == -1 && CompareSeq(p + [x] + a, p) == 1
    decreases |p|
  {
    var u, v := p + [x] + a, p + [y] + b;
    if p != [] {
      assert u[1..] == p[1..] + [x] + a && v[1..] == p[1..] + [y] + b;
      FirstPlaceDecides(p[1..], x, a, y, b);
    }
  }

  lemma CodesConcat(p: string, x: char, a: string)
    ensures Codes(p + [x] + a) == Codes(p) + [x as int] + Codes(a)
  {
  }

  /** So do the first letters in which two status tags differ. */
  lemma FirstLetterDecides(p: string, x: char, a: string, y: char, b: string)
    ensures x < y ==> Strcmp(p + [x] + a, p + [y] + b) == -1 && Strcmp(p + [y] + b, p + [x] + a) == 1
    ensures Strcmp(p, p + [x] + a) == -1 && Strcmp(p + [x] + a, p) == 1
    ensures Strcmp(p, p) == 0
  {
    CodesConcat(p, x, a);
    CodesConcat(p, y, b);
    FirstPlaceDecides(Codes(p), x as int, Codes(a), y as int, Codes(b));
    StrcmpZero(p, p);
  }

  /** Major, minor and micro number, status, patch level, status tag, revision, length of the git
      tag, git tag: the first of them that differs decides. */
  lemma FieldsInOrder(a: Version, b: Version)
    requires Ranged(a) && Ranged(b)
    ensures a.major < b.major ==> Compare(a, b) == -1
    ensures a.major == b.major && a.minor < b.minor ==> Compare(a, b) == -1
    ensures a.major == b.major && a.minor == b.minor && a.micro < b.micro ==> Compare(a, b) == -1
    ensures a.major == b.major && a.minor == b.minor && a.micro == b.micro && a.status < b.status ==>
              Compare(a, b) == -1
    ensures a.major == b.major && a.minor == b.minor && a.micro == b.micro && a.status == b.status ==>
              && (a.patchlevel < b.patchlevel ==> Compare(a, b) == -1)
              && (a.patchlevel == b.patchlevel ==> Compare(a, b) == CompareRest(a, b))
  {
    FieldSignExact(a.major, b.major);
    FieldSignExact(a.minor, b.minor);
    FieldSignExact(a.micro, b.micro);
    FieldSignExact(a.status, b.status);
    FieldSignExact(a.patchlevel, b.patchlevel);
    hide CompareField, Strcmp, CompareSeq;
  }

  /** The comparison of what follows the patch level. */
  function CompareRest(a: Version, b: Version): int {
    Compare(a.(major := 0, minor := 0, micro := 0, status := 0, patchlevel := 0),
            b.(major := 0, minor := 0, micro := 0, status := 0, patchlevel := 0))
  }

  lemma RestInOrder(a: Version, b: Version)
    requires Ranged(a) && Ranged(b)
    ensures a.statusTag != b.statusTag ==> CompareRest(a, b) == Strcmp(a.statusTag, b.statusTag)
    ensures a.statusTag == b.statusTag ==>
              && (a.svnRevision < b.svnRevision ==> CompareRest(a, b) == -1)
              && (a.svnRevision == b.svnRevision && |a.gitTag| < |b.gitTag| ==> CompareRest(a, b) == -1)
              && (a.svnRevision == b.svnRevision && |a.gitTag| == |b.gitTag| ==>
                    CompareRest(a, b) == CompareSeq(a.gitTag, b.gitTag))
  {
    FieldSignExact(0, 0);
    StrcmpZero(a.statusTag, b.statusTag);
    FieldSignExact(a.svnRevision, b.svnRevision);
    FieldSignExact(|a.gitTag|, |b.gitTag|);
    hide CompareField, Strcmp, CompareSeq;
  }

  /** Strings that parse come before all that do not, and those go by their letters. */
  lemma ParseableFirst(parse: Parser, a: string, b: string)
    ensures parse(a).Some? && parse(b).None? ==> CompareStrings(parse, a, b) == -1 && CompareStrings(parse, b, a) == 1
    ensures parse(a).None? && parse(b).None? ==> CompareStrings(parse, a, b) == Strcmp(a, b)
    ensures parse(a).Some? && parse(b).Some? ==>
              CompareStrings(parse, a, b) == Compare(parse(a).value, parse(b).value)
  {
  }

  // ---------------------------------------------------------------- version lists

  /** Blanks, tabs and line ends. */
  predicate Blank(s: string) {
    forall i :: 0 <= i < |s| ==> s[i] == ' ' || s[i] == '\t' || s[i] == '\r' || s[i] == '\n'
  }

  /** An entry is read without the blanks around it, */
  lemma {:induction false} BlanksAround(left: string, body: string, right: string)
    requires Blank(left) && Blank(right) && body != ""
    requires !Blank(body[..1]) && !Blank(body[|body| - 1..])
    ensures Trim(left + body + right) == body
    decreases |left| + |right|
  {
    var s := left + body + right;
    if left != "" {
      assert s[1..] == left[1..] + body + right && s[0] == left[0];
      BlanksAround(left[1..], body, right);
    } else {
      assert s[0] == body[0] && !IsSpace(body[0]);
      if right != "" {
        var shorter := right[..|right| - 1];
        assert s[..|s| - 1] == left + body + shorter && s[|s| - 1] == right[|right| - 1];
        BlanksAround(left, body, shorter);
      } else {
        assert s == body && !IsSpace(body[|body| - 1]);
      }
    }
  }

  /** and without the word `Tor ` in front. */
  lemma WordInFront(v: string)
    ensures StripTor("Tor " + v) == v
    ensures !("Tor " <= v) ==> StripTor(v) == v
  {
    assert ("Tor " + v)[4..] == v;
  }

  /** A version is listed exactly when it is the parse of one of the entries between commas. */
  lemma ListedBetweenCommas(parse: Parser, parts: seq<string>, v: Version)
    requires parts != [] && forall i :: 0 <= i < |parts| ==> Free(parts[i], ',')
    ensures Listed(parse, Join(parts, ','), v) <==>
            exists i :: 0 <= i < |parts| && parse(StripTor(Trim(parts[i]))) == Some(v)
  {
    SplitJoin(parts, ',');
    var es := Entries(Join(parts, ','));
    hide Trim, StripTor, Join, Split;
    assert |es| == |parts| && forall i :: 0 <= i < |parts| ==> es[i] == StripTor(Trim(parts[i]));
    if i :| 0 <= i < |parts| && parse(StripTor(Trim(parts[i]))) == Some(v) {
      assert parse(es[i]) == Some(v);
    }
    if i :| 0 <= i < |es| && parse(es[i]) == Some(v) {
      assert parse(StripTor(Trim(parts[i]))) == Some(v);
    }
  }
}
