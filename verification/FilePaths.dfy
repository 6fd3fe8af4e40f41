/** POSIX file paths as strings, with the operations the mount registry calls on them.
    `base::FilePath` itself is library code; these are its rules for one separator. */
module FilePaths {

  const SEPARATOR: char := '/'

  /** No doubled separators; the registry is modelled on such paths. */
  predicate Plain(s: string) {
    forall i :: 0 <= i < |s| - 1 ==> s[i] != SEPARATOR || s[i + 1] != SEPARATOR
  }

  predicate NoSeparator(s: string) {
    forall i :: 0 <= i < |s| ==> s[i] != SEPARATOR
  }

  /** `StripTrailingSeparators`: a root stays. */
  function Strip(s: string): (r: string)
    ensures r <= s && (s != [] ==> r != [])
    ensures |r| > 1 ==> r[|r| - 1] != SEPARATOR
    ensures |r| > 1 || s == r || s[0] == SEPARATOR || |r| == 1
  {
    if |s| > 1 && s[|s| - 1] == SEPARATOR then Strip(s[..|s| - 1]) else s
  }

  /** `NormalizeFilePath` (external_m.cpp): exactly one trailing separator. */
  function Normalize(path: string): string {
    if path == [] then path
    else
      var t := Strip(path);
      if t[|t| - 1] != SEPARATOR then t + [SEPARATOR] else t
  }

  predicate IsAbsolute(s: string) {
    s != [] && s[0] == SEPARATOR
  }

  function PieceLen(s: string): (k: nat)
    ensures k <= |s| && NoSeparator(s[..k])
    ensures k < |s| ==> s[k] == SEPARATOR
    ensures s != [] && s[0] != SEPARATOR ==> k > 0
  {
    if s == [] || s[0] == SEPARATOR then 0
    else
      var k := 1 + PieceLen(s[1..]);
      assert s[..k] == [s[0]] + s[1..][..k - 1];
      k
  }

  /** The non-empty pieces between separators. */
  function Pieces(s: string): seq<string>
    decreases |s|
  {
    if s == [] then []
    else if s[0] == SEPARATOR then Pieces(s[1..])
    else [s[..PieceLen(s)]] + Pieces(s[PieceLen(s)..])
  }

  /** `GetComponents`: a root counts as a component, a leading `.` does not. */
  function Components(s: string): seq<string> {
    var ps := Pieces(s);
    if IsAbsolute(s) then [[SEPARATOR]] + ps
    else if ps != [] && ps[0] == "." then ps[1..]
    else ps
  }

  predicate AllDotsAndSpace(c: string) {
    forall i :: 0 <= i < |c| ==> c[i] in ". \n\r\t"
  }

  predicate HasDoubleDot(c: string) {
    exists i :: 0 <= i < |c| - 1 && c[i] == '.' && c[i + 1] == '.'
  }

  predicate IsParentReference(c: string) {
    AllDotsAndSpace(c) && HasDoubleDot(c)
  }

  predicate HasParentReference(cs: seq<string>) {
    exists i :: 0 <= i < |cs| && IsParentReference(cs[i])
  }

  lemma ParentReferenceConcat(a: seq<string>, b: seq<string>)
    ensures HasParentReference(a + b) <==> HasParentReference(a) || HasParentReference(b)
  {
    var c := a + b;
    if i :| 0 <= i < |a| && IsParentReference(a[i]) {
      assert IsParentReference(c[i]);
    }
    if i :| 0 <= i < |b| && IsParentReference(b[i]) {
      assert IsParentReference(c[|a| + i]);
    }
  }

  predicate ReferencesParent(s: string) {
    HasParentReference(Components(s))
  }

  /** `IsParent`: the components of one path are a proper prefix of the other's. */
  predicate IsParent(p: string, q: string) {
    Components(p) != [] && Components(p) < Components(q)
  }

  /** `Append`: the current directory vanishes, and one separator joins the two. */
  function Append(p: string, c: string): string {
    if p == "." && c != [] then c
    else
      var b := Strip(p);
      if c != [] && b != [] && b[|b| - 1] != SEPARATOR then b + [SEPARATOR] + c else b + c
  }

  function AppendAll(p: string, cs: seq<string>): string
    decreases cs
  {
    if cs == [] then p else AppendAll(Append(p, cs[0]), cs[1..])
  }

  /** Components, each followed by a separator. */
  function Dirs(cs: seq<string>): string {
    if cs == [] then [] else cs[0] + [SEPARATOR] + Dirs(cs[1..])
  }

  predicate IsPiece(c: string) {
    c != [] && NoSeparator(c)
  }

  predicate ArePieces(cs: seq<string>) {
    forall i :: 0 <= i < |cs| ==> IsPiece(cs[i])
  }

  /** A normalized path: nothing, or something that ends in its only trailing separator. */
  predicate IsDirectory(s: string) {
    Plain(s) && s != [] && s[|s| - 1] == SEPARATOR
  }

  // ---------------------------------------------------------------- normalization

  lemma StripPlain(s: string)
    requires Plain(s)
    ensures Strip(s) == if |s| > 1 && s[|s| - 1] == SEPARATOR then s[..|s| - 1] else s
  {
    if |s| > 1 && s[|s| - 1] == SEPARATOR {
      var t := s[..|s| - 1];
      assert |t| > 1 ==> t[|t| - 1] != SEPARATOR;
    }
  }

  lemma PlainAppend(s: string)
    requires Plain(s) && s != [] && s[|s| - 1] != SEPARATOR
    ensures Plain(s + [SEPARATOR])
  {
  }

  lemma NormalizePlain(s: string)
    requires Plain(s) && s != []
    ensures IsDirectory(Normalize(s))
    ensures Normalize(s) == if s[|s| - 1] == SEPARATOR then s else s + [SEPARATOR]
    ensures Strip(Normalize(s)) == Strip(s)
    ensures IsAbsolute(Normalize(s)) <==> IsAbsolute(s)
  {
    StripNormalize(s);
    NormalForm(s);
    hide Normalize, Strip;
    if s[|s| - 1] != SEPARATOR {
      PlainAppend(s);
    }
  }

  lemma NormalForm(s: string)
    requires Plain(s) && s != []
    ensures Normalize(s) == if s[|s| - 1] == SEPARATOR then s else s + [SEPARATOR]
  {
    StripPlain(s);
    hide Strip;
    if |s| > 1 && s[|s| - 1] == SEPARATOR {
      var t := s[..|s| - 1];
      assert t[|t| - 1] == s[|s| - 2] != SEPARATOR;
      assert s == t + [SEPARATOR];
    }
  }

  lemma {:induction false} StripTwice(s: string)
    ensures Strip(Strip(s)) == Strip(s)
  {
    if |s| > 1 && s[|s| - 1] == SEPARATOR {
      StripTwice(s[..|s| - 1]);
    }
  }

  /** Normalizing changes trailing separators only. */
  lemma StripNormalize(s: string)
    ensures Strip(Normalize(s)) == Strip(s)
  {
    StripTwice(s);
    if s != [] {
      var t := Strip(s);
      assert (t + [SEPARATOR])[..|t|] == t;
    }
  }

  /** The stored stripping is undone: a normalized path survives a round through `Strip`. */
  lemma NormalizeStrip(d: string)
    requires IsDirectory(d)
    ensures Normalize(Strip(d)) == d && Plain(Strip(d)) && Strip(d) != []
  {
    StripPlain(d);
    StripPlain(Strip(d));
  }

  // ---------------------------------------------------------------- components

  lemma {:induction false} PiecesArePieces(s: string)
    ensures ArePieces(Pieces(s))
    decreases |s|
  {
    if s != [] {
      if s[0] == SEPARATOR {
        PiecesArePieces(s[1..]);
      } else {
        PiecesArePieces(s[PieceLen(s)..]);
      }
    }
  }

  lemma {:induction false} PieceLenIs(c: string, rest: string)
    requires NoSeparator(c) && (rest == [] || rest[0] == SEPARATOR)
    ensures PieceLen(c + rest) == |c|
  {
    if c == [] {
      assert c + rest == rest;
    } else {
      PieceLenIs(c[1..], rest);
      assert (c + rest)[1..] == c[1..] + rest;
      assert (c + rest)[0] == c[0];
    }
  }

  lemma {:induction false} PieceLenEnds(s: string)
    requires s != [] && s[|s| - 1] == SEPARATOR
    ensures PieceLen(s) < |s|
  {
    if s[0] != SEPARATOR {
      PieceLenEnds(s[1..]);
    }
  }

  lemma FirstOfPieces(c: string, rest: string)
    requires IsPiece(c) && (rest == [] || rest[0] == SEPARATOR)
    ensures Pieces(c + rest) == [c] + Pieces(rest)
  {
    PieceLenIs(c, rest);
    assert (c + rest)[..|c|] == c && (c + rest)[|c|..] == rest;
  }

  lemma PastSeparator(rest: string)
    ensures Pieces([SEPARATOR] + rest) == Pieces(rest)
  {
    assert ([SEPARATOR] + rest)[1..] == rest;
  }

  /** A text in pieces, after a leading separator or at the start, is read back as them. */
  lemma {:induction false} PiecesOfDirs(cs: seq<string>)
    requires ArePieces(cs)
    ensures Pieces(Dirs(cs)) == cs
  {
    if cs != [] {
      var s, rest := Dirs(cs), [SEPARATOR] + Dirs(cs[1..]);
      assert s == cs[0] + rest;
      PieceLenIs(cs[0], rest);
      assert s[0] == cs[0][0];
      assert s[|cs[0]|..] == rest && s[..|cs[0]|] == cs[0];
      assert rest[1..] == Dirs(cs[1..]);
      PiecesOfDirs(cs[1..]);
    }
  }

  lemma {:induction false} DirsOfPieces(s: string)
    requires Plain(s) && (s == [] || (s[0] != SEPARATOR && s[|s| - 1] == SEPARATOR))
    ensures Dirs(Pieces(s)) == s
    decreases |s|
  {
    if s != [] {
      var k := PieceLen(s);
      PieceLenEnds(s);
      var rest := s[k + 1..];
      assert Plain(rest);
      assert s == s[..k] + [SEPARATOR] + rest;
      DirsOfPieces(rest);
      assert s[k..][1..] == rest;
    }
  }

  /** A directory path is its root and components, each closed by a separator. */
  lemma DirectoryForm(d: string)
    requires IsDirectory(d)
    ensures ArePieces(Pieces(d))
    ensures d == (if IsAbsolute(d) then [SEPARATOR] else []) + Dirs(Pieces(d))
  {
    PiecesArePieces(d);
    if IsAbsolute(d) {
      var s := d[1..];
      assert Plain(s);
      assert s != [] ==> s[0] != SEPARATOR && s[|s| - 1] == SEPARATOR;
      DirsOfPieces(s);
      assert d == [d[0]] + s;
    } else {
      DirsOfPieces(d);
    }
  }

  lemma {:induction false} DirsPrefix(cs: seq<string>, ds: seq<string>)
    requires ArePieces(cs) && ArePieces(ds)
    ensures Dirs(cs) <= Dirs(ds) <==> cs <= ds
  {
    if cs != [] && ds != [] {
      var c, d := cs[0], ds[0];
      assert IsPiece(c) && IsPiece(d);
      DirsPrefix(cs[1..], ds[1..]);
      if Dirs(cs) <= Dirs(ds) {
        SamePiece(c, Dirs(cs[1..]), d, Dirs(ds[1..]));
      }
      if c == d {
        DropPrefix(c + [SEPARATOR], Dirs(cs[1..]), Dirs(ds[1..]));
        assert cs == [c] + cs[1..] && ds == [c] + ds[1..];
      }
    }
  }

  /** If one text is a prefix of another, their first pieces agree. */
  lemma SamePiece(c: string, a: string, d: string, b: string)
    requires NoSeparator(c) && NoSeparator(d)
    requires c + [SEPARATOR] + a <= d + [SEPARATOR] + b
    ensures c == d
  {
    var s, t := c + [SEPARATOR] + a, d + [SEPARATOR] + b;
    var rest := [SEPARATOR] + a + t[|s|..];
    assert t == s + t[|s|..];
    assert t == c + rest;
    PieceLenIs(c, rest);
    assert t == d + ([SEPARATOR] + b);
    PieceLenIs(d, [SEPARATOR] + b);
    assert c == t[..|c|] == t[..|d|] == d;
  }

  lemma SameHead(p: string, q: string)
    requires p != []
    ensures p <= q ==> q != [] && q[0] == p[0]
  {
  }

  lemma DropPrefix(p: string, a: string, b: string)
    ensures p + a <= p + b <==> a <= b
  {
    if p + a <= p + b {
      assert forall i :: 0 <= i < |a| ==> a[i] == (p + a)[|p| + i] == (p + b)[|p| + i] == b[i];
    }
  }

  /** For normalized paths with an absolute parent, containment of components is the
      same as being a proper prefix as strings: this is what the trailing separator buys. */
  lemma ParentIsPrefix(p: string, q: string)
    requires IsDirectory(p) && IsAbsolute(p) && (q == [] || IsDirectory(q))
    ensures IsParent(p, q) <==> p != q && p <= q
  {
    SameHead(p, q);
    if q == [] {
      assert Components(q) == [];
    } else if !IsAbsolute(q) {
      RelativeComponents(q);
    } else {
      DirectoryForm(p);
      DirectoryForm(q);
      var cs, ds := Pieces(p), Pieces(q);
      DropPrefix([SEPARATOR], Dirs(cs), Dirs(ds));
      DirsPrefix(cs, ds);
      ConsPrefix([SEPARATOR], cs, ds);
    }
  }

  lemma RelativeComponents(q: string)
    requires q != [] && !IsAbsolute(q)
    ensures ArePieces(Components(q))
    ensures Components(q) != [] ==> Components(q)[0] != [SEPARATOR]
  {
    PiecesArePieces(q);
    if Components(q) != [] {
      assert IsPiece(Components(q)[0]);
      assert [SEPARATOR][0] == SEPARATOR;
    }
  }

  lemma ConsPrefix(r: string, cs: seq<string>, ds: seq<string>)
    ensures [r] + cs <= [r] + ds <==> cs <= ds
    ensures [r] + cs == [r] + ds <==> cs == ds
  {
    assert ([r] + cs)[1..] == cs && ([r] + ds)[1..] == ds;
    if [r] + cs <= [r] + ds {
      assert forall i :: 0 <= i < |cs| ==> cs[i] == ([r] + cs)[i + 1] == ([r] + ds)[i + 1] == ds[i];
    }
  }

  // ---------------------------------------------------------------- appending

  lemma {:induction false} PiecesClosed(s: string)
    ensures Pieces(s + [SEPARATOR]) == Pieces(s)
    decreases |s|
  {
    var t := s + [SEPARATOR];
    if s == [] {
      assert t[1..] == [];
    } else if s[0] == SEPARATOR {
      assert t[1..] == s[1..] + [SEPARATOR];
      PiecesClosed(s[1..]);
    } else {
      var k := PieceLen(s);
      assert t == s[..k] + (s[k..] + [SEPARATOR]);
      PieceLenIs(s[..k], s[k..] + [SEPARATOR]);
      assert t[k..] == s[k..] + [SEPARATOR];
      assert t[..k] == s[..k];
      PiecesClosed(s[k..]);
    }
  }

  lemma ComponentsStrip(d: string)
    requires IsDirectory(d)
    ensures Components(Strip(d)) == Components(d)
  {
    StripPlain(d);
    if |d| > 1 {
      PiecesClosed(Strip(d));
      assert d == Strip(d) + [SEPARATOR];
    }
  }

  lemma ExtendDirectory(d: string, c: string)
    requires IsDirectory(d) && IsPiece(c)
    ensures IsDirectory(d + c + [SEPARATOR])
    ensures Strip(d + c + [SEPARATOR]) != "."
    ensures Strip(d) != "." ==> Append(Strip(d), c) == Strip(d + c + [SEPARATOR])
  {
    var e := d + c + [SEPARATOR];
    assert e[|d|] == c[0] && e[|e| - 2] == c[|c| - 1];
    assert Plain(e) by {
      forall i | 0 <= i < |e| - 1 ensures e[i] != SEPARATOR || e[i + 1] != SEPARATOR {
        if i < |d| - 1 {
          assert e[i] == d[i] && e[i + 1] == d[i + 1];
        } else if i >= |d| {
          assert e[i] == c[i - |d|];
        }
      }
    }
    StripPlain(d);
    StripPlain(e);
    StripPlain(Strip(d));
    assert e[..|e| - 1] == d + c && |d + c| > 1;
    if |d| > 1 {
      assert d == Strip(d) + [SEPARATOR];
    }
  }

  lemma DirsStep(d: string, cs: seq<string>)
    requires cs != [] && ArePieces(cs)
    ensures IsPiece(cs[0])
    ensures d + cs[0] + [SEPARATOR] + Dirs(cs[1..]) == d + Dirs(cs)
  {
  }

  /** Appending components one by one gives the path that closes each of them, stripped. */
  lemma {:induction false} AppendDirs(d: string, cs: seq<string>)
    requires IsDirectory(d) && Strip(d) != "." && ArePieces(cs)
    ensures IsDirectory(d + Dirs(cs))
    ensures AppendAll(Strip(d), cs) == Strip(d + Dirs(cs))
    decreases |cs|
  {
    if cs == [] {
      assert d + Dirs(cs) == d;
    } else {
      DirsStep(d, cs);
      assert ArePieces(cs[1..]);
      hide Append, Strip, IsDirectory, IsPiece, ArePieces, Dirs;
      ExtendDirectory(d, cs[0]);
      AppendDirs(d + cs[0] + [SEPARATOR], cs[1..]);
    }
  }

  lemma {:induction false} DirsConcat(cs: seq<string>, ds: seq<string>)
    ensures Dirs(cs + ds) == Dirs(cs) + Dirs(ds)
  {
    if cs == [] {
      assert cs + ds == ds;
    } else {
      assert (cs + ds)[1..] == cs[1..] + ds;
      DirsConcat(cs[1..], ds);
    }
  }

  lemma PiecesOfPiece(c: string)
    requires IsPiece(c)
    ensures Pieces(c) == [c]
    ensures c != "." ==> Components(c) == [c]
  {
    PieceLenIs(c, []);
    assert c + [] == c;
    assert c[|c|..] == [];
  }

  /** Components of a path that starts with a piece and continues with others. */
  lemma RelativeForm(name: string, cs: seq<string>)
    requires IsPiece(name) && name != "." && ArePieces(cs)
    ensures Components(AppendAll(name, cs)) == [name] + cs
  {
    var d := name + [SEPARATOR];
    var all := [name] + cs;
    assert IsDirectory(d) by {
      forall i | 0 <= i < |d| - 1 ensures d[i] != SEPARATOR || d[i + 1] != SEPARATOR {
        assert d[i] == name[i];
      }
    }
    StripPlain(d);
    AppendDirs(d, cs);
    assert all[0] == name && all[1..] == cs;
    assert ArePieces(all) by {
      forall i | 0 <= i < |all| ensures IsPiece(all[i]) {
        if i > 0 { assert all[i] == cs[i - 1]; }
      }
    }
    assert d + Dirs(cs) == Dirs(all);
    PiecesOfDirs(all);
    assert Dirs(all)[0] == name[0];
    ComponentsStrip(Dirs(all));
  }

  /** The same for a path that starts at the root. */
  lemma RootForm(cs: seq<string>)
    requires ArePieces(cs)
    ensures Components(AppendAll([SEPARATOR], cs)) == [[SEPARATOR]] + cs
  {
    var d := [SEPARATOR];
    AppendDirs(d, cs);
    PiecesOfDirs(cs);
    assert (d + Dirs(cs))[1..] == Dirs(cs);
    ComponentsStrip(d + Dirs(cs));
  }

  lemma ComponentsNormalize(p: string)
    requires Plain(p) && p != []
    ensures Components(Normalize(p)) == Components(p)
  {
    NormalizePlain(p);
    if p[|p| - 1] != SEPARATOR {
      StripPlain(Normalize(p));
      ComponentsStrip(Normalize(p));
    }
  }
}
