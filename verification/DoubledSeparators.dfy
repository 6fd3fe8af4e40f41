/** What doubled separators do to the mount registry. Checks and lookups that look only at the
    nearest neighbours are right about a path exactly when it has no doubled separators; for
    lookups one just before the last component does no harm. */
module DoubledSeparators {
  import opened FilePaths
  import opened PathOrder
  import opened MountPoints

  const Empty: Registry := Registry(map[], [])

  // ---------------------------------------------------------------- an example

  /** Doubled separators escape the check of the neighbours: `/a/b` is accepted beside a
      mount at `/a//b/c`, which it contains. */
  lemma DoubledSeparatorsEscape()
    ensures var ops := [Register("m", OtherType(0), 0, "/a//b/c"), Register("n", OtherType(0), 0, "/a/b")];
            var r := Run(Registry(map[], []), ops);
            ("/a//b/c/", "m") in r.index && ("/a/b/", "n") in r.index && IsParent("/a/b/", "/a//b/c/")
  {
    var p, q := "/a//b/c/", "/a/b/";
    DoubledForms();
    var empty := Registry(map[], []);
    var one := Registry(map["m" := Instance(OtherType(0), "/a//b/c", 0)], [(p, "m")]);
    var o1, o2 := Register("m", OtherType(0), 0, "/a//b/c"), Register("n", OtherType(0), 0, "/a/b");
    hide Components, Normalize, IsAbsolute, ReferencesParent, Strip;
    assert NeighboursAllow(empty, "m", OtherType(0), p);
    assert Insert([], p, "m") == [(p, "m")];
    assert Step(empty, o1) == one;
    assert !Less(q, p) by {
      assert p[1..] == "a//b/c/" && q[1..] == "a/b/" && p[1..][1..] == "//b/c/" && q[1..][1..] == "/b/";
      assert p[1..][1..][1..] == "/b/c/" && q[1..][1..][1..] == "b/";
      assert !Less("b/", "/b/c/");
    }
    assert UpperBound([], q) == 0;
    assert one.index[1..] == [];
    assert UpperBound(one.index, q) == 1;
    assert NeighboursAllow(one, "n", OtherType(0), q);
    assert Insert(one.index, q, "n") == [(p, "m"), (q, "n")];
    var two := Step(one, o2);
    assert two.index == [(p, "m"), (q, "n")];
    assert two.index[0] == (p, "m") && two.index[1] == (q, "n");
    assert [o1, o2][1..] == [o2] && [o2][1..] == [];
    assert Run(two, []) == two;
    assert Run(one, [o2]) == two;
  }

  lemma PiecesOfFirst()
    ensures Pieces("/a//b/c/") == ["a", "b", "c"]
  {
    hide *;
    NoPieces();
    PastSeparator("");
    FirstOfPieces("c", "/");
    PastSeparator("c/");
    FirstOfPieces("b", "/c/");
    PastSeparator("b/c/");
    PastSeparator("/b/c/");
    FirstOfPieces("a", "//b/c/");
    PastSeparator("a//b/c/");
    assert "/" + "" == "/" && "c" + "/" == "c/" && "/" + "c/" == "/c/" && "b" + "/c/" == "b/c/";
    assert "/" + "b/c/" == "/b/c/" && "/" + "/b/c/" == "//b/c/" && "a" + "//b/c/" == "a//b/c/";
    assert "/" + "a//b/c/" == "/a//b/c/";
    assert ["a"] + (["b"] + (["c"] + [])) == ["a", "b", "c"];
  }

  lemma PiecesOfSecond()
    ensures Pieces("/a/b/") == ["a", "b"]
  {
    hide *;
    NoPieces();
    PastSeparator("");
    FirstOfPieces("b", "/");
    PastSeparator("b/");
    FirstOfPieces("a", "/b/");
    PastSeparator("a/b/");
    assert "/" + "" == "/" && "b" + "/" == "b/" && "/" + "b/" == "/b/" && "a" + "/b/" == "a/b/";
    assert "/" + "a/b/" == "/a/b/";
    assert ["a"] + (["b"] + []) == ["a", "b"];
  }

  lemma NoPieces()
    ensures Pieces("") == [] && SEPARATOR == '/'
    ensures IsPiece("a") && IsPiece("b") && IsPiece("c")
  {
  }

  lemma DoubledForms()
    ensures var p, q := "/a//b/c/", "/a/b/";
            && Normalize("/a//b/c") == p && Normalize("/a/b") == q && Strip(p) == "/a//b/c"
            && IsAbsolute(p) && IsAbsolute(q) && !ReferencesParent(p) && !ReferencesParent(q)
            && IsParent(q, p) && !IsParent(p, q)
  {
    var p, q := "/a//b/c/", "/a/b/";
    PiecesOfFirst();
    PiecesOfSecond();
    hide Pieces;
    var cp, cq := ["/", "a", "b", "c"], ["/", "a", "b"];
    assert Components(p) == cp && Components(q) == cq;
    hide Components;
    SingleLetters(cp);
    SingleLetters(cq);
    assert cq < cp && !(cp <= cq);
    StripNormalize("/a//b/c");
    assert Strip("/a//b/c") == "/a//b/c" && Strip("/a/b") == "/a/b";
  }

  lemma SingleLetters(cs: seq<string>)
    requires forall i :: 0 <= i < |cs| ==> |cs[i]| == 1
    ensures !HasParentReference(cs)
  {
  }

  // ---------------------------------------------------------------- the first doubled separator

  /** Index of the first doubled separator, or the length. */
  function FirstDouble(p: string): (i: nat)
    ensures i <= |p|
    ensures i < |p| ==> i + 1 < |p| && p[i] == SEPARATOR && p[i + 1] == SEPARATOR
    ensures forall j :: 0 <= j < i && j + 1 < |p| ==> p[j] != SEPARATOR || p[j + 1] != SEPARATOR
  {
    if |p| < 2 then |p|
    else if p[0] == SEPARATOR && p[1] == SEPARATOR then 0
    else 1 + FirstDouble(p[1..])
  }

  lemma PlainHasNone(p: string)
    ensures Plain(p) <==> FirstDouble(p) == |p|
  {
  }

  lemma {:induction false} PiecesConcat(cs: seq<string>, b: string)
    requires ArePieces(cs)
    ensures Pieces(Dirs(cs) + b) == cs + Pieces(b)
    decreases |cs|
  {
    hide Pieces;
    if cs == [] {
      assert Dirs(cs) + b == b;
    } else {
      var rest := Dirs(cs[1..]) + b;
      DirsFirst(cs, b);
      hide Dirs;
      assert cs + Pieces(b) == [cs[0]] + (cs[1..] + Pieces(b));
      PiecesConcat(cs[1..], b);
      FirstOfPieces(cs[0], [SEPARATOR] + rest);
      PastSeparator(rest);
    }
  }

  lemma DirsFirst(cs: seq<string>, b: string)
    requires cs != []
    ensures Dirs(cs) + b == cs[0] + ([SEPARATOR] + (Dirs(cs[1..]) + b))
  {
    var c, rest := cs[0], Dirs(cs[1..]);
    assert Dirs(cs) == c + [SEPARATOR] + rest;
    hide *;
    Associative(c + [SEPARATOR], rest, b);
    Associative(c, [SEPARATOR], rest + b);
  }

  /** A path cut at its first doubled separator: a directory `d` of components `cs`, then
      another separator and the components `ps`. */
  lemma CutForm(p: string, d: string, s: string) returns (cs: seq<string>, ps: seq<string>)
    requires IsAbsolute(p) && FirstDouble(p) < |p|
    requires d == p[..FirstDouble(p) + 1] && s == p[FirstDouble(p) + 1..]
    ensures ArePieces(cs) && ArePieces(ps) && ps == Pieces(s)
    ensures d == "/" + Dirs(cs) && p == d + s && s != [] && s[0] == SEPARATOR
    ensures Components(p) == ["/"] + (cs + ps)
  {
    hide *;
    CutParts(p, d, s);
    DirectoryForm(d);
    cs, ps := Pieces(d), Pieces(s);
    PiecesArePieces(s);
    PiecesConcat(cs, s);
    Associative("/", Dirs(cs), s);
    AbsoluteComponents(Dirs(cs) + s);
  }

  lemma CutParts(p: string, d: string, s: string)
    requires IsAbsolute(p) && FirstDouble(p) < |p|
    requires d == p[..FirstDouble(p) + 1] && s == p[FirstDouble(p) + 1..]
    ensures IsDirectory(d) && IsAbsolute(d) && [SEPARATOR] == "/"
    ensures p == d + s && s != [] && s[0] == SEPARATOR
  {
    hide FirstDouble;
  }

  lemma AbsoluteComponents(t: string)
    ensures Components("/" + t) == ["/"] + Pieces(t)
  {
    PastSeparator(t);
    hide Pieces;
  }

  lemma Associative(a: string, b: string, c: string)
    ensures a + (b + c) == (a + b) + c
  {
  }

  lemma {:induction false} OnlySeparators(s: string)
    ensures Pieces(s) == [] ==> forall i :: 0 <= i < |s| ==> s[i] == SEPARATOR
  {
    if s != [] && s[0] == SEPARATOR {
      OnlySeparators(s[1..]);
      assert Pieces(s) == [] ==> forall i :: 1 <= i < |s| ==> s[i] == s[1..][i - 1] == SEPARATOR;
    }
  }

  /** A normalized path does not end in a doubled separator. */
  lemma SingleEnd(p: string)
    requires Normalize(p) == p && |p| >= 2
    ensures p[|p| - 2] != SEPARATOR
  {
    var t := Strip(p);
    assert p == t + [SEPARATOR] || p == t;
  }

  lemma SomethingFollows(p: string)
    requires Normalize(p) == p && FirstDouble(p) < |p|
    ensures Pieces(p[FirstDouble(p) + 1..]) != []
  {
    var i := FirstDouble(p);
    var s := p[i + 1..];
    OnlySeparators(s);
    SingleEnd(p);
    assert |s| != 1;
    assert s[|s| - 2] == p[|p| - 2];
  }

  // ---------------------------------------------------------------- mounts beside each other

  lemma KeyForm(cs: seq<string>)
    requires ArePieces(cs) && !HasParentReference(cs)
    ensures IsMountKey("/" + Dirs(cs)) && Components("/" + Dirs(cs)) == ["/"] + cs
  {
    assert Strip("/") == "/" && IsDirectory("/");
    AppendDirs("/", cs);
    PiecesOfDirs(cs);
    PastSeparator(Dirs(cs));
    ParentReferenceConcat(["/"], cs);
    assert !HasParentReference(["/"]) by {
      assert !HasDoubleDot("/");
    }
  }

  /** A component that lies, as a string, between `q` closed by a separator and a separator
      in the place of `q`. */
  function Beside(q: string): string
    requires q != []
  {
    if q[0] > SEPARATOR then q + "!" else q + "0"
  }

  lemma BesideIsPiece(q: string)
    requires IsPiece(q)
    ensures IsPiece(Beside(q)) && Beside(q) != q && !IsParentReference(Beside(q))
  {
    var b := Beside(q);
    assert |b| == |q| + 1 && (b[|q|] == '!' || b[|q|] == '0');
    assert forall i :: 0 <= i < |q| ==> b[i] == q[i];
  }

  lemma {:induction false} LessAfter(d: string, a: string, b: string)
    ensures Less(d + a, d + b) <==> Less(a, b)
  {
    if d == [] {
      assert d + a == a && d + b == b;
    } else {
      assert (d + a)[1..] == d[1..] + a && (d + b)[1..] == d[1..] + b;
      LessAfter(d[1..], a, b);
    }
  }

  lemma LessByHead(a: string, b: string)
    requires a != [] && b != [] && a[0] < b[0]
    ensures Less(a, b)
  {
  }

  /** Where `d`, then `q` and something beside it, lie around `d` with a doubled separator. */
  lemma BesideIsBetween(d: string, q: string, tail: string, s: string)
    requires IsPiece(q) && s != [] && s[0] == SEPARATOR
    ensures var k, m, p := d + (q + ("/" + tail)), d + (Beside(q) + "/"), d + s;
            if q[0] > SEPARATOR then Less(p, m) && Less(m, k) else Less(k, m) && Less(m, p)
  {
    var c := if q[0] > SEPARATOR then "!" else "0";
    assert Beside(q) + "/" == q + (c + "/");
    LessAfter(d, s, q + (c + "/"));
    LessAfter(d, q + (c + "/"), s);
    LessAfter(d, q + (c + "/"), q + ("/" + tail));
    LessAfter(d, q + ("/" + tail), q + (c + "/"));
    LessAfter(q, c + "/", "/" + tail);
    LessAfter(q, "/" + tail, c + "/");
    assert (q + (c + "/"))[0] == q[0];
    if q[0] > SEPARATOR {
      LessByHead(s, q + (c + "/"));
      LessByHead(c + "/", "/" + tail);
    } else {
      LessByHead(q + (c + "/"), s);
      LessByHead("/" + tail, c + "/");
    }
  }

  /** Paths whose components part ways. */
  lemma PartedPaths(a: string, b: string, j: nat)
    requires j < |Components(a)| && j < |Components(b)| && Components(a)[j] != Components(b)[j]
    ensures !IsParent(a, b) && !IsParent(b, a) && a != b && !Overlaps(a, b) && !Overlaps(b, a)
  {
    hide Components;
  }

  // ---------------------------------------------------------------- a run with two mounts

  function TwoMounts(k: string, m: string): seq<Op> {
    [Register("k", OtherType(0), 0, k), Register("m", OtherType(0), 0, m)]
  }

  ghost predicate PlainOps(ops: seq<Op>) {
    forall i :: 0 <= i < |ops| ==> PlainOp(ops[i])
  }

  lemma DirectoryIsNormal(d: string)
    requires IsMountKey(d)
    ensures Normalize(d) == d && Plain(d) && d != [] && IsDirectory(d)
  {
    NormalizePlain(d);
  }

  lemma InsertOne(k: string, v: string, m: string, w: string)
    requires Less(k, m) || Less(m, k)
    ensures Insert([], k, v) == [(k, v)]
    ensures Insert([(k, v)], m, w) == if Less(k, m) then [(k, v), (m, w)] else [(m, w), (k, v)]
  {
    if Less(k, m) {
      LessAsymmetric(k, m);
    } else {
      LessAsymmetric(m, k);
    }
    assert UpperBound([], m) == 0 && [(k, v)][1..] == [];
    assert UpperBound([(k, v)], m) == if Less(m, k) then 0 else 1;
  }

  lemma RegisterStep(r: Registry, name: string, d: string)
    requires Consistent(r) && IsMountKey(d) && name != [] && name !in r.instances
    requires forall e :: e in r.index ==> !Overlaps(e.0, d)
    ensures PlainOp(Register(name, OtherType(0), 0, d))
    ensures var s := Step(r, Register(name, OtherType(0), 0, d));
            Consistent(s) && s.instances.Keys == r.instances.Keys + {name} && s.index == Insert(r.index, d, name)
  {
    DirectoryIsNormal(d);
    hide Normalize, Plain, Strip, IsDirectory, Insert, Overlaps, Consistent, NeighboursAllow;
    assert Acceptable(r, name, OtherType(0), d);
    AllowedIsAcceptable(r, name, OtherType(0), d);
    StepConsistent(r, Register(name, OtherType(0), 0, d));
  }

  lemma TwoMountsRun(k: string, m: string)
    requires IsMountKey(k) && IsMountKey(m) && !Overlaps(k, m) && (Less(k, m) || Less(m, k))
    ensures var r := Run(Empty, TwoMounts(k, m));
            && PlainOps(TwoMounts(k, m)) && Consistent(r) && "n" !in r.instances
            && r.index == if Less(k, m) then [(k, "k"), (m, "m")] else [(m, "m"), (k, "k")]
  {
    var ops := TwoMounts(k, m);
    hide Less, Insert, IsMountKey, Overlaps, Consistent, Step, PlainOp;
    EmptyConsistent();
    RegisterStep(Empty, "k", k);
    var one := Step(Empty, ops[0]);
    InsertOne(k, "k", m, "m");
    RegisterStep(one, "m", m);
    var two := Step(one, ops[1]);
    assert ops[1..] == [ops[1]] && [ops[1]][1..] == [];
    assert Run(two, []) == two;
    assert Run(one, [ops[1]]) == two;
  }

  // ---------------------------------------------------------------- registration

  /** A path with doubled separators is accepted although it contains a mount: another mount
      beside that one is its neighbour. */
  lemma DoubleIsAccepted(p: string) returns (ops: seq<Op>)
    requires p != [] && Normalize(p) == p && IsAbsolute(p) && !ReferencesParent(p) && !Plain(p)
    ensures PlainOps(ops)
    ensures var r := Run(Empty, ops);
            NeighboursAllow(r, "n", OtherType(0), p) && !Acceptable(r, "n", OtherType(0), p)
  {
    hide *;
    PlainHasNone(p);
    var i := FirstDouble(p);
    var d, s := p[..i + 1], p[i + 1..];
    var cs, ps := CutForm(p, d, s);
    SomethingFollows(p);
    OneDeeper(p, cs, ps);
    var k, m := MountsAround(p, d, s, cs, ps, ps + ["z"]);
    ops := TwoMounts(k, m);
    TwoMountsRun(k, m);
    assert cs + (ps + ["z"]) == (cs + ps) + ["z"];
    InsideIsParent(p, k, ["/"] + (cs + ps), "z");
    OutsideIsAllowed(Run(Empty, ops), p, k, m);
  }

  /** A mount `k` at the plain form of some components, and a mount `m` that lies between it
      and `p` as a string but overlaps neither. */
  lemma MountsAround(p: string, d: string, s: string, cs: seq<string>, ps: seq<string>, inner: seq<string>)
      returns (k: string, m: string)
    requires ArePieces(cs) && ArePieces(ps) && ps != []
    requires d == "/" + Dirs(cs) && p == d + s && s != [] && s[0] == SEPARATOR
    requires Components(p) == ["/"] + (cs + ps)
    requires ArePieces(inner) && inner != [] && inner[0] == ps[0] && !HasParentReference(cs + inner)
    ensures IsMountKey(k) && IsMountKey(m) && Components(k) == ["/"] + (cs + inner)
    ensures !Overlaps(k, m) && !Overlaps(m, p)
    ensures (Less(p, m) && Less(m, k)) || (Less(k, m) && Less(m, p))
  {
    var q := ps[0];
    assert IsPiece(q);
    PiecesOfBoth(cs, inner);
    hide *;
    var b := Beside(q);
    k, m := "/" + Dirs(cs + inner), "/" + Dirs(cs + [b]);
    BesideIsPiece(q);
    NoParents(cs, inner, b);
    KeyForm(cs + inner);
    KeyForm(cs + [b]);
    DirsOfBoth(d, cs, inner);
    DirsOfBoth(d, cs, [b]);
    BesideIsBetween(d, q, Dirs(inner[1..]), s);
    var j := 1 + |cs|;
    assert Components(k)[j] == q && Components(p)[j] == q && Components(m)[j] == b;
    PartedPaths(k, m, j);
    PartedPaths(m, p, j);
  }

  lemma DirsOfBoth(d: string, cs: seq<string>, inner: seq<string>)
    requires d == "/" + Dirs(cs) && inner != []
    ensures "/" + Dirs(cs + inner) == d + (inner[0] + ("/" + Dirs(inner[1..])))
    ensures |inner| == 1 ==> "/" + Dirs(cs + inner) == d + (inner[0] + "/")
  {
    hide *;
    DirsConcat(cs, inner);
    DirsUnfold(inner);
    Associative("/", Dirs(cs), Dirs(inner));
  }

  lemma DirsUnfold(cs: seq<string>)
    requires cs != []
    ensures Dirs(cs) == cs[0] + ("/" + Dirs(cs[1..]))
    ensures |cs| == 1 ==> Dirs(cs) == cs[0] + "/"
  {
    Associative(cs[0], "/", Dirs(cs[1..]));
  }

  lemma PiecesOfBoth(cs: seq<string>, ps: seq<string>)
    requires ArePieces(cs) && ArePieces(ps)
    ensures ArePieces(cs + ps)
  {
  }

  lemma NoParents(cs: seq<string>, inner: seq<string>, b: string)
    requires ArePieces(cs) && !HasParentReference(cs + inner) && IsPiece(b) && !IsParentReference(b)
    ensures ArePieces(cs + [b]) && !HasParentReference(cs + [b])
  {
    ParentReferenceConcat(cs, inner);
    ParentReferenceConcat(cs, [b]);
  }

  /** The components of a path without parent references, and one more. */
  lemma OneDeeper(p: string, cs: seq<string>, ps: seq<string>)
    requires !ReferencesParent(p) && Components(p) == ["/"] + (cs + ps) && ArePieces(ps)
    ensures !HasParentReference(cs + (ps + ["z"])) && ArePieces(ps + ["z"])
  {
    ParentReferenceConcat(["/"], cs + ps);
    ParentReferenceConcat(cs + ps, ["z"]);
    assert cs + (ps + ["z"]) == (cs + ps) + ["z"];
    assert !HasParentReference(["z"]) by {
      assert !HasDoubleDot("z");
    }
    assert IsPiece("z");
  }

  lemma InsideIsParent(p: string, k: string, cs: seq<string>, c: string)
    requires Components(p) == cs && Components(k) == cs + [c] && cs != []
    ensures IsParent(p, k)
  {
    hide Components;
  }

  /** With `m` as the only neighbour of `p`, the mount `k` inside `p` is not seen. */
  lemma OutsideIsAllowed(r: Registry, p: string, k: string, m: string)
    requires p != [] && IsAbsolute(p) && !ReferencesParent(p) && "n" !in r.instances
    requires r.index == if Less(k, m) then [(k, "k"), (m, "m")] else [(m, "m"), (k, "k")]
    requires (Less(p, m) && Less(m, k)) || (Less(k, m) && Less(m, p))
    requires IsParent(p, k) && !Overlaps(m, p)
    ensures NeighboursAllow(r, "n", OtherType(0), p) && !Acceptable(r, "n", OtherType(0), p)
  {
    BoundOfTwo(r.index, p, k, m);
    hide IsParent, ReferencesParent, Less, UpperBound;
    assert (k, "k") in r.index && Overlaps(k, p);
  }

  lemma BoundOfTwo(ix: seq<Entry>, p: string, k: string, m: string)
    requires ix == if Less(k, m) then [(k, "k"), (m, "m")] else [(m, "m"), (k, "k")]
    requires (Less(p, m) && Less(m, k)) || (Less(k, m) && Less(m, p))
    ensures Less(p, m) && Less(m, k) ==> ix[0] == (m, "m") && UpperBound(ix, p) == 0
    ensures Less(k, m) && Less(m, p) ==> ix[1] == (m, "m") && UpperBound(ix, p) == 2
  {
    hide Less;
    if Less(m, k) {
      LessAsymmetric(m, k);
    }
    if Less(k, m) && Less(m, p) {
      LessAsymmetric(k, m);
      LessTransitive(k, m, p);
      LessAsymmetric(k, p);
      LessAsymmetric(m, p);
      assert ix[1..] == [(m, "m")] && ix[1..][1..] == [];
      assert UpperBound([], p) == 0;
      assert UpperBound(ix[1..], p) == 1;
    }
  }

  /** Plainness is the exact condition: the check of the neighbours is right about a path in
      every consistent registry, or only in every registry that a run on plain paths builds,
      if and only if the path has no doubled separator. */
  lemma PlainIsExact(p: string)
    requires p != [] && Normalize(p) == p && IsAbsolute(p) && !ReferencesParent(p)
    ensures Plain(p) <==>
            forall r, name, kind :: Consistent(r) ==>
              (NeighboursAllow(r, name, kind, p) <==> Acceptable(r, name, kind, p))
    ensures Plain(p) <==>
            forall ops, name, kind :: PlainOps(ops) ==>
              (NeighboursAllow(Run(Empty, ops), name, kind, p) <==> Acceptable(Run(Empty, ops), name, kind, p))
  {
    hide *;
    EmptyConsistent();
    if Plain(p) {
      NormalizeAny(p);
      forall r, name, kind | Consistent(r)
        ensures NeighboursAllow(r, name, kind, p) <==> Acceptable(r, name, kind, p)
      {
        AllowedIsAcceptable(r, name, kind, p);
      }
      forall ops, name, kind | PlainOps(ops)
        ensures NeighboursAllow(Run(Empty, ops), name, kind, p) <==> Acceptable(Run(Empty, ops), name, kind, p)
      {
        PlainRun(ops);
        AllowedIsAcceptable(Run(Empty, ops), name, kind, p);
      }
    } else {
      var ops := DoubleIsAccepted(p);
      PlainRun(ops);
    }
  }

  lemma PlainRun(ops: seq<Op>)
    requires PlainOps(ops)
    ensures Consistent(Run(Empty, ops))
  {
    EmptyConsistent();
    RunConsistent(Empty, ops);
  }

  // ---------------------------------------------------------------- lookup

  /** No mount past the first doubled separator can cover the path: at most one component
      follows it, or a parent reference comes no later than the first that follows. */
  predicate LateDouble(p: string) {
    var i := FirstDouble(p);
    i == |p|
    || var ps := Pieces(p[i + 1..]);
       |ps| <= 1 || HasParentReference(Components(p[..i + 1]) + [ps[0]])
  }

  /** A plain mount that covers such a path is a prefix of it. */
  lemma CoverIsPrefix(p: string, k: string)
    requires IsAbsolute(p) && Normalize(p) == p && LateDouble(p) && IsMountKey(k) && Covers(k, p)
    ensures k <= p
  {
    PlainHasNone(p);
    if FirstDouble(p) == |p| {
      ParentIsPrefix(k, p);
    } else if k != p {
      var i := FirstDouble(p);
      var d, s := p[..i + 1], p[i + 1..];
      var cs, ps := CutForm(p, d, s);
      DirectoryForm(k);
      PiecesOfDirs(cs);
      PastSeparator(Dirs(cs));
      assert Components(d) == ["/"] + cs;
      ShorterPrefix(k, p, Pieces(k), cs, ps);
      DirsPrefix(Pieces(k), cs);
      DropPrefix("/", Dirs(Pieces(k)), Dirs(cs));
    }
  }

  lemma ShorterPrefix(k: string, p: string, kc: seq<string>, cs: seq<string>, ps: seq<string>)
    requires Components(k) == ["/"] + kc && Components(p) == ["/"] + (cs + ps) && IsParent(k, p)
    requires !ReferencesParent(k)
    requires |ps| <= 1 || HasParentReference(["/"] + cs + [ps[0]])
    ensures kc <= cs
  {
    hide Components;
    var a, b := ["/"] + kc, ["/"] + (cs + ps);
    assert a < b;
    assert |kc| < |cs + ps|;
    assert kc <= cs + ps by {
      ConsPrefix("/", kc, cs + ps);
    }
    assert cs == (cs + ps)[..|cs|];
    if |kc| > |cs| {
      assert kc[..|cs| + 1] == cs + [ps[0]];
      var head := ["/"] + cs + [ps[0]];
      assert a == head + kc[|cs| + 1..];
      ParentReferenceConcat(head, kc[|cs| + 1..]);
      assert false;
    }
  }

  lemma DoubleExists(p: string)
    ensures !LateDouble(p) ==> FirstDouble(p) < |p|
  {
  }

  lemma NotLate(p: string, d: string, cs: seq<string>, ps: seq<string>)
    requires !LateDouble(p) && d == p[..FirstDouble(p) + 1] && ps == Pieces(p[FirstDouble(p) + 1..])
    requires ArePieces(cs) && ArePieces(ps) && d == "/" + Dirs(cs)
    ensures |ps| >= 2 && ArePieces([ps[0]]) && !HasParentReference(cs + [ps[0]])
  {
    PiecesOfDirs(cs);
    AbsoluteComponents(Dirs(cs));
    assert Components(d) == ["/"] + cs;
    hide Components, Pieces, FirstDouble, Dirs;
    assert ["/"] + cs + [ps[0]] == ["/"] + (cs + [ps[0]]);
    ParentReferenceConcat(["/"], cs + [ps[0]]);
  }

  /** A covered path that is not found: the mount that covers it is not the nearest. */
  lemma DoubleIsNotFound(p: string) returns (ops: seq<Op>)
    requires p != [] && Normalize(p) == p && IsAbsolute(p) && !LateDouble(p)
    ensures PlainOps(ops)
    ensures var r := Run(Empty, ops);
            NearestVirtualPath(r, p).None? && exists e :: e in r.index && Covers(e.0, p)
  {
    hide *;
    DoubleExists(p);
    var i := FirstDouble(p);
    var d, s := p[..i + 1], p[i + 1..];
    var cs, ps := CutForm(p, d, s);
    NotLate(p, d, cs, ps);
    var k, m := MountsAround(p, d, s, cs, ps, [ps[0]]);
    ops := TwoMounts(k, m);
    TwoMountsRun(k, m);
    AboveIsParent(k, p, cs, ps);
    var r := Run(Empty, ops);
    BoundOfTwo(r.index, p, k, m);
    NearestForm(r, p);
    NotOverlapping(m, p);
    assert (k, "k") in r.index;
  }

  lemma AboveIsParent(k: string, p: string, cs: seq<string>, ps: seq<string>)
    requires |ps| >= 2 && Components(k) == ["/"] + (cs + [ps[0]]) && Components(p) == ["/"] + (cs + ps)
    ensures Covers(k, p)
  {
    hide Components;
    assert ps == [ps[0]] + ps[1..];
    assert Components(p) == Components(k) + ps[1..];
  }

  lemma NotOverlapping(m: string, p: string)
    requires !Overlaps(m, p)
    ensures !Covers(m, p)
  {
  }

  ghost predicate LookupIsRight(r: Registry, p: string) {
    NearestVirtualPath(r, p).Some? <==> exists e :: e in r.index && Covers(e.0, p)
  }

  /** The exact condition for lookups: the nearest mount decides, in every consistent registry
      or only in every registry that a run on plain paths builds, if and only if no mount past
      the first doubled separator can cover the path. */
  lemma LateDoubleIsExact(p: string)
    requires p != [] && Normalize(p) == p && IsAbsolute(p)
    ensures LateDouble(p) <==> forall r :: Consistent(r) ==> LookupIsRight(r, p)
    ensures LateDouble(p) <==> forall ops :: PlainOps(ops) ==> LookupIsRight(Run(Empty, ops), p)
  {
    hide Consistent, PlainOps, Run, LateDouble, NearestVirtualPath, Covers, Normalize, IsAbsolute;
    if LateDouble(p) {
      forall r | Consistent(r) ensures LookupIsRight(r, p) {
        LateLookup(r, p);
      }
      forall ops | PlainOps(ops) ensures LookupIsRight(Run(Empty, ops), p) {
        PlainRun(ops);
        LateLookup(Run(Empty, ops), p);
      }
    } else {
      var ops := DoubleIsNotFound(p);
      PlainRun(ops);
      assert !LookupIsRight(Run(Empty, ops), p);
    }
  }

  lemma LateLookup(r: Registry, p: string)
    requires Consistent(r) && Normalize(p) == p && IsAbsolute(p) && LateDouble(p)
    ensures LookupIsRight(r, p)
  {
    hide Normalize, IsAbsolute, LateDouble, Covers, IsMountKey;
    ConsistentIndex(r);
    forall e | e in r.index && Covers(e.0, p) ensures e.0 <= p {
      CoverIsPrefix(p, e.0);
    }
    PrefixesDecide(r, p);
  }
}
