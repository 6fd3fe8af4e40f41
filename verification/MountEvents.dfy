/** What the operations of the mount registry do, said of the registry before and after: who may
    overlap, what a revocation undoes, which paths are ever mounted, and how a virtual path reads. */
module MountEvents {
  import opened FilePaths
  import opened PathOrder
  import opened MountPoints

  // ---------------------------------------------------------------- registration

  /** An accepted registration adds its mount and no other; a refused one changes nothing. */
  lemma RegisterAdds(r: Registry, name: string, kind: FileSystemType, option: int, path: string)
    ensures var t := Step(r, Register(name, kind, option, path));
            if NeighboursAllow(r, name, kind, Normalize(path)) then
              t.instances == r.instances[name := Instance(kind, Strip(path), option)]
            else t == r
  {
    StripNormalize(path);
    hide Normalize, Strip, NeighboursAllow;
  }

  /** Mounts of local and device media may overlap anything, and are never listed in the index. */
  lemma MediaMayOverlap(r: Registry, name: string, kind: FileSystemType, option: int, path: string)
    requires kind == LocalMedia || kind == DeviceMedia
    ensures Step(r, Register(name, kind, option, path)).index == r.index
    ensures NeighboursAllow(r, name, kind, Normalize(path)) <==>
            name != "" && name !in r.instances
            && (path == "" || (path[0] == '/' && !ReferencesParent(Normalize(path))))
  {
    SameStart(path);
    hide Normalize, Strip, ReferencesParent, NeighbourOverlaps;
  }

  lemma SameStart(path: string)
    ensures Normalize(path) == [] <==> path == []
    ensures path != [] ==> Normalize(path)[0] == path[0]
  {
  }

  /** A mount of any other type is listed under its normalized path, and is refused if a listed
      mount is at, above or below that path. */
  lemma OthersMayNot(r: Registry, name: string, id: int, option: int, path: string)
    requires Consistent(r) && path != "" && Plain(Normalize(path))
    ensures var t := Step(r, Register(name, OtherType(id), option, path));
            var d := Normalize(path);
            if exists e :: e in r.index && (e.0 == d || IsParent(e.0, d) || IsParent(d, e.0))
            then t == r
            else t != r ==> forall e :: e in t.index <==> e in r.index || e == (Normalize(path), name)
  {
    var d := Normalize(path);
    SameStart(path);
    NormalizeAny(path);
    AllowedIsAcceptable(r, name, OtherType(id), d);
    hide Normalize, Strip, ReferencesParent, NeighbourOverlaps, IsParent;
    hide NeighboursAllow, IsAbsolute, IsDirectory, Plain;
    if Acceptable(r, name, OtherType(id), d) {
      assert forall e :: e in r.index ==> !Overlaps(e.0, d);
      assert forall e :: e in r.index ==> e.0 != d;
      IsSorted(r);
      InsertSorted(r.index, d, name);
    } else {
      assert forall e :: e in r.index && Overlaps(e.0, d) ==> e.0 == d || IsParent(e.0, d) || IsParent(d, e.0);
    }
    hide Consistent, Insert, Acceptable;
  }

  lemma IsSorted(r: Registry)
    requires Consistent(r)
    ensures Sorted(r.index)
  {
  }

  // ---------------------------------------------------------------- revocation

  /** A revocation takes away the mount and its index entry, and nothing else; revoking an
      unknown name changes nothing. */
  lemma RevokeTakes(r: Registry, name: string)
    requires Inverse(r)
    ensures var t := Step(r, Revoke(name));
            && t.instances == r.instances - {name}
            && (forall e :: e in t.index <==> e in r.index && e.1 != name)
            && (name !in r.instances ==> t == r)
    ensures Step(r, RevokeAll) == Registry(map[], [])
  {
    if name in r.instances {
      RevokedIndex(r, name);
    } else {
      NoEntry(r, name);
      assert r.instances - {name} == r.instances;
    }
    hide Revoked, Inverse;
  }

  lemma NoEntry(r: Registry, name: string)
    requires Inverse(r) && name !in r.instances
    ensures forall e :: e in r.index ==> e.1 != name && Revoked(r, name) == r
    ensures Revoked(r, name) == r
  {
  }

  lemma InsertForm(ix: seq<Entry>, k: string, v: string)
    requires forall e :: e in ix ==> e.0 != k
    ensures var i := UpperBound(ix, k); Insert(ix, k, v) == ix[..i] + [(k, v)] + ix[i..]
  {
    var i := UpperBound(ix, k);
    assert i > 0 ==> ix[i - 1] in ix;
  }

  lemma FindsOnly(r: seq<Entry>, k: string, i: nat)
    requires i < |r| && r[i].0 == k && forall l :: 0 <= l < |r| && l != i ==> r[l].0 != k
    ensures Erase(r, k) == r[..i] + r[i + 1..]
  {
    assert Find(r, k) == i;
  }

  /** Where an entry was inserted, erasing its key leaves the index as it was. */
  lemma EraseInserted(ix: seq<Entry>, k: string, v: string)
    requires forall e :: e in ix ==> e.0 != k
    ensures Erase(Insert(ix, k, v), k) == ix
  {
    hide *;
    var i := UpperBound(ix, k);
    var r := ix[..i] + [(k, v)] + ix[i..];
    InsertForm(ix, k, v);
    forall l | 0 <= l < |r| && l != i ensures r[l].0 != k {
      assert r[l] == ix[if l < i then l else l - 1];
      assert ix[if l < i then l else l - 1] in ix;
    }
    FindsOnly(r, k, i);
    assert r[..i] == ix[..i] && r[i + 1..] == ix[i..];
  }

  /** A revocation undoes a registration: the registry is what it was. */
  lemma RevokeUndoes(r: Registry, name: string, kind: FileSystemType, option: int, path: string)
    requires Inverse(r) && NeighboursAllow(r, name, kind, Normalize(path))
    ensures Step(Step(r, Register(name, kind, option, path)), Revoke(name)) == r
  {
    var d := Normalize(path);
    var m := Instance(kind, Strip(d), option);
    NormalizeTwice(path);
    var t := Registered(r, name, kind, option, d);
    assert t.instances[name] == m && (t.instances - {name}) == r.instances;
    if d != [] && ForbidsOverlap(kind) {
      NotListed(r.index, d);
      EraseInserted(r.index, d, name);
    } else if ForbidsOverlap(kind) {
      NothingListed(r);
    }
    hide Normalize, Strip, NeighboursAllow, Insert, Erase, Inverse;
  }

  /** No mount is listed under the empty path. */
  lemma NothingListed(r: Registry)
    requires Inverse(r)
    ensures Erase(r.index, []) == r.index && Normalize([]) == [] && Strip([]) == []
  {
    var i := Find(r.index, []);
    if i < |r.index| {
      var e := r.index[i];
      assert e in r.index && Eligible(r.instances[e.1]);
      NormalizeNothing(r.instances[e.1].path);
      assert false;
    }
  }

  // ---------------------------------------------------------------- which paths are mounted

  lemma ParentReferenceTexts()
    ensures IsParentReference("..") && IsParentReference("...") && !IsParentReference(".") && !IsParentReference("a..")
    ensures !IsParentReference(". .") && IsParentReference(".. ")
  {
    assert HasDoubleDot("..") by { assert ".."[0] == '.' && ".."[0 + 1] == '.'; }
    assert HasDoubleDot("...") by { assert "..."[0] == '.' && "..."[0 + 1] == '.'; }
    assert HasDoubleDot(".. ") by { assert ".. "[0] == '.' && ".. "[0 + 1] == '.'; }
    assert "a.."[0] == 'a';
    assert !HasDoubleDot(". .");
  }

  lemma {:induction false} StripKeepsPieces(s: string)
    ensures Pieces(Strip(s)) == Pieces(s) && (IsAbsolute(Strip(s)) <==> IsAbsolute(s))
  {
    if |s| > 1 && s[|s| - 1] == SEPARATOR {
      var t := s[..|s| - 1];
      assert s == t + [SEPARATOR];
      PiecesClosed(t);
      StripKeepsPieces(t);
      assert Strip(s) == Strip(t);
    }
  }

  /** Nothing, or an absolute path without a component `..`. */
  predicate IsProper(path: string) {
    path == "" || (path[0] == '/' && ".." !in Components(path))
  }

  lemma AllowedIsProper(r: Registry, name: string, kind: FileSystemType, path: string)
    requires NeighboursAllow(r, name, kind, path)
    ensures IsProper(Strip(path))
  {
    if path != [] {
      StripKeepsPieces(path);
      assert Components(Strip(path)) == Components(path);
      ParentReferenceTexts();
      assert Strip(path)[0] == path[0];
      forall i | 0 <= i < |Components(path)| ensures Components(path)[i] != ".." {
        assert !IsParentReference(Components(path)[i]);
      }
    }
  }

  ghost predicate AllProper(r: Registry) {
    forall n :: n in r.instances ==> n != "" && IsProper(r.instances[n].path)
  }

  lemma StepKeepsProper(r: Registry, op: Op)
    requires AllProper(r)
    ensures AllProper(Step(r, op))
  {
    match op
    case Register(name, kind, option, path) =>
      if NeighboursAllow(r, name, kind, Normalize(path)) {
        AllowedIsProper(r, name, kind, Normalize(path));
      }
      hide IsProper, Normalize, Strip, Insert;
    case Revoke(name) =>
      hide IsProper, Normalize, Erase;
    case RevokeAll =>
  }

  lemma {:induction false} RunKeepsProper(r: Registry, ops: seq<Op>)
    requires AllProper(r)
    ensures AllProper(Run(r, ops))
    decreases |ops|
  {
    hide AllProper, Step;
    if ops != [] {
      StepKeepsProper(r, ops[0]);
      RunKeepsProper(Step(r, ops[0]), ops[1..]);
    }
  }

  /** Over every run each mount, of whatever type, has a name, and an empty path or an absolute
      one without the component `..`. */
  lemma OnlyProperMounts(ops: seq<Op>, n: string)
    ensures var t := Run(Registry(map[], []), ops);
            n in t.instances ==>
              var path := t.instances[n].path;
              n != "" && (path == "" || (path[0] == '/' && ".." !in Components(path)))
  {
    RunKeepsProper(Registry(map[], []), ops);
    hide Run, Components;
  }

  // ---------------------------------------------------------------- virtual paths

  /** A virtual path is the mount's name and what follows the mount in the path, without a
      trailing separator. */
  lemma VirtualPathText(e: Entry, q: string)
    requires IsMountKey(e.0) && IsDirectory(q) && Covers(e.0, q) && IsPiece(e.1) && e.1 != "."
    ensures e.0 <= q && VirtualPathOf(e, q) == Strip(e.1 + "/" + q[|e.0|..])
  {
    var (k, name) := e;
    CoveredForm(k, q);
    var rest := Components(q)[|Components(k)|..];
    RootOfName(name);
    var d := name + "/";
    PieceDirectory(name);
    AppendDirs(d, rest);
    assert q[|k|..] == Dirs(rest);
  }

  lemma PieceDirectory(name: string)
    requires IsPiece(name) && name != "."
    ensures IsDirectory(name + "/") && Strip(name + "/") == name
  {
    var d := name + "/";
    forall i | 0 <= i < |d| - 1 ensures d[i] != SEPARATOR || d[i + 1] != SEPARATOR {
      assert d[i] == name[i];
    }
    StripPlain(d);
  }
}
