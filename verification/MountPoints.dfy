/** The external mount point registry (z-box/handler-store/external_m.cpp): a map from
    names to mounts, and an ordered index of paths in which overlap checks and lookups
    look only at the nearest neighbours. */
module MountPoints {
  import opened FilePaths
  import opened PathOrder
  import opened Text

  datatype FileSystemType = LocalMedia | DeviceMedia | OtherType(id: int)

  /** `IsOverlappingMountPathForbidden`. */
  predicate ForbidsOverlap(t: FileSystemType) {
    t != LocalMedia && t != DeviceMedia
  }

  datatype Instance = Instance(kind: FileSystemType, path: string, option: int)

  datatype Registry = Registry(instances: map<string, Instance>, index: seq<Entry>)

  // ------------------------------------------- what the registry is meant to keep

  /** Mounts the index must list. */
  predicate Eligible(m: Instance) {
    m.path != [] && ForbidsOverlap(m.kind)
  }

  predicate IsMountKey(k: string) {
    IsDirectory(k) && IsAbsolute(k) && !ReferencesParent(k)
  }

  /** Two mount paths may not coexist in the index. */
  predicate Overlaps(k: string, p: string) {
    k == p || IsParent(k, p) || IsParent(p, k)
  }

  /** A mount at `k` serves the path `p`. */
  predicate Covers(k: string, p: string) {
    k == p || IsParent(k, p)
  }

  ghost predicate Disjoint(ix: seq<Entry>) {
    forall e, f :: e in ix && f in ix && e != f ==> !Overlaps(e.0, f.0)
  }

  /** The index is ordered and lists exactly the eligible mounts under their normalized paths. */
  ghost predicate Inverse(r: Registry) {
    && "" !in r.instances && Sorted(r.index)
    && (forall e :: e in r.index ==>
          e.1 in r.instances && Eligible(r.instances[e.1]) && Normalize(r.instances[e.1].path) == e.0)
    && (forall n :: n in r.instances && Eligible(r.instances[n]) ==> (Normalize(r.instances[n].path), n) in r.index)
  }

  /** Besides, the index holds mount paths none of which contains another. */
  ghost predicate Consistent(r: Registry) {
    && Inverse(r) && Disjoint(r.index)
    && forall e :: e in r.index ==> IsMountKey(e.0) && r.instances[e.1].path == Strip(e.0)
  }

  // ------------------------------------------- the simple form: scan every mount

  ghost predicate Acceptable(r: Registry, name: string, kind: FileSystemType, path: string) {
    && name != [] && name !in r.instances
    && (path == [] ||
        (!ReferencesParent(path) && IsAbsolute(path) &&
         (ForbidsOverlap(kind) ==> forall e :: e in r.index ==> !Overlaps(e.0, path))))
  }

  function Registered(r: Registry, name: string, kind: FileSystemType, option: int, path: string): Registry {
    Registry(r.instances[name := Instance(kind, Strip(path), option)],
             if path != [] && ForbidsOverlap(kind) then Insert(r.index, path, name) else r.index)
  }

  function Revoked(r: Registry, name: string): Registry {
    if name !in r.instances then r
    else Registry(r.instances - {name},
                  if ForbidsOverlap(r.instances[name].kind) then Erase(r.index, Normalize(r.instances[name].path))
                  else r.index)
  }

  // ------------------------------------------- neighbours decide

  predicate NeighbourOverlaps(ix: seq<Entry>, path: string) {
    var i := UpperBound(ix, path);
    (i > 0 && (ix[i - 1].0 == path || IsParent(ix[i - 1].0, path)))
    || (i < |ix| && (ix[i].0 == path || IsParent(path, ix[i].0)))
  }

  /** What registration checks of any path at all. */
  predicate NeighboursAllow(r: Registry, name: string, kind: FileSystemType, path: string) {
    && name != [] && name !in r.instances
    && (path == [] ||
        (!ReferencesParent(path) && IsAbsolute(path) &&
         (ForbidsOverlap(kind) ==> !NeighbourOverlaps(r.index, path))))
  }

  /** A mount whose path is a prefix of a string can only be the nearest one at or below it. */
  lemma PrefixMountIsNearest(ix: seq<Entry>, path: string, j: nat)
    requires Sorted(ix) && (forall e :: e in ix ==> IsMountKey(e.0)) && Disjoint(ix)
    requires j < |ix| && ix[j].0 <= path
    ensures j == UpperBound(ix, path) - 1
  {
    hide Less, IsParent, IsDirectory, ReferencesParent;
    var i := UpperBound(ix, path);
    var k := ix[j].0;
    assert ix[j] in ix;
    PrefixNotGreater(k, path);
    if j >= i {
      AboveUpperBound(ix, path, j);
    }
    var m := ix[i - 1].0;
    assert ix[i - 1] in ix;
    if j < i - 1 {
      LessAsymmetric(k, m);
    } else {
      LessIrreflexive(k);
    }
    PrefixInterval(k, m, path);
    ParentIsPrefix(k, m);
    assert Overlaps(k, m);
    assert ix[j] == ix[i - 1];
    if j < i - 1 {
      LessIrreflexive(k);
    }
  }

  /** A mount that contains the path can only be the nearest one at or below it. */
  lemma OnlyPredecessorCovers(ix: seq<Entry>, path: string, j: nat)
    requires Sorted(ix) && (forall e :: e in ix ==> IsMountKey(e.0)) && Disjoint(ix)
    requires path == [] || IsDirectory(path)
    requires j < |ix| && Covers(ix[j].0, path)
    ensures j == UpperBound(ix, path) - 1
  {
    hide Less, IsParent, IsDirectory, ReferencesParent;
    assert ix[j] in ix;
    ParentIsPrefix(ix[j].0, path);
    PrefixMountIsNearest(ix, path, j);
  }

  /** A mount inside the path makes the nearest one above it lie inside too. */
  lemma SuccessorIsInside(ix: seq<Entry>, path: string, j: nat)
    requires Sorted(ix) && (forall e :: e in ix ==> IsMountKey(e.0))
    requires IsDirectory(path) && IsAbsolute(path)
    requires j < |ix| && IsParent(path, ix[j].0)
    ensures UpperBound(ix, path) < |ix| && IsParent(path, ix[UpperBound(ix, path)].0)
  {
    var i := UpperBound(ix, path);
    var k := ix[j].0;
    assert ix[j] in ix;
    ParentIsPrefix(path, k);
    PrefixNotGreater(path, k);
    LessTotal(path, k);
    assert i <= j;
    var m := ix[i].0;
    assert ix[i] in ix;
    if i < j {
      LessAsymmetric(m, k);
    } else {
      LessIrreflexive(k);
    }
    LessAsymmetric(path, m);
    PrefixInterval(path, m, k);
    ParentIsPrefix(path, m);
  }

  lemma OverlapForms(ix: seq<Entry>, k: string, path: string)
    ensures Overlaps(k, path) <==> Covers(k, path) || IsParent(path, k)
    ensures k == path ==> Overlaps(k, path)
    ensures var i := UpperBound(ix, path);
            NeighbourOverlaps(ix, path) <==>
            (i > 0 && Covers(ix[i - 1].0, path)) || (i < |ix| && (ix[i].0 == path || IsParent(path, ix[i].0)))
  {
    hide IsParent, Less;
  }

  /** Checking the two neighbours gives the same verdict as checking every mount. */
  lemma NeighboursDecide(ix: seq<Entry>, path: string)
    requires Sorted(ix) && (forall e :: e in ix ==> IsMountKey(e.0)) && Disjoint(ix)
    requires IsDirectory(path) && IsAbsolute(path)
    ensures NeighbourOverlaps(ix, path) <==> exists e :: e in ix && Overlaps(e.0, path)
  {
    hide *;
    var i := UpperBound(ix, path);
    OverlapForms(ix, "", path);
    if NeighbourOverlaps(ix, path) {
      var j := if i > 0 && Covers(ix[i - 1].0, path) then i - 1 else i;
      OverlapForms(ix, ix[j].0, path);
      assert ix[j] in ix && Overlaps(ix[j].0, path);
    }
    if e :| e in ix && Overlaps(e.0, path) {
      var j :| 0 <= j < |ix| && ix[j] == e;
      OverlapForms(ix, e.0, path);
      if Covers(e.0, path) {
        OnlyPredecessorCovers(ix, path, j);
      } else {
        SuccessorIsInside(ix, path, j);
      }
    }
  }

  /** Without doubled separators the check allows exactly what a scan of all mounts allows. */
  lemma AllowedIsAcceptable(r: Registry, name: string, kind: FileSystemType, path: string)
    requires Consistent(r) && (path == [] || IsDirectory(path))
    ensures NeighboursAllow(r, name, kind, path) <==> Acceptable(r, name, kind, path)
  {
    if path != [] && IsAbsolute(path) {
      NeighboursDecide(r.index, path);
    }
  }

  // ------------------------------------------- the operations keep the registry consistent

  lemma RegisterKeeps(r: Registry, name: string, kind: FileSystemType, option: int, path: string)
    requires Consistent(r) && Acceptable(r, name, kind, path)
    requires path == [] || IsDirectory(path)
    ensures Consistent(Registered(r, name, kind, option, path))
  {
    if path != [] {
      NormalizeStrip(path);
      if ForbidsOverlap(kind) {
        assert forall e :: e in r.index ==> e.0 != path;
        InsertSorted(r.index, path, name);
      }
    }
    var m := Instance(kind, Strip(path), option);
    assert Strip([]) == [];
    WithKeeps(r, Registered(r, name, kind, option, path), name, m, path);
  }

  lemma WithKeeps(r: Registry, s: Registry, name: string, m: Instance, path: string)
    requires Consistent(r) && Sorted(s.index) && name != [] && name !in r.instances
    requires s.instances == r.instances[name := m]
    requires Eligible(m) ==> IsMountKey(path) && m.path == Strip(path) && Normalize(m.path) == path
    requires Eligible(m) ==> forall e :: e in r.index ==> !Overlaps(e.0, path)
    requires forall e :: e in s.index <==> e in r.index || (Eligible(m) && e == (path, name))
    ensures Consistent(s)
  {
    hide IsMountKey, Strip, Normalize, Eligible, Sorted, IsParent;
    assert forall n :: n in r.instances ==> n != name && s.instances[n] == r.instances[n];
    assert forall e :: e in r.index ==> s.instances[e.1] == r.instances[e.1];
    assert Disjoint(s.index);
  }

  lemma SortedKeys(ix: seq<Entry>, e: Entry, f: Entry)
    requires Sorted(ix) && e in ix && f in ix && e.0 == f.0
    ensures e == f
  {
    LessIrreflexive(e.0);
  }

  /** The index entry a revocation erases is the mount's own, if it has one. */
  lemma RevokedKey(r: Registry, name: string)
    requires Inverse(r) && name in r.instances && ForbidsOverlap(r.instances[name].kind)
    ensures forall e :: e in r.index ==> (e.0 == Normalize(r.instances[name].path) <==> e.1 == name)
  {
    var m := r.instances[name];
    var k := Normalize(m.path);
    assert m.path == [] ==> k == [];
    forall e | e in r.index && e.0 == k ensures e.1 == name {
      assert Eligible(r.instances[e.1]);
      NormalizeNothing(r.instances[e.1].path);
      SortedKeys(r.index, e, (k, name));
    }
  }

  lemma IndexedNames(r: Registry)
    ensures Inverse(r) ==> forall e :: e in r.index ==> e.1 in r.instances
  {
  }

  lemma WithoutKeeps(r: Registry, s: Registry, name: string)
    requires Consistent(r) && Sorted(s.index)
    requires s.instances == r.instances - {name}
    requires forall e :: e in s.index <==> e in r.index && e.1 != name
    ensures Consistent(s)
  {
    WithoutKeepsInverse(r, s, name);
    hide Inverse, IsMountKey, Strip, Overlaps;
    assert Disjoint(s.index);
    IndexedNames(r);
    assert forall e :: e in s.index ==> e.1 in s.instances && s.instances[e.1] == r.instances[e.1];
  }

  lemma RevokeKeeps(r: Registry, name: string)
    requires Consistent(r)
    ensures Consistent(Revoked(r, name))
  {
    if name in r.instances {
      RevokedIndex(r, name);
      WithoutKeeps(r, Revoked(r, name), name);
    }
    hide Consistent;
  }

  // ------------------------------------------- whole runs

  datatype Op =
    | Register(name: string, kind: FileSystemType, option: int, path: string)
    | Revoke(name: string)
    | RevokeAll

  /** No doubled separators, other than trailing ones. */
  ghost predicate PlainOp(op: Op) {
    op.Register? ==> Plain(Normalize(op.path))
  }

  ghost function Step(r: Registry, op: Op): Registry {
    match op
    case Register(name, kind, option, path) =>
      if NeighboursAllow(r, name, kind, Normalize(path)) then Registered(r, name, kind, option, Normalize(path)) else r
    case Revoke(name) => Revoked(r, name)
    case RevokeAll => Registry(map[], [])
  }

  ghost function Run(r: Registry, ops: seq<Op>): Registry
    decreases |ops|
  {
    if ops == [] then r else Run(Step(r, ops[0]), ops[1..])
  }

  lemma StepConsistent(r: Registry, op: Op)
    requires Consistent(r) && PlainOp(op)
    ensures Consistent(Step(r, op))
  {
    hide Consistent, NeighboursAllow, Acceptable, Plain, Normalize, IsDirectory, Registered, Revoked;
    match op {
      case Register(name, kind, option, path) =>
        NormalizeAny(path);
        AllowedIsAcceptable(r, name, kind, Normalize(path));
        if Acceptable(r, name, kind, Normalize(path)) {
          RegisterKeeps(r, name, kind, option, Normalize(path));
        }
      case Revoke(name) =>
        RevokeKeeps(r, name);
      case RevokeAll =>
        EmptyConsistent();
    }
  }

  lemma EmptyConsistent()
    ensures Consistent(Registry(map[], []))
  {
  }

  lemma NormalizeAny(path: string)
    requires Plain(Normalize(path))
    ensures Normalize(path) == [] || IsDirectory(Normalize(path))
  {
  }

  lemma {:induction false} RunConsistent(r: Registry, ops: seq<Op>)
    requires Consistent(r) && forall i :: 0 <= i < |ops| ==> PlainOp(ops[i])
    ensures Consistent(Run(r, ops))
    decreases |ops|
  {
    hide Consistent, Step, PlainOp;
    if ops != [] {
      assert PlainOp(ops[0]);
      StepConsistent(r, ops[0]);
      RunConsistent(Step(r, ops[0]), ops[1..]);
    }
  }

  /** A path the check of the neighbours lets through is not a key of the index. */
  lemma NotListed(ix: seq<Entry>, path: string)
    requires Sorted(ix) && !NeighbourOverlaps(ix, path)
    ensures forall e :: e in ix ==> e.0 != path
  {
    hide IsParent;
    var i := UpperBound(ix, path);
    forall j | 0 <= j < |ix| ensures ix[j].0 != path {
      if j >= i {
        AboveUpperBound(ix, path, j);
        LessIrreflexive(path);
      } else if j < i - 1 {
        assert Less(ix[j].0, ix[i - 1].0);
      }
    }
  }

  lemma NormalizeTwice(path: string)
    ensures Normalize(Strip(Normalize(path))) == Normalize(path)
    ensures Strip(Normalize(path)) == [] <==> Normalize(path) == []
  {
    StripNormalize(path);
    StripTwice(path);
  }

  lemma RegisterKeepsInverse(r: Registry, name: string, kind: FileSystemType, option: int, pathIn: string)
    requires Inverse(r) && NeighboursAllow(r, name, kind, Normalize(pathIn))
    ensures Inverse(Registered(r, name, kind, option, Normalize(pathIn)))
  {
    var path := Normalize(pathIn);
    NormalizeTwice(pathIn);
    hide Normalize, Strip, IsAbsolute, ReferencesParent, Less, NeighbourOverlaps;
    var s := Registered(r, name, kind, option, path);
    assert s.instances[name] == Instance(kind, Strip(path), option);
    assert Eligible(s.instances[name]) <==> path != [] && ForbidsOverlap(kind);
    if path != [] && ForbidsOverlap(kind) {
      NotListed(r.index, path);
      InsertSorted(r.index, path, name);
    }
    hide Insert, Sorted, Eligible, ForbidsOverlap;
    assert forall n :: n in r.instances ==> n != name && s.instances[n] == r.instances[n];
  }

  lemma WithoutKeepsInverse(r: Registry, s: Registry, name: string)
    requires Inverse(r) && Sorted(s.index) && s.instances == r.instances - {name}
    requires forall e :: e in s.index <==> e in r.index && e.1 != name
    ensures Inverse(s)
  {
    hide Normalize, Eligible, Sorted;
    assert forall n :: n in s.instances ==> n in r.instances && n != name && s.instances[n] == r.instances[n];
    assert forall e :: e in s.index ==> e.1 in s.instances && s.instances[e.1] == r.instances[e.1];
  }

  /** After a revocation the index has lost exactly the mount's own entry. */
  lemma RevokedIndex(r: Registry, name: string)
    requires Inverse(r) && name in r.instances
    ensures var s := Revoked(r, name);
            && Sorted(s.index) && s.instances == r.instances - {name}
            && forall e :: e in s.index <==> e in r.index && e.1 != name
  {
    hide Normalize, Erase, Sorted, Eligible;
    if ForbidsOverlap(r.instances[name].kind) {
      RevokedKey(r, name);
      EraseSorted(r.index, Normalize(r.instances[name].path));
    } else {
      NotIndexed(r, name);
    }
  }

  lemma NotIndexed(r: Registry, name: string)
    requires Inverse(r) && name in r.instances && !ForbidsOverlap(r.instances[name].kind)
    ensures forall e :: e in r.index ==> e.1 != name
  {
  }

  lemma RevokeKeepsInverse(r: Registry, name: string)
    requires Inverse(r)
    ensures Inverse(Revoked(r, name))
  {
    if name in r.instances {
      RevokedIndex(r, name);
      WithoutKeepsInverse(r, Revoked(r, name), name);
    }
    hide Inverse;
  }

  lemma NormalizeNothing(path: string)
    ensures Normalize(path) == [] <==> path == []
  {
  }

  lemma StepKeepsInverse(r: Registry, op: Op)
    requires Inverse(r)
    ensures Inverse(Step(r, op))
  {
    hide Inverse, NeighboursAllow, Registered, Revoked, Normalize;
    match op
    case Register(name, kind, option, path) =>
      if NeighboursAllow(r, name, kind, Normalize(path)) {
        RegisterKeepsInverse(r, name, kind, option, path);
      }
    case Revoke(name) =>
      RevokeKeepsInverse(r, name);
    case RevokeAll =>
      EmptyInverse();
  }

  lemma EmptyInverse()
    ensures Inverse(Registry(map[], []))
  {
  }

  lemma {:induction false} RunInverse(r: Registry, ops: seq<Op>)
    requires Inverse(r)
    ensures Inverse(Run(r, ops))
    decreases |ops|
  {
    hide Inverse, Step;
    if ops != [] {
      StepKeepsInverse(r, ops[0]);
      RunInverse(Step(r, ops[0]), ops[1..]);
    }
  }

  /** Over every run from the empty registry, on any paths, the index lists exactly the
      eligible mounts under their normalized paths. */
  lemma IndexIsInverse(ops: seq<Op>, k: string, n: string)
    ensures var r := Run(Registry(map[], []), ops);
            (k, n) in r.index <==>
            n in r.instances && Eligible(r.instances[n]) && Normalize(r.instances[n].path) == k
  {
    EmptyInverse();
    RunInverse(Registry(map[], []), ops);
    hide Run, Normalize, Eligible, Sorted;
  }

  /** Over every run without doubled separators the indexed paths stay pairwise non-nested. */
  lemma IndexedPathsAreApart(ops: seq<Op>)
    requires forall i :: 0 <= i < |ops| ==> PlainOp(ops[i])
    ensures Disjoint(Run(Registry(map[], []), ops).index)
  {
    EmptyConsistent();
    RunConsistent(Registry(map[], []), ops);
  }

  /** A registered mount keeps its path, stripped of trailing separators, its type and its
      option through any other operations, until it is revoked; a second registration under
      its name is refused. */
  lemma {:induction false} RegisteredStays(r: Registry, name: string, m: Instance, ops: seq<Op>)
    requires name in r.instances && r.instances[name] == m
    requires forall i :: 0 <= i < |ops| ==> ops[i] != Revoke(name) && ops[i] != RevokeAll
    ensures name in Run(r, ops).instances && Run(r, ops).instances[name] == m
    decreases |ops|
  {
    if ops != [] {
      var s := Step(r, ops[0]);
      assert name in s.instances && s.instances[name] == m by {
        assert ops[0] != Revoke(name) && ops[0] != RevokeAll;
      }
      RegisteredStays(s, name, m, ops[1..]);
    }
  }

  lemma RegisteredPathStays(r: Registry, name: string, kind: FileSystemType, option: int, path: string, ops: seq<Op>)
    requires NeighboursAllow(r, name, kind, Normalize(path))
    requires forall i :: 0 <= i < |ops| ==> ops[i] != Revoke(name) && ops[i] != RevokeAll
    ensures var s := Run(Step(r, Register(name, kind, option, path)), ops);
            name in s.instances && s.instances[name] == Instance(kind, Strip(path), option)
  {
    StripNormalize(path);
    RegisteredStays(Step(r, Register(name, kind, option, path)), name, Instance(kind, Strip(path), option), ops);
  }

  // ------------------------------------------- virtual paths

  /** `CreateVirtualRootPath`. */
  function VirtualRoot(name: string): string {
    Append("", name)
  }

  /** The virtual path of `path` under the mount `e` that covers it. */
  function VirtualPathOf(e: Entry, path: string): string
    requires Covers(e.0, path)
  {
    AppendAll(VirtualRoot(e.1), Components(path)[|Components(e.0)|..])
  }

  /** `GetVirtualPath`: the nearest mount at or below the path is asked. */
  function NearestVirtualPath(r: Registry, path: string): Option<string> {
    var i := UpperBound(r.index, path);
    if i > 0 && Covers(r.index[i - 1].0, path) then Some(VirtualPathOf(r.index[i - 1], path)) else None
  }

  datatype Cracked = Cracked(name: string, kind: FileSystemType, path: string, option: int)

  /** `CrackVirtualPath`. */
  function Crack(r: Registry, virtual: string): Option<Cracked> {
    var cs := Components(virtual);
    if ReferencesParent(virtual) || cs == [] || cs[0] !in r.instances then None
    else
      var m := r.instances[cs[0]];
      Some(Cracked(cs[0], m.kind, AppendAll(m.path, cs[1..]), m.option))
  }

  /** At most one mount covers a path. */
  lemma CoverUnique(r: Registry, path: string, e: Entry, f: Entry)
    requires Consistent(r) && (path == [] || IsDirectory(path))
    requires e in r.index && f in r.index && Covers(e.0, path) && Covers(f.0, path)
    ensures e == f
  {
    hide *;
    ConsistentIndex(r);
    var i :| 0 <= i < |r.index| && r.index[i] == e;
    var j :| 0 <= j < |r.index| && r.index[j] == f;
    OnlyPredecessorCovers(r.index, path, i);
    OnlyPredecessorCovers(r.index, path, j);
  }

  lemma ConsistentIndex(r: Registry)
    requires Consistent(r)
    ensures Sorted(r.index) && (forall e :: e in r.index ==> IsMountKey(e.0)) && Disjoint(r.index)
  {
  }

  lemma NearestForm(r: Registry, path: string)
    ensures var i := UpperBound(r.index, path);
            && (NearestVirtualPath(r, path).Some? <==> i > 0 && Covers(r.index[i - 1].0, path))
            && (i > 0 && Covers(r.index[i - 1].0, path) ==>
                  NearestVirtualPath(r, path) == Some(VirtualPathOf(r.index[i - 1], path)))
  {
  }

  /** If whatever covers the path is a prefix of it, the nearest mount answers for all. */
  lemma PrefixesDecide(r: Registry, path: string)
    requires Consistent(r) && forall e :: e in r.index && Covers(e.0, path) ==> e.0 <= path
    ensures NearestVirtualPath(r, path).Some? <==> exists e :: e in r.index && Covers(e.0, path)
    ensures forall e :: e in r.index && Covers(e.0, path) ==>
              NearestVirtualPath(r, path) == Some(VirtualPathOf(e, path))
  {
    hide *;
    ConsistentIndex(r);
    NearestForm(r, path);
    var i := UpperBound(r.index, path);
    if i > 0 { assert r.index[i - 1] in r.index; }
    forall e | e in r.index && Covers(e.0, path)
      ensures NearestVirtualPath(r, path) == Some(VirtualPathOf(e, path))
    {
      var j :| 0 <= j < |r.index| && r.index[j] == e;
      PrefixMountIsNearest(r.index, path, j);
    }
  }

  /** The lookup succeeds exactly when some mount equals or contains the path, and that mount
      is the only one. */
  lemma NearestIsTheOne(r: Registry, path: string)
    requires Consistent(r) && (path == [] || IsDirectory(path))
    ensures NearestVirtualPath(r, path).Some? <==> exists e :: e in r.index && Covers(e.0, path)
    ensures forall e :: e in r.index && Covers(e.0, path) ==>
              NearestVirtualPath(r, path) == Some(VirtualPathOf(e, path))
  {
    ConsistentIndex(r);
    forall e | e in r.index && Covers(e.0, path) ensures e.0 <= path {
      ParentIsPrefix(e.0, path);
    }
    PrefixesDecide(r, path);
  }

  /** A mount name that is one component and means neither `.` nor the parent. */
  predicate OrdinaryName(name: string) {
    IsPiece(name) && name != "." && !IsParentReference(name)
  }

  /** A name a virtual path can carry: an ordinary one, or the root itself. */
  predicate CarriesOver(name: string) {
    OrdinaryName(name) || name == "/"
  }

  lemma CarriedForm(name: string, cs: seq<string>)
    requires CarriesOver(name) && ArePieces(cs)
    ensures Components(AppendAll(name, cs)) == [name] + cs
    ensures !HasParentReference([name])
  {
    hide AppendAll, Components;
    if OrdinaryName(name) {
      RelativeForm(name, cs);
    } else {
      RootForm(cs);
      assert !HasDoubleDot("/");
    }
  }

  lemma RootOfName(name: string)
    ensures VirtualRoot(name) == name
  {
    assert Strip("") == "";
  }

  /** The components of a covered path: those of the mount, then the rest. */
  lemma CoveredForm(k: string, q: string)
    requires IsMountKey(k) && IsDirectory(q) && Covers(k, q)
    ensures IsAbsolute(q)
    ensures Components(k) <= Components(q)
    ensures var rest := Components(q)[|Components(k)|..];
            ArePieces(rest) && k + Dirs(rest) == q
  {
    ParentIsPrefix(k, q);
    SameHead(k, q);
    DirectoryForm(k);
    DirectoryForm(q);
    RestOf(k, q, Pieces(k), Pieces(q));
  }

  lemma RestOf(k: string, q: string, cs: seq<string>, ds: seq<string>)
    requires k == "/" + Dirs(cs) && q == "/" + Dirs(ds) && ArePieces(cs) && ArePieces(ds) && k <= q
    requires Components(k) == ["/"] + cs && Components(q) == ["/"] + ds
    ensures Components(k) <= Components(q)
    ensures var rest := Components(q)[|Components(k)|..];
            ArePieces(rest) && k + Dirs(rest) == q
  {
    hide Components, Dirs;
    DropPrefix("/", Dirs(cs), Dirs(ds));
    DirsPrefix(cs, ds);
    var rest := ds[|cs|..];
    assert ds == cs + rest;
    assert (["/"] + ds)[1 + |cs|..] == rest;
    DirsConcat(cs, rest);
  }

  /** Virtual paths crack back to the same mount and the original path, unless the path
      has parent references, which cracking refuses. */
  lemma VirtualRoundTrip(r: Registry, e: Entry, p: string)
    requires Consistent(r) && e in r.index && CarriesOver(e.1)
    requires Plain(p) && p != [] && Covers(e.0, Normalize(p))
    ensures var m := r.instances[e.1];
            Crack(r, VirtualPathOf(e, Normalize(p))) ==
            if ReferencesParent(p) then None else Some(Cracked(e.1, m.kind, Strip(p), m.option))
  {
    hide *;
    var (k, name) := e;
    var q := Normalize(p);
    MountFacts(r, e, q);
    NormalizePlain(p);
    ComponentsNormalize(p);
    CoveredForm(k, q);
    var rest := Components(q)[|Components(k)|..];
    RootOfName(name);
    CarriedForm(name, rest);
    CrackRest(r, e, p, rest);
    AppendDirs(k, rest);
  }

  lemma MountFacts(r: Registry, e: Entry, q: string)
    requires Consistent(r) && e in r.index && Covers(e.0, q)
    ensures e.1 in r.instances && r.instances[e.1].path == Strip(e.0)
    ensures IsMountKey(e.0) && IsDirectory(e.0) && Strip(e.0) != "."
    ensures VirtualPathOf(e, q) == AppendAll(VirtualRoot(e.1), Components(q)[|Components(e.0)|..])
  {
    assert Strip(e.0)[0] == e.0[0];
  }

  /** Parent references of a covered path lie past the mount. */
  lemma CrackRest(r: Registry, e: Entry, p: string, rest: seq<string>)
    requires Consistent(r) && e in r.index && !HasParentReference([e.1])
    requires Components(p) == Components(e.0) + rest
    requires Components(AppendAll(e.1, rest)) == [e.1] + rest
    ensures Crack(r, AppendAll(e.1, rest)) ==
            if ReferencesParent(p) then None
            else
              var m := r.instances[e.1];
              Some(Cracked(e.1, m.kind, AppendAll(m.path, rest), m.option))
  {
    var v := AppendAll(e.1, rest);
    assert Components(v)[1..] == rest;
    assert IsMountKey(e.0);
    ParentReferenceConcat([e.1], rest);
    ParentReferenceConcat(Components(e.0), rest);
  }

  /** The virtual root of a registered mount leads back to that mount exactly when its name
      carries over. Registration does not check this. */
  lemma NameLeadsBack(r: Registry, name: string)
    requires name in r.instances && name != []
    ensures (Crack(r, VirtualRoot(name)).Some? && Crack(r, VirtualRoot(name)).value.name == name)
            <==> CarriesOver(name)
  {
    RootOfName(name);
    if OrdinaryName(name) {
      PiecesOfPiece(name);
    } else if name == "/" {
      assert name[1..] == [];
      assert Components(name) == ["/"];
      assert !HasDoubleDot("/");
    } else if IsAbsolute(name) {
      assert Components(name)[0] == "/";
    } else {
      RelativeComponents(name);
      if Components(name) != [] && Components(name)[0] == name {
        assert IsPiece(name);
        PiecesOfPiece(name);
      }
    }
  }

  /** The virtual path of a path leads back to the mount and the path. */
  ghost predicate ReadsBack(r: Registry, e: Entry, p: string)
    requires e.1 in r.instances
  {
    var m := r.instances[e.1];
    Plain(p) && p != [] && Covers(e.0, Normalize(p)) && !ReferencesParent(p) ==>
      Crack(r, VirtualPathOf(e, Normalize(p))) == Some(Cracked(e.1, m.kind, Strip(p), m.option))
  }

  lemma RootPath(r: Registry, e: Entry)
    requires Consistent(r) && e in r.index
    ensures Plain(e.0) && e.0 != [] && !ReferencesParent(e.0)
    ensures Normalize(e.0) == e.0 && Covers(e.0, e.0) && VirtualPathOf(e, e.0) == VirtualRoot(e.1)
  {
    assert IsMountKey(e.0);
    NormalizePlain(e.0);
    var cs := Components(e.0);
    assert cs[|cs|..] == [];
  }

  /** Every covered path without parent references reads back from its virtual path if and
      only if the mount's name carries over. */
  lemma RoundTripExact(r: Registry, e: Entry)
    requires Consistent(r) && e in r.index
    ensures e.1 in r.instances
    ensures CarriesOver(e.1) <==> forall p :: ReadsBack(r, e, p)
  {
    RootPath(r, e);
    MountFacts(r, e, e.0);
    assert "" !in r.instances;
    NameLeadsBack(r, e.1);
    hide Consistent, Crack, VirtualPathOf, VirtualRoot, CarriesOver, Covers;
    hide Normalize, Strip, Plain, ReferencesParent, IsMountKey, IsDirectory;
    if CarriesOver(e.1) {
      forall p ensures ReadsBack(r, e, p) {
        if Plain(p) && p != [] && Covers(e.0, Normalize(p)) && !ReferencesParent(p) {
          VirtualRoundTrip(r, e, p);
        }
      }
    } else {
      assert !ReadsBack(r, e, e.0);
    }
  }

  // ------------------------------------------- where the guarantees end

  lemma OneLetter(c: char)
    requires c != SEPARATOR && c != '.'
    ensures IsPiece([c]) && Strip(['/', c]) == ['/', c] && Normalize(['/', c]) == ['/', c, '/']
    ensures IsMountKey(['/', c, '/'])
  {
    var d := ['/', c, '/'];
    assert d == "/" + Dirs([[c]]) by {
      assert Dirs([[c]]) == [c] + [SEPARATOR] + Dirs([]);
    }
    PiecesOfDirs([[c]]);
    assert d[1..] == Dirs([[c]]);
    assert Components(d) == ["/", [c]];
    assert !HasDoubleDot("/") && !HasDoubleDot([c]);
  }

  /** Registration takes any name. */
  lemma AnyNameRegisters(name: string)
    requires name != []
    ensures var r := Run(Registry(map[], []), [Register(name, OtherType(0), 0, "/x")]);
            r.instances == map[name := Instance(OtherType(0), "/x", 0)] && r.index == [("/x/", name)]
  {
    var r, op := Registry(map[], []), Register(name, OtherType(0), 0, "/x");
    OneLetter('x');
    StripNormalize("/x");
    assert NeighboursAllow(r, name, OtherType(0), "/x/");
    assert Insert([], "/x/", name) == [("/x/", name)];
    assert Step(r, op) == Registered(r, name, OtherType(0), 0, "/x/");
    assert [op][1..] == [];
    assert Run(Step(r, op), []) == Step(r, op);
  }

  /** A mount called `a/b` can be registered, and its virtual root leads nowhere. */
  lemma LostName()
    ensures var r := Run(Registry(map[], []), [Register("a/b", OtherType(0), 0, "/x")]);
            "a/b" in r.instances && Crack(r, VirtualRoot("a/b")) == None
  {
    hide Run;
    AnyNameRegisters("a/b");
    RootOfName("a/b");
    FirstIsA();
    var r := Run(Registry(map[], []), [Register("a/b", OtherType(0), 0, "/x")]);
    assert "a" !in r.instances;
    hide Run, VirtualRoot, ReferencesParent, Components;
  }

  lemma FirstIsA()
    ensures Components("a/b") != [] && Components("a/b")[0] == "a"
  {
    FirstOfPieces("a", "/b");
    hide Pieces;
    assert "a" + "/b" == "a/b";
    assert Components("a/b") == ["a"] + Pieces("/b");
  }

  // ---------------------------------------------------------------- the class

  class ExternalMountPoints {
    var instances: map<string, Instance>
    var pathToName: seq<Entry>

    ghost function State(): Registry
      reads this
    {
      Registry(instances, pathToName)
    }

    constructor ()
      ensures State() == Registry(map[], []) && Consistent(State())
    {
      instances, pathToName := map[], [];
    }

    /** The check looks at two neighbours; its verdict is that of the full scan. */
    method ValidateNewMountPoint(name: string, kind: FileSystemType, path: string) returns (ok: bool)
      ensures ok <==> NeighboursAllow(State(), name, kind, path)
      ensures Consistent(State()) && (path == [] || IsDirectory(path)) ==>
                (ok <==> Acceptable(State(), name, kind, path))
    {
      if Consistent(State()) && (path == [] || IsDirectory(path)) {
        AllowedIsAcceptable(State(), name, kind, path);
      }
      hide Consistent, Acceptable, IsDirectory;
      if name == [] { return false; }
      if name in instances { return false; }
      if path == [] { return true; }
      if ReferencesParent(path) || !IsAbsolute(path) { return false; }
      if ForbidsOverlap(kind) {
        var i := UpperBound(pathToName, path);
        if i > 0 {
          var parent := pathToName[i - 1].0;
          if parent == path || IsParent(parent, path) { return false; }
        }
        if i < |pathToName| {
          var child := pathToName[i].0;
          if child == path || IsParent(path, child) { return false; }
        }
      }
      ok := true;
    }

    method RegisterFileSystem(name: string, kind: FileSystemType, option: int, pathIn: string) returns (ok: bool)
      modifies this
      ensures ok <==> NeighboursAllow(old(State()), name, kind, Normalize(pathIn))
      ensures State() == Step(old(State()), Register(name, kind, option, pathIn))
      ensures Plain(Normalize(pathIn)) && old(Consistent(State())) ==>
                Consistent(State()) && (ok <==> Acceptable(old(State()), name, kind, Normalize(pathIn)))
    {
      var path := Normalize(pathIn);
      if Plain(path) && Consistent(State()) {
        NormalizeAny(pathIn);
        AllowedIsAcceptable(State(), name, kind, path);
        StepConsistent(State(), Register(name, kind, option, pathIn));
      }
      hide Consistent, Acceptable, IsDirectory, NeighboursAllow;
      ok := ValidateNewMountPoint(name, kind, path);
      if !ok { return; }
      instances := instances[name := Instance(kind, Strip(path), option)];
      if path != [] && ForbidsOverlap(kind) {
        pathToName := Insert(pathToName, path, name);
      }
    }

    method RevokeFileSystem(name: string) returns (ok: bool)
      modifies this
      ensures ok <==> name in old(instances)
      ensures State() == Step(old(State()), Revoke(name))
      ensures old(Consistent(State())) ==> Consistent(State())
    {
      if Consistent(State()) {
        RevokeKeeps(State(), name);
      }
      hide Consistent;
      if name !in instances { return false; }
      var found := instances[name];
      if ForbidsOverlap(found.kind) {
        pathToName := Erase(pathToName, Normalize(found.path));
      }
      instances := instances - {name};
      ok := true;
    }

    method RevokeAllFileSystems()
      modifies this
      ensures State() == Step(old(State()), RevokeAll) && Consistent(State())
    {
      instances := map[];
      pathToName := [];
    }

    /** The path a mount was registered with. If the mount is indexed, its normalized form
        is the index key that leads back to the name. */
    method GetRegisteredPath(name: string) returns (r: Option<string>)
      ensures r.Some? <==> name in instances
      ensures r.Some? ==> r.value == instances[name].path
      ensures r.Some? && Consistent(State()) && Eligible(instances[name]) ==>
                (Normalize(r.value), name) in pathToName
                && forall e :: e in pathToName && e.1 == name ==> r.value == Strip(e.0)
    {
      r := if name in instances then Some(instances[name].path) else None;
    }

    /** The nearest mount at or below the path answers for all of them: the lookup
        succeeds exactly when some mount equals or contains the path, and that mount is
        the only one. */
    method GetVirtualPath(pathIn: string) returns (r: Option<string>)
      ensures r == NearestVirtualPath(State(), Normalize(pathIn))
      ensures Consistent(State()) && Plain(Normalize(pathIn)) ==>
                (r.Some? <==> exists e :: e in pathToName && Covers(e.0, Normalize(pathIn)))
                && forall e :: e in pathToName && Covers(e.0, Normalize(pathIn)) ==>
                     r == Some(VirtualPathOf(e, Normalize(pathIn)))
    {
      hide Consistent, Plain, Normalize, IsDirectory, Append, Components, Less, NearestVirtualPath;
      var path := Normalize(pathIn);
      NearestForm(State(), path);
      if Consistent(State()) && Plain(path) {
        NormalizeAny(pathIn);
        NearestIsTheOne(State(), path);
      }
      var i := UpperBound(pathToName, path);
      if i == 0 { return None; }
      var e := pathToName[i - 1];
      var virtual := VirtualRoot(e.1);
      if e.0 == path {
        assert Components(path)[|Components(e.0)|..] == [];
        return Some(virtual);
      }
      if !IsParent(e.0, path) { return None; }
      var rest := Components(path)[|Components(e.0)|..];
      var n := 0;
      while n < |rest|
        invariant 0 <= n <= |rest|
        invariant AppendAll(virtual, rest[n..]) == VirtualPathOf(e, path)
      {
        assert rest[n..][1..] == rest[n + 1..];
        virtual := Append(virtual, rest[n]);
        n := n + 1;
      }
      r := Some(virtual);
    }

    method CrackVirtualPath(virtual: string) returns (r: Option<Cracked>)
      ensures r == Crack(State(), virtual)
    {
      if ReferencesParent(virtual) { return None; }
      var components := Components(virtual);
      if |components| < 1 { return None; }
      var name := components[0];
      if name !in instances { return None; }
      var m := instances[name];
      var cracked := m.path;
      var i := 1;
      while i < |components|
        invariant 1 <= i <= |components|
        invariant AppendAll(cracked, components[i..]) == AppendAll(m.path, components[1..])
      {
        assert components[i..][1..] == components[i + 1..];
        cracked := Append(cracked, components[i]);
        i := i + 1;
      }
      r := Some(Cracked(name, m.kind, cracked, m.option));
    }
  }
}
