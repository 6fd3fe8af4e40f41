/** Lexicographic order on strings, and the ordered index (`std::map` keyed by path)
    that the mount registry searches. */
module PathOrder {

  predicate Less(a: string, b: string) {
    if b == [] then false
    else if a == [] then true
    else if a[0] != b[0] then a[0] < b[0]
    else Less(a[1..], b[1..])
  }

  lemma {:induction false} LessIrreflexive(a: string)
    ensures !Less(a, a)
  {
    if a != [] {
      LessIrreflexive(a[1..]);
    }
  }

  lemma {:induction false} LessTransitive(a: string, b: string, c: string)
    requires Less(a, b) && Less(b, c)
    ensures Less(a, c)
  {
    if a != [] && a[0] == b[0] && b[0] == c[0] {
      LessTransitive(a[1..], b[1..], c[1..]);
    }
  }

  lemma {:induction false} LessTotal(a: string, b: string)
    ensures Less(a, b) || a == b || Less(b, a)
  {
    if a != [] && b != [] && a[0] == b[0] {
      LessTotal(a[1..], b[1..]);
      assert a == [a[0]] + a[1..] && b == [b[0]] + b[1..];
    }
  }

  lemma LessAsymmetric(a: string, b: string)
    requires Less(a, b)
    ensures !Less(b, a) && a != b
  {
    LessIrreflexive(a);
    if Less(b, a) {
      LessTransitive(a, b, a);
    }
  }

  lemma {:induction false} PrefixNotGreater(p: string, s: string)
    requires p <= s
    ensures !Less(s, p)
  {
    if p != [] {
      PrefixNotGreater(p[1..], s[1..]);
    }
  }

  /** Everything between a string and an extension of it extends it too. */
  lemma {:induction false} PrefixInterval(p: string, m: string, s: string)
    requires p <= s && !Less(m, p) && !Less(s, m)
    ensures p <= m
  {
    if p != [] {
      PrefixInterval(p[1..], m[1..], s[1..]);
      assert m == [m[0]] + m[1..];
    }
  }

  // ---------------------------------------------------------------- the ordered index

  type Entry = (string, string)

  ghost predicate Sorted(ix: seq<Entry>) {
    forall i, j :: 0 <= i < j < |ix| ==> Less(ix[i].0, ix[j].0)
  }

  /** `upper_bound`: the first position whose key is greater than `q`. */
  function UpperBound(ix: seq<Entry>, q: string): (i: nat)
    ensures i <= |ix|
    ensures i < |ix| ==> Less(q, ix[i].0)
    ensures forall j :: 0 <= j < i ==> !Less(q, ix[j].0)
  {
    if ix == [] || Less(q, ix[0].0) then 0 else 1 + UpperBound(ix[1..], q)
  }

  lemma AboveUpperBound(ix: seq<Entry>, q: string, j: nat)
    requires Sorted(ix) && UpperBound(ix, q) <= j < |ix|
    ensures Less(q, ix[j].0)
  {
    var i := UpperBound(ix, q);
    if i < j {
      LessTransitive(q, ix[i].0, ix[j].0);
    }
  }

  /** `insert`: nothing happens when the key is there already. */
  function Insert(ix: seq<Entry>, k: string, v: string): seq<Entry> {
    var i := UpperBound(ix, k);
    if i > 0 && ix[i - 1].0 == k then ix else ix[..i] + [(k, v)] + ix[i..]
  }

  function Find(ix: seq<Entry>, k: string): (i: nat)
    ensures i <= |ix|
    ensures i < |ix| ==> ix[i].0 == k
    ensures i == |ix| ==> forall j :: 0 <= j < |ix| ==> ix[j].0 != k
  {
    if ix == [] || ix[0].0 == k then 0 else 1 + Find(ix[1..], k)
  }

  /** `erase` by key. */
  function Erase(ix: seq<Entry>, k: string): seq<Entry> {
    var i := Find(ix, k);
    if i == |ix| then ix else ix[..i] + ix[i + 1..]
  }

  lemma InsertSorted(ix: seq<Entry>, k: string, v: string)
    requires Sorted(ix) && forall e :: e in ix ==> e.0 != k
    ensures Sorted(Insert(ix, k, v))
    ensures forall e :: e in Insert(ix, k, v) <==> e in ix || e == (k, v)
  {
    var i := UpperBound(ix, k);
    var r := ix[..i] + [(k, v)] + ix[i..];
    assert i > 0 ==> ix[i - 1] in ix;
    forall a, b | 0 <= a < b < |r| ensures Less(r[a].0, r[b].0) {
      if a < i && b == i {
        assert ix[a] in ix;
        LessTotal(ix[a].0, k);
      }
      if a == i {
        AboveUpperBound(ix, k, b - 1);
      }
    }
    assert ix == ix[..i] + ix[i..];
  }

  lemma EraseSorted(ix: seq<Entry>, k: string)
    requires Sorted(ix)
    ensures Sorted(Erase(ix, k))
    ensures forall e :: e in Erase(ix, k) <==> e in ix && e.0 != k
  {
    var i := Find(ix, k);
    if i < |ix| {
      hide Less;
      assert ix == ix[..i] + [ix[i]] + ix[i + 1..];
      forall j | 0 <= j < |ix| && j != i ensures ix[j].0 != k {
        KeysDiffer(ix, i, j);
      }
    }
  }

  lemma KeysDiffer(ix: seq<Entry>, i: nat, j: nat)
    requires Sorted(ix) && i < |ix| && j < |ix| && i != j
    ensures ix[i].0 != ix[j].0
  {
    LessIrreflexive(ix[i].0);
  }
}
