/** The TLS context cache of networking/http_thread.rs: an array map with swap-removal,
    a time-to-live and a size cap. Contexts are identities; releasing one is logged. */
module TlsCache {

  const MAX_SIZE: nat := 60
  const TTL_NS: nat := 30 * (60 * 1_000_000_000)
  const U64_MAX: nat := 0xffff_ffff_ffff_ffff

  type Key = nat
  type Context = nat

  datatype Entry = Entry(key: Key, ctx: Context, lastUsed: nat)

  datatype Outcome = Hit(ctx: Context) | Created(ctx: Context) | Refused

  /** `saturating_sub(now, last) > TTL` is what makes an entry stale. */
  predicate Stale(e: Entry, now: nat) {
    (if now < e.lastUsed then 0 else now - e.lastUsed) > TTL_NS
  }

  /** `swap_remove_at`: the last entry takes the place of the removed one. */
  function SwapRemove(es: seq<Entry>, i: nat): (r: seq<Entry>)
    requires i < |es|
    ensures |r| == |es| - 1
  {
    es[i := es[|es| - 1]][..|es| - 1]
  }

  ghost predicate Distinct(es: seq<Entry>) {
    forall i, j :: 0 <= i < j < |es| ==> es[i].key != es[j].key && es[i].ctx != es[j].ctx
  }

  function ToSet(es: seq<Entry>): set<Entry> {
    set e | e in es
  }

  function Contexts(es: seq<Entry>): set<Context> {
    set e | e in es :: e.ctx
  }

  /** The entries that are not stale. */
  function Fresh(es: set<Entry>, now: nat): set<Entry> {
    set e | e in es && !Stale(e, now)
  }

  /** What a connection finds and leaves. `kept` are the fresh entries, `after` those in the
      end. An entry is evicted only if the cache was full, and it is one of the least
      recently used. */
  ghost predicate Served(kept: set<Entry>, after: set<Entry>, key: Key, now: nat, initOk: bool, newCtx: Context,
                         out: Outcome)
  {
    match out
    case Hit(ctx) =>
      exists e :: e in kept && e.key == key && e.ctx == ctx && after == kept - {e} + {e.(lastUsed := now)}
    case Refused => !initOk && after == kept && forall e :: e in kept ==> e.key != key
    case Created(ctx) =>
      && initOk && ctx == newCtx && Entry(key, newCtx, now) in after
      && (forall e :: e in kept ==> e.key != key)
      && (if |kept| < MAX_SIZE then after == kept + {Entry(key, newCtx, now)}
          else exists e :: e in kept && (forall f :: f in kept ==> e.lastUsed <= f.lastUsed)
                           && after == kept - {e} + {Entry(key, newCtx, now)})
  }

  /** In numbers: an entry is fresh for half an hour, to the nanosecond. */
  lemma FreshIs(es: set<Entry>, now: nat)
    ensures forall e :: e in Fresh(es, now) <==> e in es && now <= e.lastUsed + 30 * 60 * 1_000_000_000
  {
  }

  /** What a connection does, in numbers: `before` are the entries it found, at time `t1`. */
  lemma ServedMeans(before: set<Entry>, after: set<Entry>, key: Key, t1: nat, t2: nat, initOk: bool, newCtx: Context,
                    out: Outcome)
    requires Served(Fresh(before, t1), after, key, t2, initOk, newCtx, out)
    ensures out.Hit? <==>
              exists e :: e in before && e.key == key && t1 <= e.lastUsed + 30 * 60 * 1_000_000_000
    ensures out.Refused? <==>
              !initOk && forall e :: e in before && e.key == key ==> t1 > e.lastUsed + 30 * 60 * 1_000_000_000
    ensures out.Hit? ==> exists e :: e in before && e.key == key && e.ctx == out.ctx
    ensures !out.Refused? ==> Entry(key, out.ctx, t2) in after
    ensures forall e :: e in before && e.key != key && t1 <= e.lastUsed + 30 * 60 * 1_000_000_000 && e !in after ==>
              out.Created? && |Fresh(before, t1)| >= 60
              && forall f :: f in before && t1 <= f.lastUsed + 30 * 60 * 1_000_000_000 ==> e.lastUsed <= f.lastUsed
  {
    FreshIs(before, t1);
    var kept := Fresh(before, t1);
    hide Fresh;
    match out
    case Hit(ctx) =>
      var e :| e in kept && e.key == key && e.ctx == ctx && after == kept - {e} + {e.(lastUsed := t2)};
      assert e.(lastUsed := t2) == Entry(key, ctx, t2);
    case _ =>
  }

  lemma ServedHit(kept: set<Entry>, e: Entry, now: nat, initOk: bool, newCtx: Context)
    requires e in kept
    ensures Served(kept, kept - {e} + {e.(lastUsed := now)}, e.key, now, initOk, newCtx, Hit(e.ctx))
  {
  }

  lemma ServedRefused(kept: set<Entry>, key: Key, now: nat, newCtx: Context)
    requires forall e :: e in kept ==> e.key != key
    ensures Served(kept, kept, key, now, false, newCtx, Refused)
  {
  }

  lemma ServedNew(kept: set<Entry>, key: Key, now: nat, newCtx: Context)
    requires |kept| < MAX_SIZE && forall e :: e in kept ==> e.key != key
    ensures Served(kept, kept + {Entry(key, newCtx, now)}, key, now, true, newCtx, Created(newCtx))
  {
  }

  lemma ServedEvicting(kept: set<Entry>, gone: Entry, key: Key, now: nat, newCtx: Context)
    requires |kept| >= MAX_SIZE && (forall e :: e in kept ==> e.key != key)
    requires gone in kept && forall e :: e in kept ==> gone.lastUsed <= e.lastUsed
    ensures Served(kept, kept - {gone} + {Entry(key, newCtx, now)}, key, now, true, newCtx, Created(newCtx))
  {
  }

  ghost predicate NoRepeats(cs: seq<Context>) {
    forall i, j :: 0 <= i < j < |cs| ==> cs[i] != cs[j]
  }

  lemma {:induction false} ToSetSize(es: seq<Entry>)
    requires Distinct(es)
    ensures |ToSet(es)| == |es|
  {
    if es != [] {
      var last := es[|es| - 1];
      var rest := es[..|es| - 1];
      ToSetSize(rest);
      assert es == rest + [last];
      assert ToSet(es) == ToSet(rest) + {last};
      assert last !in ToSet(rest);
    }
  }

  lemma SwapRemoveIs(es: seq<Entry>, i: nat)
    requires i < |es| && Distinct(es)
    ensures Distinct(SwapRemove(es, i))
    ensures ToSet(SwapRemove(es, i)) == ToSet(es) - {es[i]}
    ensures Contexts(SwapRemove(es, i)) == Contexts(es) - {es[i].ctx}
  {
    var last := |es| - 1;
    var r := SwapRemove(es, i);
    forall k | 0 <= k < |r| ensures r[k] == es[if k == i then last else k] && r[k] in es {
    }
    forall e | e in es && e != es[i] ensures e in r {
      var k :| 0 <= k < |es| && es[k] == e;
      assert r[if k == last then i else k] == e;
    }
    forall e | e in r ensures e.ctx != es[i].ctx {
      var k :| 0 <= k < |r| && r[k] == e;
      var m := if k == i then last else k;
      assert es[m] == e && m != i;
    }
    forall e | e in es && e.ctx != es[i].ctx ensures e in r {
    }
  }

  class Cache {
    var entries: seq<Entry>
    var released: seq<Context>
    /** Every context ever stored. */
    ghost var created: set<Context>
    /** The latest reading of the 64-bit clock. */
    ghost var clock: nat

    /** Each context ever stored is either live, once, or has been released, once. */
    ghost predicate Sound()
      reads this
    {
      && Distinct(entries) && NoRepeats(released) && clock <= U64_MAX
      && Contexts(entries) + Released() == created && Contexts(entries) !! Released()
      && forall e :: e in entries ==> e.lastUsed <= clock
    }

    ghost function Released(): set<Context>
      reads this
    {
      set c | c in released
    }

    ghost predicate Valid()
      reads this
    {
      Sound() && |entries| <= MAX_SIZE
    }

    constructor ()
      ensures Valid() && entries == [] && released == [] && created == {}
    {
      entries, released, created, clock := [], [], {}, 0;
    }

    /** Remove one entry and release its context. */
    method DropAt(i: nat)
      requires Sound() && i < |entries|
      modifies this`entries, this`released
      ensures Sound()
      ensures entries == SwapRemove(old(entries), i)
      ensures ToSet(entries) == old(ToSet(entries)) - {old(entries)[i]}
      ensures released == old(released) + [old(entries)[i].ctx]
    {
      SwapRemoveIs(entries, i);
      var entry := entries[i];
      assert entry in entries && entry.ctx in Contexts(entries);
      assert entry.ctx !in Released();
      entries := SwapRemove(entries, i);
      released := released + [entry.ctx];
      assert Released() == old(Released()) + {entry.ctx};
      assert forall e :: e in entries ==> e in ToSet(entries);
    }

    /** `evict_stale_ssl_contexts`: exactly the expired entries go, although the loop
        moves the last entry into each freed place. */
    method EvictStale(now: nat)
      requires Sound()
      modifies this`entries, this`released
      ensures Sound() && |entries| <= |old(entries)|
      ensures ToSet(entries) == Fresh(old(ToSet(entries)), now)
      ensures forall e :: e in ToSet(entries) <==>
                e in old(ToSet(entries)) && now <= e.lastUsed + 30 * 60 * 1_000_000_000
      ensures |released| - |old(released)| == |old(entries)| - |entries|
    {
      var i := 0;
      while i < |entries|
        invariant 0 <= i <= |entries| <= |old(entries)| && Sound()
        invariant forall e :: e in entries ==> e in old(entries)
        invariant forall e :: e in old(entries) && !Stale(e, now) ==> e in entries
        invariant forall k :: 0 <= k < i ==> !Stale(entries[k], now)
        invariant |released| - |old(released)| == |old(entries)| - |entries|
        decreases |entries| - i
      {
        if Stale(entries[i], now) {
          ghost var before := entries;
          DropAt(i);
          assert forall e :: e in entries <==> e in before && e != before[i] by {
            assert forall e :: e in entries <==> e in ToSet(entries);
          }
        } else {
          i := i + 1;
        }
      }
    }

    /** `evict_oldest_ssl_context`: the first of the least recently used entries goes. */
    method EvictOldest() returns (ghost gone: nat)
      requires Sound()
      modifies this`entries, this`released
      ensures Sound()
      ensures old(entries) == [] ==> entries == [] && released == old(released)
      ensures old(entries) != [] ==>
                && gone < |old(entries)|
                && ToSet(entries) == old(ToSet(entries)) - {old(entries)[gone]}
                && |entries| == |old(entries)| - 1
                && (forall e :: e in old(entries) ==> old(entries)[gone].lastUsed <= e.lastUsed)
                && (forall k :: 0 <= k < gone ==> old(entries)[k].lastUsed > old(entries)[gone].lastUsed)
    {
      gone := 0;
      if |entries| == 0 { return; }
      var oldestIdx, oldestTime := 0, U64_MAX;
      var i := 0;
      while i < |entries|
        invariant 0 <= i <= |entries| && oldestIdx < |entries| && entries == old(entries)
        invariant forall k :: 0 <= k < i ==> oldestTime <= entries[k].lastUsed
        invariant oldestTime < U64_MAX ==> oldestIdx < i && entries[oldestIdx].lastUsed == oldestTime
        invariant oldestTime <= U64_MAX
        invariant oldestTime == U64_MAX ==> oldestIdx == 0
        invariant forall k :: 0 <= k < oldestIdx ==> entries[k].lastUsed > oldestTime
      {
        if entries[i].lastUsed < oldestTime {
          oldestTime := entries[i].lastUsed;
          oldestIdx := i;
        }
        i := i + 1;
      }
      gone := oldestIdx;
      assert entries[oldestIdx] in entries;
      DropAt(oldestIdx);
    }

    /** Index of a key, or the number of entries. */
    method Find(key: Key) returns (i: nat)
      ensures i <= |entries|
      ensures i < |entries| ==> entries[i].key == key
      ensures i == |entries| ==> forall e :: e in entries ==> e.key != key
    {
      i := 0;
      while i < |entries|
        invariant 0 <= i <= |entries|
        invariant forall k :: 0 <= k < i ==> entries[k].key != key
      {
        if entries[i].key == key { return; }
        i := i + 1;
      }
    }

    /** The cache part of `connect`. The clock is read at `t1`, then at `t2`; `initOk` says
        whether a new context could be set up, `newCtx` is its identity.
        After each call at most MAX_SIZE entries remain. A hit was used within the TTL. A new
        context is stored and is never the one evicted to make room: that is one of the least
        recently used survivors. */
    method Connect(key: Key, t1: nat, t2: nat, initOk: bool, newCtx: Context) returns (out: Outcome)
      requires Valid() && clock <= t1 <= t2 <= U64_MAX && newCtx !in created
      modifies this
      ensures Valid() && clock == t2
      ensures created == old(created) + (if out.Created? then {newCtx} else {})
      ensures Served(old(Fresh(ToSet(entries), t1)), ToSet(entries), key, t2, initOk, newCtx, out)
      ensures out.Hit? <==>
                exists e :: e in old(ToSet(entries)) && e.key == key && t1 <= e.lastUsed + 30 * 60 * 1_000_000_000
      ensures out.Refused? <==>
                !initOk && forall e :: e in old(ToSet(entries)) && e.key == key ==>
                             t1 > e.lastUsed + 30 * 60 * 1_000_000_000
      ensures |entries| <= 60
    {
      hide *;
      ghost var found := ToSet(entries);
      ValidParts();
      ReadClock(t2);
      EvictStale(t1);
      ghost var kept := ToSet(entries);
      ghost var es := entries;
      SoundParts();
      var i := Find(key);
      if i < |entries| {
        var e := entries[i];
        Touch(i, t2);
        ServedHit(kept, e, t2, initOk, newCtx);
        ValidParts();
        ServedMeans(found, ToSet(entries), key, t1, t2, initOk, newCtx, Hit(e.ctx));
        return Hit(e.ctx);
      }
      if !initOk {
        ServedRefused(kept, key, t2, newCtx);
        ValidParts();
        ServedMeans(found, ToSet(entries), key, t1, t2, initOk, newCtx, Refused);
        return Refused;
      }
      var added := Entry(key, newCtx, t2);
      Put(added);
      out := Created(newCtx);
      if |entries| > MAX_SIZE {
        var gone := EvictOldest();
        OldestIsNotLast(es, added, gone);
        ServedEvicting(kept, es[gone], key, t2, newCtx);
      } else {
        ServedNew(kept, key, t2, newCtx);
      }
      ValidParts();
      ServedMeans(found, ToSet(entries), key, t1, t2, initOk, newCtx, out);
    }

    lemma ValidParts()
      ensures Valid() <==> Sound() && |entries| <= MAX_SIZE
      ensures MAX_SIZE == 60
    {
    }

    lemma SoundParts()
      requires Sound()
      ensures |ToSet(entries)| == |entries|
      ensures forall e :: e in ToSet(entries) <==> e in entries
      ensures forall e :: e in entries ==> e.lastUsed <= clock
    {
      ToSetSize(entries);
    }

    ghost method ReadClock(t: nat)
      requires Sound() && clock <= t <= U64_MAX
      modifies this`clock
      ensures Sound() && clock == t
    {
      clock := t;
    }

    method Touch(i: nat, now: nat)
      requires Sound() && i < |entries| && now <= clock
      modifies this`entries
      ensures Sound() && |entries| == |old(entries)|
      ensures ToSet(entries) == old(ToSet(entries)) - {old(entries)[i]} + {old(entries)[i].(lastUsed := now)}
    {
      ghost var es := entries;
      entries := entries[i := entries[i].(lastUsed := now)];
      assert Contexts(entries) == Contexts(es) by {
        forall e | e in es ensures e.ctx in Contexts(entries) {
          var k :| 0 <= k < |es| && es[k] == e;
          assert entries[k].ctx == e.ctx && entries[k] in entries;
        }
        forall e | e in entries ensures e.ctx in Contexts(es) {
          var k :| 0 <= k < |es| && entries[k] == e;
          assert es[k].ctx == e.ctx && es[k] in es;
        }
      }
      forall e | e in es && e != es[i] ensures e in entries {
        var k :| 0 <= k < |es| && es[k] == e;
        assert entries[k] == e;
      }
      forall e | e in entries ensures e == entries[i] || (e in es && e != es[i]) {
        var k :| 0 <= k < |es| && entries[k] == e;
        assert k != i ==> es[k].key != es[i].key;
      }
      assert entries[i] in entries;
    }

    /** `put` of a key that is not there appends. */
    method Put(e: Entry)
      requires Sound() && e.lastUsed <= clock && e.ctx !in created
      requires forall f :: f in entries ==> f.key != e.key
      modifies this`entries, this`created
      ensures Sound() && entries == old(entries) + [e]
      ensures ToSet(entries) == old(ToSet(entries)) + {e}
      ensures created == old(created) + {e.ctx}
    {
      ghost var es := entries;
      forall f | f in es ensures f.ctx != e.ctx {
        assert f.ctx in Contexts(es);
      }
      entries := entries + [e];
      created := created + {e.ctx};
      assert forall k :: 0 <= k < |es| ==> es[k] in es;
      assert Contexts(entries) == Contexts(es) + {e.ctx};
    }
  }

  /** A new entry, added last, is never the first of the least recently used ones unless it
      is alone. */
  lemma OldestIsNotLast(es: seq<Entry>, added: Entry, gone: nat)
    requires es != [] && gone <= |es| && (forall e :: e in es ==> e.key != added.key && e.lastUsed <= added.lastUsed)
    requires forall k :: 0 <= k < gone ==> (es + [added])[k].lastUsed > (es + [added])[gone].lastUsed
    ensures gone < |es| && (es + [added])[gone] == es[gone] && es[gone] in es && es[gone] != added
    ensures ToSet(es + [added]) - {es[gone]} == ToSet(es) - {es[gone]} + {added}
  {
    var all := es + [added];
    assert all[|es|] == added && all[0] == es[0] && es[0] in es;
    assert ToSet(all) == ToSet(es) + {added};
  }
}
