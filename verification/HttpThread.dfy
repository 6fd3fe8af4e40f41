/** The loops of networking/http_thread.rs and the counters of networking/common/https.zig
    in the form the programs give them, each tied to the steps of the protocol in
    `Scheduler`. No other thread runs during these calls; interleavings are the
    protocol's business. */
module HttpThread {
  import opened Scheduler

  /** The rest of a pass, step by step; `failing` names the requests that fail at once. */
  function RunPass(s: State, failing: set<Id>, max: nat): State
    requires s.pc.PassDeferred? || s.pc.PassQueue? || s.pc.AboutToBlock?
    decreases if s.pc.PassDeferred? then |s.pc.rest| + |s.queued| + 2 else if s.pc.PassQueue? then |s.queued| + 1 else 0
  {
    if s.pc.AboutToBlock? then s
    else
      RunPass(AdmitStep(s, NextFails(s, failing), max), failing, max)
  }

  predicate NextFails(s: State, failing: set<Id>)
    requires s.pc.PassDeferred? || s.pc.PassQueue?
  {
    if s.pc.PassDeferred? then s.pc.rest != [] && s.pc.rest[0] in failing
    else s.queued != [] && s.queued[0] in failing
  }

  lemma {:induction false} RunPassKeeps(s: State, failing: set<Id>, max: nat)
    requires Inv(s, max) && (s.pc.PassDeferred? || s.pc.PassQueue? || s.pc.AboutToBlock?)
    ensures Inv(RunPass(s, failing, max), max) && RunPass(s, failing, max).pc.AboutToBlock?
    decreases if s.pc.PassDeferred? then |s.pc.rest| + |s.queued| + 2 else if s.pc.PassQueue? then |s.queued| + 1 else 0
  {
    hide Inv;
    if !s.pc.AboutToBlock? {
      AdmitKeeps(s, NextFails(s, failing), max);
      RunPassKeeps(AdmitStep(s, NextFails(s, failing), max), failing, max);
    }
  }

  /** One turn of a pass, and the rest of it. */
  lemma RunPassStep(s: State, failing: set<Id>, max: nat)
    requires Inv(s, max) && (s.pc.PassDeferred? || s.pc.PassQueue?)
    ensures var u := AdmitStep(s, NextFails(s, failing), max);
            && Inv(u, max) && (u.pc.PassDeferred? || u.pc.PassQueue? || u.pc.AboutToBlock?)
            && RunPass(u, failing, max) == RunPass(s, failing, max)
            && (u.pc.AboutToBlock? ==> RunPass(u, failing, max) == u)
  {
    AdmitKeeps(s, NextFails(s, failing), max);
    hide Inv;
  }

  class Thread {
    var scheduled: nat
    var queuedTasks: seq<Id>
    var deferredTasks: seq<Id>
    var active: set<Id>
    var finished: set<Id>
    var activeRequestsCount: nat
    var aborted: set<Id>
    ghost var told: set<Id>
    var hasPendingQueuedAbort: bool
    var queuedResponseBodyDrains: nat
    var queuedWrites: nat
    var queuedShutdowns: seq<Id>
    var hasAwoken: bool
    var wakeupPending: bool
    ghost var pushing: set<nat>

    ghost function View(pc: Pc): State
      reads this
    {
      State(scheduled, queuedTasks, deferredTasks, active, finished, activeRequestsCount, aborted, told,
            hasPendingQueuedAbort, queuedResponseBodyDrains, queuedWrites, queuedShutdowns,
            hasAwoken, wakeupPending, pushing, pc)
    }

    constructor ()
      ensures View(Starting) == Initial
    {
      scheduled, queuedTasks, deferredTasks, active, finished := 0, [], [], {}, {};
      activeRequestsCount, aborted, told, hasPendingQueuedAbort := 0, {}, {}, false;
      queuedResponseBodyDrains, queuedWrites, queuedShutdowns := 0, 0, [];
      hasAwoken, wakeupPending, pushing := false, false, {};
    }

    /** `wakeup`: dropped until the loop has come up. */
    method Wakeup(producer: nat, ghost pc: Pc)
      requires producer in pushing
      modifies this
      ensures View(pc) == old(Step(View(pc), Wake(producer), 0))
    {
      if hasAwoken {
        wakeupPending := true;
      }
      pushing := pushing - {producer};
    }

    /** `schedule`: push a batch task by task, then wake the loop once; an empty batch
        does not even wake it. Every task is queued, in order, behind what was queued. */
    method Schedule(batch: nat, producer: nat, ghost pc: Pc)
      modifies this
      ensures View(pc) ==
              old(View(pc)).(scheduled := scheduled, queued := queuedTasks, wakeup := wakeupPending, pushing := pushing)
      ensures scheduled == old(scheduled) + batch
      ensures queuedTasks == old(queuedTasks) + seq(batch, i => old(scheduled) + i)
      ensures wakeupPending <==> old(wakeupPending) || (batch > 0 && hasAwoken)
      ensures pushing == if batch == 0 then old(pushing) else old(pushing) - {producer}
    {
      if batch == 0 { return; }
      var n := 0;
      while n < batch
        invariant 0 <= n <= batch && scheduled == old(scheduled) + n
        invariant queuedTasks == old(queuedTasks) + seq(n, i => old(scheduled) + i)
        invariant View(pc) == old(View(pc)).(scheduled := scheduled, queued := queuedTasks, pushing := pushing)
        invariant pushing == if n == 0 then old(pushing) else old(pushing) + {producer}
      {
        queuedTasks := queuedTasks + [scheduled];
        scheduled := scheduled + 1;
        pushing := pushing + {producer};
        n := n + 1;
      }
      Wakeup(producer, pc);
    }

    /** `schedule_shutdown`: push the message, then wake the loop. */
    method ScheduleShutdown(id: Id, producer: nat, ghost pc: Pc)
      modifies this
      ensures View(pc) == Step(old(Step(View(pc), PushShutdown(producer, id), 0)), Wake(producer), 0)
    {
      queuedShutdowns := queuedShutdowns + [id];
      pushing := pushing + {producer};
      if id < scheduled && id in aborted { told := told + {id}; }
      assert View(pc) == old(Step(View(pc), PushShutdown(producer, id), 0));
      Wakeup(producer, pc);
    }

    /** `drain_queued_shutdowns`: batches are taken until one comes out empty, and a message
        whose request cannot be found anywhere sets the flag. `found` names the requests that
        have a socket or a waiting connection; only started ones do. */
    method DrainQueuedShutdowns(found: set<Id>)
      requires found <= active
      modifies this`queuedShutdowns, this`hasPendingQueuedAbort
      ensures var unmatched := exists i :: 0 <= i < |old(queuedShutdowns)| && old(queuedShutdowns)[i] !in found;
              View(LoadActive) ==
              if old(queuedShutdowns) == [] then Step(old(View(DrainShutdowns)), Drain(unmatched), 0)
              else Step(Step(old(View(DrainShutdowns)), Drain(unmatched), 0), Drain(false), 0)
    {
      ghost var all := queuedShutdowns;
      ghost var before := hasPendingQueuedAbort;
      while true
        invariant queuedShutdowns == all || queuedShutdowns == []
        invariant queuedShutdowns != [] ==> hasPendingQueuedAbort == before
        invariant queuedShutdowns == [] ==>
                    (hasPendingQueuedAbort <==> before || exists i :: 0 <= i < |all| && all[i] !in found)
        decreases |queuedShutdowns|
      {
        var batch := queuedShutdowns;
        queuedShutdowns := [];
        var k := 0;
        while k < |batch|
          invariant 0 <= k <= |batch| && queuedShutdowns == []
          invariant batch == [] ==>
                      (hasPendingQueuedAbort <==> before || exists i :: 0 <= i < |all| && all[i] !in found)
          invariant batch != [] ==>
                      (hasPendingQueuedAbort <==> before || exists i :: 0 <= i < k && batch[i] !in found)
        {
          if batch[k] !in found {
            hasPendingQueuedAbort := true;
          }
          k := k + 1;
        }
        if |batch| == 0 { break; }
      }
    }

    /** The last test of `onAsyncHTTPCallback`. */
    method WakeForRoom(max: nat, ghost pc: Pc)
      modifies this`wakeupPending
      ensures View(pc) == WakeIfRoom(old(View(pc)), max)
    {
      if (queuedTasks != [] || deferredTasks != []) && activeRequestsCount < max {
        wakeupPending := true;
      }
    }

    /** `onAsyncHTTPCallback`: the assertion on the counter holds. */
    method OnCallback(id: Id, hasMore: bool, max: nat, ghost pc: Pc)
      requires activeRequestsCount > 0
      modifies this`active, this`finished, this`activeRequestsCount, this`wakeupPending
      ensures View(pc) == Answered(old(View(pc)), id, hasMore, max)
    {
      if !hasMore {
        active := active - {id};
        finished := finished + {id};
        var before := activeRequestsCount;
        activeRequestsCount := activeRequestsCount - 1;
        assert before > 0;
      }
      WakeForRoom(max, pc);
    }

    /** `start_queued_task` and `onStart`; a request may fail before the call returns. */
    method StartQueuedTask(id: Id, failsAtOnce: bool, max: nat, ghost pc: Pc)
      modifies this`active, this`finished, this`activeRequestsCount, this`wakeupPending
      ensures View(pc) == Start(old(View(pc)), id, failsAtOnce, max)
    {
      activeRequestsCount := activeRequestsCount + 1;
      active := active + {id};
      if failsAtOnce {
        OnCallback(id, false, max, pc);
      }
    }

    /** The loop over the deferred requests. */
    method PassOverDeferred(max: nat, failing: set<Id>, ghost seen: set<Id>) returns (loaded: nat)
      requires Inv(Step(View(LoadActive), Load, max), max) && Step(View(LoadActive), Load, max).pc.PassDeferred?
      requires seen == Step(View(LoadActive), Load, max).pc.seen
      modifies this
      ensures RunPass(View(PassQueue(loaded, seen)), failing, max)
              == RunPass(old(Step(View(LoadActive), Load, max)), failing, max)
      ensures Inv(View(PassQueue(loaded, seen)), max)
    {
      hide Inv, Start, RunPass;
      ghost var s0 := Step(View(LoadActive), Load, max);
      loaded := activeRequestsCount;
      hasPendingQueuedAbort := false;
      var pending := deferredTasks;
      deferredTasks := [];
      var i := 0;
      assert pending[0..] == pending;
      while i < |pending|
        invariant 0 <= i <= |pending|
        invariant Inv(View(PassDeferred(pending[i..], loaded, seen)), max)
        invariant RunPass(View(PassDeferred(pending[i..], loaded, seen)), failing, max) == RunPass(s0, failing, max)
      {
        var http := pending[i];
        ghost var s := View(PassDeferred(pending[i..], loaded, seen));
        assert pending[i..][1..] == pending[i + 1..];
        RunPassStep(s, failing, max);
        if http in aborted || loaded < max {
          StartQueuedTask(http, http in failing, max, PassDeferred(pending[i + 1..], loaded, seen));
          loaded := activeRequestsCount;
        } else {
          deferredTasks := deferredTasks + [http];
        }
        assert View(PassDeferred(pending[i + 1..], loaded, seen)) == AdmitStep(s, NextFails(s, failing), max);
        i := i + 1;
      }
      assert pending[i..] == [];
      RunPassStep(View(PassDeferred([], loaded, seen)), failing, max);
      assert View(PassQueue(loaded, seen)) == AdmitStep(View(PassDeferred([], loaded, seen)), false, max);
    }

    /** The loop over the queue. */
    method PassOverQueue(max: nat, failing: set<Id>, ghost seen: set<Id>, loaded: nat)
      requires Inv(View(PassQueue(loaded, seen)), max)
      modifies this
      ensures View(AboutToBlock(seen)) == RunPass(old(View(PassQueue(loaded, seen))), failing, max)
      ensures Inv(View(AboutToBlock(seen)), max)
    {
      hide Inv, Start, RunPass;
      ghost var s0 := View(PassQueue(loaded, seen));
      var count: nat := loaded;
      while queuedTasks != []
        invariant Inv(View(PassQueue(count, seen)), max)
        invariant RunPass(View(PassQueue(count, seen)), failing, max) == RunPass(s0, failing, max)
        decreases |queuedTasks|
      {
        ghost var s := View(PassQueue(count, seen));
        RunPassStep(s, failing, max);
        var http := queuedTasks[0];
        queuedTasks := queuedTasks[1..];
        if http !in aborted && count >= max {
          deferredTasks := deferredTasks + [http];
        } else {
          StartQueuedTask(http, http in failing, max, PassQueue(count, seen));
          count := activeRequestsCount;
        }
        assert View(PassQueue(count, seen)) == AdmitStep(s, NextFails(s, failing), max);
      }
      ghost var s := View(PassQueue(count, seen));
      RunPassStep(s, failing, max);
      assert View(AboutToBlock(seen)) == AdmitStep(s, NextFails(s, failing), max);
    }

    /** The admission half of `drain_events`: nothing happens with a full house and no
        queued abort; otherwise one whole pass runs. Afterwards a non-empty deferred list
        means the house is full. */
    method AdmitRequests(max: nat, failing: set<Id>) returns (ghost seen: set<Id>)
      requires Inv(View(LoadActive), max)
      modifies this
      ensures Inv(View(AboutToBlock(seen)), max)
      ensures View(AboutToBlock(seen)) ==
              var s := old(Step(View(LoadActive), Load, max));
              if s.pc.AboutToBlock? then s else RunPass(s, failing, max)
      ensures deferredTasks != [] ==> activeRequestsCount >= max
    {
      ghost var s := View(LoadActive);
      StepKeeps(s, Load, max);
      seen := {};
      if activeRequestsCount >= max && !hasPendingQueuedAbort {
        return;
      }
      seen := Step(s, Load, max).pc.seen;
      var loaded := PassOverDeferred(max, failing, seen);
      PassOverQueue(max, failing, seen, loaded);
    }
  }
}
