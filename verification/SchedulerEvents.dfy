/** What each step of the HTTP scheduler does to the requests, the counter and the wake-up flag,
    said of the states before and after. */
module SchedulerEvents {
  import opened Scheduler

  // ---------------------------------------------------------------- callbacks

  /** A response with more to come ends nothing. */
  lemma MoreToComeEndsNothing(s: State, id: Id, max: nat)
    requires Inv(s, max) && Enabled(s, Callback(id, true))
    ensures s.counter > 0
    ensures var t := Step(s, Callback(id, true), max);
            && t.active == s.active && t.finished == s.finished && t.counter == s.counter
            && t.queued == s.queued && t.deferred == s.deferred && t.pc == s.pc
  {
    StepKeeps(s, Callback(id, true), max);
  }

  /** The last callback of a request moves it from the active ones to the finished ones, and
      lowers the counter by one. */
  lemma LastCallbackEndsOne(s: State, id: Id, max: nat)
    requires Inv(s, max) && Enabled(s, Callback(id, false))
    ensures s.counter > 0
    ensures var t := Step(s, Callback(id, false), max);
            && t.active == s.active - {id} && t.finished == s.finished + {id} && t.counter == s.counter - 1
            && t.queued == s.queued && t.deferred == s.deferred && t.pc == s.pc
  {
    StepKeeps(s, Callback(id, false), max);
  }

  /** A callback wakes the loop exactly when a request waits and there is room after it. */
  lemma CallbackWakes(s: State, id: Id, hasMore: bool, max: nat)
    requires Inv(s, max) && Enabled(s, Callback(id, hasMore))
    ensures s.counter > 0
    ensures var active := if hasMore then s.counter else s.counter - 1;
            Step(s, Callback(id, hasMore), max).wakeup <==>
            s.wakeup || ((s.queued != [] || s.deferred != []) && active < max)
  {
    StepKeeps(s, Callback(id, hasMore), max);
  }

  // ---------------------------------------------------------------- admission

  /** The request a pass looks at next. */
  function NextUp(s: State): seq<Id> {
    match s.pc
    case PassDeferred(rest, _, _) => rest
    case PassQueue(_, _) => s.queued
    case _ => []
  }

  /** A pass starts the next request exactly if it was aborted or there is room, and defers it
      otherwise. A started request counts as active, unless it failed at once. */
  lemma AdmissionDecides(s: State, failsAtOnce: bool, max: nat)
    requires Inv(s, max) && (s.pc.PassDeferred? || s.pc.PassQueue?) && NextUp(s) != []
    ensures var id := NextUp(s)[0];
            var t := Step(s, Admit(failsAtOnce), max);
            && NextUp(t) == NextUp(s)[1..]
            && if id in s.aborted || s.counter < max then
                 && t.deferred == s.deferred
                 && (if failsAtOnce then
                       t.active == s.active && t.finished == s.finished + {id} && t.counter == s.counter
                     else t.active == s.active + {id} && t.finished == s.finished && t.counter == s.counter + 1)
               else
                 && t.deferred == s.deferred + [id]
                 && t.active == s.active && t.finished == s.finished && t.counter == s.counter
  {
    NextIsWaiting(s, max);
    assert s.pc.active == s.counter;
    hide Inv;
    if s.pc.PassDeferred? {
      DeferredDecides(s, failsAtOnce, max);
    } else {
      QueuedDecides(s, failsAtOnce, max);
    }
  }

  lemma DeferredDecides(s: State, failsAtOnce: bool, max: nat)
    requires s.pc.PassDeferred? && s.pc.rest != [] && s.pc.active == s.counter && s.pc.rest[0] !in s.active
    ensures var id := s.pc.rest[0];
            var t := AdmitStep(s, failsAtOnce, max);
            && t.pc.PassDeferred? && t.pc.rest == s.pc.rest[1..]
            && if id in s.aborted || s.counter < max then
                 && t.deferred == s.deferred
                 && (if failsAtOnce then
                       t.active == s.active && t.finished == s.finished + {id} && t.counter == s.counter
                     else t.active == s.active + {id} && t.finished == s.finished && t.counter == s.counter + 1)
               else
                 && t.deferred == s.deferred + [id]
                 && t.active == s.active && t.finished == s.finished && t.counter == s.counter
  {
    var id := s.pc.rest[0];
    StartFacts(s.(pc := PassDeferred(s.pc.rest[1..], s.pc.active, s.pc.seen)), id, failsAtOnce, max);
    hide Start;
    assert s.active + {id} - {id} == s.active;
  }

  lemma QueuedDecides(s: State, failsAtOnce: bool, max: nat)
    requires s.pc.PassQueue? && s.queued != [] && s.pc.active == s.counter && s.queued[0] !in s.active
    ensures var id := s.queued[0];
            var t := AdmitStep(s, failsAtOnce, max);
            && t.pc.PassQueue? && t.queued == s.queued[1..]
            && if id in s.aborted || s.counter < max then
                 && t.deferred == s.deferred
                 && (if failsAtOnce then
                       t.active == s.active && t.finished == s.finished + {id} && t.counter == s.counter
                     else t.active == s.active + {id} && t.finished == s.finished && t.counter == s.counter + 1)
               else
                 && t.deferred == s.deferred + [id]
                 && t.active == s.active && t.finished == s.finished && t.counter == s.counter
  {
    var id := s.queued[0];
    StartFacts(s.(queued := s.queued[1..]), id, failsAtOnce, max);
    hide Start;
    assert s.active + {id} - {id} == s.active;
  }

  lemma NextIsWaiting(s: State, max: nat)
    requires Inv(s, max) && (s.pc.PassDeferred? || s.pc.PassQueue?) && NextUp(s) != []
    ensures NextUp(s)[0] !in s.active && NextUp(s)[0] !in s.finished
  {
    var id := NextUp(s)[0];
    assert id in Waiting(s) by {
      assert id in NextUp(s);
    }
    hide Waiting;
  }

  /** With a full house and no abort to serve, nothing is looked at. Otherwise a pass begins over
      all that was deferred, and the abort is being served. */
  lemma LoadDecides(s: State, max: nat)
    requires Enabled(s, Load)
    ensures var t := Step(s, Load, max);
            && t.queued == s.queued && t.active == s.active && t.finished == s.finished && t.counter == s.counter
            && if s.counter >= max && !s.pendingAbort then t.pc.AboutToBlock? && t.deferred == s.deferred
               else t.pc.PassDeferred? && t.pc.rest == s.deferred && t.deferred == [] && !t.pendingAbort
                    && t.pc.seen == set id | id in s.aborted && id < s.scheduled
  {
  }

  /** A request ends only by its last callback, or by failing at once when it is started. */
  lemma EndsOnlySo(s: State, e: Event, id: Id, max: nat)
    requires Inv(s, max) && Enabled(s, e) && (e.Callback? ==> s.counter > 0)
    requires id !in s.finished && id in Step(s, e, max).finished
    ensures e == Callback(id, false)
            || (e == Admit(true) && NextUp(s) != [] && id == NextUp(s)[0] && (id in s.aborted || s.counter < max))
  {
    hide Inv;
    if e.Admit? {
      if NextUp(s) != [] {
        AdmissionDecides(s, e.failsAtOnce, max);
      } else {
        NothingToAdmit(s, e.failsAtOnce, max);
      }
      hide AdmitStep, Partition;
    } else {
      OthersEndNothing(s, e, id, max);
    }
  }

  lemma NothingToAdmit(s: State, failsAtOnce: bool, max: nat)
    requires (s.pc.PassDeferred? || s.pc.PassQueue?) && NextUp(s) == []
    ensures AdmitStep(s, failsAtOnce, max).finished == s.finished
  {
  }

  lemma OthersEndNothing(s: State, e: Event, id: Id, max: nat)
    requires Enabled(s, e) && !e.Admit? && (e.Callback? ==> s.counter > 0)
    ensures id in Step(s, e, max).finished && id !in s.finished ==> e == Callback(id, false)
  {
  }

  /** Over every run: a request has finished only if its last callback came, or some started
      request failed at once. */
  lemma {:induction false} FinishedByAnEnd(s: State, events: seq<Event>, id: Id, max: nat)
    requires Reachable(s, events, max) && id in s.finished
    ensures exists i :: 0 <= i < |events| && (events[i] == Callback(id, false) || events[i] == Admit(true))
    decreases |events|
  {
    if events != [] {
      var last := |events| - 1;
      var p :| Reachable(p, events[..last], max) && Enabled(p, events[last])
               && (events[last].Callback? ==> p.counter > 0) && s == Step(p, events[last], max);
      ReachableInv(p, events[..last], max);
      hide Reachable, Inv, Enabled, Step;
      if id in p.finished {
        FinishedByAnEnd(p, events[..last], id, max);
        var i :| 0 <= i < last && (events[..last][i] == Callback(id, false) || events[..last][i] == Admit(true));
        assert events[i] == events[..last][i];
      } else {
        EndsOnlySo(p, events[last], id, max);
      }
    }
  }

  // ---------------------------------------------------------------- messages and wake-ups

  /** What producers push joins its list, and a wake-up call is owed. */
  lemma PushesJoin(s: State, p: nat, id: Id, max: nat)
    ensures var t := Step(s, PushTask(p), max);
            t.queued == s.queued + [s.scheduled] && t.scheduled == s.scheduled + 1 && p in t.pushing
    ensures var t := Step(s, PushResponseDrain(p), max); t.responseDrains == s.responseDrains + 1 && p in t.pushing
    ensures var t := Step(s, PushWrite(p), max); t.writes == s.writes + 1 && p in t.pushing
    ensures var t := Step(s, PushShutdown(p, id), max); t.shutdowns == s.shutdowns + [id] && p in t.pushing
    ensures Step(s, Abort(id), max).aborted == s.aborted + {id}
  {
  }

  /** A wake-up call counts only once the loop has come up, and the loop's turn uses it up. */
  lemma WakeUps(s: State, p: nat, max: nat)
    ensures Enabled(s, Wake(p)) ==>
              var t := Step(s, Wake(p), max);
              (t.wakeup <==> s.wakeup || s.hasAwoken) && t.pushing == s.pushing - {p}
    ensures Enabled(s, Awaken) ==> Step(s, Awaken, max).hasAwoken && Step(s, Awaken, max).wakeup == s.wakeup
    ensures Enabled(s, Tick) ==> !Step(s, Tick, max).wakeup
  {
  }

  /** Nothing wakes the loop before it has come up. */
  lemma {:induction false} AsleepAtFirst(s: State, events: seq<Event>, max: nat)
    requires Reachable(s, events, max) && s.pc.Starting?
    ensures !s.wakeup && !s.hasAwoken && s.active == {} && s.deferred == []
    decreases |events|
  {
    hide Enabled, Step;
    if events != [] {
      var last := |events| - 1;
      var p :| Reachable(p, events[..last], max) && Enabled(p, events[last])
               && (events[last].Callback? ==> p.counter > 0) && s == Step(p, events[last], max);
      hide Reachable;
      StartingBefore(p, events[last], max);
      AsleepAtFirst(p, events[..last], max);
    }
  }

  lemma StartingBefore(s: State, e: Event, max: nat)
    requires Enabled(s, e) && (e.Callback? ==> s.counter > 0) && Step(s, e, max).pc.Starting?
    ensures s.pc.Starting?
    ensures !s.wakeup && !s.hasAwoken && s.active == {} && s.deferred == [] ==>
              var t := Step(s, e, max); !t.wakeup && !t.hasAwoken && t.active == {} && t.deferred == []
  {
    if e.Admit? {
      AdmitFrame(s, e.failsAtOnce, max);
      hide AdmitStep;
    }
  }

  /** Each list is emptied before the loop moves past it, and the flag is set exactly when a
      shutdown message found no request. */
  lemma DrainsEmpty(s: State, unmatched: bool, max: nat)
    requires Enabled(s, Drain(unmatched))
    ensures var t := Step(s, Drain(unmatched), max);
            match s.pc
            case DrainResponses => t.responseDrains == 0 && (t.pc.DrainWrites? <==> s.responseDrains == 0)
            case DrainWrites => t.writes == 0 && (t.pc.DrainShutdowns? <==> s.writes == 0)
            case _ =>
              && t.shutdowns == [] && (t.pc.LoadActive? <==> s.shutdowns == [])
              && (t.pendingAbort <==> s.pendingAbort || (s.shutdowns != [] && unmatched))
  {
  }
}
