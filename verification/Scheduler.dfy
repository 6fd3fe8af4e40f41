/** The HTTP request scheduler (networking/http_thread.rs, networking/common/https.zig) as
    interleaved atomic steps: producers push work and wake the loop, the loop drains, admits
    requests up to a limit, defers the rest, and blocks. Requests are numbered in the order
    they were pushed. */
module Scheduler {

  type Id = nat

  /** Where the loop's thread is. `seen` is, during and after a pass, the set of requests
      that were already aborted when the pass began. */
  datatype Pc =
    | Starting
    | DrainResponses
    | DrainWrites
    | DrainShutdowns
    | LoadActive
    | PassDeferred(rest: seq<Id>, active: nat, seen: set<Id>)
    | PassQueue(active: nat, seen: set<Id>)
    | AboutToBlock(seen: set<Id>)
    | Dispatching

  /** `told` is bookkeeping: the requests that were scheduled and aborted when a shutdown
      message for them was pushed. */
  datatype State = State(
    scheduled: nat,
    queued: seq<Id>, deferred: seq<Id>, active: set<Id>, finished: set<Id>, counter: nat,
    aborted: set<Id>, told: set<Id>, pendingAbort: bool,
    responseDrains: nat, writes: nat, shutdowns: seq<Id>,
    hasAwoken: bool, wakeup: bool, pushing: set<nat>,
    pc: Pc)

  const Initial: State := State(0, [], [], {}, {}, 0, {}, {}, false, 0, 0, [], false, false, {}, Starting)

  // ---------------------------------------------------------------- steps

  datatype Event =
    // producers and the rest of the program
    | PushTask(producer: nat)
    | PushResponseDrain(producer: nat)
    | PushWrite(producer: nat)
    | PushShutdown(producer: nat, id: Id)
    | Wake(producer: nat)
    | Abort(id: Id)
    // the loop's thread
    | Awaken
    | Drain(unmatched: bool)
    | Load
    | Admit(failsAtOnce: bool)
    | Tick
    | EndDispatch
    | Callback(id: Id, hasMore: bool)

  function Rest(pc: Pc): seq<Id> {
    if pc.PassDeferred? then pc.rest else []
  }

  /** Everything scheduled that has not been started, in the order it will be considered. */
  function Waiting(s: State): seq<Id> {
    s.deferred + Rest(s.pc) + s.queued
  }

  /** The end of `onAsyncHTTPCallback`: wake the loop if something could now start. */
  function WakeIfRoom(s: State, max: nat): State {
    if (s.queued != [] || s.deferred != []) && s.counter < max then s.(wakeup := true) else s
  }

  /** The final callback of a request. */
  function Finish(s: State, id: Id, max: nat): State
    requires s.counter > 0
  {
    WakeIfRoom(s.(active := s.active - {id}, finished := s.finished + {id}, counter := s.counter - 1), max)
  }

  /** `onAsyncHTTPCallback`; a response with more to come ends nothing. */
  function Answered(s: State, id: Id, hasMore: bool, max: nat): State
    requires s.counter > 0
  {
    if hasMore then WakeIfRoom(s, max) else Finish(s, id, max)
  }

  /** `start_queued_task`, whose request may fail before it returns. */
  function Start(s: State, id: Id, failsAtOnce: bool, max: nat): State {
    var t := s.(active := s.active + {id}, counter := s.counter + 1);
    if failsAtOnce then Finish(t, id, max) else t
  }

  /** Callbacks run while the loop dispatches events or handles messages. */
  predicate CallbacksRun(pc: Pc) {
    pc.DrainResponses? || pc.DrainWrites? || pc.DrainShutdowns? || pc.LoadActive? || pc.Dispatching?
  }

  predicate Enabled(s: State, e: Event) {
    match e
    case Wake(p) => p in s.pushing
    case Awaken => s.pc.Starting?
    case Drain(unmatched) =>
      // a shutdown for a request that is not active finds nothing to close
      && (s.pc.DrainResponses? || s.pc.DrainWrites? || s.pc.DrainShutdowns?)
      && (s.pc.DrainShutdowns? && (exists i :: 0 <= i < |s.shutdowns| && s.shutdowns[i] !in s.active) ==> unmatched)
    case Load => s.pc.LoadActive?
    case Admit(_) => s.pc.PassDeferred? || s.pc.PassQueue?
    case Tick => s.pc.AboutToBlock?
    case EndDispatch => s.pc.Dispatching?
    case Callback(id, _) => CallbacksRun(s.pc) && id in s.active
    case _ => true
  }

  function AdmitStep(s: State, failsAtOnce: bool, max: nat): State
    requires s.pc.PassDeferred? || s.pc.PassQueue?
  {
    match s.pc
    case PassDeferred(rest, active, seen) =>
      if rest == [] then s.(pc := PassQueue(active, seen))
      else
        var id := rest[0];
        if id in s.aborted || active < max then
          var t := Start(s.(pc := PassDeferred(rest[1..], active, seen)), id, failsAtOnce, max);
          t.(pc := PassDeferred(rest[1..], t.counter, seen))
        else
          s.(deferred := s.deferred + [id], pc := PassDeferred(rest[1..], active, seen))
    case PassQueue(active, seen) =>
      if s.queued == [] then s.(pc := AboutToBlock(seen))
      else
        var id := s.queued[0];
        var t := s.(queued := s.queued[1..]);
        if id !in s.aborted && active >= max then t.(deferred := s.deferred + [id])
        else
          var u := Start(t, id, failsAtOnce, max);
          u.(pc := PassQueue(u.counter, seen))
  }

  function Step(s: State, e: Event, max: nat): State
    requires Enabled(s, e) && (e.Callback? ==> s.counter > 0)
  {
    match e
    case PushTask(p) => s.(queued := s.queued + [s.scheduled], scheduled := s.scheduled + 1, pushing := s.pushing + {p})
    case PushResponseDrain(p) => s.(responseDrains := s.responseDrains + 1, pushing := s.pushing + {p})
    case PushWrite(p) => s.(writes := s.writes + 1, pushing := s.pushing + {p})
    case PushShutdown(p, id) =>
      s.(shutdowns := s.shutdowns + [id], pushing := s.pushing + {p},
         told := if id < s.scheduled && id in s.aborted then s.told + {id} else s.told)
    case Wake(p) => s.(pushing := s.pushing - {p}, wakeup := s.wakeup || s.hasAwoken)
    case Abort(id) => s.(aborted := s.aborted + {id})
    case Awaken => s.(hasAwoken := true, pc := DrainResponses)
    case Drain(unmatched) =>
      (match s.pc
       case DrainResponses => if s.responseDrains == 0 then s.(pc := DrainWrites) else s.(responseDrains := 0)
       case DrainWrites => if s.writes == 0 then s.(pc := DrainShutdowns) else s.(writes := 0)
       case _ =>
         if s.shutdowns == [] then s.(pc := LoadActive)
         else s.(shutdowns := [], pendingAbort := s.pendingAbort || unmatched))
    case Load =>
      if s.counter >= max && !s.pendingAbort then s.(pc := AboutToBlock({}))
      else s.(pendingAbort := false, deferred := [],
              pc := PassDeferred(s.deferred, s.counter, set id | id in s.aborted && id < s.scheduled))
    case Admit(failsAtOnce) => AdmitStep(s, failsAtOnce, max)
    case Tick => s.(wakeup := false, pc := Dispatching)
    case EndDispatch => s.(pc := DrainResponses)
    case Callback(id, hasMore) => Answered(s, id, hasMore, max)
  }

  // ---------------------------------------------------------------- invariant

  ghost predicate Ascending(ids: seq<Id>) {
    forall i, j :: 0 <= i < j < |ids| ==> ids[i] < ids[j]
  }

  /** Every scheduled request is in exactly one place, and the counter counts the active ones. */
  ghost predicate Partition(s: State) {
    && Ascending(Waiting(s))
    && (forall id :: id in Waiting(s) ==> id < s.scheduled && id !in s.active && id !in s.finished)
    && (forall id :: id in s.active ==> id < s.scheduled && id !in s.finished)
    && (forall id :: id in s.finished ==> id < s.scheduled)
    && (forall id :: 0 <= id < s.scheduled ==> id in Waiting(s) || id in s.active || id in s.finished)
    && s.counter == |s.active|
  }

  /** During a pass the loop's copy of the counter is up to date, whatever has been deferred
      met a full house, and nothing aborted before the pass has been deferred by it. */
  ghost predicate PassInv(s: State, max: nat) {
    && (s.pc.PassDeferred? ==> s.pc.active == s.counter)
    && (s.pc.PassQueue? ==> s.pc.active == s.counter)
    && (s.pc.PassDeferred? || s.pc.PassQueue? || s.pc.AboutToBlock? ==>
          (s.deferred != [] ==> s.counter >= max)
          && s.pc.seen <= s.aborted
          && forall id :: id in s.pc.seen ==> id < s.scheduled && id !in s.deferred)
    && (s.pc.AboutToBlock? ==> forall id :: id in s.pc.seen ==> id in s.active || id in s.finished)
  }

  /** Someone will make the loop run again without blocking. */
  predicate WakeIsComing(s: State) {
    s.wakeup || s.pushing != {}
  }

  predicate BeforeResponses(pc: Pc) { pc.Starting? || pc.Dispatching? || pc.DrainResponses? }

  predicate BeforeWrites(pc: Pc) { BeforeResponses(pc) || pc.DrainWrites? }

  predicate BeforeShutdowns(pc: Pc) { BeforeWrites(pc) || pc.DrainShutdowns? }

  predicate BeforeBlocking(pc: Pc) { !pc.AboutToBlock? }

  /** Work is never left behind: either a wake-up is coming, or the thread has yet to pass
      the place where it would pick the work up. */
  ghost predicate WakeInv(s: State, max: nat) {
    && (s.hasAwoken <==> !s.pc.Starting?)
    && (s.responseDrains > 0 ==> WakeIsComing(s) || BeforeResponses(s.pc))
    && (s.writes > 0 ==> WakeIsComing(s) || BeforeWrites(s.pc))
    && (s.shutdowns != [] ==> WakeIsComing(s) || BeforeShutdowns(s.pc))
    && (Waiting(s) != [] && s.counter < max ==> WakeIsComing(s) || BeforeBlocking(s.pc))
  }

  predicate Started(s: State, id: Id) {
    id in s.active || id in s.finished
  }

  /** What will make a pass let a request through of whose abort the loop was told. */
  predicate AbortIsKept(s: State, id: Id) {
    || id in s.shutdowns
    || (s.pendingAbort && (s.pc.DrainShutdowns? || s.pc.LoadActive?))
    || (s.pc.PassDeferred? && id in s.pc.seen)
    || (s.pc.PassQueue? && id in s.pc.seen)
  }

  ghost predicate AbortInv(s: State) {
    forall id :: id in s.told ==>
      id < s.scheduled && id in s.aborted && (Started(s, id) || AbortIsKept(s, id))
  }

  ghost predicate Inv(s: State, max: nat) {
    Partition(s) && PassInv(s, max) && WakeInv(s, max) && AbortInv(s)
  }

  // ---------------------------------------------------------------- the steps keep it

  lemma RemoveAt(a: seq<Id>, id: Id, b: seq<Id>)
    requires Ascending(a + [id] + b)
    ensures Ascending(a + b) && id !in a + b
  {
    var w, v := a + [id] + b, a + b;
    forall i, j | 0 <= i < j < |v| ensures v[i] < v[j] {
      var i' := if i < |a| then i else i + 1;
      var j' := if j < |a| then j else j + 1;
      assert v[i] == w[i'] && v[j] == w[j'];
    }
    forall i | 0 <= i < |v| ensures v[i] != id {
      var i' := if i < |a| then i else i + 1;
      assert v[i] == w[i'] && w[|a|] == id;
    }
  }

  lemma SplitMembers(a: seq<Id>, id: Id, b: seq<Id>)
    ensures forall x :: x in a + [id] + b <==> x in a + b || x == id
  {
  }

  /** What a start changes: the request becomes active, or finished at once. */
  lemma StartFacts(t: State, id: Id, failsAtOnce: bool, max: nat)
    ensures var u := Start(t, id, failsAtOnce, max);
            && u == t.(active := u.active, finished := u.finished, counter := u.counter, wakeup := u.wakeup)
            && u.counter == t.counter + (if failsAtOnce then 0 else 1)
            && (if failsAtOnce then u.active == t.active + {id} - {id} && u.finished == t.finished + {id}
                else u.active == t.active + {id} && u.finished == t.finished)
            && (t.wakeup ==> u.wakeup)
  {
  }

  lemma StartedByStart(t: State, id: Id, failsAtOnce: bool, max: nat)
    ensures forall x :: Started(Start(t, id, failsAtOnce, max), x) <==> Started(t, x) || x == id
  {
    StartFacts(t, id, failsAtOnce, max);
    hide Start;
  }

  /** Taking one waiting request out and starting it. */
  lemma StartKeepsPartition(s: State, t: State, a: seq<Id>, id: Id, b: seq<Id>, failsAtOnce: bool, max: nat)
    requires Partition(s) && Waiting(s) == a + [id] + b && Waiting(t) == a + b
    requires t.active == s.active && t.finished == s.finished && t.counter == s.counter && t.scheduled == s.scheduled
    ensures var u := Start(t, id, failsAtOnce, max);
            && Partition(u)
            && u.counter == s.counter + (if failsAtOnce then 0 else 1)
  {
    assert Ascending(a + [id] + b);
    var u := Start(t, id, failsAtOnce, max);
    assert Waiting(u) == a + b;
    RemoveAt(a, id, b);
    StartFacts(t, id, failsAtOnce, max);
    SplitMembers(a, id, b);
    hide Partition, Ascending, Waiting, Start;
    MoveOut(s, u, id);
  }

  /** What the partition needs to know about a start. */
  lemma MoveOut(s: State, u: State, id: Id)
    requires Partition(s) && u.scheduled == s.scheduled && Ascending(Waiting(u))
    requires id !in Waiting(u) && id in Waiting(s)
    requires forall x :: x in Waiting(s) <==> x in Waiting(u) || x == id
    requires (u.active == s.active + {id} && u.finished == s.finished && u.counter == s.counter + 1)
             || (u.active == s.active + {id} - {id} && u.finished == s.finished + {id} && u.counter == s.counter)
    ensures Partition(u)
  {
    hide Waiting, Ascending;
    assert id !in s.active;
    assert s.active + {id} - {id} == s.active;
  }

  /** Steps that move no request keep the partition. */
  lemma SamePlaces(s: State, t: State)
    requires Partition(s) && Waiting(t) == Waiting(s)
    requires t.active == s.active && t.finished == s.finished && t.counter == s.counter && t.scheduled == s.scheduled
    ensures Partition(t)
  {
  }

  lemma WaitingInPass(s: State, seen: set<Id>, active: nat)
    requires s.pc.PassDeferred? && s.pc.rest != []
    ensures var id, rest := s.pc.rest[0], s.pc.rest[1..];
            && Waiting(s) == s.deferred + [id] + (rest + s.queued)
            && Waiting(s.(pc := PassDeferred(rest, active, seen))) == s.deferred + (rest + s.queued)
            && Waiting(s.(deferred := s.deferred + [id], pc := PassDeferred(rest, active, seen))) == Waiting(s)
  {
  }

  lemma WaitingInQueue(s: State)
    requires s.pc.PassQueue?
    ensures s.queued == [] ==> Waiting(s) == s.deferred
    ensures s.queued != [] ==>
              var id, tail := s.queued[0], s.queued[1..];
              && Waiting(s) == s.deferred + [id] + tail
              && Waiting(s.(queued := tail)) == s.deferred + tail
              && Waiting(s.(queued := tail, deferred := s.deferred + [id])) == Waiting(s)
  {
  }

  lemma AdmitPartition(s: State, failsAtOnce: bool, max: nat)
    requires Partition(s) && (s.pc.PassDeferred? || s.pc.PassQueue?)
    ensures var u := AdmitStep(s, failsAtOnce, max);
            Partition(u) && u.counter >= s.counter
  {
    hide Waiting, Ascending, Partition;
    var u := AdmitStep(s, failsAtOnce, max);
    if s.pc.PassDeferred? && s.pc.rest != [] {
      var id, rest := s.pc.rest[0], s.pc.rest[1..];
      WaitingInPass(s, s.pc.seen, s.pc.active);
      if id in s.aborted || s.pc.active < max {
        var t := s.(pc := PassDeferred(rest, s.pc.active, s.pc.seen));
        StartKeepsPartition(s, t, s.deferred, id, rest + s.queued, failsAtOnce, max);
        SamePcPlaces(Start(t, id, failsAtOnce, max), u);
      } else {
        SamePlaces(s, u);
      }
    } else if s.pc.PassQueue? && s.queued != [] {
      var id, tail := s.queued[0], s.queued[1..];
      WaitingInQueue(s);
      if id !in s.aborted && s.pc.active >= max {
        SamePlaces(s, u);
      } else {
        var t := s.(queued := tail);
        StartKeepsPartition(s, t, s.deferred, id, tail, failsAtOnce, max);
        SamePcPlaces(Start(t, id, failsAtOnce, max), u);
      }
    } else {
      SamePcPlaces(s, u);
    }
  }

  lemma SamePcPlaces(s: State, t: State)
    requires Partition(s) && Rest(t.pc) == Rest(s.pc) && t == s.(pc := t.pc)
    ensures Partition(t)
  {
    assert Waiting(t) == Waiting(s);
    SamePlaces(s, t);
  }

  lemma AdmitPassDeferred(s: State, failsAtOnce: bool, max: nat)
    requires PassInv(s, max) && s.pc.PassDeferred? && s.pc.rest != []
    ensures PassInv(AdmitStep(s, failsAtOnce, max), max)
  {
    var id, rest := s.pc.rest[0], s.pc.rest[1..];
    var t := s.(pc := PassDeferred(rest, s.pc.active, s.pc.seen));
    StartFacts(t, id, failsAtOnce, max);
    hide Start;
    if id in s.aborted || s.pc.active < max {
      assert AdmitStep(s, failsAtOnce, max).deferred == s.deferred;
    } else {
      assert AdmitStep(s, failsAtOnce, max).deferred == s.deferred + [id];
    }
  }

  lemma AdmitPassQueue(s: State, failsAtOnce: bool, max: nat)
    requires PassInv(s, max) && s.pc.PassQueue? && s.queued != []
    ensures PassInv(AdmitStep(s, failsAtOnce, max), max)
  {
    var id, tail := s.queued[0], s.queued[1..];
    StartFacts(s.(queued := tail), id, failsAtOnce, max);
    hide Start;
    if id in s.aborted || s.pc.active < max {
      assert AdmitStep(s, failsAtOnce, max).deferred == s.deferred;
    } else {
      assert AdmitStep(s, failsAtOnce, max).deferred == s.deferred + [id];
    }
  }

  lemma AdmitPass(s: State, failsAtOnce: bool, max: nat)
    requires PassInv(s, max) && (s.pc.PassDeferred? || s.pc.PassQueue?)
    requires s.pc.PassQueue? && s.queued == [] ==> forall id :: id in s.pc.seen ==> Started(s, id)
    ensures PassInv(AdmitStep(s, failsAtOnce, max), max)
  {
    if s.pc.PassDeferred? && s.pc.rest != [] {
      AdmitPassDeferred(s, failsAtOnce, max);
    } else if s.pc.PassQueue? && s.queued != [] {
      AdmitPassQueue(s, failsAtOnce, max);
    }
  }

  lemma AdmitAbort(s: State, failsAtOnce: bool, max: nat)
    requires AbortInv(s) && (s.pc.PassDeferred? || s.pc.PassQueue?)
    requires s.pc.PassQueue? && s.queued == [] ==> forall id :: id in s.pc.seen ==> Started(s, id)
    ensures AbortInv(AdmitStep(s, failsAtOnce, max))
  {
    var u := AdmitStep(s, failsAtOnce, max);
    if s.pc.PassDeferred? && s.pc.rest != [] {
      var t := s.(pc := PassDeferred(s.pc.rest[1..], s.pc.active, s.pc.seen));
      StartFacts(t, s.pc.rest[0], failsAtOnce, max);
      StartedByStart(t, s.pc.rest[0], failsAtOnce, max);
    } else if s.pc.PassQueue? && s.queued != [] {
      var t := s.(queued := s.queued[1..]);
      StartFacts(t, s.queued[0], failsAtOnce, max);
      StartedByStart(t, s.queued[0], failsAtOnce, max);
    }
    hide Start;
    AdmitFrame(s, failsAtOnce, max);
    forall id | id in s.told ensures Started(u, id) || AbortIsKept(u, id) {
      assert Started(s, id) ==> Started(u, id);
    }
  }

  /** What one turn of a pass leaves alone, and where it goes. */
  lemma AdmitFrame(s: State, failsAtOnce: bool, max: nat)
    requires s.pc.PassDeferred? || s.pc.PassQueue?
    ensures var u := AdmitStep(s, failsAtOnce, max);
            && u == s.(queued := u.queued, deferred := u.deferred, active := u.active, finished := u.finished,
                       counter := u.counter, wakeup := u.wakeup, pc := u.pc)
            && (s.wakeup ==> u.wakeup)
            && (u.pc.PassDeferred? || u.pc.PassQueue? || u.pc.AboutToBlock?)
            && (u.pc.AboutToBlock? ==> s.pc.PassQueue? && u == s.(pc := u.pc) && s.queued == [])
  {
    if s.pc.PassDeferred? && s.pc.rest != [] {
      StartFacts(s.(pc := PassDeferred(s.pc.rest[1..], s.pc.active, s.pc.seen)), s.pc.rest[0], failsAtOnce, max);
    } else if s.pc.PassQueue? && s.queued != [] {
      StartFacts(s.(queued := s.queued[1..]), s.queued[0], failsAtOnce, max);
    }
    hide Start;
  }

  lemma AdmitWake(s: State, failsAtOnce: bool, max: nat)
    requires WakeInv(s, max) && PassInv(s, max) && (s.pc.PassDeferred? || s.pc.PassQueue?)
    ensures WakeInv(AdmitStep(s, failsAtOnce, max), max)
  {
    var u := AdmitStep(s, failsAtOnce, max);
    AdmitFrame(s, failsAtOnce, max);
    hide AdmitStep;
    if u.pc.AboutToBlock? {
      assert Waiting(u) == s.deferred;
    }
  }

  /** When the queue has run dry, nothing aborted before the pass is left waiting. */
  lemma SeenAreStarted(s: State, max: nat)
    requires Partition(s) && PassInv(s, max)
    ensures s.pc.PassQueue? && s.queued == [] ==> forall id :: id in s.pc.seen ==> Started(s, id)
  {
    if s.pc.PassQueue? && s.queued == [] {
      WaitingInQueue(s);
    }
  }

  lemma AdmitKeeps(s: State, failsAtOnce: bool, max: nat)
    requires Inv(s, max) && (s.pc.PassDeferred? || s.pc.PassQueue?)
    ensures Inv(AdmitStep(s, failsAtOnce, max), max)
  {
    hide Ascending, PassInv, WakeInv, AbortInv, Partition, Waiting, Started, AdmitStep;
    AdmitPartition(s, failsAtOnce, max);
    SeenAreStarted(s, max);
    AdmitAbort(s, failsAtOnce, max);
    AdmitPass(s, failsAtOnce, max);
    AdmitWake(s, failsAtOnce, max);
  }

  lemma CallbackPartition(s: State, id: Id, hasMore: bool, max: nat)
    requires Partition(s) && id in s.active
    ensures s.counter > 0 && Partition(Answered(s, id, hasMore, max))
  {
    assert s.active != {};
    var u := Answered(s, id, hasMore, max);
    assert Waiting(u) == Waiting(s);
    if hasMore {
      SamePlaces(s, u);
    } else {
      FinishedPlaces(s, u, id);
    }
    hide *;
  }

  lemma FinishedPlaces(s: State, u: State, id: Id)
    requires Partition(s) && Waiting(u) == Waiting(s) && id in s.active && u.scheduled == s.scheduled
    requires u.active == s.active - {id} && u.finished == s.finished + {id} && u.counter == s.counter - 1
    ensures Partition(u)
  {
    hide Ascending, Waiting;
  }

  lemma CallbackWake(s: State, id: Id, hasMore: bool, max: nat)
    requires WakeInv(s, max) && CallbacksRun(s.pc) && s.counter > 0
    ensures WakeInv(Answered(s, id, hasMore, max), max)
  {
    assert Waiting(Answered(s, id, hasMore, max)) == Waiting(s);
    hide Waiting;
  }

  lemma CallbackAbort(s: State, id: Id, hasMore: bool, max: nat)
    requires AbortInv(s) && s.counter > 0 && id in s.active
    ensures AbortInv(Answered(s, id, hasMore, max))
  {
    var u := Answered(s, id, hasMore, max);
    forall x ensures Started(u, x) == Started(s, x) && AbortIsKept(u, x) == AbortIsKept(s, x) {
    }
  }

  lemma CallbackKeeps(s: State, id: Id, hasMore: bool, max: nat)
    requires Inv(s, max) && CallbacksRun(s.pc) && id in s.active
    ensures s.counter > 0
    ensures Inv(Answered(s, id, hasMore, max), max)
  {
    CallbackPartition(s, id, hasMore, max);
    CallbackWake(s, id, hasMore, max);
    CallbackAbort(s, id, hasMore, max);
    hide Partition, WakeInv, AbortInv;
  }

  lemma AscendingAppend(ids: seq<Id>, x: Id)
    requires Ascending(ids) && forall id :: id in ids ==> id < x
    ensures Ascending(ids + [x])
  {
    forall i | 0 <= i < |ids| ensures ids[i] < x {
      assert ids[i] in ids;
    }
  }

  lemma PushTaskKeeps(s: State, p: nat, max: nat)
    requires Inv(s, max)
    ensures Inv(Step(s, PushTask(p), max), max)
  {
    var t := Step(s, PushTask(p), max);
    assert Waiting(t) == Waiting(s) + [s.scheduled];
    assert forall x :: x in Waiting(t) <==> x in Waiting(s) || x == s.scheduled;
    AscendingAppend(Waiting(s), s.scheduled);
    assert t.pushing != {} by {
      assert p in t.pushing;
    }
  }

  lemma StepKeeps(s: State, e: Event, max: nat)
    requires Inv(s, max) && Enabled(s, e)
    ensures e.Callback? ==> s.counter > 0
    ensures Inv(Step(s, e, max), max)
  {
    match e
    case PushTask(p) =>
      PushTaskKeeps(s, p, max);
    case Admit(failsAtOnce) =>
      AdmitKeeps(s, failsAtOnce, max);
    case Callback(id, hasMore) =>
      CallbackKeeps(s, id, hasMore, max);
    case _ =>
      QuietStepKeeps(s, e, max);
  }

  predicate Quiet(e: Event) {
    !e.PushTask? && !e.Admit? && !e.Callback?
  }

  predicate PushesMessage(e: Event) {
    e.PushResponseDrain? || e.PushWrite? || e.PushShutdown?
  }

  /** Between a push and its wake-up call a wake-up is coming. */
  lemma MessageWake(s: State, e: Event, max: nat)
    requires WakeInv(s, max) && PushesMessage(e)
    ensures WakeInv(Step(s, e, max), max)
  {
    assert e.producer in Step(s, e, max).pushing;
    hide Waiting;
  }

  /** A wake-up call is dropped only before the loop has come up. */
  lemma CallWake(s: State, p: nat, max: nat)
    requires WakeInv(s, max) && Enabled(s, Wake(p))
    ensures WakeInv(Step(s, Wake(p), max), max)
  {
    assert Waiting(Step(s, Wake(p), max)) == Waiting(s);
    hide Waiting;
  }

  /** A list is empty when the loop moves past it. */
  lemma DrainWake(s: State, unmatched: bool, max: nat)
    requires WakeInv(s, max) && Enabled(s, Drain(unmatched))
    ensures WakeInv(Step(s, Drain(unmatched), max), max)
  {
    assert Waiting(Step(s, Drain(unmatched), max)) == Waiting(s);
    hide Waiting;
  }

  lemma QuietWake(s: State, e: Event, max: nat)
    requires WakeInv(s, max) && Enabled(s, e) && Quiet(e)
    ensures WakeInv(Step(s, e, max), max)
  {
    if PushesMessage(e) {
      MessageWake(s, e, max);
    } else if e.Wake? {
      CallWake(s, e.producer, max);
    } else if e.Drain? {
      DrainWake(s, e.unmatched, max);
    } else {
      assert Waiting(Step(s, e, max)) == Waiting(s);
      hide Waiting;
    }
  }

  lemma QuietPass(s: State, e: Event, max: nat)
    requires PassInv(s, max) && Enabled(s, e) && Quiet(e)
    ensures PassInv(Step(s, e, max), max)
  {
  }

  /** A shutdown that finds its request not started leaves the flag that makes the next
      pass happen. */
  lemma QuietAbort(s: State, e: Event, max: nat)
    requires AbortInv(s) && PassInv(s, max) && Enabled(s, e) && Quiet(e)
    ensures AbortInv(Step(s, e, max))
  {
    var t := Step(s, e, max);
    forall id | id in t.told
      ensures id < t.scheduled && id in t.aborted && (Started(t, id) || AbortIsKept(t, id))
    {
      assert Started(t, id) == Started(s, id);
      if e.PushShutdown? {
        assert t.shutdowns[|s.shutdowns|] == e.id;
      }
    }
  }

  lemma QuietPlaces(s: State, e: Event, max: nat)
    requires Enabled(s, e) && Quiet(e)
    ensures !e.Callback?
    ensures var t := Step(s, e, max);
            && Waiting(t) == Waiting(s) && t.active == s.active && t.finished == s.finished
            && t.counter == s.counter && t.scheduled == s.scheduled
  {
  }

  lemma QuietStepKeeps(s: State, e: Event, max: nat)
    requires Inv(s, max) && Enabled(s, e) && Quiet(e)
    ensures Inv(Step(s, e, max), max)
  {
    hide PassInv, WakeInv, AbortInv, Partition, Waiting, Step, Enabled, Quiet;
    QuietPlaces(s, e, max);
    QuietWake(s, e, max);
    QuietPass(s, e, max);
    QuietAbort(s, e, max);
    SamePlaces(s, Step(s, e, max));
  }

  // ---------------------------------------------------------------- whole runs

  ghost predicate Reachable(s: State, events: seq<Event>, max: nat)
    decreases |events|
  {
    if events == [] then s == Initial
    else
      var last := |events| - 1;
      exists p :: Reachable(p, events[..last], max) && Enabled(p, events[last])
                  && (events[last].Callback? ==> p.counter > 0) && s == Step(p, events[last], max)
  }

  lemma {:induction false} ReachableInv(s: State, events: seq<Event>, max: nat)
    requires Reachable(s, events, max)
    ensures Inv(s, max)
    decreases |events|
  {
    if events != [] {
      var last := |events| - 1;
      var p :| Reachable(p, events[..last], max) && Enabled(p, events[last])
               && (events[last].Callback? ==> p.counter > 0) && s == Step(p, events[last], max);
      ReachableInv(p, events[..last], max);
      StepKeeps(p, events[last], max);
    }
  }

  /** No lost wake-up: whenever the loop is about to block, a wake-up is pending or about
      to be sent, or the message lists are empty and no request waits while there is room.
      This includes wake-ups dropped before the loop first runs. */
  lemma NoLostWakeup(s: State, events: seq<Event>, max: nat)
    requires Reachable(s, events, max) && s.pc.AboutToBlock?
    ensures s.wakeup || s.pushing != {}
            || (s.responseDrains == 0 && s.writes == 0 && s.shutdowns == []
                && ((s.queued == [] && s.deferred == []) || s.counter >= max))
  {
    ReachableInv(s, events, max);
    if s.queued != [] || s.deferred != [] {
      assert Waiting(s) != [];
    }
  }

  /** Each scheduled request is in exactly one place and the counter is the number active;
      when the loop blocks, deferred requests mean a full house, and every request that was
      already aborted when the last full pass began has been let through. */
  lemma EachRequestOnce(s: State, events: seq<Event>, max: nat)
    requires Reachable(s, events, max)
    ensures s.counter == |s.active| && Ascending(Waiting(s))
    ensures forall id :: 0 <= id < s.scheduled <==> id in Waiting(s) || id in s.active || id in s.finished
    ensures forall id :: !(id in Waiting(s) && id in s.active)
    ensures forall id :: !(id in s.active && id in s.finished) && !(id in Waiting(s) && id in s.finished)
    ensures s.pc.AboutToBlock? && s.deferred != [] ==> s.counter >= max
    ensures s.pc.AboutToBlock? ==> forall id :: id in s.pc.seen ==> id in s.active || id in s.finished
  {
    ReachableInv(s, events, max);
  }

  /** No lost abort: when the loop is about to block and nobody is about to wake it, every
      request of whose abort it was told has been let through, however full the house. */
  lemma NoLostAbort(s: State, events: seq<Event>, max: nat)
    requires Reachable(s, events, max) && s.pc.AboutToBlock? && !s.wakeup && s.pushing == {}
    ensures forall id :: id in s.told ==> Started(s, id)
  {
    ReachableInv(s, events, max);
  }

  /** A request is told about exactly when a shutdown message for it is pushed while it is
      scheduled and aborted, and this is never forgotten. */
  lemma ToldByShutdown(s: State, e: Event, id: Id, max: nat)
    requires Enabled(s, e) && (e.Callback? ==> s.counter > 0)
    ensures id in Step(s, e, max).told <==>
            id in s.told || (e.PushShutdown? && e.id == id && id < s.scheduled && id in s.aborted)
  {
    if e.Admit? {
      AdmitFrame(s, e.failsAtOnce, max);
      hide AdmitStep;
    }
  }

  /** A request that is not aborted starts only below the limit, and only after every
      request scheduled before it. */
  lemma StartsInOrder(s: State, events: seq<Event>, e: Event, id: Id, max: nat)
    requires Reachable(s, events, max) && Enabled(s, e) && (e.Callback? ==> s.counter > 0)
    requires !Started(s, id) && Started(Step(s, e, max), id) && id !in s.aborted
    ensures s.counter < max
    ensures forall j :: 0 <= j < id ==> Started(s, j)
  {
    ReachableInv(s, events, max);
    OnlyAdmitStarts(s, e, id, max);
    var w := Waiting(s);
    assert w[0] == id;
    hide Waiting;
    assert forall j :: j in w ==> j >= id;
  }

  lemma OthersStartNothing(s: State, e: Event, id: Id, max: nat)
    requires Enabled(s, e) && !e.Admit? && (e.Callback? ==> s.counter > 0)
    ensures Started(Step(s, e, max), id) <==> Started(s, id)
  {
  }

  lemma OnlyAdmitStarts(s: State, e: Event, id: Id, max: nat)
    requires Inv(s, max) && Enabled(s, e) && (e.Callback? ==> s.counter > 0)
    requires !Started(s, id) && Started(Step(s, e, max), id) && id !in s.aborted
    ensures s.counter < max && s.deferred == []
    ensures Waiting(s) != [] && Waiting(s)[0] == id
  {
    hide Partition, WakeInv, AbortInv;
    if !e.Admit? {
      OthersStartNothing(s, e, id, max);
      assert false;
    }
    if s.pc.PassDeferred? {
      if s.pc.rest != [] {
        var t := s.(pc := PassDeferred(s.pc.rest[1..], s.pc.active, s.pc.seen));
        StartedByStart(t, s.pc.rest[0], e.failsAtOnce, max);
      }
      hide Start;
      assert s.pc.rest[0] == id;
    } else {
      if s.queued != [] {
        StartedByStart(s.(queued := s.queued[1..]), s.queued[0], e.failsAtOnce, max);
      }
      hide Start;
      assert s.queued[0] == id;
    }
  }
}
