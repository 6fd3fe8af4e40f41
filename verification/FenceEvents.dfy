/** What each operation of the Vulkan fence helper does: when a generation is retired, which
    tasks have run by then, and what becomes of fences. */
module FenceEvents {
  import opened FenceHelper

  // ---------------------------------------------------------------- retiring

  /** A fired callback retires its generation if and only if every fence up to it is signalled,
      or a broken fence comes before any unready one. */
  lemma FiringRetires(h: Helper, g: int, d: Driver)
    requires Valid(h) && h.current < g < h.next
    ensures Step(h, FireCallback(g, d)).current >= g <==>
            || (forall i :: 0 <= i < g - h.current && h.queue[i].fence != 0 ==> h.queue[i].fence in d.signalled)
            || (exists j :: 0 <= j < |h.queue| && h.queue[j].fence != 0 && h.queue[j].fence !in d.signalled
                            && h.queue[j].fence in d.broken
                            && forall i :: 0 <= i < j && h.queue[i].fence != 0 ==> h.queue[i].fence in d.signalled)
  {
    CallbackRetires(h, g, d);
    UpTo(h, g, d);
    FailsForm(h, d);
    hide Process, FailsAt, SignalledUpTo, Valid;
  }

  lemma UpTo(h: Helper, g: int, d: Driver)
    requires Valid(h) && h.current < g < h.next
    ensures SignalledUpTo(h.queue, g, d) <==>
            forall i :: 0 <= i < g - h.current && h.queue[i].fence != 0 ==> h.queue[i].fence in d.signalled
  {
    assert forall i :: 0 <= i < |h.queue| ==> (h.queue[i].generation <= g <==> i < g - h.current);
  }

  lemma FailsForm(h: Helper, d: Driver)
    ensures (exists j :: FailsAt(h.queue, j, d)) <==>
            exists j :: 0 <= j < |h.queue| && h.queue[j].fence != 0 && h.queue[j].fence !in d.signalled
                        && h.queue[j].fence in d.broken
                        && forall i :: 0 <= i < j && h.queue[i].fence != 0 ==> h.queue[i].fence in d.signalled
  {
    forall j ensures FailsAt(h.queue, j, d) <==>
      0 <= j < |h.queue| && h.queue[j].fence != 0 && h.queue[j].fence !in d.signalled && h.queue[j].fence in d.broken
      && forall i :: 0 <= i < j && h.queue[i].fence != 0 ==> h.queue[i].fence in d.signalled
    {
    }
  }

  /** Firing a callback whose generation has passed does nothing. */
  lemma LateFiring(h: Helper, g: int, d: Driver)
    requires g <= h.current
    ensures Step(h, FireCallback(g, d)) == h
  {
  }

  /** A signalled fence of generation `g` or later, with every fence before it signalled. */
  ghost predicate Reaches(queue: seq<TasksForFence>, j: int, g: int, d: Driver) {
    && 0 <= j < |queue| && queue[j].generation >= g && queue[j].fence != 0 && queue[j].fence in d.signalled
    && forall i :: 0 <= i < j && queue[i].fence != 0 ==> queue[i].fence in d.signalled
  }

  lemma {:induction false} PollScan(queue: seq<TasksForFence>, retired: int, d: Driver, first: int, g: int)
    requires Numbered(queue, first) && retired < g
    ensures ScanFences(queue, retired, d).Retire? ==>
              (ScanFences(queue, retired, d).generation >= g <==> exists j :: Reaches(queue, j, g, d))
  {
    if queue != [] {
      var e, rest := queue[0], queue[1..];
      assert forall i :: 0 <= i < |rest| ==> rest[i] == queue[i + 1];
      ReachesRest(queue, g, d);
      if e.UsingCallback() {
        PollScan(rest, retired, d, first + 1, g);
      } else if e.fence in d.signalled {
        var r := if retired >= e.generation then retired else e.generation;
        if r >= g {
          assert SignalledUpTo(rest, g, d);
          ScanExact(rest, r, d, first + 1, g);
          assert Reaches(queue, 0, g, d);
        } else {
          PollScan(rest, r, d, first + 1, g);
        }
      }
    }
  }

  lemma ReachesRest(queue: seq<TasksForFence>, g: int, d: Driver)
    requires queue != []
    ensures (exists j :: Reaches(queue, j, g, d)) <==>
            || Reaches(queue, 0, g, d)
            || ((queue[0].fence == 0 || queue[0].fence in d.signalled) && exists j :: Reaches(queue[1..], j, g, d))
  {
    var rest := queue[1..];
    forall j | 0 <= j < |rest| && (queue[0].fence == 0 || queue[0].fence in d.signalled)
      ensures Reaches(rest, j, g, d) <==> Reaches(queue, j + 1, g, d)
    {
      assert rest[j] == queue[j + 1];
      if Reaches(queue, j + 1, g, d) {
        forall i | 0 <= i < j && rest[i].fence != 0 ensures rest[i].fence in d.signalled {
          assert rest[i] == queue[i + 1];
        }
      }
      if Reaches(rest, j, g, d) {
        forall i | 0 <= i < j + 1 && queue[i].fence != 0 ensures queue[i].fence in d.signalled {
          if i > 0 { assert queue[i] == rest[i - 1]; }
        }
      }
    }
    if j :| Reaches(queue, j, g, d) {
      if j > 0 {
        assert Reaches(rest, j - 1, g, d);
      }
    }
    if j :| Reaches(rest, j, g, d) {
      if queue[0].fence == 0 || queue[0].fence in d.signalled {
        assert Reaches(queue, j + 1, g, d);
      }
    }
  }

  /** A poll retires a generation if and only if a signalled fence of that generation or a later
      one has nothing unready before it, or a broken fence comes before any unready one. */
  lemma PollRetires(h: Helper, g: int, d: Driver)
    requires Valid(h) && h.current < g < h.next
    ensures Step(h, Poll(d)).current >= g <==>
            (exists j :: Reaches(h.queue, j, g, d)) || (exists j :: FailsAt(h.queue, j, d))
  {
    PollScan(h.queue, h.current, d, h.current + 1, g);
    ScanExact(h.queue, h.current, d, h.current + 1, h.current);
  }

  /** `Wait` gets its generation past once the driver has signalled every fence up to it. */
  lemma WaitAchieves(h: Helper, handle: FenceHandle, d1: Driver, d2: Driver)
    requires Valid(h) && ValidHandle(h, handle)
    requires forall i :: 0 <= i < |h.queue| && h.queue[i].generation <= handle.generation && h.queue[i].fence != 0 ==>
               h.queue[i].fence in d2.signalled
    ensures Step(h, Wait(handle, d1, d2)).current >= handle.generation
  {
    var h1 := Process(h, 0, d1);
    HandleStaysValid(h, 0, d1, handle);
    WhatIsLeft(h, d1);
    hide Process, Valid, ValidHandle;
    if h1.current < handle.generation {
      WaitGoesOn(h1, handle, d2);
    }
  }

  lemma WaitGoesOn(h: Helper, handle: FenceHandle, d: Driver)
    requires Valid(h) && ValidHandle(h, handle) && h.current < handle.generation
    requires forall i :: 0 <= i < |h.queue| && h.queue[i].generation <= handle.generation && h.queue[i].fence != 0 ==>
               h.queue[i].fence in d.signalled
    ensures Process(h, 0, d).current >= handle.generation
  {
    var j := handle.generation - h.current - 1;
    assert h.queue[j].fence == handle.fence;
    assert Reaches(h.queue, j, handle.generation, d);
    PollRetires(h, handle.generation, d);
  }

  /** Processing keeps a tail of the queue. */
  lemma WhatIsLeft(h: Helper, d: Driver)
    requires Valid(h)
    ensures var t := Process(h, 0, d);
            t.next == h.next && Valid(t) && forall i :: 0 <= i < |t.queue| ==> t.queue[i] in h.queue
  {
    ProcessValid(h, 0, d);
    if ScanFences(h.queue, h.current, d).Retire? {
      PoppedWereSignalled(h, 0, d);
    }
  }

  // ---------------------------------------------------------------- handing over and cleaning up

  /** Enqueuing a fence, generating one that the driver accepts, or making a callback puts all
      pending tasks under the next generation. */
  lemma PendingMoves(h: Helper, f: Fence, lost: bool)
    ensures var t := Step(h, EnqueueFence(f));
            && t.next == h.next + 1 && t.current == h.current && t.pending == [] && t.ran == h.ran
            && t.queue == h.queue + [TasksForFence(f, h.next, h.pending)]
    ensures h.pending != [] ==>
              Step(h, GenerateCleanupFence(f, true, true, lost)) == Step(h, EnqueueFence(f))
              && Step(h, CreateExternalCallback) == Step(h, EnqueueFence(0))
    ensures h.pending == [] ==> Step(h, CreateExternalCallback) == h
    ensures h.pending == [] ==> forall c, s :: Step(h, GenerateCleanupFence(f, c, s, lost)) == h
  {
  }

  /** If the driver refuses to make a fence or to submit it, or when the helper is destroyed,
      everything runs at once: first what is queued, then what is pending, and each task hears
      whether the device was lost. */
  lemma EverythingRuns(h: Helper, f: Fence, submitted: bool, lost: bool)
    requires Valid(h) && h.pending != []
    ensures RunsAll(h, Step(h, Destroy(lost)), lost)
    ensures RunsAll(h, Step(h, GenerateCleanupFence(f, false, submitted, lost)), lost)
    ensures RunsAll(h, Step(h, GenerateCleanupFence(f, true, false, lost)), lost)
    ensures f in Step(h, GenerateCleanupFence(f, true, false, lost)).destroyed
  {
    AllMarked(h, lost);
    AllMarked(h.(destroyed := h.destroyed + {f}), lost);
  }

  /** Every task has run, those from now on with the flag given; no fence is left. */
  ghost predicate RunsAll(h: Helper, t: Helper, lost: bool) {
    && t.queue == [] && t.pending == [] && t.current == h.next - 1 && t.next == h.next
    && TasksOf(t.ran) == TasksOf(h.ran) + (Flatten(h.queue) + h.pending)
    && h.ran <= t.ran && (forall i :: |h.ran| <= i < |t.ran| ==> t.ran[i].deviceLost == lost)
    && Fences(h.queue) <= t.destroyed
  }

  lemma AllMarked(h: Helper, lost: bool)
    requires h.pending != []
    ensures RunsAll(h, Cleanup(h, lost), lost)
  {
    MarkedTasks(h.ran, Flatten(h.queue) + h.pending, lost);
  }

  /** So it does when the scan meets a broken fence, with the driver's word on the device. */
  lemma FailureRunsAll(h: Helper, d: Driver, j: int)
    requires Valid(h) && FailsAt(h.queue, j, d)
    ensures RunsAll(h, Step(h, Poll(d)), d.deviceLost)
  {
    ScanExact(h.queue, h.current, d, h.current + 1, h.current);
    MarkedTasks(h.ran, Flatten(h.queue) + h.pending, d.deviceLost);
    hide ScanFences;
  }

  /** Tasks of retired generations hear that the device is not lost. */
  lemma RetiredHearNoLoss(h: Helper, d: Driver)
    requires Valid(h) && !exists j :: FailsAt(h.queue, j, d)
    ensures var t := Step(h, Poll(d));
            h.ran <= t.ran && forall i :: |h.ran| <= i < |t.ran| ==> !t.ran[i].deviceLost
  {
    ScanExact(h.queue, h.current, d, h.current + 1, h.current);
    PoppedWereSignalled(h, 0, d);
  }

  // ---------------------------------------------------------------- what has run by when

  /** Queued tasks up to generation `g`. */
  function Upcoming(h: Helper, g: int): seq<Task> {
    var m := if g <= h.current then 0 else if g - h.current <= |h.queue| then g - h.current else |h.queue|;
    Flatten(h.queue[..m])
  }

  /** The first `k` tasks have run, or wait in a generation up to `g`. */
  ghost predicate Due(h: Helper, g: int, k: nat) {
    |h.ran| + |Upcoming(h, g)| >= k
  }

  lemma PushKeepsDue(h: Helper, f: Fence, g: int, k: nat)
    requires Valid(h) && g < h.next && Due(h, g, k)
    ensures Due(Push(h, f), g, k)
  {
    var t := Push(h, f);
    if g > h.current {
      assert t.queue[..g - h.current] == h.queue[..g - h.current];
    }
  }

  lemma {:induction false} FlattenGrows(q: seq<TasksForFence>, m: nat, n: nat)
    requires m <= n <= |q|
    ensures Flatten(q[..n]) == Flatten(q[..m]) + Flatten(q[m..n])
    ensures |Flatten(q[..m])| <= |Flatten(q[..n])|
  {
    assert q[..n] == q[..m] + q[m..n];
    FlattenConcat(q[..m], q[m..n]);
  }

  /** Processing either pops the front of the queue and runs its tasks, or runs everything. */
  lemma ProcessPops(h: Helper, retired: int, d: Driver)
    requires Valid(h) && (retired == 0 || h.current < retired < h.next)
    ensures var t := Process(h, retired, d);
            var n := t.current - h.current;
            || t == Cleanup(h, d.deviceLost)
            || (0 <= n <= |h.queue| && t.queue == h.queue[n..] && |t.ran| == |h.ran| + |Flatten(h.queue[..n])|)
  {
    if ScanFences(h.queue, if retired == 0 then h.current else retired, d).Retire? {
      PoppedWereSignalled(h, retired, d);
    }
  }

  lemma ProcessKeepsDue(h: Helper, retired: int, d: Driver, g: int, k: nat)
    requires Valid(h) && (retired == 0 || h.current < retired < h.next) && g < h.next && Due(h, g, k)
    ensures Due(Process(h, retired, d), g, k)
  {
    assert |h.queue| == h.next - 1 - h.current;
    hide *;
    ProcessPops(h, retired, d);
    var t := Process(h, retired, d);
    if t == Cleanup(h, d.deviceLost) {
      CleanupKeepsDue(h, d.deviceLost, g, k);
    } else {
      PopKeepsDue(h, t, t.current - h.current, g, k);
    }
  }

  lemma PopKeepsDue(h: Helper, t: Helper, n: int, g: int, k: nat)
    requires 0 <= n <= |h.queue| && t.queue == h.queue[n..] && t.current == h.current + n
    requires |t.ran| == |h.ran| + |Flatten(h.queue[..n])| && Due(h, g, k)
    requires g - h.current <= |h.queue|
    ensures Due(t, g, k)
  {
    if g > h.current {
      var m := g - h.current;
      if m <= n {
        FlattenGrows(h.queue, m, n);
      } else {
        FlattenGrows(h.queue, n, m);
        assert t.queue[..m - n] == h.queue[n..m];
      }
    }
  }

  lemma CleanupKeepsDue(h: Helper, lost: bool, g: int, k: nat)
    requires Valid(h) && g < h.next && Due(h, g, k)
    ensures Due(Cleanup(h, lost), g, k)
  {
    if !(h.queue == [] && h.pending == []) {
      if g > h.current {
        FlattenGrows(h.queue, g - h.current, |h.queue|);
        assert h.queue[..|h.queue|] == h.queue;
      }
    }
  }

  lemma StepKeepsDue(h: Helper, op: Op, g: int, k: nat)
    requires Valid(h) && Enabled(h, op) && g < h.next && Due(h, g, k)
    ensures Due(Step(h, op), g, k) && g < Step(h, op).next
  {
    hide Valid, Due, Process, Cleanup, Fences;
    NextGrows(h, op);
    match op
    case EnqueueTask(t) =>
      PendingIsLater(h, h.pending + [t], g, k);
    case EnqueueFence(f) =>
      PushKeepsDue(h, f, g, k);
    case GenerateCleanupFence(f, created, submitted, lost) =>
      PushKeepsDue(h, f, g, k);
      CleanupKeepsDue(h, lost, g, k);
      DestroyUnused(h, f);
      DestroyedIsNotDue(h, f, g, k);
      CleanupKeepsDue(h.(destroyed := h.destroyed + {f}), lost, g, k);
    case CreateExternalCallback =>
      PushKeepsDue(h, VK_NULL_HANDLE, g, k);
    case FireCallback(r, d) =>
      if r > h.current {
        ProcessKeepsDue(h, r, d, g, k);
      }
    case Poll(d) =>
      ProcessKeepsDue(h, 0, d, g, k);
    case Wait(handle, d1, d2) =>
      ProcessKeepsDue(h, 0, d1, g, k);
      ProcessValid(h, 0, d1);
      NextGrows(h, Poll(d1));
      ProcessKeepsDue(Process(h, 0, d1), 0, d2, g, k);
    case Destroy(lost) =>
      CleanupKeepsDue(h, lost, g, k);
  }

  lemma PendingIsLater(h: Helper, pending: seq<Task>, g: int, k: nat)
    ensures Due(h.(pending := pending), g, k) <==> Due(h, g, k)
  {
  }

  lemma DestroyedIsNotDue(h: Helper, f: Fence, g: int, k: nat)
    ensures Due(h.(destroyed := h.destroyed + {f}), g, k) <==> Due(h, g, k)
  {
  }

  lemma ProcessNext(h: Helper, retired: int, d: Driver)
    ensures Process(h, retired, d).next == h.next
  {
  }

  lemma NextGrows(h: Helper, op: Op)
    ensures Step(h, op).next >= h.next
  {
    match op
    case FireCallback(g, d) => ProcessNext(h, g, d);
    case Poll(d) => ProcessNext(h, 0, d);
    case Wait(_, d1, d2) =>
      ProcessNext(h, 0, d1);
      ProcessNext(Process(h, 0, d1), 0, d2);
    case _ =>
  }

  lemma {:induction false} RunKeepsDue(h: Helper, ops: seq<Op>, g: int, k: nat)
    requires Valid(h) && AllEnabled(h, ops) && g < h.next && Due(h, g, k)
    ensures Due(Run(h, ops), g, k)
    decreases |ops|
  {
    if ops != [] {
      StepKeeps(h, ops[0]);
      StepKeepsDue(h, ops[0], g, k);
      hide Step, Valid, Due, Enabled, History;
      RunKeepsDue(Step(h, ops[0]), ops[1..], g, k);
    }
  }

  /** Operations that put the pending tasks under a new generation. */
  predicate Hands(h: Helper, op: Op) {
    || op.EnqueueFence?
    || (h.pending != []
        && (op.CreateExternalCallback? || (op.GenerateCleanupFence? && op.created && op.submitted)))
  }

  lemma HandsMakesDue(h: Helper, op: Op)
    requires Valid(h) && Enabled(h, op) && Hands(h, op)
    ensures var t := Step(h, op);
            t.next == h.next + 1 && t.pending == [] && Due(t, h.next, |History(t)|)
  {
    var t := Step(h, op);
    StepKeeps(h, op);
    assert t.queue[..|t.queue|] == t.queue;
    assert |t.queue| == h.next - h.current;
  }

  /** The promise of a generation: once it has passed, by whatever fences, callbacks or failures,
      every task enqueued before it was given out has run. */
  lemma PassedMeansRun(before: seq<Op>, op: Op, after: seq<Op>)
    requires AllEnabled(Initial, before) && Enabled(Run(Initial, before), op) && Hands(Run(Initial, before), op)
    requires AllEnabled(Step(Run(Initial, before), op), after)
    ensures var h := Run(Step(Run(Initial, before), op), after);
            h.current >= Run(Initial, before).next ==> Enqueued(before) <= TasksOf(h.ran)
  {
    var start := Run(Initial, before);
    var g := start.next;
    var first := Step(start, op);
    var h := Run(first, after);
    RunKeeps(Initial, before);
    HandsMakesDue(start, op);
    StepKeeps(start, op);
    assert History(first) == History(start);
    InitialHistory(Enqueued(before));
    RunKeepsDue(first, after, g, |History(first)|);
    RunKeeps(first, after);
    if h.current >= g {
      DueHasRun(h, g, |Enqueued(before)|);
      RanPrefix(h, Enqueued(before), Enqueued(after));
    }
  }

  lemma InitialHistory(tasks: seq<Task>)
    ensures History(Initial) + tasks == tasks
  {
    assert History(Initial) == [];
  }

  lemma DueHasRun(h: Helper, g: int, k: nat)
    requires Due(h, g, k) && h.current >= g
    ensures |h.ran| >= k
  {
    assert h.queue[..0] == [];
  }

  lemma RanPrefix(h: Helper, a: seq<Task>, b: seq<Task>)
    requires History(h) == a + b && |h.ran| >= |a|
    ensures a <= TasksOf(h.ran)
  {
    assert History(h)[..|a|] == a;
    assert TasksOf(h.ran)[..|a|] == History(h)[..|a|];
  }

  /** What firing a callback is for: once every fence up to its generation is signalled, firing
      it runs every task that was enqueued before it was made. */
  lemma FiredCallbackRuns(before: seq<Op>, after: seq<Op>, d: Driver)
    requires AllEnabled(Initial, before) && Run(Initial, before).pending != []
    requires AllEnabled(Step(Run(Initial, before), CreateExternalCallback), after)
    requires var g := Run(Initial, before).next;
             var h := Run(Step(Run(Initial, before), CreateExternalCallback), after);
             forall i :: 0 <= i < |h.queue| && h.queue[i].generation <= g && h.queue[i].fence != 0 ==>
               h.queue[i].fence in d.signalled
    ensures var g := Run(Initial, before).next;
            var h := Run(Step(Run(Initial, before), CreateExternalCallback), after);
            Enqueued(before) <= TasksOf(Step(h, FireCallback(g, d)).ran)
  {
    hide *;
    var start := Run(Initial, before);
    var g := start.next;
    var first := Step(start, CreateExternalCallback);
    var h := Run(first, after);
    var fire := FireCallback(g, d);
    InitialIsValid();
    RunKeeps(Initial, before);
    CallbackIsNext(start);
    RunKeeps(first, after);
    NextStays(first, after);
    EnabledSnoc(first, after, fire);
    FireIsEnabled(h, g, d);
    PassedMeansRun(before, CreateExternalCallback, after + [fire]);
    if g > h.current {
      FiringIsNotBlocked(h, g, d);
    } else {
      LateFiring(h, g, d);
    }
  }

  lemma InitialIsValid()
    ensures Valid(Initial)
  {
  }

  lemma CallbackIsNext(h: Helper)
    requires Valid(h) && h.pending != []
    ensures var t := Step(h, CreateExternalCallback); Valid(t) && t.next == h.next + 1
    ensures h.next > 0 && Enabled(h, CreateExternalCallback) && Hands(h, CreateExternalCallback)
  {
    StepKeeps(h, CreateExternalCallback);
  }

  lemma FireIsEnabled(h: Helper, g: int, d: Driver)
    ensures 0 < g < h.next ==> Enabled(h, FireCallback(g, d))
  {
  }

  lemma FiringIsNotBlocked(h: Helper, g: int, d: Driver)
    requires Valid(h) && h.current < g < h.next
    requires forall i :: 0 <= i < |h.queue| && h.queue[i].generation <= g && h.queue[i].fence != 0 ==>
               h.queue[i].fence in d.signalled
    ensures Step(h, FireCallback(g, d)).current >= g
  {
    FiringRetires(h, g, d);
    assert forall i :: 0 <= i < g - h.current ==> h.queue[i].generation <= g;
  }

  lemma {:induction false} NextStays(h: Helper, ops: seq<Op>)
    ensures Run(h, ops).next >= h.next
    decreases |ops|
  {
    if ops != [] {
      NextGrows(h, ops[0]);
      NextStays(Step(h, ops[0]), ops[1..]);
    }
  }

  lemma {:induction false} EnabledSnoc(h: Helper, ops: seq<Op>, op: Op)
    requires AllEnabled(h, ops)
    ensures AllEnabled(h, ops + [op]) <==> Enabled(Run(h, ops), op)
    ensures Run(h, ops + [op]) == Step(Run(h, ops), op)
    decreases |ops|
  {
    if ops == [] {
      assert [] + [op] == [op] && [op][1..] == [];
    } else {
      assert (ops + [op])[0] == ops[0] && (ops + [op])[1..] == ops[1..] + [op];
      EnabledSnoc(Step(h, ops[0]), ops[1..], op);
    }
  }

  // ---------------------------------------------------------------- fences

  /** Fences the driver made for an operation. */
  function Made(h: Helper, op: Op): set<Fence> {
    match op
    case EnqueueFence(f) => {f}
    case GenerateCleanupFence(f, created, _, _) => if h.pending != [] && created then {f} else {}
    case _ => {}
  }

  lemma ProcessKeepsFences(h: Helper, retired: int, d: Driver)
    requires Valid(h) && (retired == 0 || h.current < retired < h.next)
    ensures var t := Process(h, retired, d); Fences(t.queue) + t.destroyed == Fences(h.queue) + h.destroyed
  {
    var r := if retired == 0 then h.current else retired;
    if ScanFences(h.queue, r, d).Retire? {
      ProcessIsAdvance(h, retired, d);
      var n := RetiredCount(h.queue, ScanFences(h.queue, r, d).generation);
      TailFences(h.queue, n);
    }
  }

  lemma TailFences(queue: seq<TasksForFence>, n: nat)
    requires n <= |queue|
    ensures Fences(queue) == Fences(queue[..n]) + Fences(queue[n..])
  {
    forall f | f in Fences(queue) ensures f in Fences(queue[..n]) + Fences(queue[n..]) {
      var i :| 0 <= i < |queue| && queue[i].fence == f && f != 0;
      assert if i < n then queue[..n][i].fence == f else queue[n..][i - n].fence == f;
    }
  }

  lemma PushKeepsFences(h: Helper, f: Fence)
    ensures Fences(Push(h, f).queue) == Fences(h.queue) + (if f != 0 then {f} else {})
  {
    var q := Push(h, f).queue;
    TailFences(q, |h.queue|);
    assert q[..|h.queue|] == h.queue && q[|h.queue|..] == [TasksForFence(f, h.next, h.pending)];
    assert q[|h.queue|].fence == f;
  }

  lemma CleanupKeepsFences(h: Helper, lost: bool)
    ensures var t := Cleanup(h, lost); Fences(t.queue) + t.destroyed == Fences(h.queue) + h.destroyed
  {
  }

  /** No fence is lost: each one made is queued or has been destroyed, and none other has. */
  lemma StepKeepsFences(h: Helper, op: Op)
    requires Valid(h) && Enabled(h, op)
    ensures var t := Step(h, op); Fences(t.queue) + t.destroyed == Fences(h.queue) + h.destroyed + Made(h, op)
  {
    hide Valid, Process, Cleanup, Push, Fences;
    match op
    case EnqueueTask(t) =>
    case EnqueueFence(f) =>
      PushKeepsFences(h, f);
      PushFields(h, f);
    case GenerateCleanupFence(f, created, submitted, lost) =>
      PushKeepsFences(h, f);
      PushFields(h, f);
      CleanupKeepsFences(h, lost);
      CleanupKeepsFences(h.(destroyed := h.destroyed + {f}), lost);
    case CreateExternalCallback =>
      PushKeepsFences(h, VK_NULL_HANDLE);
      PushFields(h, VK_NULL_HANDLE);
    case FireCallback(g, d) =>
      if g > h.current {
        ProcessKeepsFences(h, g, d);
      }
    case Poll(d) =>
      ProcessKeepsFences(h, 0, d);
    case Wait(_, d1, d2) =>
      ProcessKeepsFences(h, 0, d1);
      ProcessValid(h, 0, d1);
      ProcessKeepsFences(Process(h, 0, d1), 0, d2);
    case Destroy(lost) =>
      CleanupKeepsFences(h, lost);
  }

  lemma PushFields(h: Helper, f: Fence)
    ensures Push(h, f).destroyed == h.destroyed
  {
  }

  function AllMade(h: Helper, ops: seq<Op>): set<Fence>
    decreases |ops|
  {
    if ops == [] then {} else Made(h, ops[0]) + AllMade(Step(h, ops[0]), ops[1..])
  }

  lemma {:induction false} RunKeepsFences(h: Helper, ops: seq<Op>)
    requires Valid(h) && AllEnabled(h, ops)
    ensures var t := Run(h, ops); Fences(t.queue) + t.destroyed == Fences(h.queue) + h.destroyed + AllMade(h, ops)
    decreases |ops|
  {
    if ops != [] {
      StepKeeps(h, ops[0]);
      StepKeepsFences(h, ops[0]);
      hide Step, Valid, Enabled, History, Made, Fences;
      RunKeepsFences(Step(h, ops[0]), ops[1..]);
    }
  }

  /** Over every run each fence made is either queued or destroyed, never both, and nothing
      else is; so once the queue is empty all have been destroyed. */
  lemma FencesAreAccounted(ops: seq<Op>)
    requires AllEnabled(Initial, ops)
    ensures var t := Run(Initial, ops);
            Fences(t.queue) + t.destroyed == AllMade(Initial, ops) && Fences(t.queue) !! t.destroyed
  {
    InitialIsValid();
    RunKeeps(Initial, ops);
    RunKeepsFences(Initial, ops);
    assert Fences([]) == {};
  }
}
