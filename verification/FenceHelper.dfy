/** The Vulkan fence helper (app/graphics/vv_helper.cpp): cleanup tasks wait in a queue of
    numbered generations until a fence, an external callback or a device failure retires them.
    Driver calls are arbitrary answers given by a `Driver` value. Running a task and
    destroying a fence are recorded in logs. Generation numbers are unbounded here. */
module FenceHelper {

  type Task = nat
  type Fence = nat
  const VK_NULL_HANDLE: Fence := 0

  datatype VkResult = VK_SUCCESS | VK_NOT_READY | VK_ERROR

  /** What the driver answers while one call runs. */
  datatype Driver = Driver(signalled: set<Fence>, broken: set<Fence>, deviceLost: bool) {
    function FenceStatus(f: Fence): VkResult {
      if f in signalled then VK_SUCCESS else if f in broken then VK_ERROR else VK_NOT_READY
    }
  }

  /** A later moment of the same driver: a signalled fence stays signalled. */
  predicate Later(a: Driver, b: Driver) {
    a.signalled <= b.signalled
  }

  datatype FenceHandle = FenceHandle(fence: Fence, generation: int)

  datatype TasksForFence = TasksForFence(fence: Fence, generation: int, tasks: seq<Task>) {
    predicate UsingCallback() {
      fence == VK_NULL_HANDLE
    }
  }

  datatype Ran = Ran(task: Task, deviceLost: bool)

  datatype Helper = Helper(next: int, current: int, queue: seq<TasksForFence>, pending: seq<Task>,
                           ran: seq<Ran>, destroyed: set<Fence>)

  const Initial: Helper := Helper(1, 0, [], [], [], {})

  // ---------------------------------------------------------------- specification

  function Flatten(queue: seq<TasksForFence>): seq<Task> {
    if queue == [] then [] else queue[0].tasks + Flatten(queue[1..])
  }

  function Fences(queue: seq<TasksForFence>): set<Fence> {
    set i | 0 <= i < |queue| && queue[i].fence != VK_NULL_HANDLE :: queue[i].fence
  }

  function Mark(tasks: seq<Task>, lost: bool): (r: seq<Ran>)
    ensures |r| == |tasks|
  {
    seq(|tasks|, i requires 0 <= i < |tasks| => Ran(tasks[i], lost))
  }

  function TasksOf(ran: seq<Ran>): (ts: seq<Task>)
    ensures |ts| == |ran|
  {
    seq(|ran|, i requires 0 <= i < |ran| => ran[i].task)
  }

  /** Everything ever handed over: run, waiting in the queue, or not yet given a generation. */
  function History(h: Helper): seq<Task> {
    TasksOf(h.ran) + Flatten(h.queue) + h.pending
  }

  datatype Verdict = Retire(generation: int) | Failed

  /** The scan over the queue: fences in order, up to the first that is not ready. */
  function ScanFences(queue: seq<TasksForFence>, retired: int, d: Driver): Verdict {
    if queue == [] then Retire(retired)
    else if queue[0].UsingCallback() then ScanFences(queue[1..], retired, d)
    else match d.FenceStatus(queue[0].fence)
      case VK_NOT_READY =>
        Retire(if retired < queue[0].generation - 1 then retired else queue[0].generation - 1)
      case VK_SUCCESS =>
        ScanFences(queue[1..], if retired < queue[0].generation then queue[0].generation else retired, d)
      case VK_ERROR => Failed
  }

  /** How many entries at the front belong to retired generations. */
  function RetiredCount(queue: seq<TasksForFence>, current: int): (n: nat)
    ensures n <= |queue|
  {
    if queue == [] || queue[0].generation > current then 0 else 1 + RetiredCount(queue[1..], current)
  }

  function Advance(h: Helper, current: int): Helper {
    var n := RetiredCount(h.queue, current);
    h.(current := current, queue := h.queue[n..], ran := h.ran + Mark(Flatten(h.queue[..n]), false),
       destroyed := h.destroyed + Fences(h.queue[..n]))
  }

  function Cleanup(h: Helper, lost: bool): Helper {
    if h.queue == [] && h.pending == [] then h
    else h.(current := h.next - 1, queue := [], pending := [],
            ran := h.ran + Mark(Flatten(h.queue) + h.pending, lost),
            destroyed := h.destroyed + Fences(h.queue))
  }

  /** `ProcessCleanupTasks`; generation 0 stands for the default argument. */
  function Process(h: Helper, retired: int, d: Driver): Helper {
    match ScanFences(h.queue, if retired == 0 then h.current else retired, d)
    case Failed => Cleanup(h, d.deviceLost)
    case Retire(g) => Advance(h, g)
  }

  function Push(h: Helper, fence: Fence): Helper {
    h.(next := h.next + 1, queue := h.queue + [TasksForFence(fence, h.next, h.pending)], pending := [])
  }

  // ---------------------------------------------------------------- invariant

  /** The queue holds exactly the generations after the current one and before the next;
      its fences are distinct and none was destroyed. */
  ghost predicate Valid(h: Helper) {
    && 0 <= h.current < h.next
    && |h.queue| == h.next - 1 - h.current
    && (forall i :: 0 <= i < |h.queue| ==> h.queue[i].generation == h.current + 1 + i)
    && (forall i, j :: 0 <= i < j < |h.queue| && h.queue[i].fence != VK_NULL_HANDLE ==>
          h.queue[i].fence != h.queue[j].fence)
    && Fences(h.queue) !! h.destroyed
  }

  /** A handle that was given out: its fence is still queued unless its generation passed. */
  ghost predicate ValidHandle(h: Helper, handle: FenceHandle)
    requires Valid(h)
  {
    && handle.generation < h.next
    && (handle.generation > h.current ==>
        handle.fence != VK_NULL_HANDLE && h.queue[handle.generation - h.current - 1].fence == handle.fence)
  }

  // ---------------------------------------------------------------- lists and logs

  lemma {:induction false} FlattenConcat(a: seq<TasksForFence>, b: seq<TasksForFence>)
    ensures Flatten(a + b) == Flatten(a) + Flatten(b)
  {
    if a == [] {
      assert a + b == b;
    } else {
      assert (a + b)[1..] == a[1..] + b;
      FlattenConcat(a[1..], b);
    }
  }

  lemma MarkedTasks(ran: seq<Ran>, tasks: seq<Task>, lost: bool)
    ensures TasksOf(ran + Mark(tasks, lost)) == TasksOf(ran) + tasks
  {
  }

  // ---------------------------------------------------------------- conservation

  lemma AdvanceKeepsHistory(h: Helper, current: int)
    ensures History(Advance(h, current)) == History(h)
  {
    var n := RetiredCount(h.queue, current);
    assert h.queue == h.queue[..n] + h.queue[n..];
    FlattenConcat(h.queue[..n], h.queue[n..]);
    MarkedTasks(h.ran, Flatten(h.queue[..n]), false);
  }

  lemma CleanupKeepsHistory(h: Helper, lost: bool)
    ensures History(Cleanup(h, lost)) == History(h)
    ensures Cleanup(h, lost).queue == [] && Cleanup(h, lost).pending == []
  {
    MarkedTasks(h.ran, Flatten(h.queue) + h.pending, lost);
  }

  lemma ProcessKeepsHistory(h: Helper, retired: int, d: Driver)
    ensures History(Process(h, retired, d)) == History(h)
  {
    match ScanFences(h.queue, if retired == 0 then h.current else retired, d)
    case Failed => CleanupKeepsHistory(h, d.deviceLost);
    case Retire(g) => AdvanceKeepsHistory(h, g);
  }

  lemma PushKeepsHistory(h: Helper, fence: Fence)
    ensures History(Push(h, fence)) == History(h)
  {
    var e := TasksForFence(fence, h.next, h.pending);
    FlattenConcat(h.queue, [e]);
    assert Flatten([e]) == h.pending + Flatten([]);
  }

  // ---------------------------------------------------------------- what the scan promises

  ghost predicate Numbered(queue: seq<TasksForFence>, first: int) {
    forall i :: 0 <= i < |queue| ==> queue[i].generation == first + i
  }

  /** The scan retires a fence only if it saw it signalled, retires nothing past the
      evidence, and never falls back below the first entry. */
  lemma {:induction false} ScanSound(queue: seq<TasksForFence>, retired: int, d: Driver, first: int)
    requires Numbered(queue, first) && ScanFences(queue, retired, d).Retire?
    ensures var g := ScanFences(queue, retired, d).generation;
            && (forall i :: 0 <= i < |queue| && queue[i].generation <= g && !queue[i].UsingCallback() ==>
                  queue[i].fence in d.signalled)
            && (g >= retired || g >= first - 1)
            && (g == retired || g < first + |queue|)
            && (g <= retired
                || exists i :: 0 <= i < |queue| && queue[i].generation == g && queue[i].fence in d.signalled)
  {
    if queue != [] {
      var e, rest := queue[0], queue[1..];
      assert Numbered(rest, first + 1) by {
        assert forall i :: 0 <= i < |rest| ==> rest[i] == queue[i + 1];
      }
      var g := ScanFences(queue, retired, d).generation;
      if e.UsingCallback() || e.fence in d.signalled {
        var r := if e.UsingCallback() || retired >= e.generation then retired else e.generation;
        ScanSound(rest, r, d, first + 1);
        forall i | 0 <= i < |queue| && queue[i].generation <= g && !queue[i].UsingCallback()
          ensures queue[i].fence in d.signalled
        {
          if i > 0 { assert queue[i] == rest[i - 1]; }
        }
        if g > r {
          var i :| 0 <= i < |rest| && rest[i].generation == g && rest[i].fence in d.signalled;
          assert queue[i + 1] == rest[i];
        }
      }
    }
  }

  lemma {:induction false} RetiredCountIs(queue: seq<TasksForFence>, first: int, g: int)
    requires Numbered(queue, first) && first - 1 <= g < first + |queue|
    ensures RetiredCount(queue, g) == g + 1 - first
  {
    if queue != [] && g >= first {
      assert Numbered(queue[1..], first + 1) by {
        assert forall i :: 0 <= i < |queue[1..]| ==> queue[1..][i] == queue[i + 1];
      }
      RetiredCountIs(queue[1..], first + 1, g);
    }
  }

  lemma AdvanceValid(h: Helper, g: int)
    requires Valid(h) && h.current <= g < h.next
    ensures Valid(Advance(h, g)) && Advance(h, g).current == g
    ensures RetiredCount(h.queue, g) == g - h.current
  {
    RetiredCountIs(h.queue, h.current + 1, g);
    var n := g - h.current;
    var r := Advance(h, g);
    assert r.queue == h.queue[n..];
    FencesSplit(h.queue, n);
  }

  /** Distinct fences stay apart when the queue is cut in two. */
  lemma FencesSplit(queue: seq<TasksForFence>, n: nat)
    requires n <= |queue|
    requires forall i, j :: 0 <= i < j < |queue| && queue[i].fence != VK_NULL_HANDLE ==>
               queue[i].fence != queue[j].fence
    ensures Fences(queue[n..]) <= Fences(queue)
    ensures Fences(queue[..n]) !! Fences(queue[n..])
  {
    forall f | f in Fences(queue[n..]) ensures f in Fences(queue) && f !in Fences(queue[..n]) {
      var i :| 0 <= i < |queue[n..]| && queue[n..][i].fence == f && f != VK_NULL_HANDLE;
      assert queue[n + i].fence == f;
      assert forall j :: 0 <= j < n && queue[j].fence != VK_NULL_HANDLE ==> queue[..n][j].fence != f;
    }
  }

  /** `ProcessCleanupTasks` keeps the queue's numbering, and the current generation never
      goes down. */
  lemma ProcessValid(h: Helper, retired: int, d: Driver)
    requires Valid(h) && (retired == 0 || h.current < retired < h.next)
    ensures Valid(Process(h, retired, d)) && Process(h, retired, d).current >= h.current
  {
    var r := if retired == 0 then h.current else retired;
    if ScanFences(h.queue, r, d).Retire? {
      ScanSound(h.queue, r, d, h.current + 1);
      AdvanceValid(h, ScanFences(h.queue, r, d).generation);
    }
  }

  /** On the normal path every fence that is popped was seen signalled, so the check
      before destroying it cannot fire; and every popped generation is backed by a
      signalled fence or a fired callback of its own or a later generation. */
  lemma PoppedWereSignalled(h: Helper, retired: int, d: Driver)
    requires Valid(h) && (retired == 0 || h.current < retired < h.next)
    requires ScanFences(h.queue, if retired == 0 then h.current else retired, d).Retire?
    ensures var n := Process(h, retired, d).current - h.current;
            && 0 <= n <= |h.queue|
            && Process(h, retired, d).queue == h.queue[n..] && Process(h, retired, d).next == h.next
            && Process(h, retired, d).ran == h.ran + Mark(Flatten(h.queue[..n]), false)
            && (forall i :: 0 <= i < n && !h.queue[i].UsingCallback() ==> h.queue[i].fence in d.signalled)
            && (n > 0 ==> h.queue[n - 1].generation <= retired
                          || exists j :: n - 1 <= j < |h.queue| && h.queue[j].fence in d.signalled)
  {
    var r := if retired == 0 then h.current else retired;
    ScanSound(h.queue, r, d, h.current + 1);
    AdvanceValid(h, ScanFences(h.queue, r, d).generation);
  }

  lemma ProcessIsAdvance(h: Helper, retired: int, d: Driver)
    requires Valid(h) && (retired == 0 || h.current < retired < h.next)
    requires ScanFences(h.queue, if retired == 0 then h.current else retired, d).Retire?
    ensures var g := ScanFences(h.queue, if retired == 0 then h.current else retired, d).generation;
            && Process(h, retired, d) == Advance(h, g)
            && RetiredCount(h.queue, g) == Process(h, retired, d).current - h.current
  {
    var r := if retired == 0 then h.current else retired;
    ScanSound(h.queue, r, d, h.current + 1);
    AdvanceValid(h, ScanFences(h.queue, r, d).generation);
  }

  lemma PushValid(h: Helper, fence: Fence)
    requires Valid(h)
    requires fence != VK_NULL_HANDLE ==> fence !in Fences(h.queue) && fence !in h.destroyed
    ensures Valid(Push(h, fence))
  {
    var r := Push(h, fence);
    forall i | 0 <= i < |h.queue| && h.queue[i].fence != VK_NULL_HANDLE ensures h.queue[i].fence != fence {
      assert h.queue[i].fence in Fences(h.queue);
    }
    assert Fences(r.queue) <= Fences(h.queue) + {fence};
    assert fence == VK_NULL_HANDLE ==> fence !in Fences(r.queue);
  }

  /** The scan meets a failing fence before any that is not ready. */
  ghost predicate FailsAt(queue: seq<TasksForFence>, j: int, d: Driver) {
    && 0 <= j < |queue| && !queue[j].UsingCallback() && d.FenceStatus(queue[j].fence) == VK_ERROR
    && forall i :: 0 <= i < j && !queue[i].UsingCallback() ==> queue[i].fence in d.signalled
  }

  ghost predicate SignalledUpTo(queue: seq<TasksForFence>, g: int, d: Driver) {
    forall i :: 0 <= i < |queue| && queue[i].generation <= g && !queue[i].UsingCallback() ==>
      queue[i].fence in d.signalled
  }

  lemma {:induction false} ScanExact(queue: seq<TasksForFence>, retired: int, d: Driver, first: int, g: int)
    requires Numbered(queue, first) && retired >= g
    ensures ScanFences(queue, retired, d).Failed? <==> exists j :: FailsAt(queue, j, d)
    ensures ScanFences(queue, retired, d).Retire? ==>
              (ScanFences(queue, retired, d).generation >= g <==> SignalledUpTo(queue, g, d))
  {
    if queue != [] {
      var e, rest := queue[0], queue[1..];
      assert forall i :: 0 <= i < |rest| ==> rest[i] == queue[i + 1];
      if e.UsingCallback() || e.fence in d.signalled {
        var r := if e.UsingCallback() || retired >= e.generation then retired else e.generation;
        ScanExact(rest, r, d, first + 1, g);
        if j :| FailsAt(rest, j, d) {
          assert FailsAt(queue, j + 1, d);
        }
        if j :| FailsAt(queue, j, d) {
          assert FailsAt(rest, j - 1, d);
        }
        assert SignalledUpTo(rest, g, d) <==> SignalledUpTo(queue, g, d) by {
          if SignalledUpTo(queue, g, d) {
            forall i | 0 <= i < |rest| && rest[i].generation <= g && !rest[i].UsingCallback()
              ensures rest[i].fence in d.signalled
            {
              assert queue[i + 1].fence in d.signalled;
            }
          }
          if SignalledUpTo(rest, g, d) {
            forall i | 0 <= i < |queue| && queue[i].generation <= g && !queue[i].UsingCallback()
              ensures queue[i].fence in d.signalled
            {
              if i > 0 { assert queue[i] == rest[i - 1]; }
            }
          }
        }
      } else {
        assert FailsAt(queue, 0, d) <==> d.FenceStatus(e.fence) == VK_ERROR;
        assert forall j :: FailsAt(queue, j, d) ==> j == 0;
      }
    }
  }

  /** A fired callback retires its generation exactly when no fence up to it is unready,
      or a failing fence comes first and everything is cleaned up. Otherwise it is cut
      back and not remembered. */
  lemma CallbackRetires(h: Helper, g: int, d: Driver)
    requires Valid(h) && h.current < g < h.next
    ensures Process(h, g, d).current >= g <==>
            SignalledUpTo(h.queue, g, d) || exists j :: FailsAt(h.queue, j, d)
  {
    ScanExact(h.queue, g, d, h.current + 1, g);
  }

  /** A handle stays valid whatever is processed. */
  lemma HandleStaysValid(h: Helper, retired: int, d: Driver, handle: FenceHandle)
    requires Valid(h) && ValidHandle(h, handle) && (retired == 0 || h.current < retired < h.next)
    ensures Valid(Process(h, retired, d)) && ValidHandle(Process(h, retired, d), handle)
  {
    ProcessValid(h, retired, d);
    if ScanFences(h.queue, if retired == 0 then h.current else retired, d).Retire? {
      PoppedWereSignalled(h, retired, d);
      HandleSurvivesPop(h, Process(h, retired, d), handle);
    } else {
      assert Process(h, retired, d).current == h.next - 1 || h.queue == [];
    }
  }

  lemma HandleSurvivesPop(h: Helper, r: Helper, handle: FenceHandle)
    requires Valid(h) && ValidHandle(h, handle) && Valid(r)
    requires h.current <= r.current && r.next == h.next && r.queue == h.queue[r.current - h.current..]
    ensures ValidHandle(r, handle)
  {
  }

  /** `Wait` passes its fence to the driver only when the generation has not passed, and
      then the fence has not been destroyed. */
  lemma WaitedFenceIsAlive(h: Helper, handle: FenceHandle)
    requires Valid(h) && ValidHandle(h, handle) && h.current < handle.generation
    ensures handle.fence != VK_NULL_HANDLE && handle.fence !in h.destroyed
  {
    var i := handle.generation - h.current - 1;
    assert h.queue[i].fence in Fences(h.queue);
  }

  // ---------------------------------------------------------------- whole runs

  datatype Op =
    | EnqueueTask(task: Task)
    | EnqueueFence(fence: Fence)
    | GenerateCleanupFence(newFence: Fence, created: bool, submitted: bool, lost: bool)
    | CreateExternalCallback
    | FireCallback(generation: int, firing: Driver)
    | Poll(polled: Driver)
    | Wait(handle: FenceHandle, before: Driver, after: Driver)
    | Destroy(lost: bool)

  /** Fences come from the driver fresh, callbacks carry a generation that was given out. */
  ghost predicate Enabled(h: Helper, op: Op) {
    match op
    case EnqueueFence(f) => f != VK_NULL_HANDLE && f !in Fences(h.queue) && f !in h.destroyed
    case GenerateCleanupFence(f, _, _, _) => f != VK_NULL_HANDLE && f !in Fences(h.queue) && f !in h.destroyed
    case FireCallback(g, _) => 0 < g < h.next
    case _ => true
  }

  function Step(h: Helper, op: Op): Helper {
    match op
    case EnqueueTask(t) => h.(pending := h.pending + [t])
    case EnqueueFence(f) => Push(h, f)
    case GenerateCleanupFence(f, created, submitted, lost) =>
      if h.pending == [] then h
      else if !created then Cleanup(h, lost)
      else if !submitted then Cleanup(h.(destroyed := h.destroyed + {f}), lost)
      else Push(h, f)
    case CreateExternalCallback => if h.pending == [] then h else Push(h, VK_NULL_HANDLE)
    case FireCallback(g, d) => if g > h.current then Process(h, g, d) else h
    case Poll(d) => Process(h, 0, d)
    case Wait(handle, d1, d2) =>
      var h1 := Process(h, 0, d1);
      if h1.current >= handle.generation then h1 else Process(h1, 0, d2)
    case Destroy(lost) => Cleanup(h, lost)
  }

  lemma EnqueueTaskKeeps(h: Helper, t: Task)
    requires Valid(h)
    ensures Valid(h.(pending := h.pending + [t]))
    ensures History(h.(pending := h.pending + [t])) == History(h) + [t]
  {
  }

  lemma CleanupValid(h: Helper, lost: bool)
    requires Valid(h)
    ensures Valid(Cleanup(h, lost)) && Cleanup(h, lost).current >= h.current
  {
  }

  /** A new fence that was never queued may be destroyed at once. */
  lemma DestroyUnused(h: Helper, f: Fence)
    requires Valid(h) && f !in Fences(h.queue)
    ensures Valid(h.(destroyed := h.destroyed + {f})) && History(h.(destroyed := h.destroyed + {f})) == History(h)
  {
  }

  lemma PushKeeps(h: Helper, fence: Fence)
    requires Valid(h)
    requires fence != VK_NULL_HANDLE ==> fence !in Fences(h.queue) && fence !in h.destroyed
    ensures Valid(Push(h, fence)) && Push(h, fence).current >= h.current
    ensures History(Push(h, fence)) == History(h)
  {
    PushValid(h, fence);
    PushKeepsHistory(h, fence);
  }

  lemma CleanupKeeps(h: Helper, lost: bool)
    requires Valid(h)
    ensures Valid(Cleanup(h, lost)) && Cleanup(h, lost).current >= h.current
    ensures History(Cleanup(h, lost)) == History(h)
  {
    CleanupValid(h, lost);
    CleanupKeepsHistory(h, lost);
  }

  lemma ProcessKeeps(h: Helper, retired: int, d: Driver)
    requires Valid(h) && (retired == 0 || h.current < retired < h.next)
    ensures Valid(Process(h, retired, d)) && Process(h, retired, d).current >= h.current
    ensures History(Process(h, retired, d)) == History(h)
  {
    ProcessValid(h, retired, d);
    ProcessKeepsHistory(h, retired, d);
  }

  lemma StepKeeps(h: Helper, op: Op)
    requires Valid(h) && Enabled(h, op)
    ensures Valid(Step(h, op)) && Step(h, op).current >= h.current
    ensures History(Step(h, op)) == History(h) + (if op.EnqueueTask? then [op.task] else [])
  {
    hide Valid, History, Process, Cleanup, Push, Fences;
    match op
    case EnqueueTask(t) =>
      EnqueueTaskKeeps(h, t);
    case EnqueueFence(f) =>
      PushKeeps(h, f);
    case GenerateCleanupFence(f, created, submitted, lost) =>
      PushKeeps(h, f);
      CleanupKeeps(h, lost);
      DestroyUnused(h, f);
      CleanupKeeps(h.(destroyed := h.destroyed + {f}), lost);
    case CreateExternalCallback =>
      PushKeeps(h, VK_NULL_HANDLE);
    case FireCallback(g, d) =>
      if g > h.current {
        ProcessKeeps(h, g, d);
      }
    case Poll(d) =>
      ProcessKeeps(h, 0, d);
    case Wait(handle, d1, d2) =>
      ProcessKeeps(h, 0, d1);
      ProcessKeeps(Process(h, 0, d1), 0, d2);
    case Destroy(lost) =>
      CleanupKeeps(h, lost);
  }

  function Run(h: Helper, ops: seq<Op>): Helper
    decreases |ops|
  {
    if ops == [] then h else Run(Step(h, ops[0]), ops[1..])
  }

  ghost predicate AllEnabled(h: Helper, ops: seq<Op>)
    decreases |ops|
  {
    ops != [] ==> Enabled(h, ops[0]) && AllEnabled(Step(h, ops[0]), ops[1..])
  }

  function Enqueued(ops: seq<Op>): seq<Task> {
    if ops == [] then [] else (if ops[0].EnqueueTask? then [ops[0].task] else []) + Enqueued(ops[1..])
  }

  lemma EnqueuedStep(history: seq<Task>, ops: seq<Op>)
    requires ops != []
    ensures history + (if ops[0].EnqueueTask? then [ops[0].task] else []) + Enqueued(ops[1..])
            == history + Enqueued(ops)
  {
    Associative(history, if ops[0].EnqueueTask? then [ops[0].task] else [], Enqueued(ops[1..]));
  }

  lemma Associative(a: seq<Task>, b: seq<Task>, c: seq<Task>)
    ensures a + b + c == a + (b + c)
  {
  }

  /** Over every run the numbering holds, the current generation never decreases, and
      nothing handed over is lost, repeated or reordered. */
  lemma {:induction false} RunKeeps(h: Helper, ops: seq<Op>)
    requires Valid(h) && AllEnabled(h, ops)
    ensures Valid(Run(h, ops)) && Run(h, ops).current >= h.current
    ensures History(Run(h, ops)) == History(h) + Enqueued(ops)
    decreases |ops|
  {
    if ops != [] {
      StepKeeps(h, ops[0]);
      hide Step, Valid, History, Enabled;
      RunKeeps(Step(h, ops[0]), ops[1..]);
      EnqueuedStep(History(h), ops);
    }
  }

  /** Tasks run in the order they were enqueued, each at most as often as it was enqueued;
      after a device failure or `Destroy` all of them have run. */
  lemma TasksRunInOrder(ops: seq<Op>)
    requires AllEnabled(Initial, ops)
    ensures TasksOf(Run(Initial, ops).ran) <= Enqueued(ops)
    ensures Run(Initial, ops).queue == [] && Run(Initial, ops).pending == [] ==>
              TasksOf(Run(Initial, ops).ran) == Enqueued(ops)
  {
    RunKeeps(Initial, ops);
    HistoryPrefix(Run(Initial, ops), Enqueued(ops));
  }

  lemma HistoryPrefix(h: Helper, tasks: seq<Task>)
    requires History(h) == History(Initial) + tasks
    ensures TasksOf(h.ran) <= tasks
    ensures h.queue == [] && h.pending == [] ==> TasksOf(h.ran) == tasks
  {
    assert History(Initial) == [];
    assert [] + tasks == tasks;
    assert History(h) == TasksOf(h.ran) + (Flatten(h.queue) + h.pending);
  }

  // ---------------------------------------------------------------- handles over whole runs

  predicate IssuesHandle(op: Op) {
    op.EnqueueFence? || op.GenerateCleanupFence?
  }

  /** The handle an operation gives out. When no fence was enqueued it is the empty one. */
  function HandleOf(h: Helper, op: Op): FenceHandle
    requires IssuesHandle(op)
  {
    match op
    case EnqueueFence(f) => FenceHandle(f, h.next)
    case GenerateCleanupFence(f, created, submitted, _) =>
      if h.pending != [] && created && submitted then FenceHandle(f, h.next) else FenceHandle(VK_NULL_HANDLE, 0)
  }

  lemma PendingKeepsHandle(h: Helper, pending: seq<Task>, handle: FenceHandle)
    requires Valid(h) && ValidHandle(h, handle)
    ensures Valid(h.(pending := pending)) && ValidHandle(h.(pending := pending), handle)
  {
  }

  lemma UnusedKeepsHandle(h: Helper, f: Fence, handle: FenceHandle)
    requires Valid(h) && ValidHandle(h, handle) && Valid(h.(destroyed := h.destroyed + {f}))
    ensures ValidHandle(h.(destroyed := h.destroyed + {f}), handle)
  {
  }

  lemma PushKeepsHandle(h: Helper, fence: Fence, handle: FenceHandle)
    requires Valid(h) && ValidHandle(h, handle) && Valid(Push(h, fence))
    ensures ValidHandle(Push(h, fence), handle)
  {
  }

  /** An immediate cleanup destroys every queued fence, and lets every generation pass. */
  lemma CleanupKeepsHandle(h: Helper, lost: bool, handle: FenceHandle)
    requires Valid(h) && ValidHandle(h, handle)
    ensures Valid(Cleanup(h, lost)) && ValidHandle(Cleanup(h, lost), handle)
  {
    if h.queue == [] && h.pending == [] {
      assert Cleanup(h, lost) == h;
    } else {
      assert Cleanup(h, lost).current == h.next - 1;
    }
  }

  /** Every operation keeps every handle that was given out before. */
  lemma StepKeepsHandle(h: Helper, op: Op, handle: FenceHandle)
    requires Valid(h) && Enabled(h, op) && ValidHandle(h, handle)
    ensures Valid(Step(h, op)) && ValidHandle(Step(h, op), handle)
  {
    StepKeeps(h, op);
    hide Valid, ValidHandle, Process, Cleanup, Push, Fences;
    match op
    case EnqueueTask(t) =>
      PendingKeepsHandle(h, h.pending + [t], handle);
    case EnqueueFence(f) =>
      PushKeepsHandle(h, f, handle);
    case GenerateCleanupFence(f, created, submitted, lost) =>
      if h.pending == [] {
      } else if !created {
        CleanupKeepsHandle(h, lost, handle);
      } else if !submitted {
        DestroyUnused(h, f);
        UnusedKeepsHandle(h, f, handle);
        CleanupKeepsHandle(h.(destroyed := h.destroyed + {f}), lost, handle);
      } else {
        PushKeepsHandle(h, f, handle);
      }
    case CreateExternalCallback =>
      if h.pending != [] {
        PushKeepsHandle(h, VK_NULL_HANDLE, handle);
      }
    case FireCallback(g, d) =>
      if g > h.current {
        HandleStaysValid(h, g, d, handle);
      }
    case Poll(d) =>
      HandleStaysValid(h, 0, d, handle);
    case Wait(_, d1, d2) =>
      HandleStaysValid(h, 0, d1, handle);
      HandleStaysValid(Process(h, 0, d1), 0, d2, handle);
    case Destroy(lost) =>
      CleanupKeepsHandle(h, lost, handle);
  }

  lemma IssuedHandleIsValid(h: Helper, op: Op)
    requires Valid(h) && Enabled(h, op) && IssuesHandle(op)
    ensures Valid(Step(h, op)) && ValidHandle(Step(h, op), HandleOf(h, op))
  {
    StepKeeps(h, op);
  }

  lemma {:induction false} RunKeepsHandle(h: Helper, ops: seq<Op>, handle: FenceHandle)
    requires Valid(h) && AllEnabled(h, ops) && ValidHandle(h, handle)
    ensures Valid(Run(h, ops)) && ValidHandle(Run(h, ops), handle)
    decreases |ops|
  {
    if ops != [] {
      StepKeepsHandle(h, ops[0], handle);
      hide Step, Valid, ValidHandle, Enabled;
      RunKeepsHandle(Step(h, ops[0]), ops[1..], handle);
    }
  }

  /** Whatever happened before a handle was given out and whatever happens afterwards, its
      fence stays queued and undestroyed until its generation has passed; and a `Wait` on
      it, which polls first, hands the driver a fence that has not been destroyed. */
  lemma WaitsAreSafe(before: seq<Op>, op: Op, after: seq<Op>, poll: Driver)
    requires AllEnabled(Initial, before) && IssuesHandle(op) && Enabled(Run(Initial, before), op)
    requires AllEnabled(Step(Run(Initial, before), op), after)
    ensures var handle := HandleOf(Run(Initial, before), op);
            var h := Run(Step(Run(Initial, before), op), after);
            var polled := Process(h, 0, poll);
            && (h.current < handle.generation ==> handle.fence in Fences(h.queue) && handle.fence !in h.destroyed)
            && (polled.current < handle.generation ==>
                  handle.fence != VK_NULL_HANDLE && handle.fence !in polled.destroyed)
  {
    var start := Run(Initial, before);
    var handle := HandleOf(start, op);
    var h := Run(Step(start, op), after);
    RunKeeps(Initial, before);
    IssuedHandleIsValid(start, op);
    hide Step, Run, AllEnabled, HandleOf, Process, Enabled;
    RunKeepsHandle(Step(start, op), after, handle);
    HandleStaysValid(h, 0, poll, handle);
    if h.current < handle.generation {
      WaitedFenceIsAlive(h, handle);
    }
    if Process(h, 0, poll).current < handle.generation {
      WaitedFenceIsAlive(Process(h, 0, poll), handle);
    }
  }

  // ---------------------------------------------------------------- a callback that is lost

  /** A run whose callback fires behind an unready fence. The fence then signals, and still
      no poll, now or later, retires the callback's generation. */
  lemma BlockedCallbackIsForgotten(f: Fence, first: Task, second: Task)
    requires f != VK_NULL_HANDLE
    ensures var ops := [EnqueueTask(first), EnqueueFence(f), EnqueueTask(second), CreateExternalCallback,
                        FireCallback(2, Driver({}, {}, false)), Poll(Driver({f}, {}, false))];
            var h := Run(Initial, ops);
            && AllEnabled(Initial, ops)
            && h.current == 1 && h.queue == [TasksForFence(VK_NULL_HANDLE, 2, [second])]
            && forall d :: Process(h, 0, d) == h
  {
    var idle, done := Driver({}, {}, false), Driver({f}, {}, false);
    var a, b := TasksForFence(f, 1, [first]), TasksForFence(VK_NULL_HANDLE, 2, [second]);
    var h4 := Helper(3, 0, [a, b], [], [], {});
    var h6 := Helper(3, 1, [b], [], [Ran(first, false)], {f});
    var late := [FireCallback(2, idle), Poll(done)];
    BlockedSetUp(f, first, second, late);
    FiredTooEarly(h4, a, b, idle);
    PolledLater(h4, a, b, done, h6);
    NothingToPoll(h6, b);
    hide Process, Run, AllEnabled;
    Chain(h4, FireCallback(2, idle), h4, [Poll(done)]);
    Chain(h4, Poll(done), h6, []);
    Done(h6);
    assert [EnqueueTask(first), EnqueueFence(f), EnqueueTask(second), CreateExternalCallback] + late
        == [EnqueueTask(first), EnqueueFence(f), EnqueueTask(second), CreateExternalCallback,
            FireCallback(2, idle), Poll(done)];
    assert [FireCallback(2, idle)] + [Poll(done)] == late && [Poll(done)] + [] == [Poll(done)];
  }

  lemma BlockedSetUp(f: Fence, first: Task, second: Task, late: seq<Op>)
    requires f != VK_NULL_HANDLE
    ensures var ops := [EnqueueTask(first), EnqueueFence(f), EnqueueTask(second), CreateExternalCallback] + late;
            var a, b := TasksForFence(f, 1, [first]), TasksForFence(VK_NULL_HANDLE, 2, [second]);
            var h := Helper(3, 0, [a, b], [], [], {});
            Run(Initial, ops) == Run(h, late) && (AllEnabled(Initial, ops) <==> AllEnabled(h, late))
  {
    hide Run, AllEnabled;
    var a, b := TasksForFence(f, 1, [first]), TasksForFence(VK_NULL_HANDLE, 2, [second]);
    var o1, o2, o3, o4 := EnqueueTask(first), EnqueueFence(f), EnqueueTask(second), CreateExternalCallback;
    Chain(Initial, o1, Helper(1, 0, [], [first], [], {}), [o2, o3, o4] + late);
    Chain(Helper(1, 0, [], [first], [], {}), o2, Helper(2, 0, [a], [], [], {}), [o3, o4] + late);
    Chain(Helper(2, 0, [a], [], [], {}), o3, Helper(2, 0, [a], [second], [], {}), [o4] + late);
    Chain(Helper(2, 0, [a], [second], [], {}), o4, Helper(3, 0, [a, b], [], [], {}), late);
    assert [o1] + ([o2, o3, o4] + late) == [o1, o2, o3, o4] + late;
    assert [o2] + ([o3, o4] + late) == [o2, o3, o4] + late;
    assert [o3] + ([o4] + late) == [o3, o4] + late;
  }

  lemma Done(h: Helper)
    ensures Run(h, []) == h && AllEnabled(h, [])
  {
  }

  lemma Chain(h: Helper, op: Op, next: Helper, rest: seq<Op>)
    requires Enabled(h, op) && Step(h, op) == next
    ensures Run(h, [op] + rest) == Run(next, rest)
    ensures AllEnabled(h, [op] + rest) <==> AllEnabled(next, rest)
  {
    assert ([op] + rest)[1..] == rest;
  }

  lemma FiredTooEarly(h: Helper, a: TasksForFence, b: TasksForFence, d: Driver)
    requires h.queue == [a, b] && h.current == 0 && a.generation == 1 && !a.UsingCallback()
    requires a.fence !in d.signalled && a.fence !in d.broken
    ensures Process(h, 2, d) == h
  {
  }

  lemma PolledLater(h: Helper, a: TasksForFence, b: TasksForFence, d: Driver, r: Helper)
    requires h.queue == [a, b] && h.current == 0 && a.generation == 1 && b.generation == 2
    requires !a.UsingCallback() && b.UsingCallback() && a.fence in d.signalled
    requires h.ran == [] && h.destroyed == {} && |a.tasks| == 1
    requires r == h.(current := 1, queue := [b], ran := [Ran(a.tasks[0], false)], destroyed := {a.fence})
    ensures Process(h, 0, d) == r
  {
    assert h.queue[1..] == [b] && h.queue[1..][1..] == [];
    assert ScanFences([b], 1, d) == Retire(1);
    assert ScanFences(h.queue, 0, d) == Retire(1);
    assert RetiredCount([b], 1) == 0;
    assert RetiredCount(h.queue, 1) == 1;
    assert h.queue[..1] == [a];
    assert Flatten([a]) == a.tasks + Flatten([]) == a.tasks;
    assert Fences([a]) == {a.fence} by {
      assert [a][0].fence == a.fence;
    }
    assert Mark(a.tasks, false) == [Ran(a.tasks[0], false)];
  }

  lemma NothingToPoll(h: Helper, b: TasksForFence)
    requires h.queue == [b] && b.UsingCallback() && b.generation > h.current && h.current > 0
    ensures forall d :: Process(h, 0, d) == h
  {
    assert h.queue[1..] == [] && h.queue[0..] == h.queue && h.queue[..0] == [];
    assert RetiredCount(h.queue, h.current) == 0;
    assert Fences([]) == {} && Mark([], false) == [];
    forall d: Driver ensures Process(h, 0, d) == h {
      assert ScanFences([], h.current, d) == Retire(h.current);
      assert ScanFences(h.queue, h.current, d) == Retire(h.current);
    }
  }

  // ---------------------------------------------------------------- the class

  class VulkanFenceHelper {
    var next: int
    var current: int
    var cleanupTasks: seq<TasksForFence>
    var tasksPendingFence: seq<Task>
    var ran: seq<Ran>
    var destroyed: set<Fence>

    ghost function State(): Helper
      reads this
    {
      Helper(next, current, cleanupTasks, tasksPendingFence, ran, destroyed)
    }

    constructor ()
      ensures State() == Initial && Valid(State())
    {
      next, current, cleanupTasks, tasksPendingFence, ran, destroyed := 1, 0, [], [], [], {};
    }

    method EnqueueCleanupTaskForSubmittedWork(task: Task)
      modifies this
      ensures State() == Step(old(State()), EnqueueTask(task))
    {
      tasksPendingFence := tasksPendingFence + [task];
    }

    method EnqueueFenceHandle(fence: Fence) returns (handle: FenceHandle)
      requires Valid(State()) && Enabled(State(), EnqueueFence(fence))
      modifies this
      ensures State() == Step(old(State()), EnqueueFence(fence)) && Valid(State())
      ensures handle == HandleOf(old(State()), EnqueueFence(fence)) && ValidHandle(State(), handle)
    {
      PushValid(State(), fence);
      handle := FenceHandle(fence, next);
      next := next + 1;
      cleanupTasks := cleanupTasks + [TasksForFence(handle.fence, handle.generation, tasksPendingFence)];
      tasksPendingFence := [];
    }

    /** Run tasks in order, after the queue has been updated. */
    method RunTasks(tasks: seq<Task>, deviceLost: bool)
      modifies this`ran
      ensures ran == old(ran) + Mark(tasks, deviceLost)
    {
      var i := 0;
      while i < |tasks|
        invariant 0 <= i <= |tasks|
        invariant ran == old(ran) + Mark(tasks[..i], deviceLost)
      {
        assert Mark(tasks[..i + 1], deviceLost) == Mark(tasks[..i], deviceLost) + [Ran(tasks[i], deviceLost)];
        ran := ran + [Ran(tasks[i], deviceLost)];
        i := i + 1;
      }
      assert tasks[..i] == tasks;
    }

    method PerformImmediateCleanup(d: Driver)
      modifies this
      ensures State() == Cleanup(old(State()), d.deviceLost)
    {
      if cleanupTasks == [] && tasksPendingFence == [] { return; }
      current := next - 1;
      var tasksToRun: seq<Task> := [];
      ghost var all := cleanupTasks;
      ghost var n := 0;
      PoppedNothing(all, destroyed);
      while cleanupTasks != []
        invariant 0 <= n <= |all| && cleanupTasks == all[n..]
        invariant Popped(all, n, old(destroyed), tasksToRun, destroyed)
        invariant ran == old(ran) && tasksPendingFence == old(tasksPendingFence)
        invariant next == old(next) && current == next - 1
        decreases |cleanupTasks|
      {
        var front := cleanupTasks[0];
        PopOne(all, n, old(destroyed), tasksToRun, destroyed);
        if front.fence != VK_NULL_HANDLE {  // destroying a null handle does nothing
          destroyed := destroyed + {front.fence};
        }
        tasksToRun := tasksToRun + front.tasks;
        cleanupTasks := cleanupTasks[1..];
        n := n + 1;
      }
      assert all[..n] == all;
      tasksToRun := tasksToRun + tasksPendingFence;
      tasksPendingFence := [];
      RunTasks(tasksToRun, d.deviceLost);
    }

    /** The loop that asks for the status of each queued fence in turn. */
    method ScanQueue(start: int, d: Driver) returns (verdict: Verdict)
      ensures verdict == ScanFences(cleanupTasks, start, d)
    {
      var retired := start;
      var i := 0;
      while i < |cleanupTasks|
        invariant 0 <= i <= |cleanupTasks|
        invariant ScanFences(cleanupTasks[i..], retired, d) == ScanFences(cleanupTasks, start, d)
      {
        var e := cleanupTasks[i];
        assert cleanupTasks[i..][1..] == cleanupTasks[i + 1..];
        i := i + 1;
        if e.UsingCallback() { continue; }
        var result := d.FenceStatus(e.fence);
        if result == VK_NOT_READY {
          return Retire(if retired < e.generation - 1 then retired else e.generation - 1);
        }
        if result == VK_SUCCESS {
          retired := if retired < e.generation then e.generation else retired;
          continue;
        }
        return Failed;
      }
      verdict := Retire(retired);
    }

    /** `later` is the driver when popped fences are checked again before being destroyed. */
    method ProcessCleanupTasks(retiredGeneration: int, d: Driver, later: Driver)
      requires Valid(State()) && (retiredGeneration == 0 || current < retiredGeneration < next) && Later(d, later)
      modifies this
      ensures State() == Process(old(State()), retiredGeneration, d)
      ensures Valid(State())
    {
      ghost var h := State();
      ProcessValid(h, retiredGeneration, d);
      var verdict := ScanQueue(if retiredGeneration == 0 then current else retiredGeneration, d);
      if verdict == Failed {
        PerformImmediateCleanup(d);
        return;
      }
      PoppedWereSignalled(h, retiredGeneration, d);
      ProcessIsAdvance(h, retiredGeneration, d);
      hide Valid, Process, ScanFences, Flatten, Fences;
      var tasksToRun := PopRetired(verdict.generation, later);
      RunTasks(tasksToRun, false);
    }

    /** Pop the retired entries; the check on each fence before it is destroyed holds. */
    method PopRetired(retired: int, later: Driver) returns (tasksToRun: seq<Task>)
      requires var n := RetiredCount(cleanupTasks, retired);
               forall i :: 0 <= i < n && !cleanupTasks[i].UsingCallback() ==> cleanupTasks[i].fence in later.signalled
      modifies this`current, this`cleanupTasks, this`destroyed
      ensures var n := RetiredCount(old(cleanupTasks), retired);
              && tasksToRun == Flatten(old(cleanupTasks)[..n]) && cleanupTasks == old(cleanupTasks)[n..]
              && current == retired && destroyed == old(destroyed) + Fences(old(cleanupTasks)[..n])
    {
      current := retired;
      tasksToRun := [];
      ghost var all := cleanupTasks;
      ghost var n := 0;
      PoppedNothing(all, destroyed);
      FrontRetired(all, retired);
      hide Fences, Flatten, RetiredCount, Popped;
      while cleanupTasks != []
        invariant 0 <= n <= |all| && cleanupTasks == all[n..]
        invariant n + RetiredCount(cleanupTasks, retired) == RetiredCount(all, retired)
        invariant Popped(all, n, old(destroyed), tasksToRun, destroyed) && current == retired
        decreases |cleanupTasks|
      {
        var front := cleanupTasks[0];
        FrontRetired(cleanupTasks, retired);
        FrontRetired(cleanupTasks[1..], retired);
        if front.generation > current { break; }
        PopOne(all, n, old(destroyed), tasksToRun, destroyed);
        if front.fence != VK_NULL_HANDLE {
          assert front == all[n];
          assert later.FenceStatus(front.fence) == VK_SUCCESS;
          destroyed := destroyed + {front.fence};
        }
        tasksToRun := tasksToRun + front.tasks;
        cleanupTasks := cleanupTasks[1..];
        n := n + 1;
      }
      PoppedIs(all, n, old(destroyed), tasksToRun, destroyed);
    }

    method HasPassed(handle: FenceHandle, d: Driver, later: Driver) returns (passed: bool)
      requires Valid(State()) && Later(d, later)
      modifies this
      ensures State() == Step(old(State()), Poll(d)) && Valid(State())
      ensures passed <==> current >= handle.generation
    {
      ProcessCleanupTasks(0, d, later);
      passed := current >= handle.generation;
    }

    /** The fence handed to the driver has not been destroyed. */
    method WaitFor(handle: FenceHandle, result: VkResult, d1: Driver, later1: Driver, d2: Driver, later2: Driver)
      returns (done: bool)
      requires Valid(State()) && ValidHandle(State(), handle) && Later(d1, later1) && Later(d2, later2)
      modifies this
      ensures State() == Step(old(State()), Wait(handle, d1, d2)) && Valid(State()) && ValidHandle(State(), handle)
      ensures done <==> result == VK_SUCCESS || Process(old(State()), 0, d1).current >= handle.generation
    {
      HandleStaysValid(State(), 0, d1, handle);
      var passed := HasPassed(handle, d1, later1);
      if passed { return true; }
      WaitedFenceIsAlive(State(), handle);
      assert handle.fence !in destroyed;  // vkWaitForFences(handle.fence) happens here
      HandleStaysValid(State(), 0, d2, handle);
      ProcessCleanupTasks(0, d2, later2);
      done := result == VK_SUCCESS;
    }

    /** `fence` is what the driver would create; `created` and `submitted` are its answers. */
    method GenerateFence(fence: Fence, created: bool, submitted: bool, d: Driver) returns (handle: FenceHandle)
      requires Valid(State()) && Enabled(State(), GenerateCleanupFence(fence, created, submitted, d.deviceLost))
      modifies this
      ensures State() == Step(old(State()), GenerateCleanupFence(fence, created, submitted, d.deviceLost))
      ensures handle == HandleOf(old(State()), GenerateCleanupFence(fence, created, submitted, d.deviceLost))
      ensures Valid(State()) && ValidHandle(State(), handle)
    {
      StepKeeps(State(), GenerateCleanupFence(fence, created, submitted, d.deviceLost));
      handle := FenceHandle(VK_NULL_HANDLE, 0);
      if tasksPendingFence == [] { return; }
      if !created {
        PerformImmediateCleanup(d);
        return;
      }
      if !submitted {
        destroyed := destroyed + {fence};
        PerformImmediateCleanup(d);
        return;
      }
      handle := EnqueueFenceHandle(fence);
    }

    /** The closure is represented by the generation it captured, 0 for a null closure. */
    method CreateCallback() returns (generation: int)
      requires Valid(State())
      modifies this
      ensures State() == Step(old(State()), CreateExternalCallback) && Valid(State())
      ensures 0 <= generation < next
    {
      if tasksPendingFence == [] { return 0; }
      PushValid(State(), VK_NULL_HANDLE);
      generation := next;
      next := next + 1;
      cleanupTasks := cleanupTasks + [TasksForFence(VK_NULL_HANDLE, generation, tasksPendingFence)];
      tasksPendingFence := [];
    }

    method RunCallback(generation: int, d: Driver, later: Driver)
      requires Valid(State()) && 0 < generation < next && Later(d, later)
      modifies this
      ensures State() == Step(old(State()), FireCallback(generation, d)) && Valid(State())
    {
      if generation > current {
        ProcessCleanupTasks(generation, d, later);
      }
    }
  }

  lemma FrontRetired(queue: seq<TasksForFence>, retired: int)
    ensures queue == [] || queue[0].generation > retired ==> RetiredCount(queue, retired) == 0
    ensures queue != [] && queue[0].generation <= retired ==>
              RetiredCount(queue, retired) == 1 + RetiredCount(queue[1..], retired)
  {
  }

  /** What popping the first `n` entries has collected. */
  ghost predicate Popped(all: seq<TasksForFence>, n: nat, before: set<Fence>, tasks: seq<Task>, destroyed: set<Fence>) {
    n <= |all| && tasks == Flatten(all[..n]) && destroyed == before + Fences(all[..n])
  }

  lemma PoppedNothing(all: seq<TasksForFence>, before: set<Fence>)
    ensures Popped(all, 0, before, [], before)
  {
    assert Flatten(all[..0]) == [] && Fences(all[..0]) == {};
  }

  lemma PopOne(all: seq<TasksForFence>, n: nat, before: set<Fence>, tasks: seq<Task>, destroyed: set<Fence>)
    requires n < |all| && Popped(all, n, before, tasks, destroyed)
    ensures all[n..][1..] == all[n + 1..]
    ensures Popped(all, n + 1, before, tasks + all[n].tasks,
                   if all[n].fence != VK_NULL_HANDLE then destroyed + {all[n].fence} else destroyed)
  {
    TakeOne(all, n);
    hide Fences, Flatten;
  }

  lemma PoppedIs(all: seq<TasksForFence>, n: nat, before: set<Fence>, tasks: seq<Task>, destroyed: set<Fence>)
    requires Popped(all, n, before, tasks, destroyed)
    ensures n <= |all| && tasks == Flatten(all[..n]) && destroyed == before + Fences(all[..n])
  {
  }

  lemma TakeOne(all: seq<TasksForFence>, n: nat)
    requires n < |all|
    ensures Flatten(all[..n + 1]) == Flatten(all[..n]) + all[n].tasks
    ensures Fences(all[..n + 1]) == Fences(all[..n]) + (if all[n].fence != VK_NULL_HANDLE then {all[n].fence} else {})
    ensures all[n..][1..] == all[n + 1..]
  {
    var a := all[..n];
    assert all[..n + 1] == a + [all[n]];
    FlattenConcat(a, [all[n]]);
    assert Flatten([all[n]]) == all[n].tasks + Flatten([]);
    var b := all[..n + 1];
    forall f | f in Fences(a) ensures f in Fences(b) {
      var i :| 0 <= i < n && a[i].fence == f && f != VK_NULL_HANDLE;
      assert b[i].fence == f;
    }
    forall f | f in Fences(b) && f != all[n].fence ensures f in Fences(a) {
      var i :| 0 <= i < |b| && b[i].fence == f && f != VK_NULL_HANDLE;
      assert a[i].fence == f;
    }
    assert all[n].fence != VK_NULL_HANDLE ==> b[n].fence in Fences(b);
  }
}
