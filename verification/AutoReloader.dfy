/** The error-page auto-reloader (muim/error_loader.cpp): event handlers that set and clear
    a backoff timer. Delays are in seconds. What the browser reports about a navigation is
    input. */
module AutoReloader {
  import opened Text

  type Handle = nat

  datatype ErrorPageInfo = ErrorPageInfo(url: string, error: int)

  /** A timer object; once it has fired it is still there but no longer running. */
  datatype Timer = Timer(delay: nat, running: bool)

  /** `delays` lists the delays started since the current error was recorded. */
  datatype Reloader = Reloader(
    timer: Option<Timer>, pending: map<Handle, bool>, numReloads: nat, inProgress: bool,
    info: Option<ErrorPageInfo>, online: bool, visible: bool, delays: seq<nat>)

  const DELAYS: seq<nat> := [1, 5, 30, 60, 5 * 60, 10 * 60, 30 * 60]

  /** `GetNextReloadDelay`. */
  function NextDelay(reloadCount: nat): (d: nat)
    ensures 1 <= d <= 30 * 60
    ensures reloadCount >= 6 ==> d == 30 * 60
  {
    DELAYS[if reloadCount < |DELAYS| - 1 then reloadCount else |DELAYS| - 1]
  }

  lemma DelaysGrow(a: nat, b: nat)
    requires a <= b
    ensures NextDelay(a) <= NextDelay(b)
  {
    assert DELAYS[0] <= DELAYS[1] <= DELAYS[2] <= DELAYS[3] <= DELAYS[4] <= DELAYS[5] <= DELAYS[6];
  }

  // ---------------------------------------------------------------- handlers

  /** What a finished navigation reports; `reloadable` is the answer of `ShouldAutoReload`. */
  datatype Finished = Finished(
    handle: Handle, committed: bool, reloadable: bool, isReload: bool, url: string, error: int)

  datatype Event =
    | DidStart(handle: Handle)
    | Suppress(handle: Handle, url: string, error: int)
    | DidFinish(navigation: Finished)
    | Stopped
    | VisibilityChanged(visible: bool)
    | ConnectionChanged(online: bool)
    | TimerFires

  function Reset(s: Reloader): Reloader {
    s.(timer := None, numReloads := 0, inProgress := false, info := None, delays := [])
  }

  function Schedule(s: Reloader): Reloader {
    if !s.online || !s.visible then s
    else s.(timer := Some(Timer(NextDelay(s.numReloads), true)), delays := s.delays + [NextDelay(s.numReloads)])
  }

  function Resume(s: Reloader): Reloader {
    if s.info.Some? && s.timer.None? then Schedule(s) else s
  }

  /** The shared tail of the visibility and connection handlers. */
  function PauseOrResume(s: Reloader, usable: bool): Reloader {
    if !usable then s.(timer := None) else if s.pending == map[] then Resume(s) else s
  }

  function Finish(s: Reloader, n: Finished): Reloader {
    var suppressed := n.handle in s.pending && s.pending[n.handle];
    var t := s.(pending := s.pending - {n.handle});
    if !n.committed then
      if t.pending != map[] || t.info.None? then t
      else
        var u := t.(inProgress := false);
        if suppressed then Schedule(u) else u
    else if !n.reloadable then Reset(t)
    else
      var u := if !n.isReload || t.info.None? || n.error != t.info.value.error
               then Reset(t).(info := Some(ErrorPageInfo(n.url, n.error))) else t;
      if u.pending == map[] then Schedule(u) else u
  }

  /** The throttle asks about a navigation that has started; the timer fires only while it runs. */
  predicate Enabled(s: Reloader, e: Event) {
    match e
    case Suppress(h, _, _) => h in s.pending
    case TimerFires => s.timer.Some? && s.timer.value.running
    case _ => true
  }

  function Step(s: Reloader, e: Event): Reloader {
    match e
    case DidStart(h) => s.(timer := None, pending := if h in s.pending then s.pending else s.pending[h := false])
    case Suppress(h, url, error) =>
      if s.info == Some(ErrorPageInfo(url, error)) then s.(pending := s.pending[h := true]) else s
    case DidFinish(n) => Finish(s, n)
    case Stopped => Reset(s)
    case VisibilityChanged(v) => PauseOrResume(s.(visible := v), v)
    case ConnectionChanged(o) => PauseOrResume(s.(online := o), o)
    case TimerFires =>
      var t := if s.timer.Some? then s.(timer := Some(s.timer.value.(running := false))) else s;
      if !s.online || !s.visible then t else t.(numReloads := s.numReloads + 1, inProgress := true)
  }

  // ---------------------------------------------------------------- invariant

  ghost predicate NonDecreasing(ds: seq<nat>) {
    forall i, j :: 0 <= i < j < |ds| ==> ds[i] <= ds[j]
  }

  ghost predicate Inv(s: Reloader) {
    // a timer is set only online, visible, with no navigation pending and an error recorded
    && (s.timer.Some? ==> s.online && s.visible && s.pending == map[] && s.info.Some?)
    && (s.inProgress ==> s.info.Some?)
    // the running timer waits for the next delay, and delays never go down
    && (s.timer.Some? && s.timer.value.running ==> s.timer.value.delay == NextDelay(s.numReloads))
    && NonDecreasing(s.delays)
    && (forall i :: 0 <= i < |s.delays| ==> s.delays[i] <= NextDelay(s.numReloads))
    && (s.info.None? ==> s.delays == [] && s.numReloads == 0)
  }

  lemma ScheduleKeeps(s: Reloader)
    requires Inv(s) && s.info.Some? && s.pending == map[]
    ensures Inv(Schedule(s))
  {
    hide NextDelay;
  }

  lemma PauseKeeps(s: Reloader, usable: bool)
    requires Inv(s.(timer := None))
    requires s.timer.Some? && usable ==> s.online && s.visible && Inv(s)
    ensures Inv(PauseOrResume(s, usable))
  {
    if usable && s.pending == map[] && s.info.Some? && s.timer.None? {
      ScheduleKeeps(s);
    }
    hide NextDelay, NonDecreasing;
  }

  lemma FinishKeeps(s: Reloader, n: Finished)
    requires Inv(s)
    ensures Inv(Finish(s, n))
  {
    hide NextDelay, NonDecreasing;
    var t := s.(pending := s.pending - {n.handle});
    assert s.timer.Some? ==> t.pending == map[];
    assert Inv(t);
    if !n.committed {
      if t.pending == map[] && t.info.Some? {
        ScheduleKeeps(t.(inProgress := false));
      }
    } else if n.reloadable {
      var recorded := Reset(t).(info := Some(ErrorPageInfo(n.url, n.error)));
      ResetKeeps(t, n.url, n.error);
      var u := if !n.isReload || t.info.None? || n.error != t.info.value.error then recorded else t;
      if u.pending == map[] {
        ScheduleKeeps(u);
      }
    } else {
      ResetKeeps(t, n.url, n.error);
    }
  }

  lemma ResetKeeps(s: Reloader, url: string, error: int)
    ensures Inv(Reset(s)) && Inv(Reset(s).(info := Some(ErrorPageInfo(url, error))))
  {
  }

  lemma FireKeeps(s: Reloader)
    requires Inv(s) && Enabled(s, TimerFires)
    ensures Inv(Step(s, TimerFires))
  {
    DelaysGrow(s.numReloads, s.numReloads + 1);
    hide NextDelay, NonDecreasing;
    assert forall i :: 0 <= i < |s.delays| ==> s.delays[i] <= NextDelay(s.numReloads + 1);
  }

  lemma StepKeeps(s: Reloader, e: Event)
    requires Inv(s) && Enabled(s, e)
    ensures Inv(Step(s, e))
  {
    match e
    case DidFinish(n) => FinishKeeps(s, n);
    case Stopped => ResetKeeps(s, "", 0);
    case TimerFires => FireKeeps(s);
    case VisibilityChanged(v) => PauseKeeps(s.(visible := v), v);
    case ConnectionChanged(o) => PauseKeeps(s.(online := o), o);
    case _ =>
  }

  function Run(s: Reloader, events: seq<Event>): Reloader
    decreases |events|
  {
    if events == [] then s else Run(Step(s, events[0]), events[1..])
  }

  ghost predicate AllEnabled(s: Reloader, events: seq<Event>)
    decreases |events|
  {
    events != [] ==> Enabled(s, events[0]) && AllEnabled(Step(s, events[0]), events[1..])
  }

  function Initial(online: bool, visible: bool): Reloader {
    Reloader(None, map[], 0, false, None, online, visible, [])
  }

  lemma {:induction false} RunKeeps(s: Reloader, events: seq<Event>)
    requires Inv(s) && AllEnabled(s, events)
    ensures Inv(Run(s, events))
    decreases |events|
  {
    if events != [] {
      StepKeeps(s, events[0]);
      RunKeeps(Step(s, events[0]), events[1..]);
    }
  }

  /** In every reachable state a set timer means online, visible, nothing pending and an
      error recorded; a reload in progress means an error recorded; and the delays started
      for one error never decrease and stay within half an hour. */
  lemma ReachableStates(online: bool, visible: bool, events: seq<Event>)
    requires AllEnabled(Initial(online, visible), events)
    ensures var s := Run(Initial(online, visible), events);
            && (s.timer.Some? ==> s.online && s.visible && s.pending == map[] && s.info.Some?)
            && (s.inProgress ==> s.info.Some?)
            && NonDecreasing(s.delays) && forall d :: d in s.delays ==> d <= 30 * 60
  {
    RunKeeps(Initial(online, visible), events);
  }

  /** When the timer fires the reload always goes through: the guard that would skip it
      cannot hold, and the check on the recorded error does. The next delay then does not
      shrink. */
  lemma FiringReloads(s: Reloader)
    requires Inv(s) && Enabled(s, TimerFires)
    ensures s.info.Some? && s.online && s.visible
    ensures var t := Step(s, TimerFires);
            t.inProgress && t.numReloads == s.numReloads + 1 && NextDelay(t.numReloads) >= s.timer.value.delay
  {
    DelaysGrow(s.numReloads, s.numReloads + 1);
  }

  // ---------------------------------------------------------------- progress

  /** Waiting for the `k`-th reload of an error. */
  predicate Ready(s: Reloader, info: ErrorPageInfo, k: nat) {
    && s.online && s.visible && s.pending == map[] && s.info == Some(info)
    && s.numReloads == k && s.timer == Some(Timer(NextDelay(k), true))
  }

  /** Two ways for a reload to fail: the same error is suppressed and nothing commits, or an
      error page with the same error commits again. */
  datatype Failure = Suppressed(handle: Handle) | Committed(handle: Handle, url: string)

  /** The events of one failed reload, from its timer on. */
  function ReloadEvents(info: ErrorPageInfo, f: Failure): seq<Event> {
    match f
    case Suppressed(h) =>
      [TimerFires, DidStart(h), Suppress(h, info.url, info.error),
       DidFinish(Finished(h, false, false, true, info.url, info.error))]
    case Committed(h, url) =>
      [TimerFires, DidStart(h), DidFinish(Finished(h, true, true, true, url, info.error))]
  }

  lemma RunOne(s: Reloader, e: Event, rest: seq<Event>)
    requires Enabled(s, e)
    ensures Run(s, [e] + rest) == Run(Step(s, e), rest)
    ensures AllEnabled(s, [e] + rest) <==> AllEnabled(Step(s, e), rest)
  {
    assert ([e] + rest)[1..] == rest;
  }

  lemma {:induction false} RunConcat(s: Reloader, a: seq<Event>, b: seq<Event>)
    requires AllEnabled(s, a)
    ensures Run(s, a + b) == Run(Run(s, a), b)
    ensures AllEnabled(s, a + b) <==> AllEnabled(Run(s, a), b)
    decreases |a|
  {
    if a == [] {
      assert a + b == b;
    } else {
      assert a + b == [a[0]] + (a[1..] + b);
      RunOne(s, a[0], a[1..] + b);
      RunConcat(Step(s, a[0]), a[1..], b);
    }
  }

  lemma OneFailedReload(s: Reloader, info: ErrorPageInfo, k: nat, f: Failure)
    requires Ready(s, info, k)
    ensures AllEnabled(s, ReloadEvents(info, f)) && Ready(Run(s, ReloadEvents(info, f)), info, k + 1)
  {
    hide NextDelay, Run, AllEnabled;
    var h := f.handle;
    var s1 := Step(s, TimerFires);
    var s2 := Step(s1, DidStart(h));
    assert s2.pending == map[h := false];
    match f {
      case Suppressed(_) =>
        var suppress := Suppress(h, info.url, info.error);
        var finish := DidFinish(Finished(h, false, false, true, info.url, info.error));
        var s3 := Step(s2, suppress);
        assert s3.pending == map[h := true];
        assert s3.pending - {h} == map[];
        RunOne(s, TimerFires, [DidStart(h), suppress, finish]);
        RunOne(s1, DidStart(h), [suppress, finish]);
        RunOne(s2, suppress, [finish]);
        RunOne(s3, finish, []);
        RunNothing(Step(s3, finish));
        assert [TimerFires] + [DidStart(h), suppress, finish] == ReloadEvents(info, f);
        assert [DidStart(h)] + [suppress, finish] == [DidStart(h), suppress, finish];
        assert [suppress] + [finish] == [suppress, finish] && [finish] + [] == [finish];
      case Committed(_, url) =>
        var finish := DidFinish(Finished(h, true, true, true, url, info.error));
        assert s2.pending - {h} == map[];
        RunOne(s, TimerFires, [DidStart(h), finish]);
        RunOne(s1, DidStart(h), [finish]);
        RunOne(s2, finish, []);
        RunNothing(Step(s2, finish));
        assert [TimerFires] + [DidStart(h), finish] == ReloadEvents(info, f);
        assert [DidStart(h)] + [finish] == [DidStart(h), finish] && [finish] + [] == [finish];
    }
  }

  lemma RunNothing(s: Reloader)
    ensures Run(s, []) == s && AllEnabled(s, [])
  {
  }

  function AllReloadEvents(info: ErrorPageInfo, fs: seq<Failure>): seq<Event> {
    if fs == [] then [] else ReloadEvents(info, fs[0]) + AllReloadEvents(info, fs[1..])
  }

  lemma {:induction false} FailedReloads(s: Reloader, info: ErrorPageInfo, k: nat, fs: seq<Failure>)
    requires Ready(s, info, k)
    ensures AllEnabled(s, AllReloadEvents(info, fs)) && Ready(Run(s, AllReloadEvents(info, fs)), info, k + |fs|)
    decreases |fs|
  {
    if fs == [] {
      RunNothing(s);
    } else {
      hide Ready, ReloadEvents, Run, AllEnabled;
      OneFailedReload(s, info, k, fs[0]);
      var t := Run(s, ReloadEvents(info, fs[0]));
      FailedReloads(t, info, k + 1, fs[1..]);
      RunConcat(s, ReloadEvents(info, fs[0]), AllReloadEvents(info, fs[1..]));
    }
  }

  function FirstFailure(h: Handle, info: ErrorPageInfo): seq<Event> {
    [DidStart(h), DidFinish(Finished(h, true, true, false, info.url, info.error))]
  }

  lemma FirstIsReady(s: Reloader, h: Handle, info: ErrorPageInfo)
    requires s.online && s.visible && s.pending == map[]
    ensures AllEnabled(s, FirstFailure(h, info)) && Ready(Run(s, FirstFailure(h, info)), info, 0)
  {
    hide NextDelay, Run, AllEnabled;
    var finish := DidFinish(Finished(h, true, true, false, info.url, info.error));
    var s1 := Step(s, DidStart(h));
    var t := Step(s1, finish);
    assert s1.pending == map[h := false];
    assert s1.pending - {h} == map[];
    RunOne(s, DidStart(h), [finish]);
    RunOne(s1, finish, []);
    RunNothing(t);
    assert [DidStart(h)] + [finish] == FirstFailure(h, info) && [finish] + [] == [finish];
  }

  /** Reloading never stops by itself: an error page that commits while online and visible,
      followed by any number of failed reloads, leaves a running timer with the delay for
      that number. */
  lemma ReloadsGoOn(s: Reloader, h: Handle, info: ErrorPageInfo, fs: seq<Failure>)
    requires s.online && s.visible && s.pending == map[]
    ensures var events := FirstFailure(h, info) + AllReloadEvents(info, fs);
            && AllEnabled(s, events)
            && Run(s, events).timer == Some(Timer(NextDelay(|fs|), true))
            && Run(s, events).info == Some(info) && Run(s, events).numReloads == |fs|
  {
    hide NextDelay, Run, AllEnabled, FirstFailure, AllReloadEvents;
    FirstIsReady(s, h, info);
    FailedReloads(Run(s, FirstFailure(h, info)), info, 0, fs);
    RunConcat(s, FirstFailure(h, info), AllReloadEvents(info, fs));
  }

  /** An error is recorded, nothing keeps it from being reloaded, and yet no timer is set. */
  predicate Stranded(s: Reloader) {
    s.info.Some? && s.online && s.visible && s.pending == map[] && s.timer.None?
  }

  /** Exactly how an error gets stranded: by the end of the last pending navigation, if it
      neither committed nor was suppressed. It stays so until a visibility or connection
      event, or another navigation. */
  lemma StrandedExactly(s: Reloader, e: Event)
    requires Inv(s) && Enabled(s, e)
    ensures Stranded(Step(s, e)) <==>
            && e.DidFinish? && !e.navigation.committed
            && !(e.navigation.handle in s.pending && s.pending[e.navigation.handle])
            && Stranded(s.(pending := s.pending - {e.navigation.handle}))
    ensures Stranded(s) ==> Step(s, VisibilityChanged(true)).timer == Some(Timer(NextDelay(s.numReloads), true))
    ensures Stranded(s) ==> Step(s, ConnectionChanged(true)).timer == Some(Timer(NextDelay(s.numReloads), true))
  {
    hide NextDelay, NonDecreasing;
    match e
    case DidStart(h) => assert h in Step(s, e).pending;
    case Suppress(h, _, _) => assert h in Step(s, e).pending;
    case _ =>
  }

  /** A run from the start that strands an error: its page commits, then another navigation
      ends without committing. */
  lemma StrandedRun(h: Handle, g: Handle, info: ErrorPageInfo)
    ensures var last := DidFinish(Finished(g, false, false, false, info.url, info.error));
            var events := FirstFailure(h, info) + [DidStart(g), last];
            AllEnabled(Initial(true, true), events) && Stranded(Run(Initial(true, true), events))
  {
    hide NextDelay, Run, AllEnabled, FirstFailure;
    var s := Initial(true, true);
    var last := DidFinish(Finished(g, false, false, false, info.url, info.error));
    FirstIsReady(s, h, info);
    var t := Run(s, FirstFailure(h, info));
    RunConcat(s, FirstFailure(h, info), [DidStart(g), last]);
    var t1 := Step(t, DidStart(g));
    assert t1.pending == map[g := false];
    assert t1.pending - {g} == map[];
    RunOne(t, DidStart(g), [last]);
    RunOne(t1, last, []);
    RunNothing(Step(t1, last));
    assert [DidStart(g)] + [last] == [DidStart(g), last] && [last] + [] == [last];
  }

  // ---------------------------------------------------------------- the class

  class NetErrorAutoReloader {
    var nextReloadTimer: Option<Timer>
    var pendingNavigations: map<Handle, bool>
    var numReloadsForCurrentError: nat
    var isAutoReloadInProgress: bool
    var currentInfo: Option<ErrorPageInfo>
    var isOnline: bool
    var isVisible: bool
    ghost var delays: seq<nat>

    ghost function State(): Reloader
      reads this
    {
      Reloader(nextReloadTimer, pendingNavigations, numReloadsForCurrentError, isAutoReloadInProgress,
               currentInfo, isOnline, isVisible, delays)
    }

    constructor (online: bool, visible: bool)
      ensures State() == Initial(online, visible) && Inv(State())
    {
      nextReloadTimer, pendingNavigations, numReloadsForCurrentError := None, map[], 0;
      isAutoReloadInProgress, currentInfo, isOnline, isVisible, delays := false, None, online, visible, [];
    }

    method DidStartNavigation(h: Handle)
      requires Inv(State())
      modifies this
      ensures State() == Step(old(State()), DidStart(h)) && Inv(State())
    {
      PauseAutoReloadTimerIfRunning();
      if h !in pendingNavigations {
        pendingNavigations := pendingNavigations[h := false];
      }
    }

    method DidFinishNavigation(n: Finished)
      requires Inv(State())
      modifies this
      ensures State() == Step(old(State()), DidFinish(n)) && Inv(State())
    {
      hide Inv, NextDelay, NonDecreasing;
      StepKeeps(State(), DidFinish(n));
      var suppressed := TakePending(n.handle);
      if !n.committed {
        if pendingNavigations != map[] || currentInfo.None? { return; }
        isAutoReloadInProgress := false;
        if suppressed {
          ScheduleNextAutoReload();
        }
        return;
      }
      if !n.reloadable {
        ResetState();
        return;
      }
      if !n.isReload || currentInfo.None? || n.error != currentInfo.value.error {
        ResetState();
        currentInfo := Some(ErrorPageInfo(n.url, n.error));
      }
      if pendingNavigations == map[] {
        ScheduleNextAutoReload();
      }
    }

    method TakePending(h: Handle) returns (suppressed: bool)
      modifies this`pendingNavigations
      ensures suppressed == (h in old(pendingNavigations) && old(pendingNavigations)[h])
      ensures pendingNavigations == old(pendingNavigations) - {h}
    {
      suppressed := false;
      if h in pendingNavigations {
        suppressed := pendingNavigations[h];
        pendingNavigations := pendingNavigations - {h};
      } else {
        assert pendingNavigations - {h} == pendingNavigations;
      }
    }

    method NavigationStopped()
      modifies this
      ensures State() == Step(old(State()), Stopped)
    {
      ResetState();
    }

    method OnVisibilityChanged(visible: bool)
      requires Inv(State())
      modifies this
      ensures State() == Step(old(State()), VisibilityChanged(visible)) && Inv(State())
    {
      StepKeeps(State(), VisibilityChanged(visible));
      isVisible := visible;
      if !isVisible {
        PauseAutoReloadTimerIfRunning();
      } else if pendingNavigations == map[] {
        ResumeAutoReloadIfPaused();
      }
    }

    method OnConnectionChanged(online: bool)
      requires Inv(State())
      modifies this
      ensures State() == Step(old(State()), ConnectionChanged(online)) && Inv(State())
    {
      StepKeeps(State(), ConnectionChanged(online));
      isOnline := online;
      if !isOnline {
        PauseAutoReloadTimerIfRunning();
      } else if pendingNavigations == map[] {
        ResumeAutoReloadIfPaused();
      }
    }

    /** The check in `ShouldSuppressErrorPage` is its precondition. */
    method ShouldSuppressErrorPage(h: Handle, url: string, error: int) returns (suppress: bool)
      requires Inv(State()) && h in pendingNavigations
      modifies this
      ensures State() == Step(old(State()), Suppress(h, url, error)) && Inv(State())
      ensures suppress <==> old(currentInfo) == Some(ErrorPageInfo(url, error))
    {
      if currentInfo.None? || currentInfo.value.url != url || currentInfo.value.error != error {
        return false;
      }
      pendingNavigations := pendingNavigations[h := true];
      suppress := true;
    }

    /** The timer's callback, `ReloadMainFrame`. */
    method OnTimer()
      requires Inv(State()) && Enabled(State(), TimerFires)
      modifies this
      ensures State() == Step(old(State()), TimerFires) && Inv(State())
    {
      StepKeeps(State(), TimerFires);
      nextReloadTimer := Some(nextReloadTimer.value.(running := false));
      assert currentInfo.Some?;
      if !isOnline || !isVisible { return; }
      numReloadsForCurrentError := numReloadsForCurrentError + 1;
      isAutoReloadInProgress := true;
    }

    method ResetState()
      modifies this
      ensures State() == Reset(old(State()))
    {
      nextReloadTimer := None;
      numReloadsForCurrentError := 0;
      isAutoReloadInProgress := false;
      currentInfo := None;
      delays := [];
    }

    method PauseAutoReloadTimerIfRunning()
      modifies this`nextReloadTimer
      ensures nextReloadTimer == None
    {
      nextReloadTimer := None;
    }

    method ResumeAutoReloadIfPaused()
      modifies this`nextReloadTimer, this`delays
      ensures State() == Resume(old(State()))
    {
      if currentInfo.Some? && nextReloadTimer.None? {
        ScheduleNextAutoReload();
      }
    }

    /** Its check is its precondition, met by every caller. */
    method ScheduleNextAutoReload()
      requires currentInfo.Some?
      modifies this`nextReloadTimer, this`delays
      ensures State() == Schedule(old(State()))
    {
      if !isOnline || !isVisible { return; }
      nextReloadTimer := Some(Timer(NextDelay(numReloadsForCurrentError), true));
      delays := delays + [NextDelay(numReloadsForCurrentError)];
    }
  }
}
