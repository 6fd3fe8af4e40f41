/** What each event does to the auto-reloader (muim/error_loader.cpp), field by field, and what
    the recorded error says about a whole run. */
module ReloaderEvents {
  import opened Text
  import opened AutoReloader

  /** The delays: 1, 5 and 30 seconds, 1, 5 and 10 minutes, and then always half an hour. */
  lemma DelayTable(k: nat)
    ensures NextDelay(k) ==
            if k == 0 then 1 else if k == 1 then 5 else if k == 2 then 30 else if k == 3 then 60
            else if k == 4 then 300 else if k == 5 then 600 else 1800
  {
  }

  /** The recorded error changes only when a page commits or navigation stops: a good page or a
      stop forgets it, an error page replaces it, unless it is a reload with the same error. */
  lemma ErrorAfter(s: Reloader, e: Event)
    ensures Step(s, e).info ==
            match e
            case Stopped => None
            case DidFinish(n) =>
              if !n.committed then s.info
              else if !n.reloadable then None
              else if n.isReload && s.info.Some? && s.info.value.error == n.error then s.info
              else Some(ErrorPageInfo(n.url, n.error))
            case _ => s.info
  {
    hide NextDelay;
  }

  /** The reloads of the recorded error are counted when the timer fires, and start from zero
      with each newly recorded error. */
  lemma ReloadsAfter(s: Reloader, e: Event)
    requires Inv(s) && Enabled(s, e)
    ensures Step(s, e).numReloads ==
            match e
            case TimerFires => s.numReloads + 1
            case Stopped => 0
            case DidFinish(n) =>
              if n.committed && !(n.reloadable && n.isReload && s.info.Some? && s.info.value.error == n.error) then 0
              else s.numReloads
            case _ => s.numReloads
  {
    hide NextDelay, NonDecreasing;
  }

  /** A reload is in progress from the firing of the timer until its navigation ends, the error
      is replaced or forgotten. */
  lemma ProgressAfter(s: Reloader, e: Event)
    requires Inv(s) && Enabled(s, e)
    ensures Step(s, e).inProgress ==
            match e
            case TimerFires => true
            case Stopped => false
            case DidFinish(n) =>
              if !n.committed then s.inProgress && !(s.pending - {n.handle} == map[] && s.info.Some?)
              else s.inProgress && n.reloadable && n.isReload && s.info.Some? && s.info.value.error == n.error
            case _ => s.inProgress
  {
    hide NextDelay, NonDecreasing;
  }

  /** Navigations are pending from their start to their end; one is marked exactly when its
      error is the recorded one. */
  lemma PendingAfter(s: Reloader, e: Event)
    ensures Step(s, e).pending ==
            match e
            case DidStart(h) => if h in s.pending then s.pending else s.pending[h := false]
            case Suppress(h, url, error) =>
              if s.info.Some? && s.info.value.url == url && s.info.value.error == error then s.pending[h := true]
              else s.pending
            case DidFinish(n) => s.pending - {n.handle}
            case _ => s.pending
    ensures Step(s, e).online == if e.ConnectionChanged? then e.online else s.online
    ensures Step(s, e).visible == if e.VisibilityChanged? then e.visible else s.visible
  {
    hide NextDelay;
  }

  /** A good page, a stop, a start of a navigation, and going offline or out of sight leave no
      timer. */
  lemma TimerCleared(s: Reloader, e: Event)
    requires match e
             case DidStart(_) => true
             case Stopped => true
             case VisibilityChanged(v) => !v
             case ConnectionChanged(o) => !o
             case DidFinish(n) => n.committed && !n.reloadable
             case _ => false
    ensures Step(s, e).timer == None
  {
  }

  /** A timer is started exactly by an error page that commits, a suppressed reload that ends,
      or a connection or page that comes back, with no navigation left pending; online and in
      sight only; and for the next delay. Otherwise it is cleared as above, or stays. */
  lemma TimerStarted(s: Reloader, e: Event)
    requires Inv(s) && Enabled(s, e)
    requires match e
             case DidFinish(n) =>
               s.pending - {n.handle} == map[]
               && (if n.committed then n.reloadable
                   else s.info.Some? && n.handle in s.pending && s.pending[n.handle])
             case VisibilityChanged(v) => v && s.pending == map[] && s.info.Some? && s.timer.None?
             case ConnectionChanged(o) => o && s.pending == map[] && s.info.Some? && s.timer.None?
             case _ => false
    ensures var t := Step(s, e);
            t.timer == if t.online && t.visible then Some(Timer(NextDelay(t.numReloads), true)) else None
  {
    hide NextDelay, NonDecreasing;
    match e
    case DidFinish(n) =>
      assert !(s.online && s.visible) ==> s.timer == None;
    case _ =>
  }

  lemma TimerStays(s: Reloader, e: Event)
    requires Inv(s) && Enabled(s, e)
    requires match e
             case Suppress(_, _, _) => true
             case DidFinish(n) =>
               if n.committed then n.reloadable && s.pending - {n.handle} != map[]
               else !(s.pending - {n.handle} == map[] && s.info.Some? && n.handle in s.pending && s.pending[n.handle])
             case VisibilityChanged(v) => v && !(s.pending == map[] && s.info.Some? && s.timer.None?)
             case ConnectionChanged(o) => o && !(s.pending == map[] && s.info.Some? && s.timer.None?)
             case _ => false
    ensures Step(s, e).timer == s.timer
  {
    hide NextDelay, NonDecreasing;
    match e
    case DidFinish(n) =>
      if n.committed {
        assert s.pending != map[] by { assert s.pending == map[] ==> s.pending - {n.handle} == map[]; }
        assert s.timer == None;
      }
    case _ =>
  }

  /** A firing timer is kept, no longer running. */
  lemma TimerFired(s: Reloader)
    requires Inv(s) && Enabled(s, TimerFires)
    ensures Step(s, TimerFires).timer == Some(Timer(s.timer.value.delay, false))
  {
    hide NextDelay, NonDecreasing;
  }

  /** The guard in the timer's callback: offline or out of sight, nothing would be reloaded. */
  lemma GuardedReload(s: Reloader)
    requires !s.online || !s.visible
    ensures var t := Step(s, TimerFires);
            t.numReloads == s.numReloads && t.inProgress == s.inProgress && t.info == s.info && t.pending == s.pending
  {
  }

  // ---------------------------------------------------------------- over whole runs

  lemma RunSnoc(s: Reloader, events: seq<Event>)
    requires events != [] && AllEnabled(s, events)
    ensures var last := |events| - 1;
            AllEnabled(s, events[..last]) && Enabled(Run(s, events[..last]), events[last])
            && Run(s, events) == Step(Run(s, events[..last]), events[last])
  {
    var last := |events| - 1;
    var front := events[..last];
    assert events == front + [events[last]];
    EnabledFront(s, front, [events[last]]);
    RunConcat(s, front, [events[last]]);
    assert [events[last]][1..] == [];
  }

  lemma {:induction false} EnabledFront(s: Reloader, a: seq<Event>, b: seq<Event>)
    requires AllEnabled(s, a + b)
    ensures AllEnabled(s, a)
    decreases |a|
  {
    if a != [] {
      assert (a + b)[0] == a[0] && (a + b)[1..] == a[1..] + b;
      EnabledFront(Step(s, a[0]), a[1..], b);
    }
  }

  /** After every run an error is recorded if and only if the last page to commit was an error
      page to be reloaded and navigation was not stopped since; and it is that page's error. */
  lemma {:induction false} RecordedIsLast(online: bool, visible: bool, events: seq<Event>)
    requires AllEnabled(Initial(online, visible), events)
    ensures var info := Run(Initial(online, visible), events).info;
            && (info.Some? <==> exists i :: LastPage(events, i) && events[i].navigation.reloadable)
            && forall i :: info.Some? && LastPage(events, i) ==> info.value.error == events[i].navigation.error
    decreases |events|
  {
    var s := Initial(online, visible);
    if events != [] {
      var last := |events| - 1;
      var front := events[..last];
      RunSnoc(s, events);
      hide Run, AllEnabled, Step, Enabled;
      RecordedIsLast(online, visible, front);
      ErrorAfter(Run(s, front), events[last]);
      PagesOfFront(events);
    }
  }

  /** Event `i` is the last page to commit, and nothing was stopped after it. */
  ghost predicate LastPage(events: seq<Event>, i: int) {
    && 0 <= i < |events| && events[i].DidFinish? && events[i].navigation.committed
    && forall j :: i < j < |events| ==> !events[j].Stopped? && !(events[j].DidFinish? && events[j].navigation.committed)
  }

  lemma PagesOfFront(events: seq<Event>)
    requires events != []
    ensures var last := |events| - 1;
            var e := events[last];
            forall i :: LastPage(events, i) <==>
              if e.Stopped? then false
              else if e.DidFinish? && e.navigation.committed then i == last
              else LastPage(events[..last], i)
  {
    var last := |events| - 1;
    var front := events[..last];
    assert forall j :: 0 <= j < last ==> front[j] == events[j];
  }

  /** A good page leaves nothing: no timer, no error, no count, no reload in progress. */
  lemma GoodPageEndsIt(online: bool, visible: bool, events: seq<Event>, n: Finished)
    requires AllEnabled(Initial(online, visible), events) && n.committed && !n.reloadable
    ensures var t := Run(Initial(online, visible), events + [DidFinish(n)]);
            t.timer == None && t.info == None && t.numReloads == 0 && !t.inProgress
  {
    var s := Initial(online, visible);
    RunKeeps(s, events);
    RunConcat(s, events, [DidFinish(n)]);
    var r := Run(s, events);
    RunOne(r, DidFinish(n), []);
    RunNothing(Step(r, DidFinish(n)));
    assert [DidFinish(n)] + [] == [DidFinish(n)];
    ErrorAfter(r, DidFinish(n));
    TimerCleared(r, DidFinish(n));
    ReloadsAfter(r, DidFinish(n));
    ProgressAfter(r, DidFinish(n));
  }
}
