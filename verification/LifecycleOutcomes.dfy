/** What comes of the app's life (main.ts), told by the events of a run alone: which groups it takes on, what shows that
    they are over, when it succeeds, fails and stops. */
module LifecycleOutcomes {
  import opened Text
  import opened Lifecycle

  // --- Groups taken on, and groups over ---------------------------------------------------

  /** The event gives the app a group to see through: an earlier launch's, one it adopts, or the one it started. */
  predicate Hands(s: State, e: Event, p: Pgid) {
    match e
    case Ready(found, _) => found == Earlier(p)
    case ProbesAnswered(backendUp, repoOk, buildUi, spawn, _) =>
      s.startup == AwaitProbes(Some(p))
      || (s.startup == AwaitProbes(None) && !backendUp && repoOk && !buildUi && IsGroup(spawn, p))
    case BuildEnds(build, spawn, _) => !s.aborted && build == Built && IsGroup(spawn, p)
    case _ => false
  }

  predicate IsGroup(spawn: Spawn, p: Pgid) {
    spawn.Group? && spawn.pgid == p
  }

  /** The event shows that a group is over: its stop came to its end, or a probe of it found nothing alive. */
  predicate ShowsOver(s: State, e: Event, p: Pgid) {
    match e
    case EarlierSettles(_) => s.earlierStop == Some(p)
    case StopSettles(_) => s.owned == Some(p)
    case ProbesAnswered(_, _, _, _, alive) => !alive && Hands(s, e, p)
    case BuildEnds(_, _, alive) => !alive && Hands(s, e, p)
    case ReadySlept(_, alive) => !alive && s.owned == Some(p)
    case Throws(alive) => !alive && s.owned == Some(p)
    case _ => false
  }

  /** The groups the app has taken on, seen over and owns are the same. */
  predicate SameGroups(a: State, b: State) {
    a.outside.taken == b.outside.taken && a.outside.over == b.outside.over && a.owned == b.owned
  }

  lemma ShutdownKeepsGroups(s: State)
    ensures SameGroups(s, BeginShutdown(s))
  {
  }

  lemma ClosingKeepsGroups(s: State)
    ensures SameGroups(s, AllClosed(s)) && SameGroups(s, CloseEverything(s))
  {
    ShutdownKeepsGroups(s);
    ShutdownKeepsGroups(s.(window := NoWindow));
  }

  lemma TriggerKeepsGroups(s: State, trigger: Trigger)
    ensures SameGroups(s, OnTrigger(s, trigger))
  {
    match trigger
    case Ask => ShutdownKeepsGroups(s);
    case BeforeQuit =>
      ShutdownKeepsGroups(s);
      ClosingKeepsGroups(s);
    case CloseStatus =>
      ShutdownKeepsGroups(s);
      ClosingKeepsGroups(s.(statusOpen := false));
    case CloseApp =>
      ShutdownKeepsGroups(s);
      ClosingKeepsGroups(s.(window := NoWindow));
    case CloseSettings => ClosingKeepsGroups(s.(statusOpen := false));
    case _ =>
  }

  lemma PageKeepsGroups(s: State)
    requires Enabled(s, PageReady)
    ensures SameGroups(s, Step(s, PageReady))
  {
    ClosingKeepsGroups(s.(window := NoWindow, startup := Ended));
  }

  /** What a started or adopted group is to the app right away: taken on, and owned unless a probe found it gone. */
  lemma BackendStarts(s: State, spawn: Spawn, alive: bool, p: Pgid)
    requires s.owned.None?
    ensures var next := StartBackend(s, spawn, alive);
            && (p in next.outside.taken <==> p in s.outside.taken || IsGroup(spawn, p))
            && (p in next.outside.over ==> p in s.outside.over || (!alive && IsGroup(spawn, p)))
            && (IsGroup(spawn, p) ==> next.owned == Some(p) || !alive)
  {
    if spawn.Group? {
      var started := TakeOn(s, spawn.pgid).(owned := Some(spawn.pgid));
      WaitTells(started, ChildExited, false, alive, p);
      CatchTells(started, alive, p);
    }
  }

  lemma ProbesTakeOn(s: State, e: Event, p: Pgid)
    requires Enabled(s, e) && e.ProbesAnswered? && s.owned.None?
    ensures p in AfterProbes(s, e).outside.taken <==> p in s.outside.taken || Hands(s, e, p)
    ensures p in AfterProbes(s, e).outside.over ==> p in s.outside.over || ShowsOver(s, e, p)
  {
    BackendStarts(OpenStatus(s), e.spawn, e.alive, p);
  }

  /** Where a wait of the start is, nothing is owned yet, unless the group it waits for is. */
  lemma OwnsNothingYet(s: State, e: Event)
    requires Sound(s) && Enabled(s, e)
    ensures e.ProbesAnswered? || e.BuildEnds? || e.Ready? ==> s.owned.None?
  {
  }

  lemma HandedIsTaken(s: State, e: Event, p: Pgid)
    requires Sound(s) && Enabled(s, e)
    ensures p in Step(s, e).outside.taken <==> p in s.outside.taken || Hands(s, e, p)
  {
    OwnsNothingYet(s, e);
    match e
    case Triggered(trigger) => TriggerKeepsGroups(s, trigger);
    case PageReady => PageKeepsGroups(s);
    case ProbesAnswered(_, _, _, _, _) => ProbesTakeOn(s, e, p);
    case BuildEnds(_, spawn, alive) => BackendStarts(s, spawn, alive, p);
    case _ => OthersHand(s, e, p);
  }

  /** What an event that is neither a trigger nor about a start's probes, build or page tells of the groups. */
  lemma OthersHand(s: State, e: Event, p: Pgid)
    requires Enabled(s, e) && !e.Triggered? && !e.PageReady? && !e.ProbesAnswered? && !e.BuildEnds?
    ensures p in Step(s, e).outside.taken <==> p in s.outside.taken || Hands(s, e, p)
    ensures p in Step(s, e).outside.over ==> p in s.outside.over || ShowsOver(s, e, p)
  {
    match e
    case ReadySlept(exited, alive) => WaitTells(s, s.startup.watch, exited, alive, p);
    case Throws(alive) => CatchTells(s, alive, p);
    case Ready(found, local) =>
    case EarlierSettles(_) =>
    case StopSettles(_) =>
    case _ => OthersKeepGroups(s, e);
  }

  lemma CatchTells(s: State, alive: bool, p: Pgid)
    ensures CatchError(s, alive).outside.taken == s.outside.taken
    ensures p in CatchError(s, alive).outside.over ==> p in s.outside.over || (!alive && s.owned == Some(p))
    ensures s.owned == Some(p) && alive ==> CatchError(s, alive).owned == Some(p)
  {
  }

  lemma WaitTells(s: State, watch: Watch, exited: bool, alive: bool, p: Pgid)
    ensures WaitReady(s, watch, exited, alive).outside.taken == s.outside.taken
    ensures p in WaitReady(s, watch, exited, alive).outside.over
            ==> p in s.outside.over || (!alive && s.owned == Some(p))
    ensures s.owned == Some(p) && alive ==> WaitReady(s, watch, exited, alive).owned == Some(p)
  {
    CatchTells(s, alive, p);
  }

  lemma OthersKeepGroups(s: State, e: Event)
    requires Enabled(s, e) && !e.Triggered? && !e.PageReady? && !e.ProbesAnswered? && !e.BuildEnds?
    requires !e.ReadySlept? && !e.Throws? && !e.Ready? && !e.EarlierSettles? && !e.StopSettles?
    ensures Step(s, e).outside.taken == s.outside.taken && Step(s, e).outside.over == s.outside.over
  {
  }

  /** Nothing counts as over before an event has shown it. */
  lemma OverIsShown(s: State, e: Event, p: Pgid)
    requires Sound(s) && Enabled(s, e)
    ensures p in Step(s, e).outside.over ==> p in s.outside.over || ShowsOver(s, e, p)
  {
    OwnsNothingYet(s, e);
    match e
    case Triggered(trigger) => TriggerKeepsGroups(s, trigger);
    case PageReady => PageKeepsGroups(s);
    case ProbesAnswered(_, _, _, _, _) => ProbesTakeOn(s, e, p);
    case BuildEnds(_, spawn, alive) => BackendStarts(s, spawn, alive, p);
    case _ => OthersHand(s, e, p);
  }

  /** An owned group is forgotten only when an event shows that it is over. */
  lemma OwnedUntilShownOver(s: State, e: Event, p: Pgid)
    requires Sound(s) && Enabled(s, e) && s.owned == Some(p)
    ensures Step(s, e).owned == Some(p) || ShowsOver(s, e, p)
  {
    OwnsNothingYet(s, e);
    match e
    case Triggered(trigger) => TriggerKeepsGroups(s, trigger);
    case PageReady => PageKeepsGroups(s);
    case _ =>
  }

  ghost predicate HandedIn(s: State, events: seq<Event>, p: Pgid)
    requires IsRun(s, events)
    decreases |events|
  {
    events != [] && (Hands(s, events[0], p) || HandedIn(Step(s, events[0]), events[1..], p))
  }

  ghost predicate ShownOverIn(s: State, events: seq<Event>, p: Pgid)
    requires IsRun(s, events)
    decreases |events|
  {
    events != [] && (ShowsOver(s, events[0], p) || ShownOverIn(Step(s, events[0]), events[1..], p))
  }

  lemma {:induction false} TakenWereHanded(s: State, events: seq<Event>, p: Pgid)
    requires Sound(s) && IsRun(s, events)
    ensures p in RunAll(s, events).outside.taken <==> p in s.outside.taken || HandedIn(s, events, p)
    decreases |events|
  {
    if events != [] {
      HandedIsTaken(s, events[0], p);
      StepKeeps(s, events[0]);
      TakenWereHanded(Step(s, events[0]), events[1..], p);
    }
  }

  lemma {:induction false} OverWereShown(s: State, events: seq<Event>, p: Pgid)
    requires Sound(s) && IsRun(s, events)
    ensures p in RunAll(s, events).outside.over ==> p in s.outside.over || ShownOverIn(s, events, p)
    decreases |events|
  {
    if events != [] {
      OverIsShown(s, events[0], p);
      StepKeeps(s, events[0]);
      OverWereShown(Step(s, events[0]), events[1..], p);
    }
  }

  /** Once the app has exited, each group it was handed was shown to be over by some event of the run. */
  lemma ExitSawGroupsOver(events: seq<Event>, p: Pgid)
    requires IsRun(START, events)
    ensures RunAll(START, events).outside.exited && HandedIn(START, events, p) ==> ShownOverIn(START, events, p)
  {
    TakenWereHanded(START, events, p);
    OverWereShown(START, events, p);
    if RunAll(START, events).outside.exited { ExitSeesGroupsThrough(events); }
  }

  /** And before that, a group it was handed is owned or being stopped until one did. */
  lemma HandedIsHeldUntilShown(events: seq<Event>, p: Pgid)
    requires IsRun(START, events) && HandedIn(START, events, p)
    ensures var s := RunAll(START, events);
            s.outside.exited || s.owned == Some(p) || s.earlierStop == Some(p) || ShownOverIn(START, events, p)
  {
    TakenWereHanded(START, events, p);
    OverWereShown(START, events, p);
    if !RunAll(START, events).outside.exited { EveryGroupAccounted(events); }
  }

  // --- Asking to stop ------------------------------------------------------------------------

  /** Which requests are one to stop. Closing the dialog is one while starting, or when no other window is left; closing
      the app's window is one when a group is owned, or when no other window is left. */
  predicate AsksToStop(s: State, trigger: Trigger) {
    match trigger
    case Ask => true
    case BeforeQuit => true
    case CloseStatus => s.statusOpen && (s.phase == Starting || s.window == NoWindow)
    case CloseApp => s.window == Shown && ((s.owned.Some? && s.phase == Running) || !s.statusOpen)
    case CloseSettings => s.phase == Running && s.window == NoWindow
    case OpenSettings => false
    case SecondInstance => false
    case StopLlama => true
  }

  /** The first request to stop interrupts the owned group and waits for it, waits for an earlier stack already
      interrupted, or, with neither, ends the app. */
  predicate StopsFor(s: State, next: State) {
    if s.owned.Some? then
      && next.phase == Stopping && next.shutdown == AwaitStop && !next.outside.exited && next.window == NoWindow
      && next.outside.sigints == s.outside.sigints + multiset{s.owned.value}
    else if s.earlierStop.Some? then
      next.phase == Stopping && next.shutdown == SeesEarlierThrough && !next.outside.exited
    else next.outside.exited
  }

  lemma ShutdownStopsFor(s: State)
    requires Sound(s) && !s.outside.exited && !s.aborted
    ensures StopsFor(s, BeginShutdown(s))
  {
  }

  lemma FirstRequestStops(s: State, trigger: Trigger)
    requires Sound(s) && Enabled(s, Triggered(trigger)) && !s.aborted && AsksToStop(s, trigger)
    ensures StopsFor(s, OnTrigger(s, trigger))
  {
    ShutdownStopsFor(s);
    match trigger
    case BeforeQuit => BeforeQuitStops(s);
    case CloseStatus => CloseStatusStops(s);
    case CloseApp => CloseAppStops(s);
    case CloseSettings => CloseSettingsStops(s);
    case _ =>
  }

  lemma BeforeQuitStops(s: State)
    requires Sound(s) && !s.outside.exited && !s.aborted
    ensures StopsFor(s, OnTrigger(s, BeforeQuit))
  {
    ShutdownStopsFor(s);
  }

  lemma CloseStatusStops(s: State)
    requires Sound(s) && !s.outside.exited && !s.aborted && AsksToStop(s, CloseStatus)
    ensures StopsFor(s, OnTrigger(s, CloseStatus))
  {
    ShutdownStopsFor(s);
    if s.phase != Starting {
      ShutdownStopsFor(s.(statusOpen := false));
    }
  }

  lemma CloseAppStops(s: State)
    requires Sound(s) && !s.outside.exited && !s.aborted && AsksToStop(s, CloseApp)
    ensures StopsFor(s, OnTrigger(s, CloseApp))
  {
    ShutdownStopsFor(s);
    ShutdownStopsFor(s.(window := NoWindow));
  }

  lemma CloseSettingsStops(s: State)
    requires Sound(s) && !s.outside.exited && !s.aborted && AsksToStop(s, CloseSettings)
    ensures StopsFor(s, OnTrigger(s, CloseSettings))
  {
    ShutdownStopsFor(s.(statusOpen := false));
  }

  /** Other requests neither stop nor end anything. */
  lemma OtherRequestsGoOn(s: State, trigger: Trigger)
    requires Sound(s) && Enabled(s, Triggered(trigger)) && !s.aborted && !AsksToStop(s, trigger)
    ensures var next := OnTrigger(s, trigger);
            && next.phase == s.phase && next.startup == s.startup && next.aborted == s.aborted
            && next.outside.sigints == s.outside.sigints && next.outside.exited == s.outside.exited
  {
  }

  /** Once stopped, with what is left on show, a request to stop ends the app. */
  lemma RequestWhenStoppedExits(s: State, trigger: Trigger)
    requires Sound(s) && Enabled(s, Triggered(trigger)) && s.phase == Stopped && AsksToStop(s, trigger)
    ensures OnTrigger(s, trigger).outside.exited
  {
  }

  /** From the end of the stop of an owned group on: the app exits, unless services are left or could not be counted, or
      a forced stop left a llama server; then it shows that it stopped. */
  lemma StopEndsIn(s: State, result: Result, left: Option<nat>)
    requires Sound(s) && !s.outside.exited && s.shutdown.AwaitStop?
    ensures var events := [StopSettles(result), ServicesCounted(left)];
            && IsRun(s, events)
            && var counted := RunAll(s, events);
               if left == Some(0) && !(result.forced && result.llama) then
                 IsRun(counted, [LastSleepOver]) && RunAll(counted, [LastSleepOver]).outside.exited
               else counted.phase == Stopped
  {
    var settled := Step(s, StopSettles(result));
    TwoSteps(s, StopSettles(result), ServicesCounted(left));
    var counted := Step(settled, ServicesCounted(left));
    if Enabled(counted, LastSleepOver) { OneStep(counted, LastSleepOver); }
  }

  lemma OneStep(s: State, e: Event)
    requires Enabled(s, e)
    ensures IsRun(s, [e]) && RunAll(s, [e]) == Step(s, e)
  {
    assert [e][1..] == [];
  }

  lemma TwoSteps(s: State, a: Event, b: Event)
    requires Enabled(s, a) && Enabled(Step(s, a), b)
    ensures IsRun(s, [a, b]) && RunAll(s, [a, b]) == Step(Step(s, a), b)
  {
    assert [a, b][1..] == [b];
    OneStep(Step(s, a), b);
  }

  lemma {:induction false} RunOn(s: State, a: seq<Event>, b: seq<Event>)
    requires IsRun(s, a) && IsRun(RunAll(s, a), b)
    ensures IsRun(s, a + b) && RunAll(s, a + b) == RunAll(RunAll(s, a), b)
    decreases |a|
  {
    if a == [] {
      assert a + b == b;
    } else {
      assert (a + b)[0] == a[0] && (a + b)[1..] == a[1..] + b;
      RunOn(Step(s, a[0]), a[1..], b);
    }
  }

  // --- Starting -----------------------------------------------------------------------------------

  /** The app is starting and nobody asked it to stop. */
  predicate Undisturbed(s: State) {
    s.phase == Starting && !s.aborted && !s.outside.exited
  }

  /** Nothing of what a wait watches has ended. */
  predicate StillThere(watch: Watch, exited: bool, alive: bool) {
    match watch
    case NoWatch => true
    case GroupGone(_) => alive
    case ChildExited => !exited
  }

  /** Some rounds in which the backend is not ready yet, and what is watched is still there. */
  function NotReadyYet(exits: seq<bool>, alives: seq<bool>): seq<Event>
    requires |exits| == |alives|
  {
    if exits == [] then []
    else [ReadyProbed(false), ReadySlept(exits[0], alives[0])] + NotReadyYet(exits[1..], alives[1..])
  }

  /** However long the backend takes, the start waits for it as long as what is watched is there. */
  lemma {:induction false} WaitsForReady(s: State, exits: seq<bool>, alives: seq<bool>)
    requires Undisturbed(s) && s.startup.AwaitReadyProbe? && |exits| == |alives|
    requires forall i :: 0 <= i < |exits| ==> StillThere(s.startup.watch, exits[i], alives[i])
    ensures IsRun(s, NotReadyYet(exits, alives)) && RunAll(s, NotReadyYet(exits, alives)) == s
    decreases |exits|
  {
    if exits != [] {
      var probed, slept := ReadyProbed(false), ReadySlept(exits[0], alives[0]);
      assert Step(Step(s, probed), slept) == s;
      TwoSteps(s, probed, slept);
      WaitsForReady(s, exits[1..], alives[1..]);
      RunOn(s, [probed, slept], NotReadyYet(exits[1..], alives[1..]));
    }
  }

  /** The app runs, with its window shown for the first time since `s`, and what it owned then. */
  predicate Opened(s: State, after: State) {
    && after.phase == Running && after.window == Shown && after.startup == Ended && !after.outside.exited
    && after.outside == s.outside.(shows := s.outside.shows + 1) && after.owned == s.owned
  }

  lemma OpensWhenReady(s: State)
    requires Undisturbed(s) && s.startup.AwaitReadyProbe?
    ensures IsRun(s, [ReadyProbed(true), PageReady]) && Opened(s, RunAll(s, [ReadyProbed(true), PageReady]))
  {
    TwoSteps(s, ReadyProbed(true), PageReady);
  }

  /** What `startup` is in once its probes are answered, by how it begins: `prefix` are the events up to there. */
  lemma ReadyAtLast(s: State, prefix: seq<Event>, exits: seq<bool>, alives: seq<bool>)
    requires IsRun(s, prefix) && |exits| == |alives|
    requires var waiting := RunAll(s, prefix);
             && Undisturbed(waiting) && waiting.startup.AwaitReadyProbe?
             && forall i :: 0 <= i < |exits| ==> StillThere(waiting.startup.watch, exits[i], alives[i])
    ensures var events := prefix + (NotReadyYet(exits, alives) + [ReadyProbed(true), PageReady]);
            IsRun(s, events) && Opened(RunAll(s, prefix), RunAll(s, events))
  {
    var waiting := RunAll(s, prefix);
    WaitsForReady(waiting, exits, alives);
    OpensWhenReady(waiting);
    RunOn(waiting, NotReadyYet(exits, alives), [ReadyProbed(true), PageReady]);
    RunOn(s, prefix, NotReadyYet(exits, alives) + [ReadyProbed(true), PageReady]);
  }

  /** A remote server that answers is opened, and nothing is owned. */
  lemma RemoteStarts()
    ensures var events := [Ready(Nothing, false), HealthAnswered(true), PageReady];
            IsRun(START, events) && Opened(START, RunAll(START, events))
  {
    var first, rest := [Ready(Nothing, false)], [HealthAnswered(true), PageReady];
    OneStep(START, Ready(Nothing, false));
    TwoSteps(Step(START, Ready(Nothing, false)), HealthAnswered(true), PageReady);
    RunOn(START, first, rest);
    assert first + rest == [Ready(Nothing, false), HealthAnswered(true), PageReady];
  }

  /** A backend somebody else runs is attached to, however long it takes to be ready, and not owned. */
  lemma AttachStarts(repoOk: bool, buildUi: bool, spawn: Spawn, alive: bool, exits: seq<bool>, alives: seq<bool>)
    requires |exits| == |alives| && NewGroup(START, spawn)
    ensures var prefix := [Ready(Nothing, true), ProbesAnswered(true, repoOk, buildUi, spawn, alive)];
            var events := prefix + (NotReadyYet(exits, alives) + [ReadyProbed(true), PageReady]);
            && IsRun(START, events) && RunAll(START, events).phase == Running && RunAll(START, events).window == Shown
            && RunAll(START, events).owned == None && RunAll(START, events).outside.taken == {}
  {
    var ready, probed := Ready(Nothing, true), ProbesAnswered(true, repoOk, buildUi, spawn, alive);
    TwoSteps(START, ready, probed);
    ReadyAtLast(START, [ready, probed], exits, alives);
  }

  /** The backend an earlier launch started is adopted and owned, as long as probes find it alive. */
  lemma AdoptStarts(p: Pgid, up: bool, repoOk: bool, buildUi: bool, spawn: Spawn, exits: seq<bool>, alives: seq<bool>)
    requires |exits| == |alives| && NewGroup(START, spawn) && forall i :: 0 <= i < |alives| ==> alives[i]
    ensures var prefix := [Ready(Adoptable(p), true), ProbesAnswered(up, repoOk, buildUi, spawn, true)];
            var events := prefix + (NotReadyYet(exits, alives) + [ReadyProbed(true), PageReady]);
            && IsRun(START, events) && RunAll(START, events).phase == Running && RunAll(START, events).window == Shown
            && RunAll(START, events).owned == Some(p) && RunAll(START, events).outside.taken == {p}
  {
    var ready, probed := Ready(Adoptable(p), true), ProbesAnswered(up, repoOk, buildUi, spawn, true);
    TwoSteps(START, ready, probed);
    ReadyAtLast(START, [ready, probed], exits, alives);
  }

  /** With no backend there, one is started and owned, as long as its `make` has not exited. */
  lemma OwnStarts(p: Pgid, alive: bool, exits: seq<bool>, alives: seq<bool>)
    requires |exits| == |alives| && forall i :: 0 <= i < |exits| ==> !exits[i]
    ensures var prefix := [Ready(Nothing, true), ProbesAnswered(false, true, false, Group(p, true), alive)];
            var events := prefix + (NotReadyYet(exits, alives) + [ReadyProbed(true), PageReady]);
            && IsRun(START, events) && RunAll(START, events).phase == Running && RunAll(START, events).window == Shown
            && RunAll(START, events).owned == Some(p) && RunAll(START, events).outside.taken == {p}
  {
    var ready, probed := Ready(Nothing, true), ProbesAnswered(false, true, false, Group(p, true), alive);
    TwoSteps(START, ready, probed);
    ReadyAtLast(START, [ready, probed], exits, alives);
  }

  /** The same after a build of the UI, when that is stale. */
  lemma BuiltStarts(spawn: Spawn, up: bool, p: Pgid, alive: bool, exits: seq<bool>, alives: seq<bool>)
    requires |exits| == |alives| && NewGroup(START, spawn) && forall i :: 0 <= i < |exits| ==> !exits[i]
    ensures var prefix := [Ready(Nothing, true), ProbesAnswered(false, true, true, spawn, up)]
                          + [BuildEnds(Built, Group(p, true), alive)];
            var events := prefix + (NotReadyYet(exits, alives) + [ReadyProbed(true), PageReady]);
            && IsRun(START, events) && RunAll(START, events).phase == Running && RunAll(START, events).window == Shown
            && RunAll(START, events).owned == Some(p) && RunAll(START, events).outside.taken == {p}
  {
    var ready, probed := Ready(Nothing, true), ProbesAnswered(false, true, true, spawn, up);
    var built := BuildEnds(Built, Group(p, true), alive);
    TwoSteps(START, ready, probed);
    var building := RunAll(START, [ready, probed]);
    OneStep(building, built);
    RunOn(START, [ready, probed], [built]);
    ReadyAtLast(START, [ready, probed] + [built], exits, alives);
  }

  /** A stack an earlier launch started for another address or checkout is interrupted, and once it is over, and nothing
      of it was left behind by force, the start goes on as if there had been none. */
  lemma EarlierThenStarts(q: Pgid, local: bool, result: Result, someLeft: bool)
    ensures var stop := [Ready(Earlier(q), local), EarlierSettles(result), EarlierResumes]
                        + (if result.forced then [EarlierServicesCounted(someLeft)] else []);
            && IsRun(START, stop) && RunAll(START, stop).startup.EarlierStopped?
            && RunAll(START, stop).outside.sigints == multiset{q}
            && IsRun(RunAll(START, stop), [StartupGoesOn])
            && var s := RunAll(RunAll(START, stop), [StartupGoesOn]);
               if result.forced && (someLeft || result.llama) then s.phase == Failed
               else Undisturbed(s) && s.startup == Step(START, Ready(Nothing, local)).startup && s.owned == None
  {
    var ready, settles, resumes := Ready(Earlier(q), local), EarlierSettles(result), EarlierResumes;
    var first := Step(START, ready);
    OneStep(START, ready);
    TwoSteps(first, settles, resumes);
    RunOn(START, [ready], [settles, resumes]);
    assert [ready] + [settles, resumes] == [ready, settles, resumes];
    var stopped := RunAll(START, [ready, settles, resumes]);
    if result.forced {
      OneStep(stopped, EarlierServicesCounted(someLeft));
      RunOn(START, [ready, settles, resumes], [EarlierServicesCounted(someLeft)]);
      OneStep(Step(stopped, EarlierServicesCounted(someLeft)), StartupGoesOn);
    } else {
      assert [ready, settles, resumes] + [] == [ready, settles, resumes];
      OneStep(stopped, StartupGoesOn);
    }
  }

  // --- Failing ---------------------------------------------------------------------------------------

  /** The event is an answer the start cannot go on from. */
  predicate Disappoints(s: State, e: Event) {
    match e
    case StartupGoesOn => s.startup.EarlierStopped? && s.startup.left
    case HealthAnswered(ok) => !ok
    case ProbesAnswered(backendUp, repoOk, buildUi, spawn, alive) =>
      s.startup.AwaitProbes?
      && if s.startup.adopt.Some? then !alive
         else !backendUp && (!repoOk || (!buildUi && spawn.Group? && !spawn.recorded))
    case BuildEnds(build, spawn, _) => build == BuildStopped || (spawn.Group? && !spawn.recorded)
    case SpawnErrorKnown => true
    case ReadySlept(exited, alive) => s.startup.AwaitReadySleep? && !StillThere(s.startup.watch, exited, alive)
    case Throws(_) => true
    case _ => false
  }

  /** An undisturbed start fails at just such an answer. */
  lemma StartFailsIff(s: State, e: Event)
    requires Sound(s) && Enabled(s, e) && Undisturbed(s) && !e.Triggered?
    ensures Step(s, e).phase == Failed <==> Disappoints(s, e)
  {
    match e
    case ProbesAnswered(_, _, _, _, _) => ProbesFailIff(s, e);
    case BuildEnds(_, _, _) => BuildFailsIff(s, e);
    case ReadySlept(_, _) => WaitFailsIff(s, e);
    case _ =>
  }

  lemma WaitFailsIff(s: State, e: Event)
    requires Enabled(s, e) && Undisturbed(s) && e.ReadySlept?
    ensures Step(s, e).phase == Failed <==> Disappoints(s, e)
  {
  }

  lemma BuildFailsIff(s: State, e: Event)
    requires Enabled(s, e) && Undisturbed(s) && e.BuildEnds?
    ensures Step(s, e).phase == Failed <==> Disappoints(s, e)
  {
  }

  lemma ProbesFailIff(s: State, e: Event)
    requires Enabled(s, e) && Undisturbed(s) && e.ProbesAnswered?
    ensures Step(s, e).phase == Failed <==> Disappoints(s, e)
  {
  }

  /** A group shown to be over is counted as such and owned no longer: at the end of its stop, and where the start fails
      and finds it gone. */
  lemma GoneIsForgotten(s: State, e: Event, p: Pgid)
    requires Sound(s) && Enabled(s, e) && ShowsOver(s, e, p)
    requires e.EarlierSettles? || e.StopSettles? || (Undisturbed(s) && Disappoints(s, e))
    ensures Step(s, e).owned.None? && p in Step(s, e).outside.over
  {
    OwnsNothingYet(s, e);
  }

  // --- The dialog and what is waited for -----------------------------------------------------------------

  /** Once its page is ready the app's window is shown, if the app is still starting, and the progress dialog goes, but
      not the settings; else the window goes. */
  lemma PageOpens(s: State)
    requires Sound(s) && Enabled(s, PageReady)
    ensures var next := Step(s, PageReady);
            if s.phase == Starting then
              && next.phase == Running && next.window == Shown && next.startup == Ended
              && (next.statusOpen <==> s.statusOpen && s.settings) && next.settings == s.settings
            else next.window == NoWindow && next.startup == Ended
  {
  }

  /** Opening the settings shows the dialog with them; it goes with them once the app runs, else shows progress. */
  lemma SettingsOpenAndClose(s: State)
    requires Sound(s) && !s.outside.exited
    ensures var open := OnTrigger(s, OpenSettings);
            && open == s.(statusOpen := true, settings := true)
            && var closed := OnTrigger(open, CloseSettings);
               if s.phase != Running then closed == open.(settings := false)
               else if s.window != NoWindow then closed == open.(statusOpen := false)
               else closed.aborted
  {
  }

  /** What a start waits for, as it may come. */
  function Answer(s: State): Event {
    match s.startup
    case AwaitEarlierStop =>
      if s.earlierResult.Some? then EarlierResumes else EarlierSettles(Result(false, false))
    case AwaitEarlierServices(_) => EarlierServicesCounted(false)
    case EarlierStopped(_) => StartupGoesOn
    case AwaitHealth => HealthAnswered(true)
    case AwaitProbes(_) => ProbesAnswered(true, true, false, NoProcess, true)
    case AwaitBuild => BuildEnds(Built, NoProcess, true)
    case AwaitSpawnError => SpawnErrorKnown
    case AwaitReadyProbe(_) => ReadyProbed(true)
    case AwaitReadySleep(_) => ReadySlept(false, true)
    case _ => PageReady
  }

  /** The start waits for a page whose window is closed. */
  predicate LostItsPage(s: State) {
    s.startup.AwaitPage? && s.phase == Starting && s.window == NoWindow
  }

  /** Something the start waits for can come, and then the start goes on. */
  predicate CanGoOn(s: State, e: Event) {
    && Enabled(s, e) && !e.Triggered?
    && (Step(s, e).startup != s.startup || Step(s, e).earlierResult != s.earlierResult)
  }

  /** A start is never stuck, late and unwanted as its answers may be, but when its window was closed while the page was
      loading: then nothing comes any more, until somebody asks the app to stop. */
  lemma StartGoesOnIff(s: State)
    requires Sound(s) && !s.outside.exited && BeforeEnd(s.startup)
    ensures (exists e :: CanGoOn(s, e)) <==> !LostItsPage(s)
    ensures LostItsPage(s) ==> forall e :: Enabled(s, e) ==> e.Triggered?
  {
    if !LostItsPage(s) { assert CanGoOn(s, Answer(s)); }
  }

  /** That happens: a second launch shows the window that is still loading, and it is closed beside the dialog. */
  lemma ClosedWhileLoading()
    ensures var events := [Ready(Nothing, false), HealthAnswered(true), Triggered(SecondInstance), Triggered(CloseApp)];
            IsRun(START, events) && LostItsPage(RunAll(START, events)) && !RunAll(START, events).outside.exited
  {
    TwoSteps(START, Ready(Nothing, false), HealthAnswered(true));
    var loading := RunAll(START, [Ready(Nothing, false), HealthAnswered(true)]);
    TwoSteps(loading, Triggered(SecondInstance), Triggered(CloseApp));
    RunOn(START, [Ready(Nothing, false), HealthAnswered(true)], [Triggered(SecondInstance), Triggered(CloseApp)]);
    assert [Ready(Nothing, false), HealthAnswered(true)] + [Triggered(SecondInstance), Triggered(CloseApp)]
           == [Ready(Nothing, false), HealthAnswered(true), Triggered(SecondInstance), Triggered(CloseApp)];
  }
}
