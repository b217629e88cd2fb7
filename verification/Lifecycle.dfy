/** The desktop app's life (main.ts): one startup, and any number of ways to stop it, as the
    steps between awaits. Every interleaving of those steps is a run. */
module Lifecycle {
  import opened Text

  type Pgid = nat

  datatype Phase = Idle | Starting | Running | Failed | Stopping | Stopped

  /** What `stopGroup` gave. */
  datatype Result = Result(forced: bool, llama: bool)

  /** The `stopped` callback `waitReady` is given: nothing, the adopted group gone, or the started `make` exited. */
  datatype Watch = NoWatch | GroupGone(pgid: Pgid) | ChildExited

  /** Where `startup` is waiting. */
  datatype Startup =
    | NotStarted
    | AwaitEarlierStop
    | AwaitEarlierServices(llama: bool)
    | EarlierStopped(left: bool)
    | AwaitHealth
    | AwaitProbes(adopt: Option<Pgid>)
    | AwaitBuild
    | AwaitSpawnError
    | AwaitReadyProbe(watch: Watch)
    | AwaitReadySleep(watch: Watch)
    | AwaitPage
    | Ended

  /** Where `shutdown` is waiting, once one of its calls has got past the checks at its top. */
  datatype Shutdown = NotBegun | SeesEarlierThrough | AwaitStop | AwaitServices(result: Result) | AwaitLastSleep
    | Returned

  datatype AppWindow = NoWindow | Hidden | Shown

  /** What anyone outside can tell: the process groups this launch took on, the SIGINTs it sent, the groups found
      gone or killed since, how often the app's window was shown, whether the group of a UI build under way was sent
      its SIGTERM, and whether the app has exited. */
  datatype Outside = Outside(taken: set<Pgid>, sigints: multiset<Pgid>, over: set<Pgid>, shows: nat, buildTold: bool,
                             exited: bool)

  datatype State = State(
    phase: Phase,
    startup: Startup,
    shutdown: Shutdown,
    local: bool,
    owned: Option<Pgid>,
    earlierStop: Option<Pgid>,
    earlierResult: Option<Result>,
    aborted: bool,
    window: AppWindow,
    statusOpen: bool,
    settings: bool,
    outside: Outside)

  const START := State(Idle, NotStarted, NotBegun, false, None, None, None, false, NoWindow, false, false,
                       Outside({}, multiset{}, {}, 0, false, false))

  /** What owned.json and the process table say: nothing to do, a stack to stop first, or one to adopt. */
  datatype Found = Nothing | Earlier(pgid: Pgid) | Adoptable(pgid: Pgid)

  /** How `make backend` starts: no process, or a group, whose record may fail to be written. */
  datatype Spawn = NoProcess | Group(pgid: Pgid, recorded: bool)

  datatype Build = Built | BuildStopped

  datatype Trigger = Ask | BeforeQuit | CloseStatus | CloseApp | OpenSettings | CloseSettings | SecondInstance
    | StopLlama

  datatype Event =
    | Ready(found: Found, local: bool)
    | EarlierSettles(result: Result)
    | EarlierResumes
    | EarlierServicesCounted(someLeft: bool)
    | StartupGoesOn
    | HealthAnswered(ok: bool)
    | ProbesAnswered(backendUp: bool, repoOk: bool, buildUi: bool, spawn: Spawn, alive: bool)
    | BuildEnds(build: Build, spawn: Spawn, alive: bool)
    | SpawnErrorKnown
    | ReadyProbed(ok: bool)
    | ReadySlept(exited: bool, alive: bool)
    | Throws(alive: bool)
    | PageReady
    | Triggered(trigger: Trigger)
    | StopSettles(result: Result)
    | ShutdownResumes
    | ServicesCounted(left: Option<nat>)
    | LastSleepOver

  // --- The handlers -------------------------------------------------------------------

  function TakeOn(s: State, pgid: Pgid): State {
    s.(outside := s.outside.(taken := s.outside.taken + {pgid}))
  }

  function Interrupt(s: State, pgid: Pgid): State {
    s.(outside := s.outside.(sigints := s.outside.sigints + multiset{pgid}))
  }

  function SeeOver(s: State, pgid: Pgid): State {
    s.(outside := s.outside.(over := s.outside.over + {pgid}))
  }

  function Show(s: State): State {
    s.(outside := s.outside.(shows := s.outside.shows + 1))
  }

  function DoExit(s: State): State {
    s.(outside := s.outside.(exited := true))
  }

  /** `openStatus('progress')`. */
  function OpenStatus(s: State): State {
    s.(statusOpen := true, settings := false)
  }

  function Fail(s: State): State {
    s.(phase := Failed, startup := Ended)
  }

  /** The `catch` of `startup`: the failure is shown, and a group found gone is forgotten. */
  function CatchError(s: State, alive: bool): State {
    var failed := Fail(s);
    if failed.owned.Some? && !alive then SeeOver(failed, failed.owned.value).(owned := None) else failed
  }

  function OpenApp(s: State): State {
    if s.phase != Starting then s.(startup := Ended) else s.(window := Hidden, startup := AwaitPage)
  }

  /** The top of `waitReady`'s loop. */
  function WaitReady(s: State, watch: Watch, exited: bool, alive: bool): State {
    if s.aborted then s.(startup := Ended)
    else if (watch.GroupGone? && !alive) || (watch.ChildExited? && exited) then CatchError(s, alive)
    else s.(startup := AwaitReadyProbe(watch))
  }

  /** What `startup` does once no earlier stack is left to stop. */
  function GoOn(s: State, adopt: Option<Pgid>): State {
    if !s.local then OpenStatus(s).(startup := AwaitHealth) else s.(startup := AwaitProbes(adopt))
  }

  function StartBackend(s: State, spawn: Spawn, alive: bool): State {
    match spawn
    case NoProcess => s.(startup := AwaitSpawnError)
    case Group(pgid, recorded) =>
      var started := TakeOn(s, pgid).(owned := Some(pgid));
      if recorded then WaitReady(started, ChildExited, false, alive) else CatchError(started, alive)
  }

  function AfterProbes(s: State, e: Event): State
    requires e.ProbesAnswered? && s.startup.AwaitProbes?
  {
    var shown := OpenStatus(s);
    if s.startup.adopt.Some? then
      var pgid := s.startup.adopt.value;
      WaitReady(TakeOn(shown, pgid).(owned := Some(pgid)), GroupGone(pgid), false, e.alive)
    else if e.backendUp then WaitReady(shown, NoWatch, false, e.alive)
    else if !e.repoOk then Fail(shown)
    else if e.buildUi then shown.(startup := AwaitBuild)
    else StartBackend(shown, e.spawn, e.alive)
  }

  /** The SIGTERM to a build under way. Nobody waits for the build after that. */
  function TellBuild(s: State): State {
    if s.startup.AwaitBuild? then s.(outside := s.outside.(buildTold := true)) else s
  }

  /** `shutdown`, up to its first await. */
  function BeginShutdown(s: State): State {
    if s.phase == Stopped then DoExit(s)
    else if s.phase == Stopping then s
    else
      var stopping := TellBuild(s.(phase := Stopping, aborted := true));
      if s.owned.None? then
        if s.earlierStop.Some? then stopping.(shutdown := SeesEarlierThrough) else DoExit(stopping)
      else Interrupt(OpenStatus(stopping).(window := NoWindow, shutdown := AwaitStop), s.owned.value)
  }

  /** `window-all-closed`, when it is so. */
  function AllClosed(s: State): State {
    if s.window != NoWindow || s.statusOpen || s.phase == Stopping then s else BeginShutdown(s)
  }

  /** A quit nobody prevented closes every window; the dialog holds it up while starting or stopping. */
  function CloseEverything(s: State): State {
    var closed := s.(window := NoWindow);
    if s.statusOpen && s.phase == Starting then BeginShutdown(closed)
    else if s.statusOpen && s.phase == Stopping then closed
    else DoExit(closed)
  }

  function OnTrigger(s: State, trigger: Trigger): State {
    match trigger
    case Ask => BeginShutdown(s)
    case BeforeQuit =>
      if (s.owned.Some? || s.earlierStop.Some?) && s.phase != Stopping then BeginShutdown(s) else CloseEverything(s)
    case CloseStatus =>
      if !s.statusOpen || s.phase == Stopping then s
      else if s.phase == Starting then BeginShutdown(s)
      else AllClosed(s.(statusOpen := false))
    case CloseApp =>
      if s.window != Shown then s
      else if s.owned.Some? && s.phase == Running then BeginShutdown(s)
      else AllClosed(s.(window := NoWindow))
    case OpenSettings => s.(statusOpen := true, settings := true)
    case CloseSettings =>
      if s.phase == Running then AllClosed(s.(statusOpen := false)) else s.(settings := false)
    case SecondInstance => if s.window == NoWindow then s else Show(s.(window := Shown))
    case StopLlama => DoExit(s)
  }

  function AfterServices(s: State, left: Option<nat>): State
    requires s.shutdown.AwaitServices?
  {
    if left != Some(0) || (s.shutdown.result.forced && s.shutdown.result.llama)
    then s.(phase := Stopped, shutdown := Returned)
    else s.(shutdown := AwaitLastSleep)
  }

  // --- Steps ------------------------------------------------------------------------------

  /** What can happen next: a wait that is under way ends, or somebody asks. New groups have new ids. */
  predicate Enabled(s: State, e: Event) {
    && !s.outside.exited
    && match e
       case Ready(found, local) => s.startup.NotStarted? && (found.Adoptable? ==> local)
       case EarlierSettles(_) => s.earlierStop.Some? && s.earlierResult.None?
       case EarlierResumes => s.startup.AwaitEarlierStop? && s.earlierResult.Some?
       case EarlierServicesCounted(_) => s.startup.AwaitEarlierServices?
       case StartupGoesOn => s.startup.EarlierStopped?
       case HealthAnswered(_) => s.startup.AwaitHealth?
       case ProbesAnswered(_, _, _, spawn, _) => s.startup.AwaitProbes? && NewGroup(s, spawn)
       case BuildEnds(_, spawn, _) => s.startup.AwaitBuild? && NewGroup(s, spawn)
       case SpawnErrorKnown => s.startup.AwaitSpawnError?
       case ReadyProbed(_) => s.startup.AwaitReadyProbe?
       case ReadySlept(_, _) => s.startup.AwaitReadySleep?
       case Throws(_) => s.startup.AwaitHealth? || s.startup.AwaitProbes? || s.startup.AwaitBuild?
       case PageReady => s.startup.AwaitPage? && (s.phase == Starting ==> s.window != NoWindow)
       case Triggered(trigger) => trigger.StopLlama? ==> s.phase == Stopped
       case StopSettles(_) => s.shutdown.AwaitStop?
       case ShutdownResumes => s.shutdown.SeesEarlierThrough? && s.earlierResult.Some?
       case ServicesCounted(_) => s.shutdown.AwaitServices?
       case LastSleepOver => s.shutdown.AwaitLastSleep?
  }

  predicate NewGroup(s: State, spawn: Spawn) {
    spawn.Group? ==> spawn.pgid !in s.outside.taken
  }

  function Step(s: State, e: Event): State
    requires Enabled(s, e)
  {
    match e
    case Ready(found, local) =>
      var starting := s.(phase := Starting, local := local);
      if found.Earlier? then
        Interrupt(TakeOn(OpenStatus(starting), found.pgid), found.pgid)
          .(earlierStop := Some(found.pgid), startup := AwaitEarlierStop)
      else GoOn(starting, if found.Adoptable? then Some(found.pgid) else None)
    case EarlierSettles(result) => SeeOver(s, s.earlierStop.value).(earlierResult := Some(result))
    case EarlierResumes =>
      var result := s.earlierResult.value;
      s.(earlierStop := None,
         startup := if result.forced then AwaitEarlierServices(result.llama) else EarlierStopped(false))
    case EarlierServicesCounted(someLeft) => s.(startup := EarlierStopped(someLeft || s.startup.llama))
    case StartupGoesOn =>
      if s.aborted then s.(startup := Ended) else if s.startup.left then Fail(s) else GoOn(s, None)
    case HealthAnswered(ok) => if ok then OpenApp(s) else Fail(s)
    case ProbesAnswered(_, _, _, _, _) => AfterProbes(s, e)
    case BuildEnds(build, spawn, alive) =>
      if s.aborted then s.(startup := Ended) else if build == Built then StartBackend(s, spawn, alive) else Fail(s)
    case SpawnErrorKnown => if s.aborted then s.(startup := Ended) else Fail(s)
    case ReadyProbed(ok) => if ok then OpenApp(s) else s.(startup := AwaitReadySleep(s.startup.watch))
    case ReadySlept(exited, alive) => WaitReady(s, s.startup.watch, exited, alive)
    case Throws(alive) => CatchError(s, alive)
    case PageReady =>
      if s.phase != Starting then AllClosed(s.(window := NoWindow, startup := Ended))
      else Show(s.(window := Shown, phase := Running, statusOpen := s.statusOpen && s.settings, startup := Ended))
    case Triggered(trigger) => OnTrigger(s, trigger)
    case StopSettles(result) =>
      (if s.owned.Some? then SeeOver(s, s.owned.value) else s).(owned := None, shutdown := AwaitServices(result))
    case ShutdownResumes => DoExit(s)
    case ServicesCounted(left) => AfterServices(s, left)
    case LastSleepOver => DoExit(s)
  }

  // --- What every step keeps ----------------------------------------------------------------

  /** No group was sent a second SIGINT, and none that was not taken on was sent one. */
  ghost predicate Clean(o: Outside) {
    && (forall p <- o.sigints :: o.sigints[p] == 1 && p in o.taken)
    && o.over <= o.taken
  }

  predicate BeforeEnd(startup: Startup) {
    !startup.NotStarted? && !startup.Ended?
  }

  predicate MayOwn(startup: Startup) {
    startup.AwaitReadyProbe? || startup.AwaitReadySleep? || startup.AwaitPage? || startup.Ended?
  }

  predicate StoppingEarlier(startup: Startup) {
    startup.AwaitEarlierStop? || startup.AwaitEarlierServices? || startup.EarlierStopped?
  }

  /** How the phase, the two waiting places and the windows fit together. */
  predicate PhasesFit(s: State) {
    && (s.aborted <==> s.phase == Stopping || s.phase == Stopped)
    && (s.phase == Idle <==> s.startup.NotStarted?)
    && (s.startup.NotStarted? ==> s.earlierResult.None?)
    && (s.phase == Starting ==> BeforeEnd(s.startup))
    && (s.phase == Running || s.phase == Failed ==> s.startup.Ended?)
    && (s.shutdown.NotBegun? <==> !s.aborted)
    && (s.shutdown.Returned? <==> s.phase == Stopped)
    && (s.phase == Stopping || StoppingEarlier(s.startup) || s.startup.AwaitBuild? ==> s.statusOpen)
    && (s.aborted ==> s.window == NoWindow)
    && (s.window != NoWindow ==> MayOwn(s.startup))
    && (s.shutdown.SeesEarlierThrough? ==> StoppingEarlier(s.startup) || s.startup.Ended?)
    && (s.aborted && !s.shutdown.SeesEarlierThrough? ==> MayOwn(s.startup))
  }

  /** Which groups are still to be seen through. */
  predicate GroupsFit(s: State) {
    && (s.owned.Some? ==> s.owned.value in s.outside.taken && MayOwn(s.startup) && s.earlierStop.None?)
    && (s.owned.Some? && !s.aborted ==> s.owned.value !in s.outside.sigints)
    && (s.shutdown.AwaitStop? <==> s.owned.Some? && s.aborted)
    && (s.earlierStop.Some? <==> s.startup.AwaitEarlierStop?)
    && (s.earlierStop.Some? ==> s.earlierStop.value in s.outside.taken && s.earlierStop.value in s.outside.sigints)
    && (s.shutdown.AwaitStop? ==> s.owned.Some? && s.owned.value in s.outside.sigints)
    && (s.earlierStop.Some? && s.earlierResult.Some? ==> s.earlierStop.value in s.outside.over)
    && (s.shutdown.SeesEarlierThrough? && s.earlierStop.None? ==> s.earlierResult.Some?)
    && (s.startup.NotStarted? || (s.startup.AwaitProbes? && s.startup.adopt.Some?) ==> s.outside.taken == {})
  }

  /** The groups this launch still has to see through. */
  function Held(s: State): set<Pgid> {
    (if s.owned.Some? then {s.owned.value} else {}) + (if s.earlierStop.Some? then {s.earlierStop.value} else {})
  }

  ghost predicate Sound(s: State) {
    && Clean(s.outside)
    && if s.outside.exited then
         s.outside.taken <= s.outside.over && (s.startup.AwaitBuild? ==> s.outside.buildTold)
       else
         PhasesFit(s) && GroupsFit(s) && s.outside.taken <= s.outside.over + Held(s)
  }

  lemma BeginShutdownKeeps(s: State)
    requires Sound(s) && !s.outside.exited
    ensures Sound(BeginShutdown(s))
  {
  }

  /** Before and after `shutdown` was called: the first call sends the owned group its one SIGINT, a later one sends
      none, and the app exits or has no window left. */
  predicate StopUnderWay(before: State, after: State) {
    && after.outside.sigints == before.outside.sigints
       + (if before.aborted || before.owned.None? then multiset{} else multiset{before.owned.value})
    && after.outside.taken == before.outside.taken && after.outside.shows == before.outside.shows
    && after.aborted && (after.outside.exited || after.window == NoWindow)
  }

  lemma ShutdownStops(s: State)
    requires Sound(s) && !s.outside.exited
    ensures StopUnderWay(s, BeginShutdown(s))
  {
  }

  lemma AllClosedKeeps(s: State)
    requires Sound(s) && !s.outside.exited
    ensures Sound(AllClosed(s))
  {
    BeginShutdownKeeps(s);
  }

  lemma CloseEverythingKeeps(s: State)
    requires Sound(s) && !s.outside.exited
    requires (s.owned.None? && s.earlierStop.None?) || s.phase == Stopping
    ensures Sound(CloseEverything(s))
  {
    BeginShutdownKeeps(s.(window := NoWindow));
  }

  lemma TriggerKeeps(s: State, trigger: Trigger)
    requires Sound(s) && Enabled(s, Triggered(trigger))
    ensures Sound(OnTrigger(s, trigger))
  {
    match trigger
    case Ask => BeginShutdownKeeps(s);
    case BeforeQuit => BeforeQuitKeeps(s);
    case CloseStatus => CloseStatusKeeps(s);
    case CloseApp => CloseAppKeeps(s);
    case CloseSettings => CloseSettingsKeeps(s);
    case OpenSettings =>
    case SecondInstance => SecondInstanceKeeps(s);
    case StopLlama =>
  }

  lemma BeforeQuitKeeps(s: State)
    requires Sound(s) && !s.outside.exited
    ensures Sound(OnTrigger(s, BeforeQuit))
  {
    BeginShutdownKeeps(s);
    if !((s.owned.Some? || s.earlierStop.Some?) && s.phase != Stopping) { CloseEverythingKeeps(s); }
  }

  lemma CloseStatusKeeps(s: State)
    requires Sound(s) && !s.outside.exited
    ensures Sound(OnTrigger(s, CloseStatus))
  {
    BeginShutdownKeeps(s);
    if s.phase != Stopping && s.phase != Starting { AllClosedKeeps(s.(statusOpen := false)); }
  }

  lemma CloseAppKeeps(s: State)
    requires Sound(s) && !s.outside.exited
    ensures Sound(OnTrigger(s, CloseApp))
  {
    BeginShutdownKeeps(s);
    AllClosedKeeps(s.(window := NoWindow));
  }

  lemma CloseSettingsKeeps(s: State)
    requires Sound(s) && !s.outside.exited
    ensures Sound(OnTrigger(s, CloseSettings))
  {
    if s.phase == Running { AllClosedKeeps(s.(statusOpen := false)); }
  }

  lemma SecondInstanceKeeps(s: State)
    requires Sound(s) && !s.outside.exited
    ensures Sound(OnTrigger(s, SecondInstance))
  {
  }

  lemma CatchKeeps(s: State, alive: bool)
    requires Sound(s) && !s.outside.exited && s.phase == Starting && !StoppingEarlier(s.startup)
    ensures Sound(CatchError(s, alive))
  {
  }

  lemma WaitKeeps(s: State, watch: Watch, exited: bool, alive: bool)
    requires Sound(s) && !s.outside.exited && s.startup.AwaitReadySleep?
    ensures Sound(WaitReady(s, watch, exited, alive))
  {
    if !s.aborted { CatchKeeps(s, alive); }
  }

  lemma StartBackendKeeps(s: State, spawn: Spawn, alive: bool)
    requires Sound(s) && !s.outside.exited && NewGroup(s, spawn) && s.phase == Starting
    requires s.startup == AwaitProbes(None) || s.startup.AwaitBuild?
    ensures Sound(StartBackend(s, spawn, alive))
  {
    if spawn.Group? {
      var started := TakeOn(s, spawn.pgid).(owned := Some(spawn.pgid), startup := AwaitReadySleep(ChildExited));
      WaitKeeps(started, ChildExited, false, alive);
      CatchKeeps(started, alive);
    }
  }

  lemma ProbesKeep(s: State, e: Event)
    requires Sound(s) && Enabled(s, e) && e.ProbesAnswered?
    ensures Sound(AfterProbes(s, e))
  {
    var shown := OpenStatus(s);
    if s.startup.adopt.Some? {
      var pgid := s.startup.adopt.value;
      var adopted := TakeOn(shown, pgid).(owned := Some(pgid), startup := AwaitReadySleep(GroupGone(pgid)));
      WaitKeeps(adopted, GroupGone(pgid), false, e.alive);
    } else {
      StartBackendKeeps(shown, e.spawn, e.alive);
    }
  }

  lemma StepKeeps(s: State, e: Event)
    requires Sound(s) && Enabled(s, e)
    ensures Sound(Step(s, e))
  {
    match e
    case ProbesAnswered(_, _, _, _, _) => ProbesKeep(s, e);
    case BuildEnds(build, spawn, alive) => if !s.aborted { StartBackendKeeps(s, spawn, alive); }
    case ReadySlept(exited, alive) => WaitKeeps(s, s.startup.watch, exited, alive);
    case Throws(alive) => CatchKeeps(s, alive);
    case PageReady => if s.phase != Starting { AllClosedKeeps(s.(window := NoWindow, startup := Ended)); }
    case Triggered(trigger) => TriggerKeeps(s, trigger);
    case Ready(_, _) => ReadyKeeps(s, e);
    case EarlierSettles(_) => EarlierKeeps(s, e);
    case EarlierResumes => EarlierKeeps(s, e);
    case EarlierServicesCounted(_) => EarlierKeeps(s, e);
    case StartupGoesOn => EarlierKeeps(s, e);
    case StopSettles(_) => StopKeeps(s, e);
    case ShutdownResumes => StopKeeps(s, e);
    case ServicesCounted(_) => StopKeeps(s, e);
    case LastSleepOver => StopKeeps(s, e);
    case _ => StartupKeeps(s, e);
  }

  lemma EarlierKeeps(s: State, e: Event)
    requires Sound(s) && Enabled(s, e)
    requires e.EarlierSettles? || e.EarlierResumes? || e.EarlierServicesCounted? || e.StartupGoesOn?
    ensures Sound(Step(s, e))
  {
  }

  lemma StopKeeps(s: State, e: Event)
    requires Sound(s) && Enabled(s, e)
    requires e.StopSettles? || e.ShutdownResumes? || e.ServicesCounted? || e.LastSleepOver?
    ensures Sound(Step(s, e))
  {
  }

  lemma ReadyKeeps(s: State, e: Event)
    requires Sound(s) && Enabled(s, e) && e.Ready?
    ensures Sound(Step(s, e))
  {
    var o := Step(s, e).outside;
    if e.found.Earlier? {
      assert s.outside.taken == {} && forall p: Pgid :: p !in s.outside.sigints;
      assert o.taken == {e.found.pgid} && o.sigints == multiset{e.found.pgid};
    } else {
      assert o == s.outside;
    }
  }

  lemma OpenAppKeeps(s: State)
    requires Sound(s) && !s.outside.exited && (s.startup.AwaitHealth? || s.startup.AwaitReadyProbe?)
    ensures Sound(OpenApp(s))
  {
  }

  lemma FailKeeps(s: State)
    requires Sound(s) && !s.outside.exited && s.phase == Starting && !StoppingEarlier(s.startup)
    ensures Sound(Fail(s))
  {
  }

  lemma StartupKeeps(s: State, e: Event)
    requires Sound(s) && Enabled(s, e)
    requires e.HealthAnswered? || e.SpawnErrorKnown? || e.ReadyProbed?
    ensures Sound(Step(s, e))
  {
    match e
    case HealthAnswered(ok) => if ok { OpenAppKeeps(s); } else { FailKeeps(s); }
    case ReadyProbed(ok) => if ok { OpenAppKeeps(s); }
    case SpawnErrorKnown => if !s.aborted { FailKeeps(s); }
  }

  // --- Whole runs ---------------------------------------------------------------------------------

  ghost predicate IsRun(s: State, events: seq<Event>)
    decreases |events|
  {
    events == [] || (Enabled(s, events[0]) && IsRun(Step(s, events[0]), events[1..]))
  }

  ghost function RunAll(s: State, events: seq<Event>): State
    requires IsRun(s, events)
    decreases |events|
  {
    if events == [] then s else RunAll(Step(s, events[0]), events[1..])
  }

  lemma {:induction false} RunKeeps(s: State, events: seq<Event>)
    requires Sound(s) && IsRun(s, events)
    ensures Sound(RunAll(s, events))
    decreases |events|
  {
    if events != [] {
      StepKeeps(s, events[0]);
      RunKeeps(Step(s, events[0]), events[1..]);
    }
  }

  /** Never a second SIGINT: over every interleaving, each process group is sent one at most, and only groups
      this launch took on are sent any. */
  lemma NeverASecondSigint(events: seq<Event>, pgid: Pgid)
    requires IsRun(START, events)
    ensures RunAll(START, events).outside.sigints[pgid] <= 1
    ensures pgid in RunAll(START, events).outside.sigints ==> pgid in RunAll(START, events).outside.taken
  {
    RunKeeps(START, events);
  }

  /** A group whose stop is waited for was sent its one SIGINT, and an owned one only then. An earlier launch's
      stack is stopped before anything is owned. */
  lemma StoppedGroupsGotTheirs(events: seq<Event>)
    requires IsRun(START, events) && !RunAll(START, events).outside.exited
    ensures var s := RunAll(START, events);
            && (s.earlierStop.Some? ==> s.outside.sigints[s.earlierStop.value] == 1)
            && (s.owned.Some? ==> s.outside.sigints[s.owned.value] == if s.shutdown.AwaitStop? then 1 else 0)
            && (StoppingEarlier(s.startup) ==> s.owned.None?)
  {
    RunKeeps(START, events);
  }

  /** No group is lost sight of: each that was taken on is owned, being stopped, or was found gone or killed. */
  lemma EveryGroupAccounted(events: seq<Event>)
    requires IsRun(START, events) && !RunAll(START, events).outside.exited
    ensures var s := RunAll(START, events);
            && s.outside.taken == s.outside.over + Held(s)
            && (s.owned.None? || s.earlierStop.None?)
            && (s.shutdown.AwaitServices? || s.shutdown.AwaitLastSleep? || s.phase == Stopped
                ==> s.outside.taken == s.outside.over)
  {
    RunKeeps(START, events);
  }

  /** Every way of quitting sees an owned or earlier stack through: the app does not exit before each group it took on
      was found gone or killed. A UI build, which is not waited for, was at least sent its SIGTERM. */
  lemma ExitSeesGroupsThrough(events: seq<Event>)
    requires IsRun(START, events) && RunAll(START, events).outside.exited
    ensures var s := RunAll(START, events);
            s.outside.taken == s.outside.over && (s.startup.AwaitBuild? ==> s.outside.buildTold)
  {
    RunKeeps(START, events);
  }

  // --- Once a stop has begun --------------------------------------------------------------------

  predicate StopBegun(s: State) { s.phase == Stopping || s.phase == Stopped }

  /** What a stop under way leaves as it is, whatever else goes on. */
  predicate NothingNew(before: Outside, after: Outside) {
    after.shows == before.shows && after.sigints == before.sigints && after.taken == before.taken
  }

  /** A stop under way ends in 'stopped' or in an exit. It shows no app window, sends no further SIGINT and starts
      nothing. */
  lemma StoppingOnlyStops(s: State, e: Event)
    requires Sound(s) && Enabled(s, e) && StopBegun(s)
    ensures StopBegun(Step(s, e)) && NothingNew(s.outside, Step(s, e).outside)
    ensures s.phase == Stopped ==> Step(s, e).phase == Stopped
  {
    match e
    case Triggered(trigger) => StoppingIgnoresTriggers(s, trigger);
    case _ =>
  }

  lemma StoppingIgnoresTriggers(s: State, trigger: Trigger)
    requires Sound(s) && Enabled(s, Triggered(trigger)) && StopBegun(s)
    ensures OnTrigger(s, trigger).phase == s.phase && NothingNew(s.outside, OnTrigger(s, trigger).outside)
  {
  }

  lemma {:induction false} NothingShownOnceStopping(before: seq<Event>, after: seq<Event>)
    requires IsRun(START, before) && StopBegun(RunAll(START, before)) && IsRun(RunAll(START, before), after)
    ensures StopBegun(RunAll(RunAll(START, before), after))
    ensures NothingNew(RunAll(START, before).outside, RunAll(RunAll(START, before), after).outside)
  {
    RunKeeps(START, before);
    StaysStopped(RunAll(START, before), after);
  }

  lemma {:induction false} StaysStopped(s: State, events: seq<Event>)
    requires Sound(s) && StopBegun(s) && IsRun(s, events)
    ensures StopBegun(RunAll(s, events)) && NothingNew(s.outside, RunAll(s, events).outside)
    decreases |events|
  {
    if events != [] {
      StoppingOnlyStops(s, events[0]);
      StepKeeps(s, events[0]);
      StaysStopped(Step(s, events[0]), events[1..]);
    }
  }

  // --- A stop ends ------------------------------------------------------------------------------

  /** The end of the wait a stop under way hangs on. */
  predicate Answers(s: State, e: Event) {
    match s.shutdown
    case SeesEarlierThrough => if s.earlierResult.None? then e.EarlierSettles? else e.ShutdownResumes?
    case AwaitStop => e.StopSettles?
    case AwaitServices(_) => e.ServicesCounted?
    case AwaitLastSleep => e.LastSleepOver?
    case _ => false
  }

  /** How many such waits are left at most. */
  function WaitsLeft(s: State): nat {
    if s.outside.exited || s.phase != Stopping then 0
    else match s.shutdown
         case SeesEarlierThrough => if s.earlierResult.None? then 2 else 1
         case AwaitStop => 3
         case AwaitServices(_) => 2
         case _ => 1
  }

  /** A stop never gets stuck: the end of its wait can always come, and when it does, fewer are left. */
  lemma AnswerBringsStopOn(s: State, e: Event)
    requires Sound(s) && !s.outside.exited && s.phase == Stopping && Answers(s, e)
    ensures Enabled(s, e) && WaitsLeft(Step(s, e)) < WaitsLeft(s)
  {
  }

  /** Nothing else that happens meanwhile sets it back. */
  lemma NothingSetsStopBack(s: State, e: Event)
    requires Sound(s) && Enabled(s, e) && StopBegun(s)
    ensures WaitsLeft(Step(s, e)) <= WaitsLeft(s)
  {
    StoppingOnlyStops(s, e);
    match e
    case Triggered(trigger) => TriggersSetNoStopBack(s, trigger);
    case _ =>
  }

  lemma TriggersSetNoStopBack(s: State, trigger: Trigger)
    requires Sound(s) && Enabled(s, Triggered(trigger)) && StopBegun(s)
    ensures WaitsLeft(OnTrigger(s, trigger)) <= WaitsLeft(s)
  {
  }

  /** How often, over a run, the wait a stop hung on came to its end. */
  ghost function AnswersIn(s: State, events: seq<Event>): nat
    requires IsRun(s, events)
    decreases |events|
  {
    if events == [] then 0
    else (if s.phase == Stopping && Answers(s, events[0]) then 1 else 0) + AnswersIn(Step(s, events[0]), events[1..])
  }

  lemma {:induction false} AnswersUseUpWaits(s: State, events: seq<Event>)
    requires Sound(s) && StopBegun(s) && IsRun(s, events)
    ensures WaitsLeft(RunAll(s, events)) + AnswersIn(s, events) <= WaitsLeft(s)
    decreases |events|
  {
    if events != [] {
      var e := events[0];
      NothingSetsStopBack(s, e);
      if s.phase == Stopping && Answers(s, e) { AnswerBringsStopOn(s, e); }
      StoppingOnlyStops(s, e);
      StepKeeps(s, e);
      AnswersUseUpWaits(Step(s, e), events[1..]);
    }
  }

  /** Whatever else goes on, a stop is over once its waits have come to their end three times. */
  lemma StopEnds(before: seq<Event>, after: seq<Event>)
    requires IsRun(START, before) && IsRun(RunAll(START, before), after)
    ensures var stopping, s := RunAll(START, before), RunAll(RunAll(START, before), after);
            StopBegun(stopping) && AnswersIn(stopping, after) >= 3 ==> s.outside.exited || s.phase == Stopped
  {
    var stopping := RunAll(START, before);
    RunKeeps(START, before);
    if StopBegun(stopping) {
      AnswersUseUpWaits(stopping, after);
      StaysStopped(stopping, after);
    }
  }
}
