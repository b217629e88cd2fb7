/** main.ts in its own form: module-level variables that handlers and resumed waits reassign. Every method does what
    its step in Lifecycle says, which ties the two forms together; what that means for whoever calls it stands in
    contracts of their own where it is not plain from the step. */
module Desktop {
  import opened Text
  import opened Lifecycle

  class Main {
    var phase: Phase
    var startup: Startup
    var shutdown: Shutdown
    var local: bool
    var owned: Option<Pgid>
    var earlierStop: Option<Pgid>
    var earlierResult: Option<Result>
    var aborted: bool
    var window: AppWindow
    var statusOpen: bool
    var settings: bool
    /** The world outside, told by what was done to it. */
    var outside: Outside

    constructor ()
      ensures Now() == START && Sound(Now())
    {
      phase, startup, shutdown, local := Idle, NotStarted, NotBegun, false;
      owned, earlierStop, earlierResult, aborted := None, None, None, false;
      window, statusOpen, settings := NoWindow, false, false;
      outside := Outside({}, multiset{}, {}, 0, false, false);
    }

    function Now(): State
      reads this
    {
      State(phase, startup, shutdown, local, owned, earlierStop, earlierResult, aborted, window, statusOpen, settings,
            outside)
    }

    /** What holds between any two steps: all that is proved of runs, and no group with a second SIGINT. */
    ghost predicate Orderly()
      reads this
    {
      Sound(Now()) && forall p: Pgid :: outside.sigints[p] <= 1
    }

    // --- Effects ------------------------------------------------------------------------

    method TakeOnGroup(pgid: Pgid)
      modifies `outside
      ensures Now() == TakeOn(old(Now()), pgid)
    {
      outside := outside.(taken := outside.taken + {pgid});
    }

    /** The one SIGINT with which `stopGroup` begins. */
    method SendSigint(pgid: Pgid)
      modifies `outside
      ensures Now() == Interrupt(old(Now()), pgid)
    {
      outside := outside.(sigints := outside.sigints + multiset{pgid});
    }

    method SawOver(pgid: Pgid)
      modifies `outside
      ensures Now() == SeeOver(old(Now()), pgid)
    {
      outside := outside.(over := outside.over + {pgid});
    }

    method ShowAppWindow()
      modifies `outside
      ensures Now() == Show(old(Now()))
    {
      outside := outside.(shows := outside.shows + 1);
    }

    method ExitApp()
      modifies `outside
      ensures Now() == DoExit(old(Now()))
    {
      outside := outside.(exited := true);
    }

    method OpenProgress()
      modifies `statusOpen, `settings
      ensures Now() == OpenStatus(old(Now()))
    {
      statusOpen, settings := true, false;
    }

    // --- Starting -----------------------------------------------------------------------

    method FailStart()
      modifies `phase, `startup
      ensures Now() == Fail(old(Now()))
    {
      phase, startup := Failed, Ended;
    }

    method CatchStartError(alive: bool)
      modifies `phase, `startup, `outside, `owned
      ensures Now() == CatchError(old(Now()), alive)
    {
      FailStart();
      if owned.Some? && !alive {
        SawOver(owned.value);
        owned := None;
      }
    }

    /** A window is made, hidden, unless the start was aborted meanwhile. */
    method OpenAppWindow()
      requires Sound(Now()) && !outside.exited && (startup.AwaitHealth? || startup.AwaitReadyProbe?)
      modifies `window, `startup
      ensures Now() == OpenApp(old(Now()))
      ensures if aborted then window == NoWindow else window == Hidden && startup == AwaitPage
    {
      if phase != Starting {
        startup := Ended;
        return;
      }
      window := Hidden;
      startup := AwaitPage;
    }

    method TopOfWaitReady(watch: Watch, exited: bool, alive: bool)
      modifies `phase, `startup, `outside, `owned
      ensures Now() == WaitReady(old(Now()), watch, exited, alive)
    {
      if aborted {
        startup := Ended;
        return;
      }
      var reason := match watch
        case NoWatch => false
        case GroupGone(_) => !alive
        case ChildExited => exited;
      if reason {
        CatchStartError(alive);
        return;
      }
      startup := AwaitReadyProbe(watch);
    }

    method Continue(adopt: Option<Pgid>)
      modifies `startup, `statusOpen, `settings
      ensures Now() == GoOn(old(Now()), adopt)
    {
      if !local {
        OpenProgress();
        startup := AwaitHealth;
        return;
      }
      startup := AwaitProbes(adopt);
    }

    method SpawnBackend(spawn: Spawn, alive: bool)
      modifies `phase, `startup, `outside, `owned
      ensures Now() == StartBackend(old(Now()), spawn, alive)
    {
      if spawn.NoProcess? {
        startup := AwaitSpawnError;
        return;
      }
      TakeOnGroup(spawn.pgid);
      owned := Some(spawn.pgid);
      if !spawn.recorded {
        CatchStartError(alive);
        return;
      }
      TopOfWaitReady(ChildExited, false, alive);
    }

    method Begin(found: Found, isLocal: bool)
      requires Enabled(Now(), Ready(found, isLocal))
      modifies this
      ensures Now() == Step(old(Now()), Ready(found, isLocal))
    {
      phase := Starting;
      local := isLocal;
      if found.Earlier? {
        OpenProgress();
        TakeOnGroup(found.pgid);
        SendSigint(found.pgid);
        earlierStop := Some(found.pgid);
        startup := AwaitEarlierStop;
        return;
      }
      Continue(if found.Adoptable? then Some(found.pgid) else None);
    }

    method ProbesCameBack(backendUp: bool, repoOk: bool, buildUi: bool, spawn: Spawn, alive: bool)
      requires Enabled(Now(), ProbesAnswered(backendUp, repoOk, buildUi, spawn, alive))
      modifies this
      ensures Now() == Step(old(Now()), ProbesAnswered(backendUp, repoOk, buildUi, spawn, alive))
    {
      OpenProgress();
      if startup.adopt.Some? {
        var pgid := startup.adopt.value;
        TakeOnGroup(pgid);
        owned := Some(pgid);
        TopOfWaitReady(GroupGone(pgid), false, alive);
      } else if backendUp {
        TopOfWaitReady(NoWatch, false, alive);
      } else if !repoOk {
        FailStart();
      } else if buildUi {
        startup := AwaitBuild;
      } else {
        SpawnBackend(spawn, alive);
      }
    }

    /** The app is running and its window shown, just once, unless the start was aborted while the page loaded;
        then the window is never seen. */
    method PageIsReady()
      requires Sound(Now()) && Enabled(Now(), PageReady)
      modifies this
      ensures Now() == Step(old(Now()), PageReady)
      ensures old(aborted) ==> NothingNew(old(outside), outside) && window == NoWindow
      ensures !old(aborted) ==> phase == Running && window == Shown && outside.shows == old(outside.shows) + 1
    {
      if phase != Starting {
        window, startup := NoWindow, Ended;
        WindowAllClosed();
        return;
      }
      window := Shown;
      ShowAppWindow();
      phase := Running;
      if !settings {
        statusOpen := false;
      }
      startup := Ended;
    }

    // --- Stopping -----------------------------------------------------------------------

    /** The first call sends the owned group its SIGINT, and nobody else one; a later one sends none. The app is gone
        after it, or has no window left. */
    method StartShutdown()
      modifies this
      ensures Now() == BeginShutdown(old(Now()))
      ensures Sound(old(Now())) && !old(outside.exited) ==> StopUnderWay(old(Now()), Now())
    {
      if Sound(Now()) && !outside.exited { ShutdownStops(Now()); }
      if phase == Stopped {
        ExitApp();
        return;
      }
      if phase == Stopping {
        return;
      }
      phase := Stopping;
      aborted := true;
      StopBuild();
      if owned.None? {
        if earlierStop.Some? {
          shutdown := SeesEarlierThrough;
          return;
        }
        ExitApp();
        return;
      }
      OpenProgress();
      window := NoWindow;
      SendSigint(owned.value);
      shutdown := AwaitStop;
    }

    /** `process.kill(-buildChild.pid, 'SIGTERM')`. */
    method StopBuild()
      modifies `outside
      ensures Now() == TellBuild(old(Now()))
    {
      if startup.AwaitBuild? {
        outside := outside.(buildTold := true);
      }
    }

    /** Every group this launch took on is over now. */
    method StopCameBack(result: Result)
      requires Sound(Now()) && Enabled(Now(), StopSettles(result))
      modifies this
      ensures Now() == Step(old(Now()), StopSettles(result))
      ensures outside.taken == outside.over && NothingNew(old(outside), outside)
    {
      if owned.Some? {
        SawOver(owned.value);
      }
      owned := None;
      shutdown := AwaitServices(result);
    }

    method ServicesCameBack(left: Option<nat>)
      requires Enabled(Now(), ServicesCounted(left))
      modifies this
      ensures Now() == Step(old(Now()), ServicesCounted(left))
    {
      var result := shutdown.result;
      if left != Some(0) {
        phase, shutdown := Stopped, Returned;
        return;
      }
      if result.forced && result.llama {
        phase, shutdown := Stopped, Returned;
        return;
      }
      shutdown := AwaitLastSleep;
    }

    // --- The quit triggers ------------------------------------------------------------------

    method WindowAllClosed()
      modifies this
      ensures Now() == AllClosed(old(Now()))
    {
      if window == NoWindow && !statusOpen && phase != Stopping {
        StartShutdown();
      }
    }

    method CloseAllWindows()
      modifies this
      ensures Now() == CloseEverything(old(Now()))
    {
      window := NoWindow;
      if statusOpen && phase == Starting {
        StartShutdown();
      } else if statusOpen && phase == Stopping {
      } else {
        ExitApp();
      }
    }

    /** Whoever asks, and however often: once a stop has begun, asking again changes nothing outside but for the
        exit, and the app goes only after every group it took on is over. */
    method Handle(trigger: Trigger)
      requires Sound(Now()) && Enabled(Now(), Triggered(trigger))
      modifies this
      ensures Now() == Step(old(Now()), Triggered(trigger))
      ensures old(aborted) ==> NothingNew(old(outside), outside)
      ensures outside.exited ==> outside.taken == outside.over
    {
      TriggerKeeps(Now(), trigger);
      if aborted { StoppingIgnoresTriggers(Now(), trigger); }
      DoTrigger(trigger);
    }

    method DoTrigger(trigger: Trigger)
      requires Enabled(Now(), Triggered(trigger))
      modifies this
      ensures Now() == OnTrigger(old(Now()), trigger)
    {
      match trigger
      case Ask => StartShutdown();
      case BeforeQuit =>
        if (owned.Some? || earlierStop.Some?) && phase != Stopping {
          StartShutdown();
        } else {
          CloseAllWindows();
        }
      case CloseStatus =>
        if statusOpen && phase == Starting {
          StartShutdown();
        } else if statusOpen && phase != Stopping {
          statusOpen := false;
          WindowAllClosed();
        }
      case CloseApp =>
        if window == Shown {
          if owned.Some? && phase == Running {
            StartShutdown();
          } else {
            window := NoWindow;
            WindowAllClosed();
          }
        }
      case OpenSettings => statusOpen, settings := true, true;
      case CloseSettings =>
        if phase == Running {
          statusOpen := false;
          WindowAllClosed();
        } else {
          settings := false;
        }
      case SecondInstance =>
        if window != NoWindow {
          window := Shown;
          ShowAppWindow();
        }
      case StopLlama => ExitApp();
    }

    // --- Every step --------------------------------------------------------------------------

    /** Whatever happens next, the app does just that step and stays orderly: no group is ever sent a second SIGINT,
        once a stop has begun nothing is shown, sent or started any more, and the app goes only after every group it
        took on is over and a build under way was told to stop. */
    method Happens(e: Event)
      requires Orderly() && Enabled(Now(), e)
      modifies this
      ensures Now() == Step(old(Now()), e) && Orderly()
      ensures old(aborted) ==> NothingNew(old(outside), outside)
      ensures outside.exited ==> outside.taken == outside.over && (startup.AwaitBuild? ==> outside.buildTold)
    {
      StepKeeps(Now(), e);
      if aborted { StoppingOnlyStops(Now(), e); }
      GoThrough(e);
    }

    method GoThrough(e: Event)
      requires Sound(Now()) && Enabled(Now(), e)
      modifies this
      ensures Now() == Step(old(Now()), e)
    {
      match e
      case Ready(found, isLocal) => Begin(found, isLocal);
      case EarlierSettles(result) =>
        SawOver(earlierStop.value);
        earlierResult := Some(result);
      case EarlierResumes =>
        earlierStop := None;
        var result := earlierResult.value;
        startup := if result.forced then AwaitEarlierServices(result.llama) else EarlierStopped(false);
      case EarlierServicesCounted(someLeft) => startup := EarlierStopped(someLeft || startup.llama);
      case StartupGoesOn => GoOnOrEnd();
      case HealthAnswered(ok) => if ok { OpenAppWindow(); } else { FailStart(); }
      case ProbesAnswered(backendUp, repoOk, buildUi, spawn, alive) =>
        ProbesCameBack(backendUp, repoOk, buildUi, spawn, alive);
      case BuildEnds(build, spawn, alive) => BuildCameBack(build, spawn, alive);
      case SpawnErrorKnown => if aborted { startup := Ended; } else { FailStart(); }
      case ReadyProbed(ok) => if ok { OpenAppWindow(); } else { startup := AwaitReadySleep(startup.watch); }
      case ReadySlept(exited, alive) => TopOfWaitReady(startup.watch, exited, alive);
      case Throws(alive) => CatchStartError(alive);
      case PageReady => PageIsReady();
      case Triggered(trigger) => Handle(trigger);
      case StopSettles(result) => StopCameBack(result);
      case ShutdownResumes => ExitApp();
      case ServicesCounted(left) => ServicesCameBack(left);
      case LastSleepOver => ExitApp();
    }

    method GoOnOrEnd()
      requires Enabled(Now(), StartupGoesOn)
      modifies this
      ensures Now() == Step(old(Now()), StartupGoesOn)
    {
      if aborted {
        startup := Ended;
      } else if startup.left {
        FailStart();
      } else {
        Continue(None);
      }
    }

    method BuildCameBack(build: Build, spawn: Spawn, alive: bool)
      requires Enabled(Now(), BuildEnds(build, spawn, alive))
      modifies this
      ensures Now() == Step(old(Now()), BuildEnds(build, spawn, alive))
    {
      if aborted {
        startup := Ended;
      } else if build == Built {
        SpawnBackend(spawn, alive);
      } else {
        FailStart();
      }
    }
  }
}
