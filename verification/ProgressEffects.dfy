/** What each event does to the progress dialog's checklist (progress.ts), told by the steps before and after alone. */
module ProgressEffects {
  import opened Text
  import opened Progress

  // --- Begin and finish -------------------------------------------------------------------

  /** An earlier step gives way to a later one: running it is done, pending it is skipped, else it stays. */
  predicate GaveWay(s: Step, t: Step, at: int) {
    match s.state
    case Running => t == s.(state := Done, endedAt := Some(at))
    case Pending => t == s.(state := Skipped, detail := if s.def.optional then None else s.def.skipReason)
    case _ => t == s
  }

  /** Only the steps up to the `k`th change: it becomes `now`, and those before it give way. */
  ghost predicate Reaches(progress: Checklist, next: Checklist, k: nat, now: Step, at: int) {
    && next == progress.(steps := next.steps)
    && |next.steps| == |progress.steps| && k < |next.steps|
    && next.steps[k] == now
    && (forall i :: 0 <= i < k ==> GaveWay(progress.steps[i], next.steps[i], at))
    && (forall i :: k < i < |next.steps| ==> next.steps[i] == progress.steps[i])
  }

  function Begun(s: Step, at: int, note: Option<string>): Step {
    s.(state := Running, startedAt := Some(at), detail := note)
  }

  function Finished(s: Step, at: int): Step {
    s.(state := Done, startedAt := if s.startedAt.Some? then s.startedAt else Some(at), endedAt := Some(at))
  }

  lemma SettledGaveWay(progress: Checklist, next: Checklist, k: nat, at: int)
    requires k <= |progress.steps| == |next.steps|
    requires forall i :: 0 <= i < k ==> next.steps[i] == Settle(progress.steps[i], at)
    ensures forall i :: 0 <= i < k ==> GaveWay(progress.steps[i], next.steps[i], at)
  {
  }

  /** A pending step that is begun runs from then on. */
  lemma BeginReaches(clean: string -> string, progress: Checklist, k: nat, at: int, note: Option<string>)
    requires UniqueIds(progress.steps) && k < |progress.steps| && progress.steps[k].state == Pending
    ensures Reaches(progress, Reduce(clean, progress, Begin(progress.steps[k].def.id, at, note)), k,
                    Begun(progress.steps[k], at, note), at)
  {
    IdIsIndex(progress.steps, progress.steps[k].def.id);
    SettledGaveWay(progress, BeginStep(progress, progress.steps[k].def.id, at, note), k, at);
  }

  /** A step still open that is finished is done, and keeps its start if it had one. */
  lemma FinishReaches(clean: string -> string, progress: Checklist, k: nat, at: int)
    requires UniqueIds(progress.steps) && k < |progress.steps| && Open(progress.steps[k])
    ensures Reaches(progress, Reduce(clean, progress, Finish(progress.steps[k].def.id, at)), k,
                    Finished(progress.steps[k], at), at)
  {
    IdIsIndex(progress.steps, progress.steps[k].def.id);
    SettledGaveWay(progress, FinishStep(progress, progress.steps[k].def.id, at), k, at);
  }

  /** Where no such step is pending, or still open, nothing changes. */
  lemma OtherwiseNothing(clean: string -> string, progress: Checklist, id: string, at: int, note: Option<string>)
    ensures (forall s <- progress.steps :: s.def.id == id ==> s.state != Pending)
            ==> Reduce(clean, progress, Begin(id, at, note)) == progress
    ensures (forall s <- progress.steps :: s.def.id == id ==> s.state != Pending && s.state != Running)
            ==> Reduce(clean, progress, Finish(id, at)) == progress
  {
    var index := IndexOfId(progress.steps, id);
    if index >= 0 {
      assert progress.steps[index] in progress.steps;
    }
  }

  // --- Skip, timeout, fail and complete -----------------------------------------------------

  /** A pending step that is skipped says why; any other step is left as it is. */
  lemma SkipSkips(clean: string -> string, progress: Checklist, id: string, at: int, reason: string)
    ensures var next := Reduce(clean, progress, Skip(id, at, reason));
            && next == progress.(steps := next.steps)
            && |next.steps| == |progress.steps|
            && forall i :: 0 <= i < |next.steps| ==>
                 next.steps[i]
                 == if progress.steps[i].def.id == id && progress.steps[i].state == Pending
                    then progress.steps[i].(state := Skipped, detail := Some(reason))
                    else progress.steps[i]
  {
  }

  /** A step that runs out of time fails and what was still to come is not reached. Of an unknown step, for which `k`
      is -1, nothing fails, but every step counts as one to come. */
  lemma TimeoutFails(clean: string -> string, progress: Checklist, id: string, at: int, k: int)
    requires -1 <= k < |progress.steps|
    requires forall i :: 0 <= i < |progress.steps| ==> (progress.steps[i].def.id == id <==> i == k)
    ensures var next := Reduce(clean, progress, Timeout(id, at));
            && next == progress.(steps := next.steps)
            && |next.steps| == |progress.steps|
            && (forall i :: 0 <= i < k ==> next.steps[i] == progress.steps[i])
            && (k >= 0 ==> next.steps[k] == progress.steps[k].(state := Failed, endedAt := Some(at),
                                                              detail := Some("did not finish in time")))
            && (forall i :: k < i < |next.steps| ==>
                  next.steps[i]
                  == if progress.steps[i].state == Pending && !progress.steps[i].def.optional
                     then progress.steps[i].(state := Skipped, detail := Some("not reached"))
                     else progress.steps[i])
  {
    var index := IndexOfId(progress.steps, id);
    assert index >= 0 ==> progress.steps[index].def.id == id;
    assert k >= 0 ==> progress.steps[k].def.id == id;
    var next := Reduce(clean, progress, Timeout(id, at));
    assert forall i :: 0 <= i < k ==> next.steps[i] == progress.steps[i];
  }

  ghost predicate NoneIs(steps: seq<Step>, state: StepState) {
    forall s <- steps :: s.state != state
  }

  ghost predicate NoneNamed(steps: seq<Step>, target: Option<string>) {
    target.Some? ==> forall s <- steps :: s.def.id != target.value
  }

  ghost predicate FirstIs(steps: seq<Step>, k: nat, state: StepState) {
    k < |steps| && steps[k].state == state && forall i :: 0 <= i < k ==> steps[i].state != state
  }

  /** The step that a failure is put down to: the one it names, else the first running, else the first pending one. */
  ghost predicate Blamed(steps: seq<Step>, target: Option<string>, k: nat) {
    k < |steps|
    && if NoneNamed(steps, target)
       then FirstIs(steps, k, Running) || (NoneIs(steps, Running) && FirstIs(steps, k, Pending))
       else steps[k].def.id == target.value
  }

  lemma FirstIsFound(steps: seq<Step>, state: StepState, index: int)
    requires index == FindIndex(steps, (s: Step) => s.state == state)
    ensures if NoneIs(steps, state) then index == -1 else index >= 0 && FirstIs(steps, index, state)
  {
    if index >= 0 {
      assert steps[index] in steps;
    }
  }

  lemma RunningTarget(steps: seq<Step>, target: Option<string>)
    requires NoneNamed(steps, target)
    ensures FailTarget(steps, target)
            == if NoneIs(steps, Running) then FindIndex(steps, (s: Step) => s.state == Pending)
               else FindIndex(steps, (s: Step) => s.state == Running)
  {
    assert target.Some? ==> forall i :: 0 <= i < |steps| ==> steps[i] in steps;
    FirstIsFound(steps, Running, FindIndex(steps, (s: Step) => s.state == Running));
  }

  lemma TargetIsBlamed(steps: seq<Step>, target: Option<string>, k: nat)
    requires UniqueIds(steps) && Blamed(steps, target, k)
    ensures FailTarget(steps, target) == k
  {
    if NoneNamed(steps, target) {
      RunningTarget(steps, target);
      var state := if NoneIs(steps, Running) then Pending else Running;
      assert steps[k] in steps;
      var index := FindIndex(steps, (s: Step) => s.state == state);
      FirstIsFound(steps, state, index);
    } else {
      IdIsIndex(steps, target.value);
    }
  }

  /** A failure ends the run and is put down to one step, which fails. */
  lemma FailFails(clean: string -> string, progress: Checklist, message: string, at: int, target: Option<string>,
                  k: nat)
    requires UniqueIds(progress.steps) && Blamed(progress.steps, target, k)
    ensures Reduce(clean, progress, Fail(message, at, target))
            == progress.(error := Some(message), endedAt := Some(at),
                         steps := progress.steps[k := Finished(progress.steps[k], at).(state := Failed)])
  {
    TargetIsBlamed(progress.steps, target, k);
    IdIsIndex(progress.steps, progress.steps[k].def.id);
    var next := Reduce(clean, progress, Fail(message, at, target));
    assert next.steps == progress.steps[k := Finished(progress.steps[k], at).(state := Failed)];
  }

  /** With no step named, running or pending there is none to fail. */
  lemma NothingToBlame(clean: string -> string, progress: Checklist, message: string, at: int, target: Option<string>)
    requires NoneNamed(progress.steps, target)
    requires NoneIs(progress.steps, Running) && NoneIs(progress.steps, Pending)
    ensures Reduce(clean, progress, Fail(message, at, target))
            == progress.(error := Some(message), endedAt := Some(at))
  {
    RunningTarget(progress.steps, target);
    FirstIsFound(progress.steps, Pending, FindIndex(progress.steps, (s: Step) => s.state == Pending));
  }

  /** The end of the run is the end of what is running; the offer to stop llama-server is one flag. */
  lemma CompleteEnds(clean: string -> string, progress: Checklist, at: int)
    ensures var next := Reduce(clean, progress, Complete(at));
            && next == progress.(steps := next.steps, finished := true, endedAt := Some(at))
            && |next.steps| == |progress.steps|
            && forall i :: 0 <= i < |next.steps| ==>
                 next.steps[i] == if progress.steps[i].state == Running
                                  then progress.steps[i].(state := Done, endedAt := Some(at))
                                  else progress.steps[i]
    ensures Reduce(clean, progress, OfferStopLlama) == progress.(offerStopLlama := true)
  {
  }

  // --- Log lines -------------------------------------------------------------------------------

  /** `part` stands in `text` at `m` and nowhere before. */
  ghost predicate FirstAt(text: string, part: string, m: nat) {
    m <= |text| && part <= text[m..] && forall i :: 0 <= i < m ==> !(part <= text[i..])
  }

  ghost predicate Nowhere(text: string, part: string) {
    forall i :: 0 <= i <= |text| ==> !(part <= text[i..])
  }

  lemma {:induction false} IndexOfIsFirst(text: string, part: string)
    ensures var m := IndexOf(text, part);
            if m < 0 then Nowhere(text, part) else FirstAt(text, part, m)
  {
    assert text[0..] == text;
    if !(part <= text) && text != "" {
      IndexOfIsFirst(text[1..], part);
      assert forall i :: 0 < i <= |text| ==> text[i..] == text[1..][i - 1..];
    }
  }

  lemma FirstAtIsIndexOf(text: string, part: string, m: nat)
    requires FirstAt(text, part, m)
    ensures IndexOf(text, part) == m
  {
    IndexOfIsFirst(text, part);
  }

  /** A line without a marker is what the running step is at, up to 200 characters of it. */
  lemma PlainLine(clean: string -> string, progress: Checklist, text: string, at: int, k: nat)
    requires UniqueIds(progress.steps) && FirstIs(progress.steps, k, Running)
    requires clean(text) != "" && Nowhere(clean(text), MARKER)
    ensures var plain := clean(text);
            Reduce(clean, progress, Line(text, at))
            == progress.(log := LastLines(progress.log + [plain]),
                         steps := progress.steps[k := progress.steps[k].(
                           detail := Some(if |plain| < 200 then plain else plain[..200]))])
  {
    var plain := clean(text);
    IndexOfIsFirst(plain, MARKER);
    var next := Reduce(clean, progress, Line(text, at));
    var index := FindIndex(progress.steps, (s: Step) => s.state == Running);
    FirstIsFound(progress.steps, Running, index);
    IdIsIndex(progress.steps, progress.steps[k].def.id);
    assert |plain| == 200 ==> plain[..200] == plain;
    assert next.steps == progress.steps[k := progress.steps[k].(
                           detail := Some(if |plain| < 200 then plain else plain[..200]))];
  }

  /** A line of which nothing is left changes nothing, and one nobody runs for only goes to the log. */
  lemma IdleLine(clean: string -> string, progress: Checklist, text: string, at: int)
    ensures clean(text) == "" ==> Reduce(clean, progress, Line(text, at)) == progress
    ensures clean(text) != "" && Nowhere(clean(text), MARKER) && NoneIs(progress.steps, Running)
            ==> Reduce(clean, progress, Line(text, at))
                == progress.(log := LastLines(progress.log + [clean(text)]))
  {
    IndexOfIsFirst(clean(text), MARKER);
    FirstIsFound(progress.steps, Running, FindIndex(progress.steps, (s: Step) => s.state == Running));
  }

  /** A step's mark, when it has one that is not empty, is what the marker text begins with. */
  predicate Bears(marker: string, mark: Option<string>) {
    mark.Some? && |mark.value| > 0 && mark.value <= marker
  }

  /** The marker text bears the step's own start mark, or else its end mark. */
  predicate StartsBy(s: Step, marker: string) {
    s.state == Pending && Bears(marker, s.def.marker)
  }

  predicate EndsBy(s: Step, marker: string) {
    (s.state == Pending || s.state == Running) && !Bears(marker, s.def.marker) && Bears(marker, s.def.endMarker)
  }

  predicate Turns(s: Step, marker: string) {
    StartsBy(s, marker) || EndsBy(s, marker)
  }

  /** What its own marks make of a step. */
  function Turned(s: Step, marker: string, at: int): Step {
    if StartsBy(s, marker) then Begun(s, at, None) else if EndsBy(s, marker) then Finished(s, at) else s
  }

  lemma OwnTurn(progress: Checklist, k: nat, marker: string, at: int)
    requires UniqueIds(progress.steps) && k < |progress.steps|
    ensures var next := ApplyMarker(progress, progress.steps[k].def, marker, at);
            if Turns(progress.steps[k], marker)
            then Reaches(progress, next, k, Turned(progress.steps[k], marker, at), at)
            else next == progress
  {
    IdIsIndex(progress.steps, progress.steps[k].def.id);
    if StartsBy(progress.steps[k], marker) {
      BeginReaches((s: string) => s, progress, k, at, None);
    } else if EndsBy(progress.steps[k], marker) {
      FinishReaches((s: string) => s, progress, k, at);
    }
  }

  /** The checklist is at its `j`th step's turn: the steps from there on are as they were when the line came. */
  ghost predicate AtTurn(progress: Checklist, steps: seq<Step>, j: nat) {
    && UniqueIds(progress.steps)
    && j <= |steps| == |progress.steps|
    && forall i :: j <= i < |steps| ==> progress.steps[i] == steps[i]
  }

  lemma {:induction false} NoTurnsLeft(progress: Checklist, steps: seq<Step>, j: nat, marker: string, at: int)
    requires AtTurn(progress, steps, j)
    requires forall i :: j <= i < |steps| ==> !Turns(steps[i], marker)
    ensures ApplyMarkers(progress, steps[j..], marker, at) == progress
    decreases |steps| - j
  {
    if j < |steps| {
      OwnTurn(progress, j, marker, at);
      assert steps[j..][0] == steps[j] && steps[j..][1..] == steps[j + 1..];
      NoTurnsLeft(progress, steps, j + 1, marker, at);
    }
  }

  /** What the turns up to the `k`th, the last to take effect, make of the list. */
  ghost predicate TurnedTo(progress: Checklist, next: Checklist, j: nat, k: nat, marker: string, at: int) {
    && next == progress.(steps := next.steps)
    && |next.steps| == |progress.steps| && j <= k < |next.steps|
    && (forall i :: 0 <= i < j ==> GaveWay(progress.steps[i], next.steps[i], at))
    && (forall i :: j <= i < k ==> GaveWay(Turned(progress.steps[i], marker, at), next.steps[i], at))
    && next.steps[k] == Turned(progress.steps[k], marker, at)
    && (forall i :: k < i < |next.steps| ==> next.steps[i] == progress.steps[i])
  }

  lemma TurnThenRest(progress: Checklist, mid: Checklist, next: Checklist, j: nat, k: nat, marker: string, at: int)
    requires j < k < |progress.steps| && TurnedTo(mid, next, j + 1, k, marker, at)
    requires if Turns(progress.steps[j], marker)
             then Reaches(progress, mid, j, Turned(progress.steps[j], marker, at), at)
             else mid == progress
    ensures TurnedTo(progress, next, j, k, marker, at)
  {
    forall i | 0 <= i < j ensures GaveWay(progress.steps[i], next.steps[i], at) {
      assert GaveWay(mid.steps[i], next.steps[i], at);
    }
  }

  lemma TurnsOn(progress: Checklist, steps: seq<Step>, j: nat, marker: string, at: int)
    requires AtTurn(progress, steps, j) && j < |steps|
    ensures var next := ApplyMarker(progress, steps[j].def, marker, at);
            && AtTurn(next, steps, j + 1)
            && ApplyMarkers(progress, steps[j..], marker, at) == ApplyMarkers(next, steps[j + 1..], marker, at)
            && if Turns(progress.steps[j], marker)
               then Reaches(progress, next, j, Turned(progress.steps[j], marker, at), at)
               else next == progress
  {
    assert steps[j..][0] == steps[j] && steps[j..][1..] == steps[j + 1..];
    OwnTurn(progress, j, marker, at);
    var next := ApplyMarker(progress, steps[j].def, marker, at);
    assert forall i :: 0 <= i < |steps| ==> next.steps[i].def == progress.steps[i].def;
  }

  lemma {:induction false} TurnsOfMarkers(progress: Checklist, steps: seq<Step>, j: nat, k: nat, marker: string,
                                          at: int)
    requires AtTurn(progress, steps, j) && j <= k < |steps|
    requires Turns(steps[k], marker) && forall i :: k < i < |steps| ==> !Turns(steps[i], marker)
    ensures TurnedTo(progress, ApplyMarkers(progress, steps[j..], marker, at), j, k, marker, at)
    decreases |steps| - j
  {
    var mid := ApplyMarker(progress, steps[j].def, marker, at);
    TurnsOn(progress, steps, j, marker, at);
    if j == k {
      NoTurnsLeft(mid, steps, j + 1, marker, at);
    } else {
      TurnsOfMarkers(mid, steps, j + 1, k, marker, at);
      TurnThenRest(progress, mid, ApplyMarkers(mid, steps[j + 1..], marker, at), j, k, marker, at);
    }
  }

  /** A line with a marker, the `k`th step being the last whose marks it takes effect on: that step is begun or
      finished, those before it are too as their own marks say and then give way, and those after it stay. */
  lemma MarkerLine(clean: string -> string, progress: Checklist, text: string, at: int, m: nat, k: nat)
    requires UniqueIds(progress.steps) && k < |progress.steps|
    requires FirstAt(clean(text), MARKER, m)
    requires Turns(progress.steps[k], clean(text)[m..])
    requires forall i :: k < i < |progress.steps| ==> !Turns(progress.steps[i], clean(text)[m..])
    ensures TurnedTo(progress.(log := LastLines(progress.log + [clean(text)])),
                     Reduce(clean, progress, Line(text, at)), 0, k, clean(text)[m..], at)
  {
    FirstAtIsIndexOf(clean(text), MARKER, m);
    var logged := progress.(log := LastLines(progress.log + [clean(text)]));
    TurnsOfMarkers(logged, logged.steps, 0, k, clean(text)[m..], at);
    assert logged.steps[0..] == logged.steps;
  }

  /** One that no step is waiting for only goes to the log. */
  lemma StrayMarkerLine(clean: string -> string, progress: Checklist, text: string, at: int, m: nat)
    requires UniqueIds(progress.steps)
    requires FirstAt(clean(text), MARKER, m)
    requires forall i :: 0 <= i < |progress.steps| ==> !Turns(progress.steps[i], clean(text)[m..])
    ensures Reduce(clean, progress, Line(text, at)) == progress.(log := LastLines(progress.log + [clean(text)]))
  {
    FirstAtIsIndexOf(clean(text), MARKER, m);
    var logged := progress.(log := LastLines(progress.log + [clean(text)]));
    NoTurnsLeft(logged, logged.steps, 0, clean(text)[m..], at);
    assert logged.steps[0..] == logged.steps;
  }

  // --- A run through the whole list -------------------------------------------------------------

  lemma {:induction false} RunInTwo(clean: string -> string, progress: Checklist, events: seq<Event>,
                                    more: seq<Event>)
    ensures Run(clean, progress, events + more) == Run(clean, Run(clean, progress, events), more)
    decreases |events|
  {
    if events == [] {
      assert events + more == more;
    } else {
      assert (events + more)[0] == events[0] && (events + more)[1..] == events[1..] + more;
      RunInTwo(clean, Reduce(clean, progress, events[0]), events[1..], more);
    }
  }

  /** Each of the first `n` steps is begun in its turn. */
  function Walk(defs: seq<StepDef>, times: seq<int>, n: nat): seq<Event>
    requires n <= |defs| == |times|
  {
    seq(n, i requires 0 <= i < n => Begin(defs[i].id, times[i], None))
  }

  /** The first `n` steps have had their turn: all but the last of them are done, each when the next one began. */
  ghost predicate Walked(progress: Checklist, defs: seq<StepDef>, at: int, times: seq<int>, n: nat)
    requires n <= |defs| == |times|
  {
    && progress == Checklist(at, None, progress.steps, [], None, false, false)
    && |progress.steps| == |defs|
    && (forall i :: 0 <= i < n - 1 ==>
          progress.steps[i] == Step(defs[i], Done, Some(times[i]), Some(times[i + 1]), None))
    && (n > 0 ==> progress.steps[n - 1] == Step(defs[n - 1], Running, Some(times[n - 1]), None, None))
    && (forall i :: n <= i < |defs| ==> progress.steps[i] == Step(defs[i], Pending, None, None, None))
  }

  lemma WalkedDefs(progress: Checklist, defs: seq<StepDef>, at: int, times: seq<int>, n: nat)
    requires n <= |defs| == |times| && Walked(progress, defs, at, times, n)
    ensures forall i :: 0 <= i < |defs| ==> progress.steps[i].def == defs[i]
  {
    forall i | 0 <= i < |defs| ensures progress.steps[i].def == defs[i] {
      if i < n - 1 {
        assert progress.steps[i] == Step(defs[i], Done, Some(times[i]), Some(times[i + 1]), None);
      }
    }
  }

  lemma WalksToNext(progress: Checklist, next: Checklist, defs: seq<StepDef>, at: int, times: seq<int>, n: nat)
    requires n < |defs| == |times| && Walked(progress, defs, at, times, n)
    requires Reaches(progress, next, n, Begun(progress.steps[n], times[n], None), times[n])
    ensures Walked(next, defs, at, times, n + 1)
  {
    forall i | 0 <= i < n ensures next.steps[i] == Step(defs[i], Done, Some(times[i]), Some(times[i + 1]), None) {
      assert GaveWay(progress.steps[i], next.steps[i], times[n]);
      if i < n - 1 {
        assert progress.steps[i] == Step(defs[i], Done, Some(times[i]), Some(times[i + 1]), None);
      }
    }
  }

  lemma {:induction false} WalksOn(clean: string -> string, defs: seq<StepDef>, at: int, times: seq<int>, n: nat)
    requires n <= |defs| == |times|
    requires forall i, j :: 0 <= i < j < |defs| ==> defs[i].id != defs[j].id
    ensures Walked(Run(clean, CreateProgress(defs, at), Walk(defs, times, n)), defs, at, times, n)
  {
    if n > 0 {
      WalksOn(clean, defs, at, times, n - 1);
      var before := Run(clean, CreateProgress(defs, at), Walk(defs, times, n - 1));
      WalkedDefs(before, defs, at, times, n - 1);
      var begin := Begin(defs[n - 1].id, times[n - 1], None);
      assert Walk(defs, times, n) == Walk(defs, times, n - 1) + [begin];
      RunInTwo(clean, CreateProgress(defs, at), Walk(defs, times, n - 1), [begin]);
      BeginReaches(clean, before, n - 1, times[n - 1], None);
      WalksToNext(before, Reduce(clean, before, begin), defs, at, times, n - 1);
      assert Run(clean, before, [begin]) == Reduce(clean, before, begin);
    }
  }

  /** Beginning every step in turn and completing the run leaves every step done, each with the time from its own
      beginning to the next one's, the last one's to the end. */
  lemma WalkedThrough(clean: string -> string, defs: seq<StepDef>, at: int, times: seq<int>, end: int)
    requires |defs| == |times|
    requires forall i, j :: 0 <= i < j < |defs| ==> defs[i].id != defs[j].id
    ensures var last := Run(clean, CreateProgress(defs, at), Walk(defs, times, |defs|) + [Complete(end)]);
            && last.finished && last.endedAt == Some(end) && last.error.None?
            && |last.steps| == |defs|
            && forall i :: 0 <= i < |defs| ==>
                 last.steps[i]
                 == Step(defs[i], Done, Some(times[i]), Some(if i + 1 < |defs| then times[i + 1] else end), None)
  {
    var walk := Walk(defs, times, |defs|);
    var walked := Run(clean, CreateProgress(defs, at), walk);
    WalksOn(clean, defs, at, times, |defs|);
    RunInTwo(clean, CreateProgress(defs, at), walk, [Complete(end)]);
    CompleteEnds(clean, walked, end);
    assert Run(clean, walked, [Complete(end)]) == Reduce(clean, walked, Complete(end));
  }
}
