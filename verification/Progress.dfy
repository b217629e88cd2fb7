/** The progress dialog's reducer (progress.ts): a checklist of steps advanced by
    events and by the marker lines found in the log. */
module Progress {
  import opened Text

  datatype StepState = Pending | Running | Done | Skipped | Failed

  datatype StepDef = StepDef(id: string, marker: Option<string>, endMarker: Option<string>,
                             skipReason: Option<string>, optional: bool)

  datatype Step = Step(def: StepDef, state: StepState, startedAt: Option<int>, endedAt: Option<int>,
                       detail: Option<string>)

  datatype Checklist = Checklist(startedAt: int, endedAt: Option<int>, steps: seq<Step>, log: seq<string>,
                                 error: Option<string>, finished: bool, offerStopLlama: bool)

  datatype Event =
    | Begin(step: string, at: int, note: Option<string>)
    | Finish(step: string, at: int)
    | Skip(step: string, at: int, reason: string)
    | Timeout(step: string, at: int)
    | Fail(message: string, at: int, target: Option<string>)
    | Line(text: string, at: int)
    | OfferStopLlama
    | Complete(at: int)

  const LOG_LINES := 300
  const MARKER := "==> "

  // --- Building blocks --------------------------------------------------------------

  function CreateProgress(defs: seq<StepDef>, at: int): Checklist {
    Checklist(at, None, seq(|defs|, i requires 0 <= i < |defs| => Step(defs[i], Pending, None, None, None)),
              [], None, false, false)
  }

  /** `findIndex`: the first step that passes, or -1. */
  function FindIndex(steps: seq<Step>, test: Step -> bool): (index: int)
    ensures -1 <= index < |steps|
    ensures index >= 0 ==> test(steps[index]) && forall i :: 0 <= i < index ==> !test(steps[i])
    ensures index == -1 ==> forall i :: 0 <= i < |steps| ==> !test(steps[i])
  {
    if steps == [] then -1
    else if test(steps[0]) then 0
    else
      var rest := FindIndex(steps[1..], test);
      assert rest == -1 ==> forall i :: 0 < i < |steps| ==> steps[i] == steps[1..][i - 1];
      if rest == -1 then -1 else rest + 1
  }

  function IndexOfId(steps: seq<Step>, id: string): int {
    FindIndex(steps, (s: Step) => s.def.id == id)
  }

  /** `steps.map` with the position. */
  function MapSteps(progress: Checklist, change: (int, Step) -> Step): (r: Checklist)
    ensures |r.steps| == |progress.steps|
    ensures forall i :: 0 <= i < |r.steps| ==> r.steps[i] == change(i, progress.steps[i])
    ensures r == progress.(steps := r.steps)
  {
    progress.(steps := seq(|progress.steps|, i requires 0 <= i < |progress.steps| => change(i, progress.steps[i])))
  }

  function Update(progress: Checklist, id: string, change: Step -> Step): Checklist {
    MapSteps(progress, (i, s: Step) => if s.def.id == id then change(s) else s)
  }

  function Settle(s: Step, at: int): Step {
    if s.state == Running then s.(state := Done, endedAt := Some(at))
    else if s.state == Pending then s.(state := Skipped, detail := if s.def.optional then None else s.def.skipReason)
    else s
  }

  function SettleBefore(progress: Checklist, id: string, at: int): Checklist {
    var index := IndexOfId(progress.steps, id);
    MapSteps(progress, (i, s: Step) => if i >= index then s else Settle(s, at))
  }

  function BeginStep(progress: Checklist, id: string, at: int, note: Option<string>): Checklist {
    var index := IndexOfId(progress.steps, id);
    if index < 0 || progress.steps[index].state != Pending then progress
    else
      Update(SettleBefore(progress, id, at), id,
             (s: Step) => s.(state := Running, startedAt := Some(at), detail := note))
  }

  function FinishStep(progress: Checklist, id: string, at: int): Checklist {
    var index := IndexOfId(progress.steps, id);
    if index < 0 || !(progress.steps[index].state == Pending || progress.steps[index].state == Running) then progress
    else Update(SettleBefore(progress, id, at), id,
                (s: Step) => s.(state := Done, startedAt := OrElse(s.startedAt, at), endedAt := Some(at)))
  }

  function OrElse(time: Option<int>, at: int): Option<int> {
    if time.Some? then time else Some(at)
  }

  // --- Log lines ---------------------------------------------------------------------

  function IndexOf(text: string, part: string): (at: int)
    ensures at >= 0 ==> at <= |text| && part <= text[at..]
    ensures at < 0 ==> at == -1
  {
    if part <= text then 0
    else if text == "" then -1
    else
      var rest := IndexOf(text[1..], part);
      if rest < 0 then -1 else rest + 1
  }

  function LastLines(lines: seq<string>): seq<string> {
    if |lines| <= LOG_LINES then lines else lines[|lines| - LOG_LINES..]
  }

  predicate Marks(mark: Option<string>, marker: string) {
    mark.Some? && mark.value != "" && mark.value <= marker
  }

  /** One turn of the loop over the steps: a marker that starts or ends this step takes effect. */
  function ApplyMarker(progress: Checklist, def: StepDef, marker: string, at: int): Checklist {
    if Marks(def.marker, marker) then BeginStep(progress, def.id, at, None)
    else if Marks(def.endMarker, marker) then FinishStep(progress, def.id, at)
    else progress
  }

  function ApplyMarkers(progress: Checklist, steps: seq<Step>, marker: string, at: int): Checklist
    decreases |steps|
  {
    if steps == [] then progress
    else ApplyMarkers(ApplyMarker(progress, steps[0].def, marker, at), steps[1..], marker, at)
  }

  /** `cleanLine` is left abstract: any function from lines to lines. */
  function OnLine(clean: string -> string, progress: Checklist, raw: string, at: int): Checklist {
    var text := clean(raw);
    if text == "" then progress
    else
      var next := progress.(log := LastLines(progress.log + [text]));
      var markerAt := IndexOf(text, MARKER);
      if markerAt >= 0 then ApplyMarkers(next, next.steps, text[markerAt..], at)
      else
        var running := FindIndex(next.steps, (s: Step) => s.state == Running);
        if running < 0 then next
        else Update(next, next.steps[running].def.id,
                    (s: Step) => s.(detail := Some(if |text| <= 200 then text else text[..200])))
  }

  /** The loop of `onLine`, which rebinds `next` while it goes over the steps as they were. */
  method OnLineLoop(clean: string -> string, progress: Checklist, raw: string, at: int) returns (next: Checklist)
    ensures next == OnLine(clean, progress, raw, at)
  {
    next := progress;
    var text := clean(raw);
    if text == "" {
      return;
    }
    next := progress.(log := LastLines(progress.log + [text]));
    var markerAt := IndexOf(text, MARKER);
    if markerAt >= 0 {
      var marker := text[markerAt..];
      var steps := next.steps;
      ghost var start := next;
      for i := 0 to |steps|
        invariant ApplyMarkers(start, steps, marker, at) == ApplyMarkers(next, steps[i..], marker, at)
      {
        var def := steps[i].def;
        assert steps[i..][1..] == steps[i + 1..];
        if Marks(def.marker, marker) {
          next := BeginStep(next, def.id, at, None);
        } else if Marks(def.endMarker, marker) {
          next := FinishStep(next, def.id, at);
        }
      }
      return;
    }
    var running := FindIndex(next.steps, (s: Step) => s.state == Running);
    if running >= 0 {
      next := Update(next, next.steps[running].def.id,
                     (s: Step) => s.(detail := Some(if |text| <= 200 then text else text[..200])));
    }
  }

  // --- The reducer ----------------------------------------------------------------------

  /** What `fail` falls back through: the named step, else the running one, else the first pending one. */
  function FailTarget(steps: seq<Step>, target: Option<string>): int {
    var named := if target.Some? then IndexOfId(steps, target.value) else -1;
    var running := FindIndex(steps, (s: Step) => s.state == Running);
    if named >= 0 then named
    else if running >= 0 then running
    else FindIndex(steps, (s: Step) => s.state == Pending)
  }

  function Reduce(clean: string -> string, progress: Checklist, event: Event): Checklist {
    match event
    case Begin(id, at, note) => BeginStep(progress, id, at, note)
    case Finish(id, at) => FinishStep(progress, id, at)
    case Skip(id, at, reason) =>
      Update(progress, id, (s: Step) => if s.state == Pending then s.(state := Skipped, detail := Some(reason)) else s)
    case Timeout(id, at) =>
      var index := IndexOfId(progress.steps, id);
      MapSteps(progress, (i, s: Step) =>
        if i == index then s.(state := Failed, endedAt := Some(at), detail := Some("did not finish in time"))
        else if i > index && s.state == Pending && !s.def.optional
        then s.(state := Skipped, detail := Some("not reached"))
        else s)
    case Fail(message, at, target) =>
      var index := FailTarget(progress.steps, target);
      var failed := if index < 0 then progress
                    else Update(progress, progress.steps[index].def.id,
                                (s: Step) =>
                                  s.(state := Failed, startedAt := OrElse(s.startedAt, at), endedAt := Some(at)));
      failed.(error := Some(message), endedAt := Some(at))
    case Line(text, at) => OnLine(clean, progress, text, at)
    case OfferStopLlama => progress.(offerStopLlama := true)
    case Complete(at) =>
      MapSteps(progress, (i, s: Step) => if s.state == Running then s.(state := Done, endedAt := Some(at)) else s)
        .(finished := true, endedAt := Some(at))
  }

  function Run(clean: string -> string, progress: Checklist, events: seq<Event>): Checklist
    decreases |events|
  {
    if events == [] then progress
    else Run(clean, Reduce(clean, progress, events[0]), events[1..])
  }

  // --- What every event keeps ---------------------------------------------------------------

  ghost predicate UniqueIds(steps: seq<Step>) {
    forall i, j :: 0 <= i < j < |steps| ==> steps[i].def.id != steps[j].def.id
  }

  predicate Reached(s: Step) { s.state == Running || s.state == Done }

  predicate Open(s: Step) { s.state == Pending || s.state == Running }

  /** Nothing open stands before a step that is running or done; so at most one step is running. */
  ghost predicate InOrder(steps: seq<Step>) {
    forall i, j :: 0 <= i < j < |steps| && Reached(steps[j]) ==> !Open(steps[i])
  }

  function Rank(state: StepState): nat {
    match state
    case Pending => 0
    case Running => 1
    case _ => 2
  }

  /** The same steps, none of them moved back. */
  ghost predicate Advances(before: seq<Step>, after: seq<Step>) {
    && |before| == |after|
    && forall i :: 0 <= i < |before| ==> after[i].def == before[i].def && Rank(before[i].state) <= Rank(after[i].state)
  }

  /** A step's times fit its state: pending steps have none, running ones a start, done ones a span. */
  predicate TimesFit(s: Step, from: int, now: int) {
    && (s.state == Pending ==> s.startedAt.None?)
    && (s.state == Running ==> s.startedAt.Some? && from <= s.startedAt.value <= now)
    && (s.state == Done ==> s.startedAt.Some? && s.endedAt.Some? && from <= s.startedAt.value <= s.endedAt.value <= now)
  }

  /** Spans of done steps lie one after the other in list order, and before the running step began. */
  ghost predicate Timed(progress: Checklist, now: int) {
    && progress.startedAt <= now
    && (forall i :: 0 <= i < |progress.steps| ==> TimesFit(progress.steps[i], progress.startedAt, now))
    && (forall i, j :: 0 <= i < j < |progress.steps| && progress.steps[i].state == Done && Reached(progress.steps[j])
          ==> progress.steps[i].endedAt.value <= progress.steps[j].startedAt.value)
  }

  ghost predicate Good(progress: Checklist, now: int) {
    UniqueIds(progress.steps) && InOrder(progress.steps) && Timed(progress, now)
  }

  lemma CreatedIsGood(defs: seq<StepDef>, at: int)
    requires forall i, j :: 0 <= i < j < |defs| ==> defs[i].id != defs[j].id
    ensures Good(CreateProgress(defs, at), at)
  {
  }

  /** With unique ids, an update by id changes one place. */
  lemma IdIsIndex(steps: seq<Step>, id: string)
    requires UniqueIds(steps)
    ensures var index := IndexOfId(steps, id);
            forall i :: 0 <= i < |steps| ==> (steps[i].def.id == id <==> i == index)
  {
  }

  /** What an accepted begin or finish of step `k` does to the list. */
  ghost predicate Accepted(before: seq<Step>, after: seq<Step>, k: nat, at: int) {
    && |before| == |after| && k < |before|
    && Open(before[k]) && Reached(after[k]) && after[k].def == before[k].def
    && after[k].startedAt == (if after[k].state == Running then Some(at) else OrElse(before[k].startedAt, at))
    && (after[k].state == Running ==> before[k].state == Pending)
    && (after[k].state == Done ==> after[k].endedAt == Some(at))
    && (forall i :: 0 <= i < k ==> after[i] == Settle(before[i], at))
    && (forall i :: k < i < |before| ==> after[i] == before[i])
  }

  /** What the events that only close steps do: each step keeps its state and times, or is skipped or failed,
      or ends as done after running. */
  ghost predicate OnlyCloses(before: seq<Step>, after: seq<Step>, at: int) {
    && |before| == |after|
    && forall i :: 0 <= i < |before| ==> Closes(before[i], after[i], at)
  }

  predicate Closes(s: Step, t: Step, at: int) {
    && t.def == s.def
    && (|| t.state == Skipped || t.state == Failed
        || (t.state == s.state && t.startedAt == s.startedAt && t.endedAt == s.endedAt)
        || (s.state == Running && t.state == Done && t.startedAt == s.startedAt && t.endedAt == Some(at)))
    && Rank(s.state) <= Rank(t.state)
  }

  lemma AcceptedInOrder(before: seq<Step>, after: seq<Step>, k: nat, at: int)
    requires Accepted(before, after, k, at) && InOrder(before)
    ensures InOrder(after)
  {
    forall i, j | 0 <= i < j < |after| && Reached(after[j]) ensures !Open(after[i]) {
      assert Open(before[k]);
    }
  }

  lemma AcceptedTimed(progress: Checklist, next: Checklist, k: nat, at: int, now: int)
    requires Accepted(progress.steps, next.steps, k, at) && progress.startedAt == next.startedAt
    requires InOrder(progress.steps) && Timed(progress, now) && now <= at
    ensures Timed(next, at)
  {
    forall i | 0 <= i < |next.steps| ensures TimesFit(next.steps[i], next.startedAt, at) {
      assert TimesFit(progress.steps[i], progress.startedAt, now);
    }
    forall i, j | 0 <= i < j < |next.steps| && next.steps[i].state == Done && Reached(next.steps[j])
      ensures next.steps[i].endedAt.value <= next.steps[j].startedAt.value
    {
      AcceptedSpans(progress, next, k, at, now, i, j);
    }
  }

  lemma AcceptedSpans(progress: Checklist, next: Checklist, k: nat, at: int, now: int, i: nat, j: nat)
    requires Accepted(progress.steps, next.steps, k, at)
    requires InOrder(progress.steps) && Timed(progress, now) && now <= at
    requires i < j < |next.steps| && next.steps[i].state == Done && Reached(next.steps[j])
    requires TimesFit(next.steps[i], progress.startedAt, at) && TimesFit(next.steps[j], progress.startedAt, at)
    ensures next.steps[i].endedAt.value <= next.steps[j].startedAt.value
  {
    var s, t := progress.steps[i], progress.steps[j];
    assert j <= k by {
      var u := next.steps[j];
      assert Open(progress.steps[k]) && (j > k ==> t == u);
    }
    assert TimesFit(s, progress.startedAt, now) && TimesFit(t, progress.startedAt, now);
    if t.state != Pending {
      assert Reached(t);
    }
  }

  lemma ClosesKeeps(progress: Checklist, next: Checklist, at: int, now: int)
    requires OnlyCloses(progress.steps, next.steps, at) && progress.startedAt == next.startedAt
    requires Good(progress, now) && now <= at
    ensures Good(next, at) && Advances(progress.steps, next.steps)
  {
    forall i | 0 <= i < |next.steps| ensures TimesFit(next.steps[i], next.startedAt, at) {
      assert Closes(progress.steps[i], next.steps[i], at) && TimesFit(progress.steps[i], progress.startedAt, now);
    }
    forall i, j | 0 <= i < j < |next.steps| && Reached(next.steps[j]) ensures !Open(next.steps[i]) {
      assert Closes(progress.steps[i], next.steps[i], at) && Closes(progress.steps[j], next.steps[j], at);
    }
    forall i, j | 0 <= i < j < |next.steps| && next.steps[i].state == Done && Reached(next.steps[j])
      ensures next.steps[i].endedAt.value <= next.steps[j].startedAt.value
    {
      assert Closes(progress.steps[i], next.steps[i], at) && Closes(progress.steps[j], next.steps[j], at);
      assert Reached(progress.steps[j]);
    }
  }

  lemma BeginKeeps(progress: Checklist, id: string, at: int, note: Option<string>, now: int)
    requires Good(progress, now) && now <= at
    ensures var next := BeginStep(progress, id, at, note);
            Good(next, at) && Advances(progress.steps, next.steps) && SameRest(progress, next)
  {
    IdIsIndex(progress.steps, id);
    var index := IndexOfId(progress.steps, id);
    var next := BeginStep(progress, id, at, note);
    if index >= 0 && progress.steps[index].state == Pending {
      AcceptedKeeps(progress, next, index, at, now);
    } else {
      ClosesKeeps(progress, next, at, now);
    }
  }

  lemma FinishKeeps(progress: Checklist, id: string, at: int, now: int)
    requires Good(progress, now) && now <= at
    ensures var next := FinishStep(progress, id, at);
            Good(next, at) && Advances(progress.steps, next.steps) && SameRest(progress, next)
  {
    IdIsIndex(progress.steps, id);
    var index := IndexOfId(progress.steps, id);
    var next := FinishStep(progress, id, at);
    if index >= 0 && Open(progress.steps[index]) {
      AcceptedKeeps(progress, next, index, at, now);
    } else {
      ClosesKeeps(progress, next, at, now);
    }
  }

  lemma AcceptedKeeps(progress: Checklist, next: Checklist, k: nat, at: int, now: int)
    requires Accepted(progress.steps, next.steps, k, at) && progress.startedAt == next.startedAt
    requires Good(progress, now) && now <= at
    ensures Good(next, at) && Advances(progress.steps, next.steps)
  {
    AcceptedInOrder(progress.steps, next.steps, k, at);
    AcceptedTimed(progress, next, k, at, now);
  }

  predicate SameRest(progress: Checklist, next: Checklist) {
    next.log == progress.log && next.startedAt == progress.startedAt
  }

  lemma MarkerKeeps(progress: Checklist, def: StepDef, marker: string, at: int, now: int)
    requires Good(progress, now) && now <= at
    ensures var next := ApplyMarker(progress, def, marker, at);
            Good(next, at) && Advances(progress.steps, next.steps) && SameRest(progress, next)
  {
    if Marks(def.marker, marker) {
      BeginKeeps(progress, def.id, at, None, now);
    } else if Marks(def.endMarker, marker) {
      FinishKeeps(progress, def.id, at, now);
    } else {
      ClosesKeeps(progress, progress, at, now);
    }
  }

  lemma {:induction false} MarkersKeep(progress: Checklist, steps: seq<Step>, marker: string, at: int, now: int)
    requires Good(progress, now) && now <= at
    ensures var next := ApplyMarkers(progress, steps, marker, at);
            Good(next, at) && Advances(progress.steps, next.steps) && SameRest(progress, next)
    decreases |steps|
  {
    if steps != [] {
      var next := ApplyMarker(progress, steps[0].def, marker, at);
      MarkerKeeps(progress, steps[0].def, marker, at, now);
      MarkersKeep(next, steps[1..], marker, at, at);
      AdvancesOn(progress.steps, next.steps, ApplyMarkers(next, steps[1..], marker, at).steps);
    } else {
      ClosesKeeps(progress, progress, at, now);
    }
  }

  lemma LineKeeps(clean: string -> string, progress: Checklist, text: string, at: int, now: int)
    requires Good(progress, now) && now <= at
    ensures var next := OnLine(clean, progress, text, at);
            Good(next, at) && Advances(progress.steps, next.steps) && next.startedAt == progress.startedAt
  {
    var plain := clean(text);
    var logged := progress.(log := LastLines(progress.log + [plain]));
    assert Good(logged, now);
    var markerAt := IndexOf(plain, MARKER);
    if plain != "" && markerAt >= 0 {
      MarkersKeep(logged, logged.steps, plain[markerAt..], at, now);
    } else {
      ClosesKeeps(progress, OnLine(clean, progress, text, at), at, now);
    }
  }

  /** An event's own time; asking to stop llama-server has none. */
  function Clock(event: Event, now: int): int {
    if event.OfferStopLlama? then now else event.at
  }

  lemma SkipCloses(clean: string -> string, progress: Checklist, id: string, at: int, reason: string)
    ensures var next := Reduce(clean, progress, Skip(id, at, reason));
            OnlyCloses(progress.steps, next.steps, at) && next.startedAt == progress.startedAt
  {
  }

  lemma TimeoutCloses(clean: string -> string, progress: Checklist, id: string, at: int)
    ensures var next := Reduce(clean, progress, Timeout(id, at));
            OnlyCloses(progress.steps, next.steps, at) && next.startedAt == progress.startedAt
  {
  }

  lemma FailCloses(clean: string -> string, progress: Checklist, message: string, at: int, target: Option<string>)
    ensures var next := Reduce(clean, progress, Fail(message, at, target));
            OnlyCloses(progress.steps, next.steps, at) && next.startedAt == progress.startedAt
  {
  }

  lemma CompleteCloses(clean: string -> string, progress: Checklist, at: int)
    ensures var next := Reduce(clean, progress, Complete(at));
            OnlyCloses(progress.steps, next.steps, at) && next.startedAt == progress.startedAt
  {
  }

  lemma OtherEventsClose(clean: string -> string, progress: Checklist, event: Event, now: int)
    requires !event.Begin? && !event.Finish? && !event.Line?
    ensures var next := Reduce(clean, progress, event);
            OnlyCloses(progress.steps, next.steps, Clock(event, now)) && next.startedAt == progress.startedAt
  {
    match event
    case Skip(id, at, reason) => SkipCloses(clean, progress, id, at, reason);
    case Timeout(id, at) => TimeoutCloses(clean, progress, id, at);
    case Fail(message, at, target) => FailCloses(clean, progress, message, at, target);
    case Complete(at) => CompleteCloses(clean, progress, at);
    case OfferStopLlama =>
  }

  lemma ReduceKeeps(clean: string -> string, progress: Checklist, event: Event, now: int)
    requires Good(progress, now) && now <= Clock(event, now)
    ensures var next := Reduce(clean, progress, event);
            Good(next, Clock(event, now)) && Advances(progress.steps, next.steps)
                && next.startedAt == progress.startedAt
  {
    match event
    case Begin(id, at, note) => BeginKeeps(progress, id, at, note, now);
    case Finish(id, at) => FinishKeeps(progress, id, at, now);
    case Line(text, at) => LineKeeps(clean, progress, text, at, now);
    case _ =>
      OtherEventsClose(clean, progress, event, now);
      ClosesKeeps(progress, Reduce(clean, progress, event), Clock(event, now), now);
  }

  // --- Whole runs ------------------------------------------------------------------------------

  ghost predicate Timely(events: seq<Event>, now: int) {
    events != [] ==> now <= Clock(events[0], now) && Timely(events[1..], Clock(events[0], now))
  }

  function LastClock(events: seq<Event>, now: int): int {
    if events == [] then now else LastClock(events[1..], Clock(events[0], now))
  }

  /** Whatever happens, in whatever order: the steps stay in order, none moves back and the spans stay disjoint. */
  lemma {:induction false} RunKeeps(clean: string -> string, progress: Checklist, events: seq<Event>, now: int)
    requires Good(progress, now) && Timely(events, now)
    ensures var last := Run(clean, progress, events);
            Good(last, LastClock(events, now)) && Advances(progress.steps, last.steps)
                && last.startedAt == progress.startedAt
    decreases |events|
  {
    if events != [] {
      var next := Reduce(clean, progress, events[0]);
      ReduceKeeps(clean, progress, events[0], now);
      RunKeeps(clean, next, events[1..], Clock(events[0], now));
      AdvancesOn(progress.steps, next.steps, Run(clean, progress, events).steps);
    }
  }

  lemma AdvancesOn(a: seq<Step>, b: seq<Step>, c: seq<Step>)
    requires Advances(a, b) && Advances(b, c)
    ensures Advances(a, c)
  {
    forall i | 0 <= i < |a| ensures c[i].def == a[i].def && Rank(a[i].state) <= Rank(c[i].state) {
      assert b[i].def == a[i].def;
    }
  }

  /** How often step `i` goes from not running to running over a run. */
  function Entries(clean: string -> string, progress: Checklist, events: seq<Event>, i: nat): nat
    decreases |events|
  {
    if events == [] then 0
    else
      var next := Reduce(clean, progress, events[0]);
      (if i < |progress.steps| && i < |next.steps| && progress.steps[i].state != Running
          && next.steps[i].state == Running
       then 1 else 0)
      + Entries(clean, next, events[1..], i)
  }

  /** Each step is entered at most once, however its events and marker lines are repeated. */
  lemma {:induction false} EnteredAtMostOnce(clean: string -> string, progress: Checklist, events: seq<Event>,
                                             now: int, i: nat)
    requires Good(progress, now) && Timely(events, now)
    requires i < |progress.steps|
    ensures Entries(clean, progress, events, i) <= if progress.steps[i].state == Pending then 1 else 0
    decreases |events|
  {
    if events != [] {
      var next := Reduce(clean, progress, events[0]);
      ReduceKeeps(clean, progress, events[0], now);
      EnteredAtMostOnce(clean, next, events[1..], Clock(events[0], now), i);
      assert Rank(progress.steps[i].state) <= Rank(next.steps[i].state);
    }
  }

  lemma AtMostOneRunning(steps: seq<Step>, i: nat, j: nat)
    requires InOrder(steps) && i < |steps| && j < |steps|
    requires steps[i].state == Running && steps[j].state == Running
    ensures i == j
  {
    if i < j { assert Reached(steps[j]) && Open(steps[i]); }
    if j < i { assert Reached(steps[i]) && Open(steps[j]); }
  }

  /** The time the done steps among the first `n` took. */
  function TimeSpent(steps: seq<Step>, n: nat): int
    requires n <= |steps|
  {
    if n == 0 then 0
    else
      var s := steps[n - 1];
      TimeSpent(steps, n - 1)
      + if s.state == Done && s.startedAt.Some? && s.endedAt.Some? then s.endedAt.value - s.startedAt.value else 0
  }

  lemma {:induction false} TimeSpentBy(progress: Checklist, now: int, n: nat, by_: int)
    requires Timed(progress, now) && n <= |progress.steps| && progress.startedAt <= by_
    requires forall i :: 0 <= i < n && progress.steps[i].state == Done ==> progress.steps[i].endedAt.value <= by_
    ensures TimeSpent(progress.steps, n) <= by_ - progress.startedAt
  {
    if n > 0 {
      var s := progress.steps[n - 1];
      TimeSpentBy(progress, now, n - 1, if s.state == Done then s.startedAt.value else by_);
    }
  }

  /** Over a run from a fresh checklist, the done steps together took no longer than the run did. */
  lemma TimesAddUp(clean: string -> string, defs: seq<StepDef>, at: int, events: seq<Event>)
    requires forall i, j :: 0 <= i < j < |defs| ==> defs[i].id != defs[j].id
    requires Timely(events, at)
    ensures var last := Run(clean, CreateProgress(defs, at), events);
            TimeSpent(last.steps, |last.steps|) <= LastClock(events, at) - at
  {
    var start := CreateProgress(defs, at);
    CreatedIsGood(defs, at);
    RunKeeps(clean, start, events, at);
    var last := Run(clean, start, events);
    TimeSpentBy(last, LastClock(events, at), |last.steps|, LastClock(events, at));
  }

  // --- The log ------------------------------------------------------------------------------------

  /** What an event feeds to the log: a line's text, when anything of it is left once cleaned. */
  function Fed(clean: string -> string, event: Event): seq<string> {
    if event.Line? && clean(event.text) != "" then [clean(event.text)] else []
  }

  function AllFed(clean: string -> string, events: seq<Event>): seq<string> {
    if events == [] then [] else Fed(clean, events[0]) + AllFed(clean, events[1..])
  }

  lemma LastLinesOfLastLines(a: seq<string>, b: seq<string>)
    ensures LastLines(LastLines(a) + b) == LastLines(a + b)
  {
  }

  lemma {:induction false} MarkersKeepLog(progress: Checklist, steps: seq<Step>, marker: string, at: int)
    ensures ApplyMarkers(progress, steps, marker, at).log == progress.log
    decreases |steps|
  {
    if steps != [] {
      MarkersKeepLog(ApplyMarker(progress, steps[0].def, marker, at), steps[1..], marker, at);
    }
  }

  lemma ReduceFeeds(clean: string -> string, progress: Checklist, event: Event)
    ensures Reduce(clean, progress, event).log
            == if Fed(clean, event) == [] then progress.log else LastLines(progress.log + Fed(clean, event))
  {
    if event.Line? {
      var plain := clean(event.text);
      var markerAt := IndexOf(plain, MARKER);
      if plain != "" && markerAt >= 0 {
        var logged := progress.(log := LastLines(progress.log + [plain]));
        MarkersKeepLog(logged, logged.steps, plain[markerAt..], event.at);
      }
    }
  }

  /** The dialog's log is the last 300 lines fed so far that had anything left once cleaned. */
  lemma {:induction false} LogIsLastLines(clean: string -> string, progress: Checklist, events: seq<Event>)
    requires |progress.log| <= LOG_LINES
    ensures Run(clean, progress, events).log == LastLines(progress.log + AllFed(clean, events))
    decreases |events|
  {
    if events == [] {
      assert progress.log + [] == progress.log;
    } else {
      var next := Reduce(clean, progress, events[0]);
      ReduceFeeds(clean, progress, events[0]);
      LogIsLastLines(clean, next, events[1..]);
      FeedOn(progress.log, next.log, Fed(clean, events[0]), AllFed(clean, events[1..]));
    }
  }

  lemma FeedOn(log: seq<string>, next: seq<string>, fed: seq<string>, rest: seq<string>)
    requires next == if fed == [] then log else LastLines(log + fed)
    ensures LastLines(next + rest) == LastLines(log + (fed + rest))
  {
    LastLinesOfLastLines(log + fed, rest);
    assert log + fed + rest == log + (fed + rest);
    if fed == [] { assert fed + rest == rest; }
  }

  // --- The lists of steps ------------------------------------------------------------------------

  function Plain(id: string): StepDef { StepDef(id, None, None, None, false) }

  const SHUTDOWN: seq<StepDef> := [
    Plain("window"),
    Plain("requests"),
    StepDef("jobs", Some("==> Stopping benchmark jobs"), Some("==> Stopped benchmark jobs"), Some("none running"),
        false),
    StepDef("model", Some("==> Stopping the served model"), Some("==> Stopped the served model"),
        Some("none running"), false),
    StepDef("services", Some("==> Stopping Postgres and Redis"), None, None, false),
    StepDef("force", None, None, None, true)
  ]

  const STARTUP_OWN: seq<StepDef> := [
    Plain("check"),
    Plain("build"),
    StepDef("services", Some("==> Starting Postgres and Redis"), None, None, false),
    StepDef("sync", Some("==> Syncing the backend environment"), None, None, false),
    StepDef("backend", Some("==> Starting the backend on"), None, None, false),
    Plain("open")
  ]

  const STARTUP_STOP_EARLIER: seq<StepDef> := [Plain("earlier"), StepDef("force", None, None, None, true)]

  const STARTUP_ATTACH: seq<StepDef> := [Plain("check"), Plain("ready"), Plain("open")]

  /** `startupRemote`, whose argument goes into a label only. */
  const STARTUP_REMOTE: seq<StepDef> := [Plain("check"), Plain("open")]

  /** Every list the app shows starts out good, so all of the above holds of each of them; being forced is the one step
      that need not happen. */
  lemma ListsStartGood(at: int)
    ensures forall defs <- [SHUTDOWN, STARTUP_OWN, STARTUP_STOP_EARLIER, STARTUP_ATTACH, STARTUP_REMOTE] ::
              Good(CreateProgress(defs, at), at) && forall def <- defs :: def.optional <==> def.id == "force"
  {
    CreatedIsGood(SHUTDOWN, at);
    CreatedIsGood(STARTUP_OWN, at);
    CreatedIsGood(STARTUP_STOP_EARLIER, at);
    CreatedIsGood(STARTUP_ATTACH, at);
    CreatedIsGood(STARTUP_REMOTE, at);
  }
}
