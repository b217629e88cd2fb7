/** What the task registry (tasks.py) holds after a run, told by the run's events alone. */
module TaskRuns {
  import opened Text
  import opened Tasks

  /** The event takes the task out of the registry: it is stopped, or its done callback cleans it up. */
  predicate TakesOut(e: Event, id: TaskId) {
    e == Stop(id) || e == Cleanup(id)
  }

  /** The run creates the task, for `item`, and neither stops it nor cleans it up later. */
  ghost predicate Registers(events: seq<Event>, id: TaskId, item: ItemId) {
    exists i :: 0 <= i < |events| && events[i] == Create(id, item)
                && forall j :: i < j < |events| ==> !TakesOut(events[j], id)
  }

  /** The run creates the task, for `item`, and does not clean it up later. */
  ghost predicate LeavesOpen(events: seq<Event>, id: TaskId, item: ItemId) {
    exists i :: 0 <= i < |events| && events[i] == Create(id, item)
                && forall j :: i < j < |events| ==> events[j] != Cleanup(id)
  }

  // --- One event more at the front --------------------------------------------------------------

  lemma RegistersFromTail(events: seq<Event>, id: TaskId, item: ItemId)
    requires events != []
    ensures Registers(events, id, item)
            <==> Registers(events[1..], id, item)
                 || (events[0] == Create(id, item) && forall e <- events[1..] :: !TakesOut(e, id))
  {
    var rest := events[1..];
    if i :| 0 <= i < |rest| && rest[i] == Create(id, item) && forall j :: i < j < |rest| ==> !TakesOut(rest[j], id) {
      assert events[i + 1] == Create(id, item);
      assert forall j :: i + 1 < j < |events| ==> events[j] == rest[j - 1];
    }
    if i :| 0 <= i < |events| && events[i] == Create(id, item)
            && forall j :: i < j < |events| ==> !TakesOut(events[j], id) {
      assert forall j :: 0 <= j < |rest| ==> rest[j] == events[j + 1];
      assert i > 0 ==> rest[i - 1] == Create(id, item);
    }
    assert forall j :: 0 < j < |events| ==> events[j] == rest[j - 1] && rest[j - 1] in rest;
  }

  lemma LeavesOpenFromTail(events: seq<Event>, id: TaskId, item: ItemId)
    requires events != []
    ensures LeavesOpen(events, id, item)
            <==> LeavesOpen(events[1..], id, item)
                 || (events[0] == Create(id, item) && Cleanup(id) !in events[1..])
  {
    var rest := events[1..];
    if i :| 0 <= i < |rest| && rest[i] == Create(id, item) && forall j :: i < j < |rest| ==> rest[j] != Cleanup(id) {
      assert events[i + 1] == Create(id, item);
      assert forall j :: i + 1 < j < |events| ==> events[j] == rest[j - 1];
    }
    if i :| 0 <= i < |events| && events[i] == Create(id, item)
            && forall j :: i < j < |events| ==> events[j] != Cleanup(id) {
      assert forall j :: 0 <= j < |rest| ==> rest[j] == events[j + 1];
      assert i > 0 ==> rest[i - 1] == Create(id, item);
    }
    assert forall j :: 0 < j < |events| ==> events[j] == rest[j - 1] && rest[j - 1] in rest;
  }

  // --- The registry -------------------------------------------------------------------------------

  /** A run keeps what was registered before it unless it takes it out, and registers what it creates and keeps. */
  lemma {:induction false} RunRegisters(h: History, events: seq<Event>, id: TaskId)
    requires LegalRun(h, events)
    ensures id in RunAll(h, events).tables.tasks
            <==> (id in h.tables.tasks && forall e <- events :: !TakesOut(e, id))
                 || exists item :: Registers(events, id, item)
    decreases |events|
  {
    if events != [] {
      var next := Step(h, events[0]);
      RunRegisters(next, events[1..], id);
      forall item ensures Registers(events, id, item)
                          <==> Registers(events[1..], id, item)
                               || (events[0] == Create(id, item) && forall e <- events[1..] :: !TakesOut(e, id)) {
        RegistersFromTail(events, id, item);
      }
      assert forall e :: e in events <==> e == events[0] || e in events[1..];
      assert events[0].Create? && events[0].id == id ==> events[0] == Create(id, events[0].item);
      StepRegisters(h, events[0], id);
    }
  }

  lemma StepRegisters(h: History, e: Event, id: TaskId)
    requires Legal(h, e)
    ensures id in Step(h, e).tables.tasks
            <==> (id in h.tables.tasks && !TakesOut(e, id)) || (e.Create? && e.id == id)
  {
  }

  /** After any run, a task is registered exactly when the run created it and has neither stopped it nor cleaned it up
      since. */
  lemma RegisteredIff(events: seq<Event>, id: TaskId)
    requires LegalRun(START, events)
    ensures id in RunAll(START, events).tables.tasks <==> exists item :: Registers(events, id, item)
  {
    RunRegisters(START, events, id);
  }

  lemma {:induction false} RunOpens(h: History, events: seq<Event>, id: TaskId, item: ItemId)
    requires LegalRun(h, events) && h.open <= h.itemOf.Keys
    ensures OpenFor(RunAll(h, events), id, item)
            <==> (OpenFor(h, id, item) && Cleanup(id) !in events) || LeavesOpen(events, id, item)
    decreases |events|
  {
    if events != [] {
      RunOpens(Step(h, events[0]), events[1..], id, item);
      LeavesOpenFromTail(events, id, item);
      if id in Step(h, events[0]).itemOf { CreatedBefore(Step(h, events[0]), events[1..], id, item); }
      assert Cleanup(id) in events <==> events[0] == Cleanup(id) || Cleanup(id) in events[1..];
    }
  }

  /** A task that there already is, is not created again. */
  lemma {:induction false} CreatedBefore(h: History, events: seq<Event>, id: TaskId, item: ItemId)
    requires LegalRun(h, events) && id in h.itemOf
    ensures Create(id, item) !in events
    decreases |events|
  {
    if events != [] {
      CreatedBefore(Step(h, events[0]), events[1..], id, item);
    }
  }

  /** After any run, the list of an item a chat can have is exactly the tasks the run created for it and has not
      cleaned up since; a falsy item's is all it ever had. */
  lemma ListedIff(events: seq<Event>, id: TaskId, item: ItemId)
    requires LegalRun(START, events)
    ensures id in ListOf(RunAll(START, events).tables, item)
            <==> if Truthy(item) then LeavesOpen(events, id, item) else Create(id, item) in events
  {
    RunKeepsConsistent(START, events);
    assert ListFits(RunAll(START, events), item);
    RunOpens(START, events, id, item);
    RunCreates(START, events, id, item);
  }

  lemma {:induction false} RunCreates(h: History, events: seq<Event>, id: TaskId, item: ItemId)
    requires LegalRun(h, events)
    ensures var last := RunAll(h, events);
            id in last.itemOf && last.itemOf[id] == item
            <==> (id in h.itemOf && h.itemOf[id] == item) || Create(id, item) in events
    decreases |events|
  {
    if events != [] {
      RunCreates(Step(h, events[0]), events[1..], id, item);
      if id in Step(h, events[0]).itemOf { CreatedBefore(Step(h, events[0]), events[1..], id, item); }
      if id in h.itemOf { CreatedBefore(h, events, id, item); }
      assert Create(id, item) in events <==> events[0] == Create(id, item) || Create(id, item) in events[1..];
    }
  }

  /** When nothing happens during the waits, but that some may raise, the listed tasks leave the registry one by one and
      no others do. */
  lemma {:induction false} QuietTurns(h: History, ids: seq<TaskId>, waits: nat -> Waited, n: nat)
    requires n <= |ids| && forall k: nat :: waits(k).meanwhile == []
    ensures AtTurn(h, ids, waits, n).tables == Tables(h.tables.tasks - IdsOf(ids[..n]), h.tables.items)
  {
    if n > 0 {
      QuietTurns(h, ids, waits, n - 1);
      assert ids[..n] == ids[..n - 1] + [ids[n - 1]];
      assert h.tables.tasks - IdsOf(ids[..n]) == h.tables.tasks - IdsOf(ids[..n - 1]) - {ids[n - 1]};
    }
  }

  /** And those stopped are the ones that were registered and whose wait did not raise. */
  lemma QuietStop(h: History, ids: seq<TaskId>, waits: nat -> Waited, k: nat)
    requires NoRepeats(ids) && k < |ids| && forall n: nat :: waits(n).meanwhile == []
    ensures ids[k] in AllStopped(h, ids, waits, |ids|) <==> ids[k] in h.tables.tasks && !waits(k).raised
  {
    QuietTurns(h, ids, waits, k);
    assert ids[k] !in IdsOf(ids[..k]);
  }

  // --- Redis ----------------------------------------------------------------------------------------

  const EMPTY: Redis := Redis(map[], map[])

  lemma RedisStepLists(r: Redis, h: History, e: Event, id: TaskId)
    requires Legal(h, e)
    ensures id in RedisStep(r, h, e).tasks <==> (id in r.tasks && !TakesOut(e, id)) || (e.Create? && e.id == id)
    ensures id in RedisStep(r, h, e).tasks
            ==> RedisStep(r, h, e).tasks[id]
                == if e.Create? && e.id == id then (if e.item.Some? then e.item.value else "") else r.tasks[id]
  {
  }

  /** What the hash holds for a task of `item`. */
  function Stored(item: ItemId): string {
    if Truthy(item) then item.value else ""
  }

  /** The hash holds the task, for `item` as far as the hash can tell. */
  predicate Lists(r: Redis, id: TaskId, item: ItemId) {
    id in r.tasks && r.tasks[id] == Stored(item)
  }

  /** Some task `item` cannot be told from in the hash is what the run registers the task for. */
  ghost predicate RegistersAs(events: seq<Event>, id: TaskId, item: ItemId) {
    exists other :: Stored(other) == Stored(item) && Registers(events, id, other)
  }

  lemma {:induction false} RunLists(r: Redis, h: History, events: seq<Event>, id: TaskId, item: ItemId)
    requires LegalRun(h, events) && r.tasks.Keys <= h.itemOf.Keys
    ensures Lists(RedisAll(r, h, events), id, item)
            <==> (Lists(r, id, item) && forall e <- events :: !TakesOut(e, id)) || RegistersAs(events, id, item)
    decreases |events|
  {
    if events != [] {
      var next := Step(h, events[0]);
      RedisStepLists(r, h, events[0], id);
      RunLists(RedisStep(r, h, events[0]), next, events[1..], id, item);
      forall other ensures Registers(events, id, other)
                           <==> Registers(events[1..], id, other)
                                || (events[0] == Create(id, other) && forall e <- events[1..] :: !TakesOut(e, id)) {
        RegistersFromTail(events, id, other);
      }
      assert forall e :: e in events <==> e == events[0] || e in events[1..];
      assert events[0].Create? && events[0].id == id ==> events[0] == Create(id, events[0].item);
    }
  }

  /** After any run, one operation after the other: the hash lists exactly the tasks the run created and has neither
      stopped nor cleaned up since, and an item's set those of them created for it. */
  lemma ListedInRedisIff(events: seq<Event>, id: TaskId, item: string)
    requires LegalRun(START, events) && item != ""
    ensures var r := RedisAll(EMPTY, START, events);
            && (id in r.tasks <==> exists of :: Registers(events, id, of))
            && (id in MembersOf(r, item) <==> Registers(events, id, Some(item)))
  {
    var r := RedisAll(EMPTY, START, events);
    RedisStaysInStep(EMPTY, START, events);
    RunLists(EMPTY, START, events, id, Some(item));
    assert forall other :: Stored(other) == item ==> other == Some(item);
    assert id in MembersOf(r, item) <==> Lists(r, id, Some(item));
    if id in r.tasks {
      RunLists(EMPTY, START, events, id, Some(r.tasks[id]));
    }
    if of :| Registers(events, id, of) {
      RunLists(EMPTY, START, events, id, of);
      assert RegistersAs(events, id, of);
    }
  }
}
