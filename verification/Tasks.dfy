/** The task registry (tasks.py): two tables kept in step, and the shutdown loop that
    cancels tasks while others still register. */
module Tasks {
  import opened Text

  type TaskId = string

  /** A chat or other item a task runs for; Python's None and '' are its falsy values. */
  type ItemId = Option<string>

  predicate Truthy(item: ItemId) { item.Some? && item.value != "" }

  /** The Redis hash of tasks and the sets of task ids per item, as `redis_save_task` and `redis_cleanup_task` use
      them. */
  datatype Redis = Redis(tasks: map<TaskId, string>, items: map<string, set<TaskId>>)

  function Saved(r: Redis, id: TaskId, item: ItemId): Redis {
    var tasks := r.tasks[id := if item.Some? then item.value else ""];
    if Truthy(item) then
      Redis(tasks, r.items[item.value := (if item.value in r.items then r.items[item.value] else {}) + {id}])
    else Redis(tasks, r.items)
  }

  /** HDEL, SREM, and the set dropped once it is empty. */
  function CleanedUp(r: Redis, id: TaskId, item: ItemId): Redis {
    var tasks := r.tasks - {id};
    if Truthy(item) && item.value in r.items then
      var left := r.items[item.value] - {id};
      Redis(tasks, if left == {} then r.items - {item.value} else r.items[item.value := left])
    else Redis(tasks, r.items)
  }

  /** The hash and the sets list the same tasks, no set is empty. */
  ghost predicate RedisAgrees(r: Redis) {
    && (forall item <- r.items :: r.items[item] != {} && item != "")
    && (forall id, item :: item in r.items && id in r.items[item] ==> id in r.tasks && r.tasks[id] == item)
    && (forall id <- r.tasks :: r.tasks[id] != "" ==> r.tasks[id] in r.items && id in r.items[r.tasks[id]])
  }

  lemma SaveKeepsAgreement(r: Redis, id: TaskId, item: ItemId)
    requires RedisAgrees(r) && id !in r.tasks
    ensures RedisAgrees(Saved(r, id, item))
  {
  }

  lemma CleanupKeepsAgreement(r: Redis, id: TaskId, item: ItemId)
    requires RedisAgrees(r)
    requires id in r.tasks ==> r.tasks[id] == if Truthy(item) then item.value else ""
    ensures RedisAgrees(CleanedUp(r, id, item))
    ensures CleanedUp(CleanedUp(r, id, item), id, item) == CleanedUp(r, id, item)
  {
    var c := CleanedUp(r, id, item);
    assert c.tasks - {id} == c.tasks;
    if Truthy(item) && item.value in c.items {
      assert c.items[item.value] - {id} == c.items[item.value];
      assert c.items[item.value := c.items[item.value]] == c.items;
    }
  }

  /** Cleaning up straight after saving a new task leaves Redis as it was. */
  lemma CleanupUndoesSave(r: Redis, id: TaskId, item: ItemId)
    requires RedisAgrees(r) && id !in r.tasks
    ensures CleanedUp(Saved(r, id, item), id, item) == r
  {
    var s := Saved(r, id, item);
    assert s.tasks - {id} == r.tasks;
    if Truthy(item) {
      var left := s.items[item.value] - {id};
      if item.value in r.items {
        assert left == r.items[item.value];
        assert s.items[item.value := left] == r.items;
      } else {
        assert left == {};
        assert s.items - {item.value} == r.items;
      }
    }
  }

  // --- This process's tables ----------------------------------------------------------------

  datatype Tables = Tables(tasks: set<TaskId>, items: map<ItemId, seq<TaskId>>)

  function ListOf(t: Tables, item: ItemId): seq<TaskId> {
    if item in t.items then t.items[item] else []
  }

  /** `list.remove`: the first occurrence goes. */
  function Remove(ids: seq<TaskId>, id: TaskId): (r: seq<TaskId>)
    requires id in ids
    ensures |r| == |ids| - 1 && forall x :: x in r ==> x in ids
  {
    if ids[0] == id then ids[1..] else [ids[0]] + Remove(ids[1..], id)
  }

  /** `create_task` on the tables. */
  function Created(t: Tables, id: TaskId, item: ItemId): Tables {
    Tables(t.tasks + {id}, t.items[item := ListOf(t, item) + [id]])
  }

  /** `cleanup_task` on the tables: a falsy item is never cleaned. */
  function Cleaned(t: Tables, id: TaskId, item: ItemId): Tables {
    var tasks := t.tasks - {id};
    if Truthy(item) && id in ListOf(t, item) then
      var left := Remove(t.items[item], id);
      Tables(tasks, if left == [] then t.items - {item} else t.items[item := left])
    else Tables(tasks, t.items)
  }

  /** What can happen to the tables. A task's own end and a stop both lead to one or more cleanups. */
  datatype Event = Create(id: TaskId, item: ItemId) | Stop(id: TaskId) | Cleanup(id: TaskId)

  /** The tables, with every task's item and the tasks not yet cleaned up. */
  datatype History = History(tables: Tables, itemOf: map<TaskId, ItemId>, open: set<TaskId>)

  /** A new task has an id never used before; only created tasks are cleaned up, each for its own item. */
  predicate Legal(h: History, e: Event) {
    match e
    case Create(id, _) => id !in h.itemOf
    case Stop(_) => true
    case Cleanup(id) => id in h.itemOf
  }

  function Step(h: History, e: Event): History
    requires Legal(h, e)
  {
    match e
    case Create(id, item) => History(Created(h.tables, id, item), h.itemOf[id := item], h.open + {id})
    case Stop(id) => h.(tables := h.tables.(tasks := h.tables.tasks - {id}))
    case Cleanup(id) => h.(tables := Cleaned(h.tables, id, h.itemOf[id]), open := h.open - {id})
  }

  ghost predicate NoRepeats(ids: seq<TaskId>) {
    forall i, j :: 0 <= i < j < |ids| ==> ids[i] != ids[j]
  }

  /** An item's list is its tasks not yet cleaned up, each once, and never empty; for a falsy item, all it ever had. */
  ghost predicate ListFits(h: History, item: ItemId) {
    var ids := ListOf(h.tables, item);
    && (item in h.tables.items ==> ids != [])
    && NoRepeats(ids)
    && forall id :: id in ids <==> id in h.itemOf && h.itemOf[id] == item && (id in h.open || !Truthy(item))
  }

  /** A task of `item` not yet cleaned up. */
  predicate OpenFor(h: History, id: TaskId, item: ItemId) {
    id in h.open && id in h.itemOf && h.itemOf[id] == item
  }

  ghost predicate Consistent(h: History) {
    && h.tables.tasks <= h.open && h.open <= h.itemOf.Keys
    && forall item: ItemId :: ListFits(h, item)
  }

  lemma {:induction false} RemoveOnce(ids: seq<TaskId>, id: TaskId)
    requires NoRepeats(ids) && id in ids
    ensures NoRepeats(Remove(ids, id)) && forall x :: x in Remove(ids, id) <==> x in ids && x != id
  {
    if ids[0] == id {
      assert forall i :: 0 <= i < |ids[1..]| ==> ids[1..][i] != id;
    } else {
      RemoveOnce(ids[1..], id);
      var rest := Remove(ids[1..], id);
      assert forall x :: x in rest ==> x in ids[1..];
      forall x | x in rest ensures x != ids[0] {
        var i :| 0 <= i < |ids[1..]| && ids[1..][i] == x;
        assert ids[i + 1] == x;
      }
      forall i | 0 <= i < |rest| ensures rest[i] != ids[0] { assert rest[i] in rest; }
      assert Remove(ids, id) == [ids[0]] + rest;
    }
  }

  lemma StepKeepsList(h: History, e: Event, item: ItemId)
    requires Consistent(h) && Legal(h, e)
    ensures ListFits(Step(h, e), item)
  {
    assert ListFits(h, item);
    var ids := ListOf(h.tables, item);
    match e
    case Create(id, _) =>
      if e.item == item { assert ListOf(Step(h, e).tables, item) == ids + [id]; }
    case Stop(_) =>
    case Cleanup(id) =>
      if h.itemOf[id] == item && Truthy(item) && id in ids { RemoveOnce(ids, id); }
  }

  lemma StepKeepsConsistent(h: History, e: Event)
    requires Consistent(h) && Legal(h, e)
    ensures Consistent(Step(h, e))
  {
    forall item: ItemId ensures ListFits(Step(h, e), item) { StepKeepsList(h, e, item); }
  }

  ghost predicate LegalRun(h: History, events: seq<Event>)
    decreases |events|
  {
    events == [] || (Legal(h, events[0]) && LegalRun(Step(h, events[0]), events[1..]))
  }

  ghost function RunAll(h: History, events: seq<Event>): History
    requires LegalRun(h, events)
    decreases |events|
  {
    if events == [] then h else RunAll(Step(h, events[0]), events[1..])
  }

  const START: History := History(Tables({}, map[]), map[], {})

  lemma {:induction false} RunKeepsConsistent(h: History, events: seq<Event>)
    requires Consistent(h) && LegalRun(h, events)
    ensures Consistent(RunAll(h, events))
    decreases |events|
  {
    if events != [] {
      StepKeepsConsistent(h, events[0]);
      RunKeepsConsistent(Step(h, events[0]), events[1..]);
    }
  }

  /** Over any run: for each item a chat can have, its list is exactly its tasks not yet cleaned up, each once and
      never empty, and only such tasks are registered. */
  lemma RegistryStaysInStep(events: seq<Event>, item: string)
    requires LegalRun(START, events) && item != ""
    ensures var h := RunAll(START, events);
            && h.tables.tasks <= h.open
            && (Some(item) in h.tables.items <==> exists id :: OpenFor(h, id, Some(item)))
            && (forall id :: id in ListOf(h.tables, Some(item)) <==> OpenFor(h, id, Some(item)))
            && NoRepeats(ListOf(h.tables, Some(item)))
  {
    RunKeepsConsistent(START, events);
    var h := RunAll(START, events);
    assert ListFits(h, Some(item));
    var ids := ListOf(h.tables, Some(item));
    if Some(item) in h.tables.items { assert ids[0] in ids && OpenFor(h, ids[0], Some(item)); }
    if id :| OpenFor(h, id, Some(item)) { assert id in ids; }
  }

  /** A second cleanup of a task changes nothing. */
  lemma CleanupTwice(h: History, id: TaskId)
    requires Consistent(h) && id in h.itemOf
    ensures Step(Step(h, Cleanup(id)), Cleanup(id)) == Step(h, Cleanup(id))
  {
    var c := Step(h, Cleanup(id));
    StepKeepsConsistent(h, Cleanup(id));
    assert ListFits(c, h.itemOf[id]);
    assert c.tables.tasks - {id} == c.tables.tasks && c.open - {id} == c.open;
  }

  /** A task created and cleaned up leaves the tables as they were exactly when its item is not falsy:
      the list of None or '' keeps every id it was ever given. */
  lemma CleanupUndoesCreateIffTruthy(h: History, id: TaskId, item: ItemId)
    requires Consistent(h) && id !in h.itemOf
    ensures Cleaned(Created(h.tables, id, item), id, item) == h.tables <==> Truthy(item)
  {
    var t := Created(h.tables, id, item);
    assert ListFits(h, item);
    var ids := ListOf(h.tables, item);
    assert t.tasks - {id} == h.tables.tasks;
    assert id !in ids && t.items[item] == ids + [id];
    if Truthy(item) {
      RemoveLast(ids, id);
      if item in h.tables.items {
        assert t.items[item := ids] == h.tables.items;
      } else {
        assert t.items - {item} == h.tables.items;
      }
    } else {
      assert |ListOf(t, item)| == |ids| + 1;
    }
  }

  /** After its one task was created and cleaned up, the list of None still holds it. */
  lemma FalsyItemKeepsItsTask()
    ensures Cleaned(Created(START.tables, "t", None), "t", None) == Tables({}, map[None := ["t"]])
  {
    var t := Created(START.tables, "t", None);
    assert ListOf(START.tables, None) + ["t"] == ["t"];
    assert t.items == map[None := ["t"]];
    assert t.tasks - {"t"} == {};
  }

  lemma {:induction false} RemoveLast(ids: seq<TaskId>, id: TaskId)
    requires id !in ids
    ensures Remove(ids + [id], id) == ids
  {
    if ids != [] {
      assert ids[0] in ids && (ids + [id])[1..] == ids[1..] + [id];
      RemoveLast(ids[1..], id);
    }
  }

  // --- Redis over whole runs ------------------------------------------------------------------

  /** What an event does in Redis. A stop cleans up there at once, for the item the hash names. */
  function RedisStep(r: Redis, h: History, e: Event): Redis
    requires Legal(h, e)
  {
    match e
    case Create(id, item) => Saved(r, id, item)
    case Stop(id) => CleanedUp(r, id, StoredItem(r, id))
    case Cleanup(id) => CleanedUp(r, id, h.itemOf[id])
  }

  function StoredItem(r: Redis, id: TaskId): ItemId {
    if id in r.tasks && r.tasks[id] != "" then Some(r.tasks[id]) else None
  }

  ghost function RedisAll(r: Redis, h: History, events: seq<Event>): Redis
    requires LegalRun(h, events)
    decreases |events|
  {
    if events == [] then r else RedisAll(RedisStep(r, h, events[0]), Step(h, events[0]), events[1..])
  }

  /** The hash holds open tasks only, each with its own item. */
  ghost predicate Follows(r: Redis, h: History) {
    forall id <- r.tasks ::
      id in h.open && id in h.itemOf && r.tasks[id] == if Truthy(h.itemOf[id]) then h.itemOf[id].value else ""
  }

  lemma RedisStepKeeps(r: Redis, h: History, e: Event)
    requires RedisAgrees(r) && Follows(r, h) && Legal(h, e)
    requires h.open <= h.itemOf.Keys
    ensures RedisAgrees(RedisStep(r, h, e)) && Follows(RedisStep(r, h, e), Step(h, e))
  {
    match e
    case Create(id, item) => SaveKeepsAgreement(r, id, item);
    case Stop(id) => CleanupKeepsAgreement(r, id, StoredItem(r, id));
    case Cleanup(id) => CleanupKeepsAgreement(r, id, h.itemOf[id]);
  }

  /** However tasks are created, stopped and cleaned up, one operation after the other, the Redis hash and the
      item sets list the same tasks. */
  lemma {:induction false} RedisStaysInStep(r: Redis, h: History, events: seq<Event>)
    requires RedisAgrees(r) && Follows(r, h) && Consistent(h) && LegalRun(h, events)
    ensures RedisAgrees(RedisAll(r, h, events)) && Follows(RedisAll(r, h, events), RunAll(h, events))
    decreases |events|
  {
    if events != [] {
      RedisStepKeeps(r, h, events[0]);
      StepKeepsConsistent(h, events[0]);
      RedisStaysInStep(RedisStep(r, h, events[0]), Step(h, events[0]), events[1..]);
    }
  }

  // --- The registry itself --------------------------------------------------------------------

  /** What comes of waiting for a task that was asked to stop: which others were created, stopped or cleaned up
      meanwhile, and whether the wait raised. */
  datatype Waited = Waited(meanwhile: seq<Event>, raised: bool)

  /** What happens meanwhile, less what could not happen to the registry as it is. */
  function After(h: History, meanwhile: seq<Event>): History
    decreases |meanwhile|
  {
    if meanwhile == [] then h
    else
      var (before, e) := (After(h, meanwhile[..|meanwhile| - 1]), meanwhile[|meanwhile| - 1]);
      if Legal(before, e) then Step(before, e) else before
  }

  /** The registry as the `n`-th of `ids` has its turn to be stopped. */
  function AtTurn(h: History, ids: seq<TaskId>, waits: nat -> Waited, n: nat): History
    requires n <= |ids|
  {
    if n == 0 then h
    else
      var before := AtTurn(h, ids, waits, n - 1);
      var stopped := Step(before, Stop(ids[n - 1]));
      if ids[n - 1] in before.tables.tasks then After(stopped, waits(n - 1).meanwhile) else stopped
  }

  /** Its task was registered as its turn came, and waiting for it raised nothing. */
  predicate StoppedAtTurn(h: History, ids: seq<TaskId>, waits: nat -> Waited, n: nat)
    requires n < |ids|
  {
    ids[n] in AtTurn(h, ids, waits, n).tables.tasks && !waits(n).raised
  }

  /** Those of the first `n`, in order. */
  function AllStopped(h: History, ids: seq<TaskId>, waits: nat -> Waited, n: nat): (stopped: seq<TaskId>)
    requires n <= |ids|
    ensures forall id :: id in stopped <==> exists k :: 0 <= k < n && ids[k] == id && StoppedAtTurn(h, ids, waits, k)
  {
    if n == 0 then []
    else AllStopped(h, ids, waits, n - 1) + if StoppedAtTurn(h, ids, waits, n - 1) then [ids[n - 1]] else []
  }

  lemma {:induction false} AfterKeeps(h: History, meanwhile: seq<Event>)
    requires Consistent(h)
    ensures Consistent(After(h, meanwhile)) && NoneBack(h, After(h, meanwhile))
    decreases |meanwhile|
  {
    if meanwhile != [] {
      var before, e := After(h, meanwhile[..|meanwhile| - 1]), meanwhile[|meanwhile| - 1];
      AfterKeeps(h, meanwhile[..|meanwhile| - 1]);
      if Legal(before, e) { StepKeepsConsistent(before, e); }
    }
  }

  /** Whatever happens during the waits, the tasks that had their turn stay out of the registry. */
  lemma {:induction false} TurnsKeep(h: History, ids: seq<TaskId>, waits: nat -> Waited, n: nat)
    requires Consistent(h) && n <= |ids| && forall id <- ids :: id in h.itemOf
    ensures var now := AtTurn(h, ids, waits, n);
            && Consistent(now) && NoneBack(h, now)
            && forall k :: 0 <= k < n ==> ids[k] !in now.tables.tasks
  {
    if n > 0 {
      var before := AtTurn(h, ids, waits, n - 1);
      var stopped := Step(before, Stop(ids[n - 1]));
      TurnsKeep(h, ids, waits, n - 1);
      StepKeepsConsistent(before, Stop(ids[n - 1]));
      AfterKeeps(stopped, waits(n - 1).meanwhile);
      assert forall k :: 0 <= k < n ==> ids[k] in ids && ids[k] in stopped.itemOf && ids[k] !in stopped.tables.tasks;
    }
  }

  /** No task of `before` that was not registered then has come back. */
  ghost predicate NoneBack(before: History, now: History) {
    && before.itemOf.Keys <= now.itemOf.Keys
    && forall id <- before.itemOf :: id in now.tables.tasks ==> id in before.tables.tasks
  }

  class Registry {
    var tasks: set<TaskId>
    var itemTasks: map<ItemId, seq<TaskId>>
    var redis: Option<Redis>
    /** What each task's done callback was given: the item it was created for. */
    var itemOf: map<TaskId, ItemId>
    /** The tasks not yet cleaned up. */
    ghost var open: set<TaskId>

    constructor (redis: Option<Redis>)
      ensures Now() == START && this.redis == redis
    {
      tasks, itemTasks, this.redis, itemOf, open := {}, map[], redis, map[], {};
    }

    ghost function Now(): History
      reads this
    {
      History(Tables(tasks, itemTasks), itemOf, open)
    }

    method CreateTask(id: TaskId, item: ItemId)
      requires Legal(Now(), Create(id, item))
      modifies this
      ensures Now() == Step(old(Now()), Create(id, item))
      ensures tasks == old(tasks) + {id} && id in ListOf(Now().tables, item)
      ensures redis.Some? ==> id in redis.value.tasks && (Truthy(item) ==> id in MembersOf(redis.value, item.value))
      ensures redis == if old(redis).None? then None else Some(Saved(old(redis).value, id, item))
    {
      tasks := tasks + {id};
      if item in itemTasks && itemTasks[item] != [] {
        itemTasks := itemTasks[item := itemTasks[item] + [id]];
      } else {
        assert ListOf(Now().tables, item) + [id] == [id];
        itemTasks := itemTasks[item := [id]];
      }
      if redis.Some? {
        redis := Some(Saved(redis.value, id, item));
      }
      itemOf, open := itemOf[id := item], open + {id};
    }

    method CleanupTask(id: TaskId, item: ItemId)
      requires Legal(Now(), Cleanup(id)) && Now().itemOf[id] == item
      modifies this
      ensures Now() == Step(old(Now()), Cleanup(id))
      ensures tasks == old(tasks) - {id} && (redis.Some? ==> id !in redis.value.tasks)
      ensures redis == if old(redis).None? then None else Some(CleanedUp(old(redis).value, id, item))
    {
      if redis.Some? {
        redis := Some(CleanedUp(redis.value, id, item));
      }
      tasks := tasks - {id};
      if Truthy(item) && item in itemTasks && id in itemTasks[item] {
        itemTasks := itemTasks[item := Remove(itemTasks[item], id)];
        if itemTasks[item] == [] {
          itemTasks := itemTasks - {item};
        }
      }
      open := open - {id};
    }

    /** `stop_task` up to its wait; true when there was a task to stop, and under Redis always. */
    method StopTask(id: TaskId) returns (status: bool)
      modifies this
      ensures redis.None? <==> old(redis).None?
      ensures redis.None? ==> Now() == Step(old(Now()), Stop(id)) && (status <==> id in old(tasks))
      ensures redis.None? ==> tasks == old(tasks) - {id} && itemTasks == old(itemTasks)
      ensures redis.Some? ==> Now() == old(Now()) && status
      ensures redis.Some? ==> redis.value == CleanedUp(old(redis).value, id, StoredItem(old(redis).value, id))
      ensures redis.Some? && RedisAgrees(old(redis).value) ==> RedisAgrees(redis.value) && id !in redis.value.tasks
    {
      if redis.Some? {
        var item := StoredItem(redis.value, id);
        CleanupOfStored(redis.value, id, item);
        redis := Some(CleanedUp(redis.value, id, item));
        return true;
      }
      status := id in tasks;
      tasks := tasks - {id};
    }

    /** `stop_item_tasks`: every task listed at the start is gone at the end, and `stopped` names the ones stopped
        here, in order. Under Redis, `members` is the item's set in the order SMEMBERS gives it. */
    method StopItemTasks(item: string, members: seq<TaskId>, waits: nat -> Waited) returns (stopped: seq<TaskId>)
      requires redis.None? ==> Consistent(Now())
      requires redis.Some? ==> RedisAgrees(redis.value) && Enumerates(members, MembersOf(redis.value, item))
      modifies this
      ensures redis.None? <==> old(redis).None?
      ensures redis.None? ==> StoppedHere(item, old(Now()), waits, stopped)
      ensures redis.Some? ==> Now() == old(Now()) && stopped == members
      ensures redis.Some? ==> RedisAgrees(redis.value) && item !in redis.value.items
      ensures redis.Some? ==> redis.value.tasks.Keys == old(redis).value.tasks.Keys - MembersOf(old(redis).value, item)
    {
      if redis.Some? {
        stopped := StopMembers(item, members);
      } else {
        stopped := StopListed(item, waits);
      }
    }

    /** Without Redis: the item's tasks of `before` are out of the registry, and `stopped` are, in order and each once,
        those that were registered as their turn came and whose wait raised nothing. */
    ghost predicate StoppedHere(item: string, before: History, waits: nat -> Waited, stopped: seq<TaskId>)
      reads this
    {
      var ids := ListOf(before.tables, Some(item));
      && Consistent(Now()) && Now() == AtTurn(before, ids, waits, |ids|)
      && (forall id :: id in ids ==> id !in tasks)
      && stopped == AllStopped(before, ids, waits, |ids|) && NoRepeats(stopped)
    }

    /** The loop under Redis, where a stop always succeeds. */
    method StopMembers(item: string, members: seq<TaskId>) returns (stopped: seq<TaskId>)
      requires redis.Some? && RedisAgrees(redis.value) && Enumerates(members, MembersOf(redis.value, item))
      modifies this
      ensures redis.Some? && Now() == old(Now()) && stopped == members
      ensures RedisAgrees(redis.value) && item !in redis.value.items
      ensures redis.value.tasks.Keys == old(redis).value.tasks.Keys - MembersOf(old(redis).value, item)
    {
      stopped := [];
      for k := 0 to |members|
        invariant redis.Some? && Now() == old(Now()) && stopped == members[..k] && RedisAgrees(redis.value)
        invariant redis.value.tasks == old(redis).value.tasks - IdsOf(members[..k])
      {
        var status := StopTask(members[k]);
        assert members[..k + 1] == members[..k] + [members[k]];
        stopped := stopped + [members[k]];
      }
      assert members[..|members|] == members;
      SetGoesWithItsTasks(old(redis).value, redis.value, item, members);
    }

    /** The loop without Redis. */
    method StopListed(item: string, waits: nat -> Waited) returns (stopped: seq<TaskId>)
      requires redis.None? && Consistent(Now())
      modifies this
      ensures redis.None? && StoppedHere(item, old(Now()), waits, stopped)
    {
      var ids := if Some(item) in itemTasks then itemTasks[Some(item)] else [];
      ghost var before := Now();
      assert ListFits(before, Some(item)) && ids == ListOf(before.tables, Some(item));
      stopped := [];
      for k := 0 to |ids|
        invariant redis.None? && Now() == AtTurn(before, ids, waits, k)
        invariant stopped == AllStopped(before, ids, waits, k)
      {
        var status := StopTask(ids[k]);
        if status {
          Wait(waits(k).meanwhile);
          if !waits(k).raised {
            stopped := stopped + [ids[k]];
          }
        }
      }
      TurnsKeep(before, ids, waits, |ids|);
      StoppedOnce(before, ids, waits, |ids|);
    }

    /** While a stopped task is waited for, others are created, stopped and cleaned up. */
    method Wait(meanwhile: seq<Event>)
      requires redis.None?
      modifies this
      ensures redis.None? && Now() == After(old(Now()), meanwhile)
    {
      for k := 0 to |meanwhile|
        invariant redis.None? && Now() == After(old(Now()), meanwhile[..k])
      {
        assert meanwhile[..k + 1][..k] == meanwhile[..k];
        var e := meanwhile[k];
        if e.Stop? || (e.Create? && e.id !in itemOf) || (e.Cleanup? && e.id in itemOf) {
          match e
          case Create(id, item) => CreateTask(id, item);
          case Stop(id) => var _ := StopTask(id);
          case Cleanup(id) => CleanupTask(id, itemOf[id]);
        }
      }
      assert meanwhile[..|meanwhile|] == meanwhile;
    }
  }

  lemma {:induction false} StoppedOnce(h: History, ids: seq<TaskId>, waits: nat -> Waited, n: nat)
    requires n <= |ids| && NoRepeats(ids)
    ensures NoRepeats(AllStopped(h, ids, waits, n))
  {
    if n > 0 {
      var before := AllStopped(h, ids, waits, n - 1);
      StoppedOnce(h, ids, waits, n - 1);
      forall i | 0 <= i < |before| ensures before[i] != ids[n - 1] { assert before[i] in before; }
    }
  }

  function MembersOf(r: Redis, item: string): set<TaskId> {
    if item in r.items then r.items[item] else {}
  }

  function IdsOf(ids: seq<TaskId>): set<TaskId> {
    set id | id in ids
  }

  ghost predicate Enumerates(ids: seq<TaskId>, members: set<TaskId>) {
    NoRepeats(ids) && forall id :: id in ids <==> id in members
  }

  /** Once all its members are out of the hash, an item's set is gone too. */
  lemma SetGoesWithItsTasks(before: Redis, after: Redis, item: string, members: seq<TaskId>)
    requires RedisAgrees(before) && RedisAgrees(after) && Enumerates(members, MembersOf(before, item))
    requires after.tasks == before.tasks - IdsOf(members)
    ensures item !in after.items && after.tasks.Keys == before.tasks.Keys - MembersOf(before, item)
  {
    forall id ensures !(item in after.items && id in after.items[item]) {
      assert id in after.tasks ==> id in before.tasks && id !in MembersOf(before, item);
    }
  }

  lemma CleanupOfStored(r: Redis, id: TaskId, item: ItemId)
    requires item == StoredItem(r, id)
    ensures RedisAgrees(r) ==> RedisAgrees(CleanedUp(r, id, item)) && id !in CleanedUp(r, id, item).tasks
  {
    if RedisAgrees(r) { CleanupKeepsAgreement(r, id, item); }
  }

  // --- Shutdown -----------------------------------------------------------------------------------

  /** What one `asyncio.wait` brings: tasks that ended, ids cleaned up, tasks newly registered, time gone by. */
  datatype Turn = Turn(finished: set<TaskId>, removed: set<TaskId>, registered: seq<TaskId>, elapsed: nat)

  function Without(ids: seq<TaskId>, gone: set<TaskId>): (left: seq<TaskId>)
    ensures forall id :: id in left <==> id in ids && id !in gone
  {
    if ids == [] then []
    else (if ids[0] in gone then [] else [ids[0]]) + Without(ids[1..], gone)
  }

  /** After the first `n` waits: the task is registered, it is done, it runs. */
  predicate RegisteredAt(before: seq<TaskId>, turns: nat -> Turn, n: nat, id: TaskId) {
    if n == 0 then id in before
    else id in turns(n - 1).registered || (id !in turns(n - 1).removed && RegisteredAt(before, turns, n - 1, id))
  }

  predicate DoneAt(before: set<TaskId>, turns: nat -> Turn, n: nat, id: TaskId) {
    if n == 0 then id in before else id in turns(n - 1).finished || DoneAt(before, turns, n - 1, id)
  }

  predicate RunsAt(tasks: seq<TaskId>, done: set<TaskId>, turns: nat -> Turn, n: nat, id: TaskId) {
    RegisteredAt(tasks, turns, n, id) && !DoneAt(done, turns, n, id)
  }

  /** It ran before the first wait, or after one of the first `n`. */
  ghost predicate RanBy(tasks: seq<TaskId>, done: set<TaskId>, turns: nat -> Turn, n: nat, id: TaskId) {
    exists k: nat :: k <= n && RunsAt(tasks, done, turns, k, id)
  }

  class Loop {
    /** The registry in insertion order, the tasks that are done, and those that asked to be cancelled, in order. */
    var tasks: seq<TaskId>
    var done: set<TaskId>
    var cancelLog: seq<TaskId>
    var clock: int
    var stopping: bool

    function Running(): seq<TaskId>
      reads this
    {
      Without(tasks, done)
    }

    /** One wait. The clock advances, which is what makes the loop end. */
    method Wait(turn: Turn)
      modifies `tasks, `done, `clock
      ensures clock > old(clock)
      ensures forall id :: id in tasks <==> id in turn.registered || (id in old(tasks) && id !in turn.removed)
      ensures done == old(done) + turn.finished
    {
      done := done + turn.finished;
      tasks := Without(tasks, turn.removed) + turn.registered;
      clock := clock + 1 + turn.elapsed;
    }

    /** The log holds each cancelled task once. */
    ghost predicate Logged(cancelled: set<TaskId>)
      reads this
    {
      && NoRepeats(cancelLog) && |cancelLog| == |cancelled|
      && forall id :: id in cancelLog <==> id in cancelled
    }

    /** `for task in running`: whoever was not cancelled yet is now. */
    method CancelAll(running: seq<TaskId>, already: set<TaskId>) returns (cancelled: set<TaskId>)
      requires Logged(already)
      modifies `cancelLog
      ensures Logged(cancelled) && already <= cancelled
      ensures forall id :: id in cancelled <==> id in already || id in running
    {
      cancelled := already;
      for i := 0 to |running|
        invariant Logged(cancelled) && already <= cancelled
        invariant forall id :: id in cancelled <==> id in already || id in running[..i]
      {
        if running[i] !in cancelled {
          cancelLog := cancelLog + [running[i]];
          cancelled := cancelled + {running[i]};
        }
        assert running[..i + 1] == running[..i] + [running[i]];
      }
      assert running[..|running|] == running;
    }

    /** `stop_all_tasks`, against tasks that end, are cleaned up and register at every wait. After `waits` waits it
        has cancelled whoever ran as it began or after one of them, and nobody else. */
    method StopAllTasks(waitSeconds: int, turns: nat -> Turn) returns (count: nat, ghost waits: nat)
      requires cancelLog == []
      modifies this
      ensures stopping
      ensures NoRepeats(cancelLog) && count == |cancelLog|
      ensures forall id :: id in cancelLog <==> RanBy(old(tasks), old(done), turns, waits, id)
      ensures forall id :: id in Running() <==> RunsAt(old(tasks), old(done), turns, waits, id)
      ensures Running() == [] || clock >= old(clock) + waitSeconds
    {
      stopping := true;
      var deadline := clock + waitSeconds;
      var cancelled: set<TaskId> := {};
      var n := 0;
      while Running() != []
        invariant stopping && Logged(cancelled)
        invariant forall id :: id in tasks <==> RegisteredAt(old(tasks), turns, n, id)
        invariant forall id :: id in done <==> DoneAt(old(done), turns, n, id)
        invariant forall id ::
          RanBy(old(tasks), old(done), turns, n, id)
          <==> id in cancelled || RunsAt(old(tasks), old(done), turns, n, id)
        decreases if clock < deadline then deadline - clock else 0
      {
        cancelled := CancelAll(Running(), cancelled);
        var remaining := deadline - clock;
        if remaining <= 0 {
          break;
        }
        Wait(turns(n));
        n := n + 1;
        assert forall id :: RanBy(old(tasks), old(done), turns, n - 1, id) <==> id in cancelled;
      }
      waits := n;
      count := |cancelled|;
    }
  }
}
