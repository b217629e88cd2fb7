/** A prompt's history (models/prompt_history.py): entries name their parent, and deleting one
    hands its children to its own parent. */
module PromptHistory {
  import opened Text

  type Id = string

  datatype Entry = Entry(promptId: string, parentId: Option<Id>)

  type Table = map<Id, Entry>

  // --- Ancestors -----------------------------------------------------------------------

  /** The `n`-th ancestor. */
  function Up(h: Table, id: Id, n: nat): Option<Id> {
    if n == 0 then Some(id)
    else
      var before := Up(h, id, n - 1);
      if before.Some? && before.value in h then h[before.value].parentId else None
  }

  ghost predicate Acyclic(h: Table) {
    forall id, n: nat :: n > 0 ==> Up(h, id, n) != Some(id)
  }

  /** `chain` lists all of `id`'s ancestors, the nearest first. A parent that is not in the table ends it. */
  ghost predicate IsChain(h: Table, id: Id, chain: seq<Id>)
    decreases |chain|
  {
    if id !in h || h[id].parentId.None? then chain == []
    else chain != [] && chain[0] == h[id].parentId.value && IsChain(h, chain[0], chain[1..])
  }

  ghost predicate Rooted(h: Table) {
    forall id :: HasChain(h, id)
  }

  ghost predicate HasChain(h: Table, id: Id) {
    exists chain :: IsChain(h, id, chain)
  }

  lemma {:induction false} OneChain(h: Table, id: Id, a: seq<Id>, b: seq<Id>)
    requires IsChain(h, id, a) && IsChain(h, id, b)
    ensures a == b
    decreases |a|
  {
    if a != [] { OneChain(h, a[0], a[1..], b[1..]); }
  }

  lemma {:induction false} UpFirst(h: Table, id: Id, n: nat)
    requires n > 0
    ensures Up(h, id, n) == if id in h && h[id].parentId.Some? then Up(h, h[id].parentId.value, n - 1) else None
  {
    if n > 1 { UpFirst(h, id, n - 1); }
  }

  /** A chain is the ancestors in order. */
  lemma {:induction false} ChainIsUp(h: Table, id: Id, chain: seq<Id>, n: nat)
    requires IsChain(h, id, chain) && n > 0
    ensures Up(h, id, n) == if n <= |chain| then Some(chain[n - 1]) else None
    decreases |chain|
  {
    UpFirst(h, id, n);
    if chain != [] && n > 1 { ChainIsUp(h, chain[0], chain[1..], n - 1); }
  }

  lemma {:induction false} ChainNeverReturns(h: Table, id: Id, chain: seq<Id>)
    requires IsChain(h, id, chain)
    ensures id !in chain
  {
    if id in chain {
      var i :| 0 <= i < |chain| && chain[i] == id;
      ChainTail(h, id, chain, i + 1);
      OneChain(h, id, chain, chain[i + 1..]);
      assert false;
    }
  }

  lemma {:induction false} ChainTail(h: Table, id: Id, chain: seq<Id>, n: nat)
    requires IsChain(h, id, chain) && 0 < n <= |chain|
    ensures IsChain(h, chain[n - 1], chain[n..])
    decreases n
  {
    if n > 1 {
      ChainTail(h, chain[0], chain[1..], n - 1);
      assert chain[1..][n - 1..] == chain[n..];
    }
  }

  /** Having no cycle and every entry having a finite chain of ancestors are the same. */
  lemma AcyclicIffRooted(h: Table)
    ensures Acyclic(h) <==> Rooted(h)
  {
    if Rooted(h) {
      forall id, n: nat | n > 0 ensures Up(h, id, n) != Some(id) {
        assert HasChain(h, id);
        var chain :| IsChain(h, id, chain);
        ChainIsUp(h, id, chain, n);
        ChainNeverReturns(h, id, chain);
      }
    }
    if Acyclic(h) {
      forall id ensures HasChain(h, id) {
        var chain := FindChain(h, id, {});
      }
    }
  }

  ghost predicate Below(h: Table, id: Id, ancestor: Id) {
    exists n: nat :: n > 0 && Up(h, id, n) == Some(ancestor)
  }

  /** Climbing without meeting a cycle ends: `below` are the entries climbed through so far. */
  lemma {:induction false} FindChain(h: Table, id: Id, below: set<Id>) returns (chain: seq<Id>)
    requires Acyclic(h) && id !in below && below <= h.Keys
    requires forall b <- below :: Below(h, b, id)
    ensures IsChain(h, id, chain)
    decreases h.Keys - below
  {
    if id !in h || h[id].parentId.None? {
      return [];
    }
    var p := h[id].parentId.value;
    forall b | b in below + {id} ensures Below(h, b, p) {
      if b == id {
        assert Up(h, id, 0) == Some(id);
        assert Up(h, id, 1) == Some(p);
      } else {
        var n: nat :| n > 0 && Up(h, b, n) == Some(id);
        assert Up(h, b, n + 1) == Some(p);
      }
    }
    assert !Below(h, p, p);
    chain := FindChain(h, p, below + {id});
    assert ([p] + chain)[1..] == chain;
    chain := [p] + chain;
  }

  // --- Creating and deleting -------------------------------------------------------------

  /** `delete_history_entry` on the table: only an entry of the given prompt goes, and its children, of
      whatever prompt, move up to its parent. */
  function Deleted(h: Table, id: Id, promptId: string): Table {
    if id !in h || h[id].promptId != promptId then h
    else map x | x in h && x != id :: Reparented(h, id, h[x])
  }

  function Reparented(h: Table, id: Id, e: Entry): Entry
    requires id in h
  {
    if e.parentId == Some(id) then e.(parentId := h[id].parentId) else e
  }

  /** A new entry's id is nowhere in the table yet, neither as an entry nor as a parent. */
  predicate Fresh(h: Table, id: Id, parentId: Option<Id>) {
    id !in h && parentId != Some(id) && forall x <- h :: h[x].parentId != Some(id)
  }

  function Without(chain: seq<Id>, id: Id): seq<Id> {
    if chain == [] then []
    else (if chain[0] == id then [] else [chain[0]]) + Without(chain[1..], id)
  }

  /** A remaining entry's chain is its old one with the deleted entry left out. */
  lemma {:induction false} DeleteShortensChain(h: Table, gone: Id, promptId: string, id: Id, chain: seq<Id>)
    requires gone in h && h[gone].promptId == promptId && id != gone && IsChain(h, id, chain)
    ensures IsChain(Deleted(h, gone, promptId), id, Without(chain, gone))
    decreases |chain|
  {
    var d := Deleted(h, gone, promptId);
    if chain != [] {
      var rest := Without(chain[1..], gone);
      if chain[0] != gone {
        DeleteShortensChain(h, gone, promptId, chain[0], chain[1..]);
        assert ([chain[0]] + rest)[1..] == rest;
      } else {
        ChainNeverReturns(h, gone, chain[1..]);
        assert Without(chain, gone) == rest;
        if |chain| > 1 {
          var up := chain[1..];
          DeleteShortensChain(h, gone, promptId, up[0], up[1..]);
          assert rest == [up[0]] + Without(up[1..], gone) && rest[1..] == Without(up[1..], gone);
          assert d[id].parentId == Some(up[0]);
        }
      }
    }
  }

  lemma {:induction false} CreateKeepsChain(h: Table, id: Id, e: Entry, other: Id, chain: seq<Id>)
    requires Fresh(h, id, e.parentId) && other != id && IsChain(h, other, chain)
    ensures IsChain(h[id := e], other, chain)
    decreases |chain|
  {
    if chain != [] { CreateKeepsChain(h, id, e, chain[0], chain[1..]); }
  }

  /** A new entry is its parent's child: its chain is its parent, if it has one, and then its parent's chain. */
  lemma CreatedUnderParent(h: Table, id: Id, e: Entry, up: seq<Id>)
    requires Fresh(h, id, e.parentId)
    requires if e.parentId.Some? then IsChain(h, e.parentId.value, up) else up == []
    ensures var next := Step(h, Create(id, e));
            && id in next && next[id].promptId == e.promptId
            && IsChain(next, id, if e.parentId.Some? then [e.parentId.value] + up else [])
  {
    if e.parentId.Some? {
      CreateKeepsChain(h, id, e, e.parentId.value, up);
      assert ([e.parentId.value] + up)[1..] == up;
    }
  }

  // --- Whole runs ---------------------------------------------------------------------------

  datatype Event = Create(id: Id, entry: Entry) | Delete(id: Id, promptId: string)

  predicate Legal(h: Table, e: Event) {
    e.Create? ==> Fresh(h, e.id, e.entry.parentId)
  }

  function Step(h: Table, e: Event): Table {
    match e
    case Create(id, entry) => h[id := entry]
    case Delete(id, promptId) => Deleted(h, id, promptId)
  }

  ghost predicate LegalRun(h: Table, events: seq<Event>)
    decreases |events|
  {
    events == [] || (Legal(h, events[0]) && LegalRun(Step(h, events[0]), events[1..]))
  }

  function Run(h: Table, events: seq<Event>): Table
    decreases |events|
  {
    if events == [] then h else Run(Step(h, events[0]), events[1..])
  }

  /** The ids really deleted over a run, in order. */
  function Gone(h: Table, events: seq<Event>): seq<Id>
    decreases |events|
  {
    if events == [] then []
    else
      var e := events[0];
      (if e.Delete? && e.id in h && h[e.id].promptId == e.promptId then [e.id] else []) + Gone(Step(h, e), events[1..])
  }

  function WithoutAll(chain: seq<Id>, gone: seq<Id>): seq<Id>
    decreases |gone|
  {
    if gone == [] then chain else WithoutAll(Without(chain, gone[0]), gone[1..])
  }

  lemma StepKeepsRooted(h: Table, e: Event)
    requires Rooted(h) && Legal(h, e)
    ensures Rooted(Step(h, e))
  {
    forall id ensures HasChain(Step(h, e), id) {
      assert HasChain(h, id);
      var chain :| IsChain(h, id, chain);
      match e
      case Create(new_, entry) =>
        if id != new_ {
          CreateKeepsChain(h, new_, entry, id, chain);
        } else if entry.parentId.None? {
          assert IsChain(Step(h, e), id, []);
        } else {
          var p := entry.parentId.value;
          assert HasChain(h, p);
          var up :| IsChain(h, p, up);
          CreateKeepsChain(h, new_, entry, p, up);
          assert ([p] + up)[1..] == up;
          assert IsChain(Step(h, e), id, [p] + up);
        }
      case Delete(gone, promptId) =>
        if gone in h && h[gone].promptId == promptId {
          if id != gone {
            DeleteShortensChain(h, gone, promptId, id, chain);
          } else {
            assert IsChain(Step(h, e), id, []);
          }
        }
    }
  }

  lemma StepKeepsAcyclic(h: Table, e: Event)
    requires Acyclic(h) && Legal(h, e)
    ensures Acyclic(Step(h, e))
  {
    AcyclicIffRooted(h);
    StepKeepsRooted(h, e);
    AcyclicIffRooted(Step(h, e));
  }

  /** No run of creates and deletes ever makes a cycle. */
  lemma {:induction false} RunKeepsAcyclic(h: Table, events: seq<Event>)
    requires Acyclic(h) && LegalRun(h, events)
    ensures Acyclic(Run(h, events))
    decreases |events|
  {
    if events != [] {
      StepKeepsAcyclic(h, events[0]);
      RunKeepsAcyclic(Step(h, events[0]), events[1..]);
    }
  }

  lemma HistoriesStayAcyclic(events: seq<Event>)
    requires LegalRun(map[], events)
    ensures Acyclic(Run(map[], events))
  {
    forall id: Id, n: nat | n > 0 ensures Up(map[], id, n) != Some(id) { UpFirst(map[], id, n); }
    RunKeepsAcyclic(map[], events);
  }

  /** After any run, an entry still there has its old chain with every entry deleted meanwhile left out. */
  lemma {:induction false} RunShortensChain(h: Table, events: seq<Event>, id: Id, chain: seq<Id>)
    requires LegalRun(h, events) && id in h && IsChain(h, id, chain) && id !in Gone(h, events)
    ensures id in Run(h, events) && IsChain(Run(h, events), id, WithoutAll(chain, Gone(h, events)))
    decreases |events|
  {
    if events != [] {
      var e := events[0];
      var next := Step(h, e);
      match e
      case Create(new_, entry) =>
        CreateKeepsChain(h, new_, entry, id, chain);
        assert Gone(h, events) == Gone(next, events[1..]);
        RunShortensChain(next, events[1..], id, chain);
      case Delete(gone, promptId) =>
        if gone in h && h[gone].promptId == promptId {
          assert Gone(h, events) == [gone] + Gone(next, events[1..]) && Gone(h, events)[0] == gone;
          assert Gone(h, events)[1..] == Gone(next, events[1..]);
          DeleteShortensChain(h, gone, promptId, id, chain);
          RunShortensChain(next, events[1..], id, Without(chain, gone));
        } else {
          assert Gone(h, events) == Gone(next, events[1..]);
          RunShortensChain(next, events[1..], id, chain);
        }
    }
  }

  /** The run creates the entry, for the prompt, and does not delete it later. */
  ghost predicate Leaves(events: seq<Event>, id: Id, promptId: string) {
    exists i :: 0 <= i < |events| && IsCreate(events[i], id, promptId)
                && forall j :: i < j < |events| ==> events[j] != Delete(id, promptId)
  }

  predicate IsCreate(e: Event, id: Id, promptId: string) {
    e.Create? && e.id == id && e.entry.promptId == promptId
  }

  lemma LeavesFromTail(events: seq<Event>, id: Id, promptId: string)
    requires events != []
    ensures Leaves(events, id, promptId)
            <==> Leaves(events[1..], id, promptId)
                 || (IsCreate(events[0], id, promptId) && Delete(id, promptId) !in events[1..])
  {
    var rest := events[1..];
    if i :| 0 <= i < |rest| && IsCreate(rest[i], id, promptId)
            && forall j :: i < j < |rest| ==> rest[j] != Delete(id, promptId) {
      assert IsCreate(events[i + 1], id, promptId);
      assert forall j :: i + 1 < j < |events| ==> events[j] == rest[j - 1];
    }
    if i :| 0 <= i < |events| && IsCreate(events[i], id, promptId)
            && forall j :: i < j < |events| ==> events[j] != Delete(id, promptId) {
      assert forall j :: 0 <= j < |rest| ==> rest[j] == events[j + 1];
      assert i > 0 ==> IsCreate(rest[i - 1], id, promptId);
    }
    assert forall j :: 0 < j < |events| ==> events[j] == rest[j - 1] && rest[j - 1] in rest;
  }

  predicate EntryOf(h: Table, id: Id, promptId: string) {
    id in h && h[id].promptId == promptId
  }

  /** After any run, a prompt has an entry exactly when it had it before or the run created it, and no delete for this
      prompt came since. */
  lemma {:induction false} EntryThereIff(h: Table, events: seq<Event>, id: Id, promptId: string)
    requires LegalRun(h, events)
    ensures EntryOf(Run(h, events), id, promptId)
            <==> (EntryOf(h, id, promptId) && Delete(id, promptId) !in events) || Leaves(events, id, promptId)
    decreases |events|
  {
    if events != [] {
      EntryThereIff(Step(h, events[0]), events[1..], id, promptId);
      LeavesFromTail(events, id, promptId);
      assert Delete(id, promptId) in events
             <==> events[0] == Delete(id, promptId) || Delete(id, promptId) in events[1..];
    }
  }

  // --- The table's methods ---------------------------------------------------------------------

  class PromptHistoryTable {
    var entries: Table

    method CreateHistoryEntry(id: Id, promptId: string, parentId: Option<Id>)
      requires Fresh(entries, id, parentId)
      modifies this
      ensures entries == Step(old(entries), Create(id, Entry(promptId, parentId)))
      ensures entries.Keys == old(entries).Keys + {id} && entries[id] == Entry(promptId, parentId)
      ensures forall x <- old(entries) :: entries[x] == old(entries)[x]
      ensures Acyclic(old(entries)) ==> Acyclic(entries)
    {
      if Acyclic(entries) { StepKeepsAcyclic(entries, Create(id, Entry(promptId, parentId))); }
      entries := entries[id := Entry(promptId, parentId)];
    }

    method DeleteHistoryEntry(historyId: Id, promptId: string) returns (deleted: bool)
      modifies this
      ensures entries == Step(old(entries), Delete(historyId, promptId))
      ensures deleted <==> historyId in old(entries) && old(entries)[historyId].promptId == promptId
      ensures !deleted ==> entries == old(entries)
      ensures deleted ==> entries.Keys == old(entries).Keys - {historyId}
      ensures forall x <- entries ::
        && entries[x].promptId == old(entries)[x].promptId
        && entries[x].parentId == if deleted && old(entries)[x].parentId == Some(historyId)
                                  then old(entries)[historyId].parentId else old(entries)[x].parentId
      ensures Acyclic(old(entries)) ==> Acyclic(entries)
    {
      if Acyclic(entries) { StepKeepsAcyclic(entries, Delete(historyId, promptId)); }
      if historyId !in entries || entries[historyId].promptId != promptId {
        return false;
      }
      var entry := entries[historyId];
      var children := set x | x in entries && entries[x].parentId == Some(historyId);
      var left := children;
      while left != {}
        invariant left <= children && entries.Keys == old(entries).Keys
        invariant forall x <- entries :: entries[x]
                    == if x in children - left then old(entries)[x].(parentId := entry.parentId) else old(entries)[x]
        decreases left
      {
        var child :| child in left;
        entries := entries[child := entries[child].(parentId := entry.parentId)];
        left := left - {child};
      }
      entries := map x | x in entries && x != historyId :: entries[x];
      return true;
    }
  }
}
