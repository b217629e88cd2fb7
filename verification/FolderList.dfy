/** Listing a user's folders (routers/folders.py, `get_folders`): a folder whose parent is missing, or that its own
    parent links lead back to, is put back at the root, so that the tree shows it. */
module FolderList {
  import opened Text
  import opened Folders

  /** Each folder's parent, by id; None and '' name none. */
  type Parents = map<Id, Option<Id>>

  predicate Truthy(parentId: Option<Id>) { parentId.Some? && parentId.value != "" }

  /** The parent a folder names, if the list has an entry for the folder. */
  function Next(parents: Parents, id: Id): Option<Id> {
    if id in parents && Truthy(parents[id]) then parents[id] else None
  }

  function Up(parents: Parents, id: Id, n: nat): Option<Id> {
    if n == 0 then Some(id)
    else
      var below := Up(parents, id, n - 1);
      if below.Some? then Next(parents, below.value) else None
  }

  ghost predicate LeadsTo(parents: Parents, id: Id, other: Id) {
    exists n: nat :: Up(parents, id, n) == Some(other)
  }

  ghost predicate OnLoop(parents: Parents, id: Id) {
    exists n: nat :: n > 0 && Up(parents, id, n) == Some(id)
  }

  // --- Climbing --------------------------------------------------------------------------

  lemma {:induction false} UpOn(parents: Parents, id: Id, a: nat, b: nat)
    ensures Up(parents, id, a + b)
            == if Up(parents, id, a).Some? then Up(parents, Up(parents, id, a).value, b) else None
    decreases b
  {
    if b > 0 {
      UpOn(parents, id, a, b - 1);
      assert Up(parents, id, a + b - 1).Some? ==> Up(parents, id, a).Some?;
    }
  }

  lemma UpBefore(parents: Parents, id: Id, a: nat, n: nat)
    requires a <= n && Up(parents, id, n).Some?
    ensures Up(parents, id, a).Some?
  {
    UpOn(parents, id, a, n - a);
  }

  lemma LeadsOn(parents: Parents, a: Id, b: Id, c: Id)
    requires LeadsTo(parents, a, b) && LeadsTo(parents, b, c)
    ensures LeadsTo(parents, a, c)
  {
    var n: nat :| Up(parents, a, n) == Some(b);
    var k: nat :| Up(parents, b, k) == Some(c);
    UpOn(parents, a, n, k);
  }

  /** On a loop of `n` links, whatever is met is met within the first round. */
  lemma {:induction false} FirstRound(parents: Parents, id: Id, n: nat, a: nat) returns (b: nat)
    requires n > 0 && Up(parents, id, n) == Some(id)
    ensures b < n && Up(parents, id, b) == Up(parents, id, a)
    decreases a
  {
    if a < n {
      b := a;
    } else {
      UpOn(parents, id, n, a - n);
      b := FirstRound(parents, id, n, a - n);
    }
  }

  /** What lies on a loop leads back to where the loop was entered, and so is on it too. */
  lemma LoopIsShared(parents: Parents, id: Id, other: Id)
    requires OnLoop(parents, id) && LeadsTo(parents, id, other)
    ensures OnLoop(parents, other)
  {
    var n: nat :| n > 0 && Up(parents, id, n) == Some(id);
    var a: nat :| Up(parents, id, a) == Some(other);
    var b := FirstRound(parents, id, n, a);
    UpOn(parents, id, b, n - b);
    UpOn(parents, other, n - b, b);
    assert Up(parents, other, (n - b) + b) == Some(other);
  }

  // --- Is a folder on a loop? -----------------------------------------------------------------

  /** Everything met in the first `k` steps, each for the first time. */
  ghost predicate Met(parents: Parents, id: Id, k: nat, seen: set<Id>) {
    && (forall i :: 0 <= i < k ==> Up(parents, id, i).Some? && Up(parents, id, i).value in seen)
    && (forall x <- seen :: exists i :: 0 <= i < k && Up(parents, id, i) == Some(x))
    && (forall i :: 0 < i < k ==> Up(parents, id, i) != Some(id))
  }

  /** `is_in_parent_cycle`. */
  method IsInParentCycle(parents: Parents, folderId: Id) returns (looping: bool)
    ensures looping <==> OnLoop(parents, folderId)
  {
    var seenIds := {folderId};
    var currentId := Next(parents, folderId);
    ghost var k := 1;
    assert Up(parents, folderId, 0) == Some(folderId);
    while currentId.Some? && currentId.value != "" && currentId.value !in seenIds
      invariant k > 0 && currentId == Up(parents, folderId, k) && Met(parents, folderId, k, seenIds)
      invariant currentId.Some? ==> currentId.value != ""
      invariant forall x <- seenIds :: x == folderId || x in Targets(parents)
      decreases Targets(parents) - seenIds
    {
      assert currentId.value in Targets(parents) by { NextIsTarget(parents, Up(parents, folderId, k - 1).value); }
      seenIds := seenIds + {currentId.value};
      currentId := Next(parents, currentId.value);
      k := k + 1;
    }
    looping := currentId == Some(folderId);
    if !looping { NoWayBack(parents, folderId, k, seenIds); }
  }

  /** All parents named. */
  function Targets(parents: Parents): set<Id> {
    set id <- parents | Truthy(parents[id]) :: parents[id].value
  }

  lemma NextIsTarget(parents: Parents, id: Id)
    ensures Next(parents, id).Some? ==> Next(parents, id).value in Targets(parents)
  {
  }

  /** A climb that ends, or comes back to a folder met after the first, never comes back to the first. */
  lemma NoWayBack(parents: Parents, id: Id, k: nat, seen: set<Id>)
    requires k > 0 && Met(parents, id, k, seen) && Up(parents, id, k) != Some(id)
    requires Up(parents, id, k).Some? ==> Up(parents, id, k).value in seen
    ensures !OnLoop(parents, id)
  {
    if Up(parents, id, k).Some? {
      var j := MetAt(parents, id, k, seen, Up(parents, id, k).value);
      forall n: nat | n > 0 ensures Up(parents, id, n) != Some(id) { StaysAway(parents, id, j, k, n); }
    } else {
      forall n: nat | n > 0 ensures Up(parents, id, n) != Some(id) { StaysOut(parents, id, k, n); }
    }
  }

  lemma MetAt(parents: Parents, id: Id, k: nat, seen: set<Id>, x: Id) returns (j: nat)
    requires Met(parents, id, k, seen) && x in seen && x != id
    ensures 0 < j < k && Up(parents, id, j) == Some(x)
  {
    j :| j < k && Up(parents, id, j) == Some(x);
  }

  lemma StaysOut(parents: Parents, id: Id, k: nat, n: nat)
    requires Up(parents, id, k).None? && n > 0 && forall i :: 0 < i < k ==> Up(parents, id, i) != Some(id)
    ensures Up(parents, id, n) != Some(id)
  {
    if n >= k { UpOn(parents, id, k, n - k); }
  }

  lemma {:induction false} StaysAway(parents: Parents, id: Id, j: nat, k: nat, n: nat)
    requires 0 < j < k && Up(parents, id, j) == Up(parents, id, k) && Up(parents, id, k).Some? && n > 0
    requires forall i :: 0 < i < k ==> Up(parents, id, i) != Some(id)
    ensures Up(parents, id, n) != Some(id)
    decreases n
  {
    if n >= k {
      UpOn(parents, id, k, n - k);
      UpOn(parents, id, j, n - k);
      StaysAway(parents, id, j, k, j + (n - k));
    }
  }

  // --- Putting folders back -------------------------------------------------------------------------

  /** Which folders go back to the root: those whose parent is missing and, of each loop, the first in the list. */
  ghost predicate GoesBack(parents: Parents, order: seq<Id>, i: nat)
    requires i < |order|
  {
    && Next(parents, order[i]).Some?
    && (Next(parents, order[i]).value !in parents
        || (OnLoop(parents, order[i]) && forall k :: 0 <= k < i ==> !LeadsTo(parents, order[i], order[k])))
  }

  /** The parents when the first `i` folders have been looked at. */
  ghost predicate PutBackUpTo(parents: Parents, order: seq<Id>, i: nat, now: Parents)
    requires i <= |order|
  {
    && now.Keys == parents.Keys
    && forall k :: 0 <= k < |order| && order[k] in parents ==>
         now[order[k]] == if k < i && GoesBack(parents, order, k) then None else parents[order[k]]
  }

  ghost predicate Lists(order: seq<Id>, parents: Parents) {
    && (forall id :: id in order <==> id in parents)
    && forall i, k :: 0 <= i < k < |order| ==> order[i] != order[k]
  }

  /** The loop of `get_folders`. */
  method PutBack(order: seq<Id>, parents: Parents) returns (now: Parents)
    requires Lists(order, parents)
    ensures PutBackUpTo(parents, order, |order|, now)
    ensures forall id :: !OnLoop(now, id)
    ensures forall id :: Next(now, id).Some? ==> Next(now, id).value in now
  {
    now := parents;
    for i := 0 to |order|
      invariant PutBackUpTo(parents, order, i, now)
    {
      var id := order[i];
      var parentId := parents[id];
      var looping := IsInParentCycle(now, id);
      LoopLeft(parents, order, i, now);
      if Truthy(parentId) && (parentId.value !in now || looping) {
        now := now[id := None];
      }
    }
    forall id ensures !OnLoop(now, id) && (Next(now, id).Some? ==> Next(now, id).value in now) {
      AllBack(parents, order, now, id);
    }
  }

  lemma {:induction false} OnlyFewerLinks(parents: Parents, order: seq<Id>, i: nat, now: Parents, id: Id, n: nat)
    requires i <= |order| && Lists(order, parents) && PutBackUpTo(parents, order, i, now)
    ensures Up(now, id, n).Some? ==> Up(parents, id, n) == Up(now, id, n)
    decreases n
  {
    if n > 0 {
      OnlyFewerLinks(parents, order, i, now, id, n - 1);
      if Up(now, id, n).Some? {
        var below := Up(now, id, n - 1).value;
        assert below in order;
      }
    }
  }

  /** The first folder of a loop in the list, among those looked at, went back, and with it the loop. */
  lemma {:induction false} LoopIsCut(parents: Parents, order: seq<Id>, i: nat, now: Parents, id: Id, n: nat, k: nat)
    requires i <= |order| && Lists(order, parents) && PutBackUpTo(parents, order, i, now)
    requires n > 0 && Up(now, id, n) == Some(id) && k < i
    ensures !LeadsTo(parents, id, order[k])
    decreases k
  {
    OnlyFewerLinks(parents, order, i, now, id, n);
    if LeadsTo(parents, id, order[k]) {
      LoopIsShared(parents, id, order[k]);
      forall j | 0 <= j < k ensures !LeadsTo(parents, order[k], order[j]) {
        LoopIsCut(parents, order, i, now, id, n, j);
        if LeadsTo(parents, order[k], order[j]) { LeadsOn(parents, id, order[k], order[j]); }
      }
      LinkWasCut(parents, order, i, now, id, n, k);
    }
  }

  /** Such a folder no longer has a parent, so the loop no longer is one. */
  lemma LinkWasCut(parents: Parents, order: seq<Id>, i: nat, now: Parents, id: Id, n: nat, k: nat)
    requires i <= |order| && Lists(order, parents) && PutBackUpTo(parents, order, i, now) && k < i
    requires n > 0 && Up(parents, id, n) == Some(id) && LeadsTo(parents, id, order[k]) && OnLoop(parents, order[k])
    requires forall j :: 0 <= j < k ==> !LeadsTo(parents, order[k], order[j])
    ensures Up(now, id, n) != Some(id)
  {
    var a: nat :| Up(parents, id, a) == Some(order[k]);
    var b := FirstRound(parents, id, n, a);
    OnlyFewerLinks(parents, order, i, now, id, b);
    NoLinkLeft(parents, order, i, now, k);
    EndsThere(now, id, b, n);
  }

  lemma EndsThere(parents: Parents, id: Id, b: nat, n: nat)
    requires b < n && (Up(parents, id, b).Some? ==> Next(parents, Up(parents, id, b).value).None?)
    ensures Up(parents, id, n).None?
  {
    UpOn(parents, id, b + 1, n - b - 1);
  }

  lemma NoLinkLeft(parents: Parents, order: seq<Id>, i: nat, now: Parents, k: nat)
    requires i <= |order| && Lists(order, parents) && PutBackUpTo(parents, order, i, now) && k < i
    requires OnLoop(parents, order[k]) && forall j :: 0 <= j < k ==> !LeadsTo(parents, order[k], order[j])
    ensures Next(now, order[k]) == None
  {
    HasNext(parents, order[k]);
    assert GoesBack(parents, order, k);
    assert order[k] in order;
  }

  lemma HasNext(parents: Parents, id: Id)
    requires OnLoop(parents, id)
    ensures Next(parents, id).Some?
  {
    var n: nat :| n > 0 && Up(parents, id, n) == Some(id);
    UpBefore(parents, id, 1, n);
  }

  /** A loop is still there just while none of its folders has been looked at. */
  lemma LoopLeft(parents: Parents, order: seq<Id>, i: nat, now: Parents)
    requires i < |order| && Lists(order, parents) && PutBackUpTo(parents, order, i, now)
    ensures OnLoop(now, order[i])
            <==> OnLoop(parents, order[i]) && forall k :: 0 <= k < i ==> !LeadsTo(parents, order[i], order[k])
  {
    var id := order[i];
    if OnLoop(now, id) {
      var n: nat :| n > 0 && Up(now, id, n) == Some(id);
      OnlyFewerLinks(parents, order, i, now, id, n);
      forall k | 0 <= k < i ensures !LeadsTo(parents, id, order[k]) { LoopIsCut(parents, order, i, now, id, n, k); }
    }
    if OnLoop(parents, id) && forall k :: 0 <= k < i ==> !LeadsTo(parents, id, order[k]) {
      var n: nat :| n > 0 && Up(parents, id, n) == Some(id);
      SameClimb(parents, order, i, now, id, n);
    }
  }

  lemma {:induction false} SameClimb(parents: Parents, order: seq<Id>, i: nat, now: Parents, id: Id, n: nat)
    requires i <= |order| && Lists(order, parents) && PutBackUpTo(parents, order, i, now)
    requires forall k :: 0 <= k < i ==> !LeadsTo(parents, id, order[k])
    ensures Up(now, id, n) == Up(parents, id, n)
    decreases n
  {
    if n > 0 {
      SameClimb(parents, order, i, now, id, n - 1);
      var below := Up(parents, id, n - 1);
      if below.Some? {
        assert LeadsTo(parents, id, below.value);
        assert below.value in parents ==> below.value in order;
      }
    }
  }

  lemma AllBack(parents: Parents, order: seq<Id>, now: Parents, id: Id)
    requires Lists(order, parents) && PutBackUpTo(parents, order, |order|, now)
    ensures !OnLoop(now, id) && (Next(now, id).Some? ==> Next(now, id).value in now)
  {
    if OnLoop(now, id) {
      var n: nat :| n > 0 && Up(now, id, n) == Some(id);
      HasNext(now, id);
      var k :| 0 <= k < |order| && order[k] == id;
      assert Up(parents, id, 0) == Some(order[k]);
      LoopIsCut(parents, order, |order|, now, id, n, k);
    }
    if Next(now, id).Some? {
      var k :| 0 <= k < |order| && order[k] == id;
      assert !GoesBack(parents, order, k);
    }
  }
}
