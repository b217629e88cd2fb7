/** Deleting a folder's subtree some time after it was taken (routers/folders.py): what other requests do in between
    decides whether the delete still fits. */
module FolderMeanwhile {
  import opened Text
  import opened Folders

  /** What another request does to the folders meanwhile. */
  datatype Op =
    | Create(folder: Folder)
    | Reparent(id: Id, userId: string, parentId: Option<Id>, now: int)
    | Remove(userId: string, ids: set<Id>)

  function Apply(rows: seq<Folder>, op: Op): seq<Folder> {
    match op
    case Create(folder) => rows + [folder]
    case Reparent(id, userId, parentId, now) => Reparented(rows, id, userId, parentId, now)
    case Remove(userId, ids) => WithoutFolders(rows, userId, ids)
  }

  /** A new folder has an id no other has. */
  ghost predicate Legal(rows: seq<Folder>, op: Op) {
    op.Create? ==> forall f <- rows :: f.id != op.folder.id
  }

  function Run(rows: seq<Folder>, ops: seq<Op>): seq<Folder>
    decreases |ops|
  {
    if ops == [] then rows else Apply(Run(rows, ops[..|ops| - 1]), ops[|ops| - 1])
  }

  ghost predicate LegalRun(rows: seq<Folder>, ops: seq<Op>) {
    forall k :: 0 <= k < |ops| ==> Legal(Run(rows, ops[..k]), ops[k])
  }

  ghost predicate Exists(rows: seq<Folder>, userId: string, id: Id) {
    exists f :: f in rows && f.id == id && f.userId == userId
  }

  // --- Folders put under the subtree -----------------------------------------------------

  /** The folder an operation places somewhere. */
  function Placed(op: Op): Option<Id> {
    match op
    case Create(folder) => Some(folder.id)
    case Reparent(id, _, _, _) => Some(id)
    case Remove(_, _) => None
  }

  /** It puts one of this user's folders under one of `ids`. */
  predicate PutsUnder(op: Op, userId: string, ids: set<Id>) {
    match op
    case Create(folder) => HangsFrom(folder, userId, ids)
    case Reparent(_, owner, parentId, _) => owner == userId && parentId.Some? && parentId.value in ids
    case Remove(_, _) => false
  }

  /** What a route could check of each operation: it puts under the subtree only what the subtree already holds. */
  predicate Harmless(op: Op, userId: string, ids: set<Id>) {
    PutsUnder(op, userId, ids) ==> Placed(op).value in ids
  }

  predicate Touches(op: Op, userId: string, id: Id) {
    match op
    case Create(folder) => folder.id == id
    case Reparent(moved, owner, _, _) => moved == id && owner == userId
    case Remove(owner, ids) => owner == userId && id in ids
  }

  /** The `k`-th operation put a folder under the subtree that was not in it, and none touched that folder since. */
  ghost predicate Strayed(before: seq<Folder>, ops: seq<Op>, userId: string, ids: set<Id>, k: nat)
    requires k < |ops|
  {
    && !Harmless(ops[k], userId, ids) && TakesEffect(Run(before, ops[..k]), ops[k])
    && forall j :: k < j < |ops| ==> !Touches(ops[j], userId, Placed(ops[k]).value)
  }

  /** A move of a folder that is not there does nothing. */
  ghost predicate TakesEffect(rows: seq<Folder>, op: Op) {
    op.Reparent? ==> exists f :: f in rows && f.id == op.id && f.userId == op.userId
  }

  lemma RunOneMore(rows: seq<Folder>, ops: seq<Op>)
    requires ops != [] && LegalRun(rows, ops)
    ensures LegalRun(rows, ops[..|ops| - 1]) && Legal(Run(rows, ops[..|ops| - 1]), ops[|ops| - 1])
  {
    var front := ops[..|ops| - 1];
    forall k | 0 <= k < |front| ensures Legal(Run(rows, front[..k]), front[k]) {
      assert front[..k] == ops[..k];
    }
  }

  /** What an operation leaves of a folder it does not touch: the folder as it was. */
  lemma UntouchedStays(rows: seq<Folder>, op: Op, userId: string, f: Folder)
    requires f.userId == userId && !Touches(op, userId, f.id)
    ensures f in Apply(rows, op) <==> f in rows
  {
    if op.Reparent? {
      ReparentedRows(rows, op.id, op.userId, op.parentId, op.now);
      if f in rows { assert MovedRow(f, op.id, op.userId, op.parentId, op.now) == f; }
    }
  }

  /** A folder outside the subtree that hangs under it right after being touched was put there. */
  lemma TouchedWasPut(rows: seq<Folder>, op: Op, userId: string, ids: set<Id>, f: Folder)
    requires Legal(rows, op) && Touches(op, userId, f.id)
    requires f in Apply(rows, op) && HangsFrom(f, userId, ids) && f.id !in ids
    ensures !Harmless(op, userId, ids) && TakesEffect(rows, op) && Placed(op) == Some(f.id)
  {
    if op.Reparent? { ReparentedRows(rows, op.id, op.userId, op.parentId, op.now); }
  }

  lemma PutHangs(rows: seq<Folder>, op: Op, userId: string, ids: set<Id>) returns (f: Folder)
    requires PutsUnder(op, userId, ids) && TakesEffect(rows, op)
    ensures f in Apply(rows, op) && Some(f.id) == Placed(op) && HangsFrom(f, userId, ids)
  {
    if op.Create? {
      f := op.folder;
    } else {
      var g :| g in rows && g.id == op.id && g.userId == op.userId;
      ReparentedRows(rows, op.id, op.userId, op.parentId, op.now);
      f := MovedRow(g, op.id, op.userId, op.parentId, op.now);
    }
  }

  lemma StrayedOn(before: seq<Folder>, ops: seq<Op>, userId: string, ids: set<Id>, k: nat)
    requires k < |ops| - 1
    ensures var front, last := ops[..|ops| - 1], ops[|ops| - 1];
            Strayed(before, ops, userId, ids, k)
            <==> Strayed(before, front, userId, ids, k) && !Touches(last, userId, Placed(ops[k]).value)
  {
    assert ops[..|ops| - 1][..k] == ops[..k];
  }

  lemma {:induction false} OrphanStrayed(before: seq<Folder>, ops: seq<Op>, userId: string, ids: set<Id>, f: Folder)
    returns (k: nat)
    requires LegalRun(before, ops) && ClosedDownwards(before, userId, ids)
    requires Orphaned(f, Run(before, ops), userId, ids)
    ensures k < |ops| && Strayed(before, ops, userId, ids, k) && Placed(ops[k]) == Some(f.id)
    decreases |ops|
  {
    var front, last := ops[..|ops| - 1], ops[|ops| - 1];
    RunOneMore(before, ops);
    if Touches(last, userId, f.id) {
      TouchedWasPut(Run(before, front), last, userId, ids, f);
      k := |ops| - 1;
    } else {
      UntouchedStays(Run(before, front), last, userId, f);
      k := OrphanStrayed(before, front, userId, ids, f);
      StrayedOn(before, ops, userId, ids, k);
    }
  }

  lemma {:induction false} StrayedIsOrphan(before: seq<Folder>, ops: seq<Op>, userId: string, ids: set<Id>, k: nat)
    returns (f: Folder)
    requires k < |ops| && Strayed(before, ops, userId, ids, k)
    ensures Some(f.id) == Placed(ops[k]) && Orphaned(f, Run(before, ops), userId, ids)
    decreases |ops|
  {
    var front, last := ops[..|ops| - 1], ops[|ops| - 1];
    if k == |ops| - 1 {
      f := PutHangs(Run(before, front), last, userId, ids);
    } else {
      StrayedOn(before, ops, userId, ids, k);
      f := StrayedIsOrphan(before, front, userId, ids, k);
      UntouchedStays(Run(before, front), last, userId, f);
    }
  }

  /** The subtree is taken, other requests run, and then it is deleted: a folder is left without its parent exactly when
      one of them put a folder under the subtree that was not in it, and no later one moved or deleted that folder. */
  lemma LateDeleteOrphansIff(before: seq<Folder>, ops: seq<Op>, userId: string, root: Id, ids: set<Id>)
    requires LegalRun(before, ops) && forall id :: id in ids <==> InSubtree(before, userId, root, id)
    ensures LeavesOrphan(Run(before, ops), userId, ids) <==> SomeStrayed(before, ops, userId, ids)
  {
    SubtreeIsClosed(before, userId, root, ids);
    if LeavesOrphan(Run(before, ops), userId, ids) { OrphansStrayed(before, ops, userId, ids); }
    if SomeStrayed(before, ops, userId, ids) {
      var k :| 0 <= k < |ops| && Strayed(before, ops, userId, ids, k);
      var f := StrayedIsOrphan(before, ops, userId, ids, k);
    }
  }

  ghost predicate LeavesOrphan(rows: seq<Folder>, userId: string, ids: set<Id>) {
    exists f :: Orphaned(f, rows, userId, ids)
  }

  ghost predicate SomeStrayed(before: seq<Folder>, ops: seq<Op>, userId: string, ids: set<Id>) {
    exists k :: 0 <= k < |ops| && Strayed(before, ops, userId, ids, k)
  }

  lemma OrphansStrayed(before: seq<Folder>, ops: seq<Op>, userId: string, ids: set<Id>)
    requires LegalRun(before, ops) && ClosedDownwards(before, userId, ids)
    requires LeavesOrphan(Run(before, ops), userId, ids)
    ensures SomeStrayed(before, ops, userId, ids)
  {
    var f :| Orphaned(f, Run(before, ops), userId, ids);
    var k := OrphanStrayed(before, ops, userId, ids, f);
  }

  /** So nothing is orphaned when every operation passes that check. */
  lemma HarmlessLeavesNoOrphan(before: seq<Folder>, ops: seq<Op>, userId: string, root: Id, ids: set<Id>, f: Folder)
    requires LegalRun(before, ops) && forall id :: id in ids <==> InSubtree(before, userId, root, id)
    requires forall k :: 0 <= k < |ops| ==> Harmless(ops[k], userId, ids)
    ensures !Orphaned(f, Run(before, ops), userId, ids)
  {
    SubtreeIsClosed(before, userId, root, ids);
    if Orphaned(f, Run(before, ops), userId, ids) { var _ := OrphanStrayed(before, ops, userId, ids, f); }
  }

  /** One folder created under the root meanwhile is enough. */
  lemma CreatedMeanwhileIsOrphaned(before: seq<Folder>, userId: string, root: Folder, child: Folder, ids: set<Id>)
    requires root in before && root.userId == userId && forall f <- before :: f.id != child.id
    requires child.userId == userId && child.parentId == Some(root.id)
    requires forall id :: id in ids <==> InSubtree(before, userId, root.id, id)
    ensures LegalRun(before, [Create(child)]) && Orphaned(child, Run(before, [Create(child)]), userId, ids)
  {
    var ops := [Create(child)];
    assert ops[..0] == [] && Run(before, ops[..0]) == before;
    assert Climbs(before, userId, root.id, root.id, 0);
    forall n: nat ensures !Climbs(before, userId, root.id, child.id, n) {}
    assert child in before + [child];
  }

  // --- Folders moved out of it -------------------------------------------------------------------

  lemma {:induction false} ClimbsInMore(rows: seq<Folder>, more: seq<Folder>, userId: string, top: Id, start: Id,
                                        n: nat)
    requires Climbs(rows, userId, top, start, n) && forall f: Folder :: f in rows && f.userId == userId ==> f in more
    ensures Climbs(more, userId, top, start, n)
    decreases n
  {
    if n > 0 {
      var f :| f in rows && f.id == start && f.userId == userId && f.parentId.Some?
               && Climbs(rows, userId, top, f.parentId.value, n - 1);
      ClimbsInMore(rows, more, userId, top, f.parentId.value, n - 1);
    }
  }

  /** A climb to `top` does without `id`'s row, or goes through `id`. */
  lemma {:induction false} ClimbWithout(rows: seq<Folder>, userId: string, top: Id, id: Id, start: Id, n: nat)
    returns (m: nat)
    requires Climbs(rows, userId, top, start, n) && id != top
    ensures m <= n
    ensures Climbs(WithoutFolders(rows, userId, {id}), userId, top, start, n) || Climbs(rows, userId, top, id, m)
    decreases n
  {
    m := n;
    if n > 0 && start != id {
      var f :| f in rows && f.id == start && f.userId == userId && f.parentId.Some?
               && Climbs(rows, userId, top, f.parentId.value, n - 1);
      m := ClimbWithout(rows, userId, top, id, f.parentId.value, n - 1);
    }
  }

  /** From the last time it passes `id`, a climb goes on by way of `id`'s parent and without `id`. */
  lemma {:induction false} LeavesForGood(rows: seq<Folder>, userId: string, top: Id, id: Id, parentId: Option<Id>,
                                         n: nat)
    requires Climbs(rows, userId, top, id, n) && id != top
    requires forall f <- rows :: f.id == id && f.userId == userId ==> f.parentId == parentId
    ensures parentId.Some? && InSubtree(WithoutFolders(rows, userId, {id}), userId, top, parentId.value)
    decreases n
  {
    var f :| f in rows && f.id == id && f.userId == userId && f.parentId.Some?
             && Climbs(rows, userId, top, f.parentId.value, n - 1);
    var m := ClimbWithout(rows, userId, top, id, f.parentId.value, n - 1);
    if !Climbs(WithoutFolders(rows, userId, {id}), userId, top, f.parentId.value, n - 1) {
      LeavesForGood(rows, userId, top, id, parentId, m);
    }
  }

  /** A moved folder is under the root exactly when its new parent is, by a way that does not pass the folder itself. */
  lemma MovedIsUnderIff(before: seq<Folder>, userId: string, root: Id, id: Id, parentId: Option<Id>, now: int)
    requires id != root && exists f :: f in before && f.id == id && f.userId == userId
    ensures InSubtree(Reparented(before, id, userId, parentId, now), userId, root, id)
            <==> parentId.Some? && InSubtree(WithoutFolders(before, userId, {id}), userId, root, parentId.value)
  {
    var moved := Reparented(before, id, userId, parentId, now);
    ReparentedDiffersInOneRow(before, id, userId, parentId, now);
    if n: nat :| Climbs(moved, userId, root, id, n) {
      LeavesForGood(moved, userId, root, id, parentId, n);
      var m: nat :| Climbs(WithoutFolders(moved, userId, {id}), userId, root, parentId.value, m);
      ClimbsInMore(WithoutFolders(moved, userId, {id}), WithoutFolders(before, userId, {id}), userId, root,
                   parentId.value, m);
    }
    if parentId.Some? && InSubtree(WithoutFolders(before, userId, {id}), userId, root, parentId.value) {
      var m: nat :| Climbs(WithoutFolders(before, userId, {id}), userId, root, parentId.value, m);
      ClimbsInMore(WithoutFolders(before, userId, {id}), moved, userId, root, parentId.value, m);
      assert Climbs(moved, userId, root, id, m + 1);
    }
  }

  /** A folder moved out of the subtree meanwhile is deleted with it all the same, though it lies outside by then. */
  lemma MovedOutIsDeletedToo(before: seq<Folder>, userId: string, root: Id, ids: set<Id>, id: Id, parentId: Option<Id>,
                             now: int, f: Folder)
    requires forall x :: x in ids <==> InSubtree(before, userId, root, x)
    requires id in ids && id != root && (parentId.Some? ==> parentId.value !in ids)
    ensures var moved := Run(before, [Reparent(id, userId, parentId, now)]);
            && !InSubtree(moved, userId, root, id)
            && (f.id == id && f.userId == userId ==> f !in WithoutFolders(moved, userId, ids))
  {
    var ops := [Reparent(id, userId, parentId, now)];
    assert ops[..0] == [] && Run(before, ops[..0]) == before;
    var n: nat :| Climbs(before, userId, root, id, n);
    MovedIsUnderIff(before, userId, root, id, parentId, now);
    if parentId.Some? {
      forall m: nat ensures !Climbs(WithoutFolders(before, userId, {id}), userId, root, parentId.value, m) {
        if Climbs(WithoutFolders(before, userId, {id}), userId, root, parentId.value, m) {
          ClimbsInMore(WithoutFolders(before, userId, {id}), before, userId, root, parentId.value, m);
        }
      }
    }
  }

  // --- Two moves at once --------------------------------------------------------------------------

  /** Two moves, each checked before either was made, can both pass and together make a cycle: each folder goes under
      the other. */
  lemma MovesCheckedTogetherMakeCycle(rows: seq<Folder>, userId: string, a: Id, b: Id, now: int)
    requires exists f :: f in rows && f.id == a && f.userId == userId
    requires exists f :: f in rows && f.id == b && f.userId == userId
    requires a != b && !InSubtree(rows, userId, a, b) && !InSubtree(rows, userId, b, a)
    ensures OnCycle(Apply(Apply(rows, Reparent(a, userId, Some(b), now)), Reparent(b, userId, Some(a), now)), userId, b)
  {
    var once := Reparented(rows, a, userId, Some(b), now);
    var f :| f in rows && f.id == a && f.userId == userId;
    var g :| g in rows && g.id == b && g.userId == userId;
    ReparentedRows(rows, a, userId, Some(b), now);
    assert MovedRow(f, a, userId, Some(b), now) in once && MovedRow(g, a, userId, Some(b), now) in once;
    assert Climbs(once, userId, b, b, 0);
    assert Climbs(once, userId, b, a, 1);
    UnderItselfMakesCycle(once, userId, b, a, now);
  }
}
