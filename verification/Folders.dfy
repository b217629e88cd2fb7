/** Folder subtrees (models/folders.py): a parent graph that may hold cycles,
    walked by a worklist and by a recursive descent, and deleted as one set. */
module Folders {
  import opened Text

  type Id = string

  datatype Folder = Folder(id: Id, parentId: Option<Id>, userId: string, name: string, updatedAt: int)

  /** `id` is the table's primary key. */
  ghost predicate UniqueIds(rows: seq<Folder>) {
    forall i, j :: 0 <= i < j < |rows| ==> rows[i].id != rows[j].id
  }

  predicate IsChild(f: Folder, parentId: Id, userId: string) {
    f.parentId == Some(parentId) && f.userId == userId
  }

  function Ids(rows: seq<Folder>): (ids: set<Id>) {
    set f <- rows :: f.id
  }

  // --- The queries -------------------------------------------------------------

  /** `get_folders_by_parent_id_and_user_id`: the children, the latest updated first. */
  function SelectChildren(rows: seq<Folder>, parentId: Id, userId: string): (children: seq<Folder>)
    ensures forall f :: f in children <==> f in rows && IsChild(f, parentId, userId)
  {
    if rows == [] then []
    else
      var rest := SelectChildren(rows[1..], parentId, userId);
      if IsChild(rows[0], parentId, userId) then
        Insert(rows[0], FirstNotAfter(rows[0], rest), rest)
      else rest
  }

  /** Where `f` goes in a list with the latest updated first. */
  function FirstNotAfter(f: Folder, sorted: seq<Folder>): (at: nat)
    ensures at <= |sorted|
    ensures forall i :: 0 <= i < at ==> sorted[i].updatedAt > f.updatedAt
    ensures at < |sorted| ==> sorted[at].updatedAt <= f.updatedAt
  {
    if sorted == [] || sorted[0].updatedAt <= f.updatedAt then 0
    else 1 + FirstNotAfter(f, sorted[1..])
  }

  function Insert(f: Folder, at: nat, rows: seq<Folder>): (r: seq<Folder>)
    requires at <= |rows|
    ensures forall g :: g in r <==> g == f || g in rows
  {
    assert rows == rows[..at] + rows[at..];
    rows[..at] + [f] + rows[at..]
  }

  ghost predicate LatestFirst(rows: seq<Folder>) {
    forall i, j :: 0 <= i < j < |rows| ==> rows[i].updatedAt >= rows[j].updatedAt
  }

  lemma {:induction false} SelectedChildrenAreOrdered(rows: seq<Folder>, parentId: Id, userId: string)
    ensures LatestFirst(SelectChildren(rows, parentId, userId))
    ensures UniqueIds(rows) ==> UniqueIds(SelectChildren(rows, parentId, userId))
  {
    if rows != [] {
      var f, rest := rows[0], SelectChildren(rows[1..], parentId, userId);
      var at := FirstNotAfter(f, rest);
      SelectedChildrenAreOrdered(rows[1..], parentId, userId);
      InsertKeepsOrder(f, rest, at);
      if UniqueIds(rows) && IsChild(f, parentId, userId) {
        FirstIsAlone(rows);
        InsertKeepsUnique(f, rest, at);
      }
    }
  }

  lemma FirstIsAlone(rows: seq<Folder>)
    requires UniqueIds(rows) && rows != []
    ensures UniqueIds(rows[1..]) && forall f <- rows[1..] :: f.id != rows[0].id
  {
  }

  lemma InsertKeepsOrder(f: Folder, rows: seq<Folder>, at: nat)
    requires LatestFirst(rows) && at == FirstNotAfter(f, rows)
    ensures LatestFirst(Insert(f, at, rows))
  {
  }

  lemma InsertKeepsUnique(f: Folder, rows: seq<Folder>, at: nat)
    requires UniqueIds(rows) && at <= |rows| && forall g :: g in rows ==> g.id != f.id
    ensures UniqueIds(Insert(f, at, rows))
  {
    forall i | 0 <= i < |rows| ensures rows[i].id != f.id { assert rows[i] in rows; }
  }

  /** `select(Folder).filter_by(id=id, user_id=user_id)`, first row. */
  function SelectOwned(rows: seq<Folder>, id: Id, userId: string): (r: Option<Folder>)
    ensures r.Some? ==> r.value in rows && r.value.id == id && r.value.userId == userId
    ensures r.None? ==> forall f <- rows :: !(f.id == id && f.userId == userId)
  {
    if rows == [] then None
    else if rows[0].id == id && rows[0].userId == userId then Some(rows[0])
    else SelectOwned(rows[1..], id, userId)
  }

  // --- What a subtree is ---------------------------------------------------------

  /** Following `n` parent links up from `id`, over this user's folders only, ends at `root`. */
  ghost predicate Climbs(rows: seq<Folder>, userId: string, root: Id, id: Id, n: nat)
    decreases n
  {
    if n == 0 then id == root && exists f :: f in rows && f.id == root && f.userId == userId
    else exists f :: f in rows && f.id == id && f.userId == userId && f.parentId.Some?
                     && Climbs(rows, userId, root, f.parentId.value, n - 1)
  }

  ghost predicate InSubtree(rows: seq<Folder>, userId: string, root: Id, id: Id) {
    exists n: nat :: Climbs(rows, userId, root, id, n)
  }

  /** A set of ids that holds every child of its members. */
  ghost predicate ClosedDownwards(rows: seq<Folder>, userId: string, ids: set<Id>) {
    forall f <- rows :: HangsFrom(f, userId, ids) ==> f.id in ids
  }

  lemma {:induction false} ClosedHoldsSubtree(rows: seq<Folder>, userId: string, root: Id, ids: set<Id>, id: Id, n: nat)
    decreases n
    requires ClosedDownwards(rows, userId, ids) && root in ids
    requires Climbs(rows, userId, root, id, n)
    ensures id in ids
  {
    if n > 0 {
      var f :| f in rows && f.id == id && f.userId == userId && f.parentId.Some?
               && Climbs(rows, userId, root, f.parentId.value, n - 1);
      ClosedHoldsSubtree(rows, userId, root, ids, f.parentId.value, n - 1);
    }
  }

  lemma ChildInSubtree(rows: seq<Folder>, userId: string, root: Id, parent: Id, f: Folder)
    requires InSubtree(rows, userId, root, parent)
    requires f in rows && IsChild(f, parent, userId)
    ensures InSubtree(rows, userId, root, f.id)
  {
    var n: nat :| Climbs(rows, userId, root, parent, n);
    assert Climbs(rows, userId, root, f.id, n + 1);
  }

  lemma ChildrenInSubtree(rows: seq<Folder>, userId: string, root: Id, parent: Id, children: seq<Folder>)
    requires InSubtree(rows, userId, root, parent)
    requires forall f :: f in children ==> f in rows && IsChild(f, parent, userId)
    ensures forall x <- Ids(children) :: InSubtree(rows, userId, root, x)
  {
    forall f | f in children ensures InSubtree(rows, userId, root, f.id) {
      ChildInSubtree(rows, userId, root, parent, f);
    }
  }

  /** A closed set grown only from the root is the subtree, whatever order it was grown in. */
  lemma ClosedAndReachedIsSubtree(rows: seq<Folder>, userId: string, root: Id, ids: set<Id>)
    requires root in ids && ClosedDownwards(rows, userId, ids)
    requires forall id <- ids :: InSubtree(rows, userId, root, id)
    ensures forall id :: id in ids <==> InSubtree(rows, userId, root, id)
  {
    forall id | InSubtree(rows, userId, root, id) ensures id in ids {
      var n: nat :| Climbs(rows, userId, root, id, n);
      ClosedHoldsSubtree(rows, userId, root, ids, id, n);
    }
  }

  // --- The worklist ----------------------------------------------------------------

  /** `get_folder_ids_by_id_and_user_id_in_subtree`. The list it returns is a set's, in no particular order. */
  method SubtreeIds(rows: seq<Folder>, id: Id, userId: string) returns (folderIds: set<Id>)
    ensures forall x :: x in folderIds <==> InSubtree(rows, userId, id, x)
  {
    var folder := SelectOwned(rows, id, userId);
    if folder.None? {
      NothingUnderMissing(rows, userId, id);
      return {};
    }
    folderIds := {folder.value.id};
    var folders := [folder.value];
    assert Climbs(rows, userId, id, id, 0);
    while folders != []
      invariant id in folderIds && folderIds <= Ids(rows)
      invariant forall f <- folders :: f.id in folderIds
      invariant forall x <- folderIds :: InSubtree(rows, userId, id, x)
      invariant Frontier(rows, userId, folderIds, folders)
      decreases Ids(rows) - folderIds, |folders|
    {
      var current := folders[|folders| - 1];
      ghost var all, before := folders, folderIds;
      folders := folders[..|folders| - 1];
      var children := SelectChildren(rows, current.id, userId);
      folderIds, folders := AddChildren(children, folderIds, folders);
      ChildrenInSubtree(rows, userId, id, current.id, children);
      FrontierMoves(rows, userId, before, all, children, folderIds, folders);
    }
    ClosedAndReachedIsSubtree(rows, userId, id, folderIds);
  }

  /** Children not yet in the set hang from a folder still waiting in the list. */
  ghost predicate Frontier(rows: seq<Folder>, userId: string, ids: set<Id>, work: seq<Folder>) {
    forall f :: f in rows && HangsFrom(f, userId, ids) && f.id !in ids ==> Waiting(f.parentId.value, work)
  }

  lemma FrontierMoves(rows: seq<Folder>, userId: string, ids: set<Id>, work: seq<Folder>, children: seq<Folder>,
                      ids': set<Id>, work': seq<Folder>)
    requires Frontier(rows, userId, ids, work) && work != []
    requires forall f :: f in children <==> f in rows && IsChild(f, work[|work| - 1].id, userId)
    requires ids' == ids + Ids(children) && work[..|work| - 1] <= work'
    requires forall x <- ids' - ids :: Waiting(x, work')
    ensures Frontier(rows, userId, ids', work')
  {
    forall f | f in rows && HangsFrom(f, userId, ids') ensures f.id in ids' || Waiting(f.parentId.value, work') {
      var p := f.parentId.value;
      if p in ids && f.id !in ids {
        assert Waiting(p, work);
        var g :| g in work && g.id == p;
        var i :| 0 <= i < |work| && work[i] == g;
        if i < |work| - 1 {
          assert work'[i] == g;
        } else {
          assert f in children;
        }
      }
    }
  }

  predicate HangsFrom(f: Folder, userId: string, ids: set<Id>) {
    f.userId == userId && f.parentId.Some? && f.parentId.value in ids
  }

  ghost predicate Waiting(id: Id, folders: seq<Folder>) {
    exists f :: f in folders && f.id == id
  }

  /** One turn of the worklist: every child not met before joins the set and the list. */
  method AddChildren(children: seq<Folder>, ids: set<Id>, work: seq<Folder>)
    returns (folderIds: set<Id>, folders: seq<Folder>)
    ensures folderIds == ids + Ids(children)
    ensures folderIds == ids ==> folders == work
    ensures work <= folders
    ensures forall f :: f in folders ==> f in work || f in children
    ensures forall x <- folderIds - ids :: Waiting(x, folders)
  {
    folderIds, folders := ids, work;
    for i := 0 to |children|
      invariant folderIds == ids + Ids(children[..i])
      invariant folderIds == ids ==> folders == work
      invariant work <= folders
      invariant forall f :: f in folders ==> f in work || f in children
      invariant forall x <- folderIds - ids :: Waiting(x, folders)
    {
      var child := children[i];
      assert Ids(children[..i + 1]) == Ids(children[..i]) + {child.id} by {
        assert children[..i + 1] == children[..i] + [child];
        assert children[..i + 1][i] == child;
      }
      if child.id !in folderIds {
        ghost var before := folders;
        folderIds := folderIds + {child.id};
        folders := folders + [child];
        assert folders[|before|] == child;
        forall x | x in folderIds - ids && x != child.id ensures Waiting(x, folders) {
          assert Waiting(x, before);
        }
      }
    }
    assert children[..|children|] == children;
  }

  lemma NothingUnderMissing(rows: seq<Folder>, userId: string, root: Id)
    requires forall f <- rows :: !(f.id == root && f.userId == userId)
    ensures forall id :: !InSubtree(rows, userId, root, id)
  {
    forall id, n: nat ensures !Climbs(rows, userId, root, id, n) { NothingClimbs(rows, userId, root, id, n); }
  }

  lemma {:induction false} NothingClimbs(rows: seq<Folder>, userId: string, root: Id, id: Id, n: nat)
    requires forall f <- rows :: !(f.id == root && f.userId == userId)
    ensures !Climbs(rows, userId, root, id, n)
    decreases n
  {
    if n > 0 {
      forall f | f in rows && f.parentId.Some? ensures !Climbs(rows, userId, root, f.parentId.value, n - 1) {
        NothingClimbs(rows, userId, root, f.parentId.value, n - 1);
      }
    }
  }

  // --- The recursive walk -----------------------------------------------------------

  /** `get_children_folders_by_id_and_user_id`: the two closure variables of its inner function. */
  class SubtreeWalk {
    const rows: seq<Folder>
    const userId: string
    var seenIds: set<Id>
    var folders: seq<Folder>

    constructor (rows: seq<Folder>, userId: string, id: Id)
      ensures this.rows == rows && this.userId == userId && seenIds == {id} && folders == []
    {
      this.rows, this.userId := rows, userId;
      seenIds, folders := {id}, [];
    }

    /** `block` holds the folders met since `seen`, each once and before its own parent. */
    ghost predicate Grown(parent: Id, seen: set<Id>, seen': set<Id>, block: seq<Folder>) {
      && seen <= seen' && seen' - seen == Ids(block) && UniqueIds(block)
      && (forall f :: f in block ==> f in rows && f.userId == userId && f.id !in seen)
      && (forall f :: f in rows && HangsFrom(f, userId, Ids(block)) ==> f.id in seen')
      && (forall i :: 0 <= i < |block| ==> HasParentAfter(block, i, parent))
    }

    /** What one call adds: the folders newly met below `parent`. */
    ghost predicate Added(parent: Id, seen: set<Id>, seen': set<Id>, block: seq<Folder>) {
      && Grown(parent, seen, seen', block)
      && (forall f :: f in rows && IsChild(f, parent, userId) ==> f.id in seen')
    }

    ghost predicate HasParentAfter(block: seq<Folder>, i: nat, parent: Id)
      requires i < |block|
    {
      && block[i].parentId.Some?
      && (block[i].parentId.value == parent || exists j :: i < j < |block| && block[j].id == block[i].parentId.value)
    }

    lemma JoinBlocks(parent: Id, seen0: set<Id>, seen: set<Id>, seen': set<Id>,
                     block: seq<Folder>, below: seq<Folder>, child: Folder)
      requires Grown(parent, seen0, seen, block)
      requires child in rows && IsChild(child, parent, userId) && child.id !in seen
      requires Added(child.id, seen + {child.id}, seen', below)
      ensures Grown(parent, seen0, seen', block + below + [child])
    {
      var all := block + below + [child];
      IdsOfJoined(block, below, child);
      JoinedUnique(block, below, child, seen);
      forall k | 0 <= k < |all| ensures HasParentAfter(all, k, parent) {
        JoinedParents(parent, block, below, child, k);
      }
    }

    lemma IdsOfJoined(block: seq<Folder>, below: seq<Folder>, child: Folder)
      ensures Ids(block + below + [child]) == Ids(block) + Ids(below) + {child.id}
    {
      var all := block + below + [child];
      assert all[|all| - 1] == child && child in all;
      forall f | f in block || f in below ensures f in all {}
    }

    lemma JoinedUnique(block: seq<Folder>, below: seq<Folder>, child: Folder, seen: set<Id>)
      requires UniqueIds(block) && UniqueIds(below) && child.id !in seen
      requires Ids(block) <= seen && forall f :: f in below ==> f.id !in seen + {child.id}
      ensures UniqueIds(block + below + [child])
    {
      forall i | 0 <= i < |block| ensures block[i].id in seen { assert block[i] in block && block[i].id in Ids(block); }
      forall i | 0 <= i < |below| ensures below[i].id !in seen + {child.id} { assert below[i] in below; }
    }

    lemma JoinedParents(parent: Id, block: seq<Folder>, below: seq<Folder>, child: Folder, k: nat)
      requires forall i :: 0 <= i < |block| ==> HasParentAfter(block, i, parent)
      requires forall i :: 0 <= i < |below| ==> HasParentAfter(below, i, child.id)
      requires child.parentId == Some(parent) && k <= |block| + |below|
      ensures HasParentAfter(block + below + [child], k, parent)
    {
      var all := block + below + [child];
      if k < |block| {
        assert HasParentAfter(block, k, parent) && all[k] == block[k];
        if block[k].parentId.value != parent {
          var j :| k < j < |block| && block[j].id == block[k].parentId.value;
          assert all[j] == block[j];
        }
      } else if k < |block| + |below| {
        var b := k - |block|;
        assert HasParentAfter(below, b, child.id) && all[k] == below[b];
        if below[b].parentId.value != child.id {
          var j :| b < j < |below| && below[j].id == below[b].parentId.value;
          assert all[|block| + j] == below[j];
        } else {
          assert all[|block| + |below|] == child;
        }
      }
    }

    /** Called on the root, the walk adds the rest of the root's subtree, children before parents. */
    lemma AddedIsSubtree(root: Id, seen: set<Id>, block: seq<Folder>)
      requires UniqueIds(rows) && exists f :: f in rows && f.id == root && f.userId == userId
      requires Added(root, {root}, seen, block)
      ensures forall f ::
                f in block <==> f in rows && f.userId == userId && f.id != root && InSubtree(rows, userId, root, f.id)
      ensures forall i, j :: 0 <= i < |block| && 0 <= j < |block| && block[i].parentId == Some(block[j].id) ==> i < j
    {
      forall i | 0 <= i < |block| ensures InSubtree(rows, userId, root, block[i].id) {
        BlockInSubtree(root, seen, block, i);
      }
      assert Climbs(rows, userId, root, root, 0);
      assert ClosedDownwards(rows, userId, seen) by {
        forall f | f in rows && HangsFrom(f, userId, seen) ensures f.id in seen {
          if f.parentId.value == root { assert IsChild(f, root, userId); }
        }
      }
      forall x | x in seen ensures InSubtree(rows, userId, root, x) {
        if x != root {
          assert x in Ids(block);
          var g :| g in block && g.id == x;
          var i :| 0 <= i < |block| && block[i] == g;
        }
      }
      ClosedAndReachedIsSubtree(rows, userId, root, seen);
      forall f | f in rows && f.userId == userId && f.id in Ids(block) ensures f in block {
        var g :| g in block && g.id == f.id;
      }
      forall i, j | 0 <= i < |block| && 0 <= j < |block| && block[i].parentId == Some(block[j].id) ensures i < j {
        assert HasParentAfter(block, i, root) && block[j] in block;
      }
    }

    lemma {:induction false} BlockInSubtree(root: Id, seen: set<Id>, block: seq<Folder>, i: nat)
      requires exists f :: f in rows && f.id == root && f.userId == userId
      requires Added(root, {root}, seen, block) && i < |block|
      ensures InSubtree(rows, userId, root, block[i].id)
      decreases |block| - i
    {
      assert HasParentAfter(block, i, root) && block[i] in block;
      if block[i].parentId.value == root {
        assert Climbs(rows, userId, root, root, 0);
      } else {
        var j :| i < j < |block| && block[j].id == block[i].parentId.value;
        BlockInSubtree(root, seen, block, j);
      }
      ChildInSubtree(rows, userId, root, block[i].parentId.value, block[i]);
    }

    method GetChildren(parent: Id) returns (ghost block: seq<Folder>)
      requires UniqueIds(rows)
      modifies this
      ensures folders == old(folders) + block && Added(parent, old(seenIds), seenIds, block)
      decreases Ids(rows) - seenIds, 1
    {
      var children := SelectChildren(rows, parent, userId);
      block := [];
      for i := 0 to |children|
        invariant folders == old(folders) + block
        invariant Grown(parent, old(seenIds), seenIds, block)
        invariant forall k :: 0 <= k < i ==> children[k].id in seenIds
      {
        block := Visit(parent, children[i], old(seenIds), block);
      }
    }

    /** The body of the loop over one folder's children. */
    method Visit(parent: Id, child: Folder, ghost seen: set<Id>, ghost block: seq<Folder>)
      returns (ghost block': seq<Folder>)
      requires UniqueIds(rows) && child in rows && IsChild(child, parent, userId)
      requires Grown(parent, seen, seenIds, block)
      modifies this
      ensures block <= block' && folders == old(folders) + block'[|block|..]
      ensures child.id in seenIds && old(seenIds) <= seenIds && Grown(parent, seen, seenIds, block')
      decreases Ids(rows) - seenIds, 0
    {
      block' := block;
      if child.id in seenIds {
        return;
      }
      ghost var before := seenIds;
      seenIds := seenIds + {child.id};
      ghost var below := GetChildren(child.id);
      folders := folders + [child];
      JoinBlocks(parent, seen, before, seenIds, block, below, child);
      block' := block + below + [child];
    }
  }

  method ChildrenFolders(rows: seq<Folder>, id: Id, userId: string) returns (result: Option<seq<Folder>>)
    requires UniqueIds(rows)
    ensures result.None? <==> forall f <- rows :: !(f.id == id && f.userId == userId)
    ensures result.Some? ==>
      var folders := result.value;
      && UniqueIds(folders)
      && (forall f ::
            f in folders <==> f in rows && f.userId == userId && f.id != id && InSubtree(rows, userId, id, f.id))
      && (forall i, j ::
            0 <= i < |folders| && 0 <= j < |folders| && folders[i].parentId == Some(folders[j].id) ==> i < j)
  {
    var folder := SelectOwned(rows, id, userId);
    if folder.None? {
      return None;
    }
    var walk := new SubtreeWalk(rows, userId, id);
    ghost var block := walk.GetChildren(folder.value.id);
    assert walk.folders == block;
    walk.AddedIsSubtree(id, walk.seenIds, block);
    return Some(walk.folders);
  }

  // --- Deleting and moving ------------------------------------------------------------

  /** What `delete(Folder).where(user_id == user_id, id.in_(folder_ids))` keeps. */
  function WithoutFolders(rows: seq<Folder>, userId: string, ids: set<Id>): (kept: seq<Folder>)
    ensures forall f :: f in kept <==> f in rows && !(f.userId == userId && f.id in ids)
  {
    if rows == [] then []
    else
      var rest := WithoutFolders(rows[1..], userId, ids);
      if rows[0].userId == userId && rows[0].id in ids then rest else [rows[0]] + rest
  }

  /** `update_folder_parent_id_by_id_and_user_id` on the rows. */
  function Reparented(rows: seq<Folder>, id: Id, userId: string, parentId: Option<Id>, now: int): seq<Folder> {
    if rows == [] then []
    else [MovedRow(rows[0], id, userId, parentId, now)] + Reparented(rows[1..], id, userId, parentId, now)
  }

  function MovedRow(f: Folder, id: Id, userId: string, parentId: Option<Id>, now: int): Folder {
    if f.id == id && f.userId == userId then f.(parentId := parentId, updatedAt := now) else f
  }

  /** Row by row: this user's folder has the new parent, the new time, and its name and owner still; other rows are as
      they were, in their places. */
  ghost predicate IsMoved(before: seq<Folder>, after: seq<Folder>, id: Id, userId: string, parentId: Option<Id>,
                          now: int) {
    && |after| == |before|
    && forall i :: 0 <= i < |before| ==>
         after[i] == if before[i].id == id && before[i].userId == userId
                     then Folder(id, parentId, userId, before[i].name, now) else before[i]
  }

  lemma {:induction false} ReparentedIsMoved(rows: seq<Folder>, id: Id, userId: string, parentId: Option<Id>, now: int)
    ensures IsMoved(rows, Reparented(rows, id, userId, parentId, now), id, userId, parentId, now)
  {
    if rows != [] {
      var rest := Reparented(rows[1..], id, userId, parentId, now);
      ReparentedIsMoved(rows[1..], id, userId, parentId, now);
      forall i | 0 < i < |rows|
        ensures Reparented(rows, id, userId, parentId, now)[i] == rest[i - 1] && rows[i] == rows[1..][i - 1]
      {
      }
    }
  }

  /** What a delete keeps, it keeps in order: each row is kept or not on its own account. */
  lemma {:induction false} RowByRow(rows: seq<Folder>, more: seq<Folder>, userId: string, ids: set<Id>)
    ensures WithoutFolders(rows + more, userId, ids)
            == WithoutFolders(rows, userId, ids) + WithoutFolders(more, userId, ids)
    ensures |rows| == 1 ==> WithoutFolders(rows, userId, ids)
                            == if rows[0].userId == userId && rows[0].id in ids then [] else rows
  {
    if rows == [] {
      assert rows + more == more;
    } else {
      assert (rows + more)[1..] == rows[1..] + more;
      RowByRow(rows[1..], more, userId, ids);
      assert |rows| == 1 ==> rows[1..] == [];
    }
  }

  datatype MoveResult = UnderItself | NoSuchFolder | Moved(folder: Folder)

  class FolderTable {
    var rows: seq<Folder>

    /** `delete_folder_by_id_and_user_id`; `folderIds` is the subtree as the caller already took it. */
    method Delete(id: Id, userId: string, folderIds: Option<set<Id>>) returns (deleted: set<Id>)
      modifies this
      ensures folderIds.Some? ==> deleted == folderIds.value
      ensures folderIds.None? ==> forall x :: x in deleted <==> InSubtree(old(rows), userId, id, x)
      ensures rows == WithoutFolders(old(rows), userId, deleted)
    {
      if folderIds.None? {
        deleted := SubtreeIds(rows, id, userId);
      } else {
        deleted := folderIds.value;
      }
      if deleted == {} {
        NothingWithout(rows, userId);
        return;
      }
      rows := WithoutFolders(rows, userId, deleted);
    }

    /** `update_folder_parent_id_by_id_and_user_id`; a parent of None moves the folder to the root. */
    method UpdateParent(id: Id, userId: string, parentId: Option<Id>, now: int) returns (moved: Option<Folder>)
      modifies this
      ensures rows == Reparented(old(rows), id, userId, parentId, now)
      ensures moved.None? ==> rows == old(rows)
      ensures moved.Some? <==> exists f :: f in old(rows) && f.id == id && f.userId == userId
      ensures moved.Some? ==> moved.value in rows && moved.value.id == id && moved.value.parentId == parentId
      ensures IsMoved(old(rows), rows, id, userId, parentId, now)
    {
      ReparentedIsMoved(rows, id, userId, parentId, now);
      var folder := SelectOwned(rows, id, userId);
      if folder.None? {
        NothingReparented(rows, id, userId, parentId, now);
        return None;
      }
      ReparentedRows(rows, id, userId, parentId, now);
      rows := Reparented(rows, id, userId, parentId, now);
      return Some(MovedRow(folder.value, id, userId, parentId, now));
    }

    /** The route that moves a folder (routers/folders.py), from its check against the folder's own subtree on:
        no move it lets through makes a cycle, and the ones it refuses are those that would. */
    method Move(id: Id, userId: string, parentId: Option<Id>, now: int) returns (result: MoveResult)
      modifies this
      ensures result.UnderItself? <==> parentId.Some? && InSubtree(old(rows), userId, id, parentId.value)
      ensures result.UnderItself? || result.NoSuchFolder? ==> rows == old(rows)
      ensures result.Moved? ==> rows == Reparented(old(rows), id, userId, parentId, now) && result.folder in rows
      ensures result.Moved? ==> IsMoved(old(rows), rows, id, userId, parentId, now)
      ensures forall x :: OnCycle(rows, userId, x) ==> OnCycle(old(rows), userId, x)
    {
      if parentId.Some? {
        var subtree := SubtreeIds(rows, id, userId);
        if parentId.value in subtree {
          return UnderItself;
        }
      }
      forall x | OnCycle(Reparented(rows, id, userId, parentId, now), userId, x) ensures OnCycle(rows, userId, x) {
        MoveMakesNoOtherCycle(rows, userId, id, parentId, now, x);
      }
      var moved := UpdateParent(id, userId, parentId, now);
      return if moved.None? then NoSuchFolder else Moved(moved.value);
    }
  }

  lemma {:induction false} NothingReparented(rows: seq<Folder>, id: Id, userId: string, parentId: Option<Id>, now: int)
    requires forall f :: f in rows ==> !(f.id == id && f.userId == userId)
    ensures Reparented(rows, id, userId, parentId, now) == rows
  {
    if rows != [] {
      NothingReparented(rows[1..], id, userId, parentId, now);
    }
  }

  lemma {:induction false} NothingWithout(rows: seq<Folder>, userId: string)
    ensures WithoutFolders(rows, userId, {}) == rows
  {
    if rows != [] {
      NothingWithout(rows[1..], userId);
    }
  }

  /** A folder of this user left behind although the folder it sat in was deleted. */
  ghost predicate Orphaned(f: Folder, rows: seq<Folder>, userId: string, ids: set<Id>) {
    f in WithoutFolders(rows, userId, ids) && HangsFrom(f, userId, ids)
  }

  lemma SubtreeIsClosed(rows: seq<Folder>, userId: string, root: Id, ids: set<Id>)
    requires forall id :: id in ids <==> InSubtree(rows, userId, root, id)
    ensures ClosedDownwards(rows, userId, ids)
  {
    forall f | f in rows && HangsFrom(f, userId, ids) ensures f.id in ids {
      ChildInSubtree(rows, userId, root, f.parentId.value, f);
    }
  }

  /** Deleting a folder with everything under it: other users' folders and every folder outside stay as they
      were, in their order, and no folder is left whose parent went. */
  lemma DeletedSubtree(rows: seq<Folder>, userId: string, root: Id, ids: set<Id>, f: Folder)
    requires forall id :: id in ids <==> InSubtree(rows, userId, root, id)
    ensures f in WithoutFolders(rows, userId, ids)
            <==> f in rows && !(f.userId == userId && InSubtree(rows, userId, root, f.id))
    ensures !Orphaned(f, rows, userId, ids)
  {
    SubtreeIsClosed(rows, userId, root, ids);
  }

  // --- Moves and cycles ---------------------------------------------------------------

  /** Two tables that differ in `id`'s own row at most. */
  ghost predicate SameButFor(rows: seq<Folder>, other: seq<Folder>, userId: string, id: Id) {
    && (forall f: Folder :: !(f.id == id && f.userId == userId) ==> (f in rows <==> f in other))
    && ((exists f :: f in rows && f.id == id && f.userId == userId)
        <==> (exists f :: f in other && f.id == id && f.userId == userId))
  }

  lemma {:induction false} ReparentedRows(rows: seq<Folder>, id: Id, userId: string, parentId: Option<Id>, now: int)
    ensures forall f <- rows :: MovedRow(f, id, userId, parentId, now) in Reparented(rows, id, userId, parentId, now)
    ensures forall g <- Reparented(rows, id, userId, parentId, now) ::
              exists f :: f in rows && g == MovedRow(f, id, userId, parentId, now)
  {
    if rows != [] {
      ReparentedRows(rows[1..], id, userId, parentId, now);
      forall g | g in Reparented(rows[1..], id, userId, parentId, now)
        ensures exists f :: f in rows && g == MovedRow(f, id, userId, parentId, now)
      {
        var f :| f in rows[1..] && g == MovedRow(f, id, userId, parentId, now);
        assert f in rows;
      }
    }
  }

  lemma ReparentedDiffersInOneRow(rows: seq<Folder>, id: Id, userId: string, parentId: Option<Id>, now: int)
    ensures SameButFor(rows, Reparented(rows, id, userId, parentId, now), userId, id)
    ensures forall f :: f in Reparented(rows, id, userId, parentId, now) && f.id == id && f.userId == userId
                        ==> f.parentId == parentId
  {
    var moved := Reparented(rows, id, userId, parentId, now);
    ReparentedRows(rows, id, userId, parentId, now);
    forall f: Folder | !(f.id == id && f.userId == userId) ensures f in rows <==> f in moved {
      if f in rows {
        assert MovedRow(f, id, userId, parentId, now) in moved;
      }
    }
    if f :| f in rows && f.id == id && f.userId == userId {
      assert MovedRow(f, id, userId, parentId, now) in moved;
    }
  }

  /** Climbing at least one link from `id` comes back to `id`. */
  ghost predicate OnCycle(rows: seq<Folder>, userId: string, id: Id) {
    exists n: nat :: n > 0 && Climbs(rows, userId, id, id, n)
  }

  /** A climb goes through `id`, after `k` links, or never needs `id`'s row and is one in the other table too. */
  lemma {:induction false} ClimbThroughOrElsewhere(rows: seq<Folder>, other: seq<Folder>, userId: string, id: Id,
                                                   top: Id, start: Id, n: nat) returns (k: nat)
    requires SameButFor(rows, other, userId, id) && Climbs(rows, userId, top, start, n)
    ensures k <= n
    ensures k == n ==> Climbs(other, userId, top, start, n)
    ensures k < n ==> Climbs(other, userId, id, start, k) && Climbs(rows, userId, top, id, n - k)
    decreases n
  {
    if n == 0 {
      k := 0;
    } else {
      var f :| f in rows && f.id == start && f.userId == userId && f.parentId.Some?
               && Climbs(rows, userId, top, f.parentId.value, n - 1);
      if start == id {
        k := 0;
      } else {
        var k' := ClimbThroughOrElsewhere(rows, other, userId, id, top, f.parentId.value, n - 1);
        k := k' + 1;
      }
    }
  }

  lemma {:induction false} ClimbOn(rows: seq<Folder>, userId: string, top: Id, middle: Id, start: Id, k: nat, n: nat)
    requires Climbs(rows, userId, middle, start, k) && Climbs(rows, userId, top, middle, n)
    ensures Climbs(rows, userId, top, start, k + n)
    decreases k
  {
    if k > 0 {
      var f :| f in rows && f.id == start && f.userId == userId && f.parentId.Some?
               && Climbs(rows, userId, middle, f.parentId.value, k - 1);
      ClimbOn(rows, userId, top, middle, f.parentId.value, k - 1, n);
    }
  }

  /** A climb to `id` stays one when only `id`'s own link changes. */
  lemma ClimbIgnoresOwnLink(rows: seq<Folder>, other: seq<Folder>, userId: string, id: Id, start: Id, n: nat)
    requires SameButFor(rows, other, userId, id) && Climbs(rows, userId, id, start, n)
    ensures InSubtree(other, userId, id, start)
  {
    var k := ClimbThroughOrElsewhere(rows, other, userId, id, id, start, n);
    assert Climbs(other, userId, id, start, k);
  }

  /** Moving a folder under `parentId` puts it on a cycle exactly when `parentId` lay in its own subtree. */
  lemma MoveMakesCycleIffUnderItself(rows: seq<Folder>, userId: string, id: Id, parentId: Option<Id>, now: int)
    requires exists f :: f in rows && f.id == id && f.userId == userId
    ensures OnCycle(Reparented(rows, id, userId, parentId, now), userId, id)
            <==> parentId.Some? && InSubtree(rows, userId, id, parentId.value)
  {
    if parentId.Some? && InSubtree(rows, userId, id, parentId.value) {
      UnderItselfMakesCycle(rows, userId, id, parentId.value, now);
    }
    if OnCycle(Reparented(rows, id, userId, parentId, now), userId, id) {
      CycleMeansUnderItself(rows, userId, id, parentId, now);
    }
  }

  lemma UnderItselfMakesCycle(rows: seq<Folder>, userId: string, id: Id, parentId: Id, now: int)
    requires InSubtree(rows, userId, id, parentId) && exists f :: f in rows && f.id == id && f.userId == userId
    ensures OnCycle(Reparented(rows, id, userId, Some(parentId), now), userId, id)
  {
    var moved := Reparented(rows, id, userId, Some(parentId), now);
    ReparentedDiffersInOneRow(rows, id, userId, Some(parentId), now);
    var n: nat :| Climbs(rows, userId, id, parentId, n);
    ClimbIgnoresOwnLink(rows, moved, userId, id, parentId, n);
    var m: nat :| Climbs(moved, userId, id, parentId, m);
    assert Climbs(moved, userId, id, id, m + 1);
  }

  lemma CycleMeansUnderItself(rows: seq<Folder>, userId: string, id: Id, parentId: Option<Id>, now: int)
    requires OnCycle(Reparented(rows, id, userId, parentId, now), userId, id)
    ensures parentId.Some? && InSubtree(rows, userId, id, parentId.value)
  {
    var moved := Reparented(rows, id, userId, parentId, now);
    ReparentedDiffersInOneRow(rows, id, userId, parentId, now);
    var n: nat :| n > 0 && Climbs(moved, userId, id, id, n);
    var g :| g in moved && g.id == id && g.userId == userId && g.parentId.Some?
             && Climbs(moved, userId, id, g.parentId.value, n - 1);
    ClimbIgnoresOwnLink(moved, rows, userId, id, g.parentId.value, n - 1);
  }

  /** A move makes no cycle, of whatever folders, unless it is the one of a folder put under itself. */
  lemma MoveMakesNoOtherCycle(rows: seq<Folder>, userId: string, id: Id, parentId: Option<Id>, now: int, x: Id)
    requires OnCycle(Reparented(rows, id, userId, parentId, now), userId, x)
    ensures OnCycle(rows, userId, x) || (parentId.Some? && InSubtree(rows, userId, id, parentId.value))
  {
    var moved := Reparented(rows, id, userId, parentId, now);
    ReparentedDiffersInOneRow(rows, id, userId, parentId, now);
    var n: nat :| n > 0 && Climbs(moved, userId, x, x, n);
    var k := ClimbThroughOrElsewhere(moved, rows, userId, id, x, x, n);
    if k < n {
      var j := ClimbThroughOrElsewhere(rows, moved, userId, id, id, x, k);
      assert Climbs(moved, userId, id, x, j);
      ClimbOn(moved, userId, id, x, id, n - k, j);
      assert OnCycle(moved, userId, id);
      MoveMakesCycleIffUnderItself(rows, userId, id, parentId, now);
    }
  }

  ghost predicate Acyclic(rows: seq<Folder>, userId: string) {
    forall x :: !OnCycle(rows, userId, x)
  }

  /** On a table without cycles, a move keeps it so exactly when it passes the route's check. */
  lemma MoveKeepsAcyclicIff(rows: seq<Folder>, userId: string, id: Id, parentId: Option<Id>, now: int)
    requires Acyclic(rows, userId) && exists f :: f in rows && f.id == id && f.userId == userId
    ensures Acyclic(Reparented(rows, id, userId, parentId, now), userId)
            <==> !(parentId.Some? && InSubtree(rows, userId, id, parentId.value))
  {
    var moved := Reparented(rows, id, userId, parentId, now);
    MoveMakesCycleIffUnderItself(rows, userId, id, parentId, now);
    forall x | OnCycle(moved, userId, x) ensures parentId.Some? && InSubtree(rows, userId, id, parentId.value) {
      MoveMakesNoOtherCycle(rows, userId, id, parentId, now, x);
    }
  }
}
