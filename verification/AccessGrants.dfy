/** Who may do what (models/access_grants.py): several queries over one table of grants that all
    have to come to the same answer. */
module AccessGrants {
  import opened Text

  datatype Principal = Principal(kind: string, id: string)

  datatype Grant = Grant(resourceType: string, resourceId: string, principal: Principal, permission: string)

  const EVERYONE := Principal("user", "*")

  /** Group membership, as pairs of a group and a member. */
  type Members = set<(string, string)>

  function GroupsOf(members: Members, userId: string): (groups: set<string>)
    ensures forall g :: g in groups <==> (g, userId) in members
  {
    set m <- members | m.1 == userId :: m.0
  }

  function MembersOf(members: Members, group: string): (users: set<string>)
    ensures forall u :: u in users <==> (group, u) in members
  {
    set m <- members | m.0 == group :: m.1
  }

  // --- One check, and the queries that stand in for it -------------------------------------

  /** One clause of an `or_(...)`: the grant's principal is this one, or a group among these. */
  datatype Clause = Is(principal: Principal) | GroupIn(groups: set<string>)

  predicate Meets(p: Principal, clause: Clause) {
    match clause
    case Is(principal) => p == principal
    case GroupIn(groups) => p.kind == "group" && p.id in groups
  }

  predicate MeetsAny(p: Principal, clauses: seq<Clause>) {
    clauses != [] && (Meets(p, clauses[0]) || MeetsAny(p, clauses[1..]))
  }

  /** What every such list is to come to: everyone, the user, or one of the groups. */
  predicate Reaches(g: Grant, userId: Option<string>, groups: set<string>) {
    || g.principal == EVERYONE
    || (userId.Some? && g.principal == Principal("user", userId.value))
    || (g.principal.kind == "group" && g.principal.id in groups)
  }

  predicate GrantsTo(g: Grant, resourceType: string, resourceId: string, permission: string,
                     userId: Option<string>, groups: set<string>) {
    && g.resourceType == resourceType && g.resourceId == resourceId && g.permission == permission
    && Reaches(g, userId, groups)
  }

  lemma MeetsOne(p: Principal, clause: Clause)
    ensures MeetsAny(p, [clause]) <==> Meets(p, clause)
  {
    assert [clause][1..] == [];
  }

  lemma MeetsOneOf(p: Principal, clauses: seq<Clause>, more: seq<Clause>)
    ensures MeetsAny(p, clauses + more) <==> MeetsAny(p, clauses) || MeetsAny(p, more)
  {
    if clauses == [] {
      assert clauses + more == more;
    } else {
      assert (clauses + more)[1..] == clauses[1..] + more;
      MeetsOneOf(p, clauses[1..], more);
    }
  }

  /** `has_access` starts from two clauses and appends one for the groups, if there are any. */
  function CheckClauses(userId: string, groups: set<string>): seq<Clause> {
    var conditions := [Is(EVERYONE), Is(Principal("user", userId))];
    if groups != {} then conditions + [GroupIn(groups)] else conditions
  }

  lemma CheckClausesReach(g: Grant, userId: string, groups: set<string>)
    ensures MeetsAny(g.principal, CheckClauses(userId, groups)) <==> Reaches(g, Some(userId), groups)
  {
    var conditions := [Is(EVERYONE), Is(Principal("user", userId))];
    MeetsOneOf(g.principal, conditions, [GroupIn(groups)]);
    MeetsOneOf(g.principal, [Is(EVERYONE)], [Is(Principal("user", userId))]);
    assert conditions == [Is(EVERYONE)] + [Is(Principal("user", userId))];
    MeetsOne(g.principal, Is(EVERYONE));
    MeetsOne(g.principal, Is(Principal("user", userId)));
    MeetsOne(g.principal, GroupIn(groups));
  }

  /** The row filters splice the clauses of a user and of groups into one list, each only when it is asked for. */
  function FilterClauses(userId: Option<string>, groups: set<string>): seq<Clause> {
    [Is(EVERYONE)]
    + (if Truthy(userId) then [Is(Principal("user", userId.value))] else [])
    + (if groups != {} then [GroupIn(groups)] else [])
  }

  lemma FilterClausesReach(g: Grant, userId: Option<string>, groups: set<string>)
    ensures MeetsAny(g.principal, FilterClauses(userId, groups))
            <==> Reaches(g, if Truthy(userId) then userId else None, groups)
  {
    var user := if Truthy(userId) then [Is(Principal("user", userId.value))] else [];
    var group := if groups != {} then [GroupIn(groups)] else [];
    MeetsOneOf(g.principal, [Is(EVERYONE)] + user, group);
    MeetsOneOf(g.principal, [Is(EVERYONE)], user);
    MeetsOne(g.principal, Is(EVERYONE));
    MeetsOne(g.principal, GroupIn(groups));
    if Truthy(userId) { MeetsOne(g.principal, Is(Principal("user", userId.value))); }
  }

  /** What `filter(...)` keeps of the table of grants, with one resource asked for. */
  predicate Matches(g: Grant, resourceType: string, resourceId: string, permission: string, clauses: seq<Clause>) {
    && g.resourceType == resourceType && g.resourceId == resourceId && g.permission == permission
    && MeetsAny(g.principal, clauses)
  }

  function GroupsFor(members: Members, userId: string, given: Option<set<string>>): set<string> {
    if given.Some? then given.value else GroupsOf(members, userId)
  }

  /** `has_access`; the groups are looked up when the caller gives none. */
  predicate HasAccess(grants: seq<Grant>, members: Members, userId: string, resourceType: string, resourceId: string,
                      permission: string, given: Option<set<string>>) {
    var clauses := CheckClauses(userId, GroupsFor(members, userId, given));
    exists g :: g in grants && Matches(g, resourceType, resourceId, permission, clauses)
  }

  /** The check, said without its clauses: some grant reaches the user. */
  lemma CheckMeans(grants: seq<Grant>, members: Members, userId: string, resourceType: string, resourceId: string,
                   permission: string, given: Option<set<string>>)
    ensures HasAccess(grants, members, userId, resourceType, resourceId, permission, given)
            <==> exists g :: g in grants && GrantsTo(g, resourceType, resourceId, permission, Some(userId),
                                                     GroupsFor(members, userId, given))
  {
    var groups := GroupsFor(members, userId, given);
    forall g ensures Matches(g, resourceType, resourceId, permission, CheckClauses(userId, groups))
                     <==> GrantsTo(g, resourceType, resourceId, permission, Some(userId), groups) {
      CheckClausesReach(g, userId, groups);
    }
  }

  /** `get_accessible_resource_ids`: one query over all the ids. */
  function AccessibleIds(grants: seq<Grant>, members: Members, userId: string, resourceType: string,
                         resourceIds: seq<string>, permission: string, given: Option<set<string>>): set<string> {
    if resourceIds == [] then {}
    else
      var clauses := CheckClauses(userId, GroupsFor(members, userId, given));
      set g <- grants |
        && g.resourceType == resourceType && g.resourceId in resourceIds && g.permission == permission
        && MeetsAny(g.principal, clauses)
        :: g.resourceId
  }

  lemma BatchIsTheCheck(grants: seq<Grant>, members: Members, userId: string, resourceType: string,
                        resourceIds: seq<string>, permission: string, given: Option<set<string>>, id: string)
    ensures id in AccessibleIds(grants, members, userId, resourceType, resourceIds, permission, given)
            <==> id in resourceIds && HasAccess(grants, members, userId, resourceType, id, permission, given)
  {
  }

  // --- Row filters -----------------------------------------------------------------------------

  /** A row of a shared table; its owner column may be NULL. */
  datatype Doc = Doc(id: string, userId: Option<string>)

  predicate Truthy(text: Option<string>) { text.Some? && text.value != "" }

  predicate GrantExists(grants: seq<Grant>, doc: Doc, resourceType: string, permission: string,
                        userId: Option<string>, groups: set<string>) {
    exists g :: g in grants && Matches(g, resourceType, doc.id, permission, FilterClauses(userId, groups))
  }

  /** The same, said without the clauses. */
  lemma FilterMeans(grants: seq<Grant>, doc: Doc, resourceType: string, permission: string, userId: Option<string>,
                    groups: set<string>)
    ensures GrantExists(grants, doc, resourceType, permission, userId, groups)
            <==> exists g :: g in grants && GrantsTo(g, resourceType, doc.id, permission,
                                                     if Truthy(userId) then userId else None, groups)
  {
    forall g
      ensures Matches(g, resourceType, doc.id, permission, FilterClauses(userId, groups))
              <==> GrantsTo(g, resourceType, doc.id, permission, if Truthy(userId) then userId else None, groups)
    {
      FilterClausesReach(g, userId, groups);
    }
  }

  /** Whether `has_permission_filter` keeps a row. With neither user nor groups it adds no filter. */
  predicate PassesFilter(grants: seq<Grant>, doc: Doc, resourceType: string, permission: string,
                         userId: Option<string>, groups: set<string>) {
    if permission == "read_only" then PassesReadOnly(grants, doc, resourceType, userId, groups)
    else if groups == {} && !Truthy(userId) then true
    else
      || GrantExists(grants, doc, resourceType, permission, userId, groups)
      || (Truthy(userId) && doc.userId == userId)
  }

  /** Whether `_has_read_only_permission_filter` keeps a row; SQL's `!=` keeps no row whose owner is NULL. */
  predicate PassesReadOnly(grants: seq<Grant>, doc: Doc, resourceType: string, userId: Option<string>,
                           groups: set<string>) {
    && GrantExists(grants, doc, resourceType, "read", userId, groups)
    && !GrantExists(grants, doc, resourceType, "write", userId, groups)
    && (Truthy(userId) ==> doc.userId.Some? && doc.userId != userId)
  }

  /** With a user id, the row filter is the owner, or the check. */
  lemma FilterIsOwnerOrCheck(grants: seq<Grant>, members: Members, doc: Doc, resourceType: string, permission: string,
                             userId: string, groups: set<string>)
    requires userId != "" && permission != "read_only"
    ensures PassesFilter(grants, doc, resourceType, permission, Some(userId), groups)
            <==> doc.userId == Some(userId)
                 || HasAccess(grants, members, userId, resourceType, doc.id, permission, Some(groups))
  {
    FilterMeans(grants, doc, resourceType, permission, Some(userId), groups);
    CheckMeans(grants, members, userId, resourceType, doc.id, permission, Some(groups));
  }

  predicate ReadOnlyIsDifference(grants: seq<Grant>, doc: Doc, resourceType: string, userId: Option<string>,
                                 groups: set<string>) {
    PassesFilter(grants, doc, resourceType, "read_only", userId, groups)
    <==> PassesFilter(grants, doc, resourceType, "read", userId, groups)
         && !PassesFilter(grants, doc, resourceType, "write", userId, groups)
  }

  /** The read-only filter is the read filter minus the write filter, whatever is granted, exactly when a user or a
      group is asked for and, with a user, the row has an owner. */
  lemma ReadOnlyIsDifferenceIff(doc: Doc, resourceType: string, userId: Option<string>, groups: set<string>)
    ensures (forall grants :: ReadOnlyIsDifference(grants, doc, resourceType, userId, groups))
            <==> (Truthy(userId) || groups != {}) && (Truthy(userId) ==> doc.userId.Some?)
  {
    if !((Truthy(userId) || groups != {}) && (Truthy(userId) ==> doc.userId.Some?)) {
      PublicReadOnly(doc, resourceType, userId, groups);
      assert !ReadOnlyIsDifference([Grant(resourceType, doc.id, EVERYONE, "read")], doc, resourceType, userId, groups);
    }
  }

  /** With nothing but a public read grant, there is a grant to read and none to write. */
  lemma PublicReadOnly(doc: Doc, resourceType: string, userId: Option<string>, groups: set<string>)
    ensures GrantExists([Grant(resourceType, doc.id, EVERYONE, "read")], doc, resourceType, "read", userId, groups)
    ensures !GrantExists([Grant(resourceType, doc.id, EVERYONE, "read")], doc, resourceType, "write", userId, groups)
  {
    var publicRead := Grant(resourceType, doc.id, EVERYONE, "read");
    FilterClausesReach(publicRead, userId, groups);
    assert publicRead in [publicRead];
  }

  /** Asking for nobody, as an admin may who sees everything: the read-only filter keeps a row that everyone may read,
      and so do the filters for reading and for writing, which then filter nothing. */
  lemma NobodyAskedForIsKeptTwice(doc: Doc, resourceType: string)
    ensures var grants := [Grant(resourceType, doc.id, EVERYONE, "read")];
            && PassesFilter(grants, doc, resourceType, "read_only", None, {})
            && PassesFilter(grants, doc, resourceType, "read", None, {})
            && PassesFilter(grants, doc, resourceType, "write", None, {})
  {
    PublicReadOnly(doc, resourceType, None, {});
  }

  /** A row without an owner, as the schema allows one, that everyone may read and nobody may write: the read filter
      keeps it, the write filter does not, and neither does the read-only filter. */
  lemma UnownedRowIsMissed(userId: string)
    requires userId != ""
    ensures var grants, doc := [Grant("note", "n", EVERYONE, "read")], Doc("n", None);
            && PassesFilter(grants, doc, "note", "read", Some(userId), {})
            && !PassesFilter(grants, doc, "note", "write", Some(userId), {})
            && !PassesFilter(grants, doc, "note", "read_only", Some(userId), {})
  {
    PublicReadOnly(Doc("n", None), "note", Some(userId), {});
  }

  // --- Who has access -----------------------------------------------------------------------------

  datatype User = User(id: string, pending: bool)

  function Kept(users: seq<User>, keep: User -> bool): (r: seq<User>)
    ensures forall u :: u in r <==> u in users && keep(u)
  {
    if users == [] then [] else (if keep(users[0]) then [users[0]] else []) + Kept(users[1..], keep)
  }

  function Selected(grants: seq<Grant>, resourceType: string, resourceId: string, permission: string): (r: seq<Grant>)
    ensures forall g :: g in r <==> g in grants && g.resourceType == resourceType && g.resourceId == resourceId
                                    && g.permission == permission
  {
    if grants == [] then []
    else
      var g, rest := grants[0], Selected(grants[1..], resourceType, resourceId, permission);
      if g.resourceType == resourceType && g.resourceId == resourceId && g.permission == permission
      then [g] + rest else rest
  }

  predicate ReachedAmong(rows: seq<Grant>, members: Members, userId: string) {
    exists k :: 0 <= k < |rows| && Reaches(rows[k], Some(userId), GroupsOf(members, userId))
  }

  /** The check accepts whom one of the resource's grants with that permission reaches. */
  lemma CheckIsReached(grants: seq<Grant>, members: Members, userId: string, resourceType: string, resourceId: string,
                       permission: string)
    ensures HasAccess(grants, members, userId, resourceType, resourceId, permission, None)
            <==> ReachedAmong(Selected(grants, resourceType, resourceId, permission), members, userId)
  {
    CheckMeans(grants, members, userId, resourceType, resourceId, permission, None);
    var rows, groups := Selected(grants, resourceType, resourceId, permission), GroupsOf(members, userId);
    if g :| g in grants && GrantsTo(g, resourceType, resourceId, permission, Some(userId), groups) {
      assert g in rows;
    }
    if k :| 0 <= k < |rows| && Reaches(rows[k], Some(userId), groups) {
      assert rows[k] in rows;
    }
  }

  /** `get_users_with_access`: the users the check accepts, but for pending ones once everyone has access. */
  method UsersWithAccess(grants: seq<Grant>, members: Members, users: seq<User>, resourceType: string,
                         resourceId: string, permission: string) returns (found: seq<User>)
    ensures forall u :: u in found <==>
      u in users && HasAccess(grants, members, u.id, resourceType, resourceId, permission, None)
      && !(u.pending && exists g :: g in grants && g == Grant(resourceType, resourceId, EVERYONE, permission))
  {
    var rows := Selected(grants, resourceType, resourceId, permission);
    forall u: User
      ensures HasAccess(grants, members, u.id, resourceType, resourceId, permission, None)
              <==> ReachedAmong(rows, members, u.id)
    {
      CheckIsReached(grants, members, u.id, resourceType, resourceId, permission);
    }
    var at := FindEveryone(rows);
    assert at < |rows| <==> Grant(resourceType, resourceId, EVERYONE, permission) in rows;
    if at < |rows| {
      assert forall u: User :: Reaches(rows[at], Some(u.id), GroupsOf(members, u.id));
      return Kept(users, (u: User) => !u.pending);
    }
    var ids := CollectIds(rows, members);
    if ids == {} {
      return [];
    }
    return Kept(users, (u: User) => u.id in ids);
  }

  /** The first loop: where everyone is granted it, or past the end. */
  method FindEveryone(rows: seq<Grant>) returns (at: nat)
    ensures at <= |rows| && forall k :: 0 <= k < at ==> rows[k].principal != EVERYONE
    ensures at < |rows| ==> rows[at].principal == EVERYONE
  {
    at := 0;
    while at < |rows| && rows[at].principal != EVERYONE
      invariant at <= |rows| && forall k :: 0 <= k < at ==> rows[k].principal != EVERYONE
    {
      at := at + 1;
    }
  }

  /** The second loop: the users granted it and the members of groups granted it. */
  method CollectIds(rows: seq<Grant>, members: Members) returns (ids: set<string>)
    requires forall k :: 0 <= k < |rows| ==> rows[k].principal != EVERYONE
    ensures forall id :: id in ids <==> ReachedAmong(rows, members, id)
  {
    ids := {};
    for i := 0 to |rows|
      invariant forall id :: id in ids <==> exists k :: 0 <= k < i && Reaches(rows[k], Some(id), GroupsOf(members, id))
    {
      if rows[i].principal.kind == "user" {
        ids := ids + {rows[i].principal.id};
      } else if rows[i].principal.kind == "group" {
        ids := ids + MembersOf(members, rows[i].principal.id);
      }
    }
  }

  predicate SharedAs(grants: seq<Grant>, id: string, permission: string, userId: string, groups: set<string>) {
    exists g :: g in grants && GrantsTo(g, "folder", id, permission, Some(userId), groups)
  }

  predicate Shared(grants: seq<Grant>, id: string, userId: string, groups: set<string>) {
    exists g :: g in grants && GrantsTo(g, "folder", id, g.permission, Some(userId), groups)
  }

  lemma OneMoreShared(grants: seq<Grant>, last: Grant, id: string, permission: string, userId: string,
                      groups: set<string>)
    ensures SharedAs(grants + [last], id, permission, userId, groups)
            <==> SharedAs(grants, id, permission, userId, groups)
                 || GrantsTo(last, "folder", id, permission, Some(userId), groups)
    ensures Shared(grants + [last], id, userId, groups)
            <==> Shared(grants, id, userId, groups)
                 || GrantsTo(last, "folder", id, last.permission, Some(userId), groups)
  {
    var more := grants + [last];
    assert more[|grants|] == last;
    forall g | g in grants ensures g in more {}
  }

  /** The folders shared by these grants, each with a permission it is shared with, and that is 'write' if any is. */
  ghost predicate Fits(perms: map<string, string>, grants: seq<Grant>, userId: string, groups: set<string>) {
    && (forall id :: id in perms <==> Shared(grants, id, userId, groups))
    && (forall id <- perms :: SharedAs(grants, id, perms[id], userId, groups))
    && (forall id <- perms :: SharedAs(grants, id, "write", userId, groups) ==> perms[id] == "write")
  }

  lemma FitsOn(perms: map<string, string>, grants: seq<Grant>, g: Grant, userId: string, groups: set<string>)
    requires Fits(perms, grants, userId, groups)
    ensures if g.resourceType != "folder" || !Reaches(g, Some(userId), groups)
               || (g.resourceId in perms && perms[g.resourceId] == "write")
            then Fits(perms, grants + [g], userId, groups)
            else Fits(perms[g.resourceId := g.permission], grants + [g], userId, groups)
  {
    forall id, permission { OneMoreShared(grants, g, id, permission, userId, groups); }
  }

  /** `get_shared_folder_ids_for_user` (folders.py): the folders shared with the user at all, and 'write' for just those
      the write check accepts, in whatever order the grants come. */
  method SharedFolderIds(grants: seq<Grant>, members: Members, userId: string, groups: set<string>)
    returns (perms: map<string, string>)
    ensures forall id :: id in perms <==> Shared(grants, id, userId, groups)
    ensures forall id <- perms :: SharedAs(grants, id, perms[id], userId, groups)
    ensures forall id <- perms :: perms[id] == "write" <==>
      HasAccess(grants, members, userId, "folder", id, "write", Some(groups))
  {
    perms := map[];
    var conditions := CheckClauses(userId, groups);
    for i := 0 to |grants|
      invariant Fits(perms, grants[..i], userId, groups)
    {
      var g := grants[i];
      assert grants[..i + 1] == grants[..i] + [g];
      CheckClausesReach(g, userId, groups);
      FitsOn(perms, grants[..i], g, userId, groups);
      if g.resourceType == "folder" && MeetsAny(g.principal, conditions) {
        if !(g.resourceId in perms && perms[g.resourceId] == "write") {
          perms := perms[g.resourceId := g.permission];
        }
      }
    }
    assert grants[..|grants|] == grants;
    forall id | id in perms
      ensures SharedAs(grants, id, "write", userId, groups)
              <==> HasAccess(grants, members, userId, "folder", id, "write", Some(groups))
    {
      CheckMeans(grants, members, userId, "folder", id, "write", Some(groups));
    }
  }

  // --- The legacy form -------------------------------------------------------------------------------

  /** A grant without its resource. */
  datatype Triple = Triple(principal: Principal, permission: string)

  const PUBLIC_READ := Triple(EVERYONE, "read")

  datatype Ids = Ids(groupIds: seq<string>, userIds: seq<string>)

  /** The old `access_control`: None, or a dict with or without its 'read' and 'write' parts. */
  datatype Legacy = Public | Parts(read: Option<Ids>, write: Option<Ids>)

  function Grants(kind: string, ids: seq<string>, permission: string): seq<Triple> {
    seq(|ids|, i requires 0 <= i < |ids| => Triple(Principal(kind, ids[i]), permission))
  }

  function PartGrants(part: Option<Ids>, permission: string): seq<Triple> {
    if part.None? then []
    else Grants("group", part.value.groupIds, permission) + Grants("user", part.value.userIds, permission)
  }

  /** `access_control_to_grants`. */
  function ToGrants(resourceType: string, legacy: Legacy): seq<Triple> {
    match legacy
    case Public => if resourceType == "file" then [] else [PUBLIC_READ]
    case Parts(read, write) => PartGrants(read, "read") + PartGrants(write, "write")
  }

  /** The ids granted to, in order, each once: what the appending loop of `grants_to_access_control` collects. */
  function Collected(grants: seq<Triple>, kind: string, permission: string): (ids: seq<string>)
    decreases |grants|
  {
    if grants == [] then []
    else
      var before, g := Collected(grants[..|grants| - 1], kind, permission), grants[|grants| - 1];
      if g != PUBLIC_READ && g.principal.kind == kind && g.permission == permission && g.principal.id !in before
      then before + [g.principal.id] else before
  }

  /** What `grants_to_access_control` gives. */
  function FromGrants(grants: seq<Triple>): Legacy {
    if grants == [] then Parts(None, None)
    else if PUBLIC_READ in grants then Public
    else Parts(Some(Ids(Collected(grants, "group", "read"), Collected(grants, "user", "read"))),
               Some(Ids(Collected(grants, "group", "write"), Collected(grants, "user", "write"))))
  }

  /** `grants_to_access_control`: one loop filling four lists. */
  method GrantsToAccessControl(grants: seq<Triple>) returns (legacy: Legacy)
    ensures legacy == FromGrants(grants)
  {
    if grants == [] {
      return Parts(None, None);
    }
    var read, write, isPublic := Ids([], []), Ids([], []), false;
    for i := 0 to |grants|
      invariant isPublic <==> PUBLIC_READ in grants[..i]
      invariant read == Ids(Collected(grants[..i], "group", "read"), Collected(grants[..i], "user", "read"))
      invariant write == Ids(Collected(grants[..i], "group", "write"), Collected(grants[..i], "user", "write"))
    {
      var g := grants[i];
      assert grants[..i + 1] == grants[..i] + [g];
      if g == PUBLIC_READ {
        isPublic := true;
      } else if g.permission == "read" {
        read := AppendId(read, g.principal);
      } else if g.permission == "write" {
        write := AppendId(write, g.principal);
      }
    }
    assert grants[..|grants|] == grants;
    return if isPublic then Public else Parts(Some(read), Some(write));
  }

  function AppendId(ids: Ids, principal: Principal): Ids {
    if principal.kind == "group" && principal.id !in ids.groupIds then ids.(groupIds := ids.groupIds + [principal.id])
    else if principal.kind == "user" && principal.id !in ids.userIds then ids.(userIds := ids.userIds + [principal.id])
    else ids
  }

  // --- Round trips --------------------------------------------------------------------------------------

  lemma {:induction false} CollectedMembers(grants: seq<Triple>, kind: string, permission: string, id: string)
    ensures id in Collected(grants, kind, permission)
            <==> Triple(Principal(kind, id), permission) in grants
                 && Triple(Principal(kind, id), permission) != PUBLIC_READ
    decreases |grants|
  {
    if grants != [] {
      CollectedMembers(grants[..|grants| - 1], kind, permission, id);
      assert grants == grants[..|grants| - 1] + [grants[|grants| - 1]];
    }
  }

  predicate OldStyle(g: Triple) {
    (g.principal.kind == "user" || g.principal.kind == "group") && (g.permission == "read" || g.permission == "write")
  }

  lemma GrantsMembers(kind: string, ids: seq<string>, permission: string, t: Triple)
    ensures t in Grants(kind, ids, permission)
            <==> t.principal.kind == kind && t.permission == permission && t.principal.id in ids
  {
    if t.principal.kind == kind && t.permission == permission && t.principal.id in ids {
      var i :| 0 <= i < |ids| && ids[i] == t.principal.id;
      assert Grants(kind, ids, permission)[i] == t;
    }
  }

  /** The dict's part for the permission lists the principal: groups among its group ids, users among its user ids. */
  predicate Listed(legacy: Legacy, t: Triple)
    requires legacy.Parts?
  {
    var part := if t.permission == "read" then legacy.read else if t.permission == "write" then legacy.write else None;
    part.Some? && ((t.principal.kind == "group" && t.principal.id in part.value.groupIds)
                   || (t.principal.kind == "user" && t.principal.id in part.value.userIds))
  }

  /** A dict stands for the grants it lists, None for public read on all but files. */
  lemma ToGrantsIff(resourceType: string, legacy: Legacy, t: Triple)
    ensures t in ToGrants(resourceType, legacy)
            <==> if legacy.Public?
                 then resourceType != "file" && t == Triple(Principal("user", "*"), "read")
                 else Listed(legacy, t)
  {
    if legacy.Parts? {
      var r, w := PartOf(legacy.read), PartOf(legacy.write);
      GrantsMembers("group", r.groupIds, "read", t);
      GrantsMembers("user", r.userIds, "read", t);
      GrantsMembers("group", w.groupIds, "write", t);
      GrantsMembers("user", w.userIds, "write", t);
    }
  }

  /** And the dict made of grants, none of them public read, lists those of users and groups to read or write. */
  lemma FromGrantsIff(grants: seq<Triple>, t: Triple)
    requires Triple(Principal("user", "*"), "read") !in grants
    ensures FromGrants(grants).Parts? && (Listed(FromGrants(grants), t) <==> t in grants && OldStyle(t))
  {
    CollectedMembers(grants, t.principal.kind, t.permission, t.principal.id);
    assert t == Triple(Principal(t.principal.kind, t.principal.id), t.permission);
  }

  /** What comes back of a list of grants without public read: its user and group grants to read or write. */
  lemma ComesBack(resourceType: string, grants: seq<Triple>, t: Triple)
    requires PUBLIC_READ !in grants
    ensures t in ToGrants(resourceType, FromGrants(grants)) <==> t in grants && OldStyle(t)
  {
    forall kind, permission
      ensures t in Grants(kind, Collected(grants, kind, permission), permission)
              <==> t in grants && t.principal.kind == kind && t.permission == permission
    {
      GrantsMembers(kind, Collected(grants, kind, permission), permission, t);
      CollectedMembers(grants, kind, permission, t.principal.id);
      assert t == Triple(Principal(t.principal.kind, t.principal.id), t.permission);
    }
  }

  ghost predicate SameGrants(a: seq<Triple>, b: seq<Triple>) {
    forall t :: t in a <==> t in b
  }

  /** A list of grants survives the old form, as a set, exactly when it has only user and group grants to read or
      write and no public read, or has nothing but public read, on something other than a file. */
  lemma GrantsSurviveIff(resourceType: string, grants: seq<Triple>)
    ensures SameGrants(ToGrants(resourceType, FromGrants(grants)), grants)
            <==> if PUBLIC_READ in grants then resourceType != "file" && forall t <- grants :: t == PUBLIC_READ
                 else forall t <- grants :: OldStyle(t)
  {
    var back := ToGrants(resourceType, FromGrants(grants));
    if PUBLIC_READ in grants {
      assert grants != [] && back == if resourceType == "file" then [] else [PUBLIC_READ];
      assert PUBLIC_READ in back <==> resourceType != "file";
    } else {
      forall t ensures t in back <==> t in grants && OldStyle(t) { ComesBack(resourceType, grants, t); }
    }
  }

  /** Public read and None stand for each other, but for files, where None grants nothing. */
  lemma NoneIsPublicRead(resourceType: string, grants: seq<Triple>)
    ensures FromGrants(grants) == Public <==> PUBLIC_READ in grants
    ensures FromGrants(ToGrants(resourceType, Public)) == Public <==> resourceType != "file"
  {
  }

  function Deduplicated(ids: seq<string>): seq<string>
    decreases |ids|
  {
    if ids == [] then []
    else
      var before, id := Deduplicated(ids[..|ids| - 1]), ids[|ids| - 1];
      if id in before then before else before + [id]
  }

  lemma {:induction false} CollectedSkips(grants: seq<Triple>, more: seq<Triple>, kind: string, permission: string)
    requires forall t <- more :: t.principal.kind != kind || t.permission != permission
    ensures Collected(grants + more, kind, permission) == Collected(grants, kind, permission)
    decreases |more|
  {
    if more == [] {
      assert grants + more == grants;
    } else {
      CollectedSkips(grants, more[..|more| - 1], kind, permission);
      assert (grants + more)[..|grants + more| - 1] == grants + more[..|more| - 1];
      assert more[|more| - 1] in more;
    }
  }

  lemma {:induction false} CollectedOwn(grants: seq<Triple>, ids: seq<string>, kind: string, permission: string)
    requires forall t <- grants :: t.principal.kind != kind || t.permission != permission
    requires PUBLIC_READ !in Grants(kind, ids, permission)
    ensures Collected(grants + Grants(kind, ids, permission), kind, permission) == Deduplicated(ids)
    decreases |ids|
  {
    var own := Grants(kind, ids, permission);
    if ids == [] {
      CollectedSkips([], grants, kind, permission);
      assert grants + own == [] + grants;
    } else {
      var fewer := ids[..|ids| - 1];
      assert own == Grants(kind, fewer, permission) + [own[|ids| - 1]];
      assert own[|ids| - 1] in own;
      CollectedOwn(grants, fewer, kind, permission);
      assert (grants + own)[..|grants + own| - 1] == grants + Grants(kind, fewer, permission);
    }
  }

  function PartOf(part: Option<Ids>): Ids {
    if part.Some? then part.value else Ids([], [])
  }

  /** A dict with at least one entry and no public read comes back with both its parts, each list once through,
      in order. */
  lemma DictComesBackDeduplicated(resourceType: string, legacy: Legacy)
    requires legacy.Parts? && ToGrants(resourceType, legacy) != [] && "*" !in PartOf(legacy.read).userIds
    ensures var r, w := PartOf(legacy.read), PartOf(legacy.write);
            FromGrants(ToGrants(resourceType, legacy))
            == Parts(Some(Ids(Deduplicated(r.groupIds), Deduplicated(r.userIds))),
                     Some(Ids(Deduplicated(w.groupIds), Deduplicated(w.userIds))))
  {
    var r, w := PartOf(legacy.read), PartOf(legacy.write);
    AllGrantsOf(legacy, resourceType);
    PublicReadNotAmong(r, w);
    ReadsCollected(r, w);
    WritesCollected(r, w);
  }

  function AllGrants(r: Ids, w: Ids): seq<Triple> {
    Grants("group", r.groupIds, "read") + Grants("user", r.userIds, "read")
    + (Grants("group", w.groupIds, "write") + Grants("user", w.userIds, "write"))
  }

  lemma AllGrantsOf(legacy: Legacy, resourceType: string)
    requires legacy.Parts?
    ensures ToGrants(resourceType, legacy) == AllGrants(PartOf(legacy.read), PartOf(legacy.write))
  {
    assert Grants("group", [], "read") + Grants("user", [], "read") == [];
    assert Grants("group", [], "write") + Grants("user", [], "write") == [];
  }

  lemma PublicReadNotAmong(r: Ids, w: Ids)
    requires "*" !in r.userIds
    ensures PUBLIC_READ !in AllGrants(r, w)
  {
    GrantsMembers("user", r.userIds, "read", PUBLIC_READ);
  }

  lemma ReadsCollected(r: Ids, w: Ids)
    requires "*" !in r.userIds
    ensures Collected(AllGrants(r, w), "group", "read") == Deduplicated(r.groupIds)
    ensures Collected(AllGrants(r, w), "user", "read") == Deduplicated(r.userIds)
  {
    var rg, ru := Grants("group", r.groupIds, "read"), Grants("user", r.userIds, "read");
    var writeGrants := Grants("group", w.groupIds, "write") + Grants("user", w.userIds, "write");
    GrantsMembers("user", r.userIds, "read", PUBLIC_READ);
    CollectedFirst(r.groupIds, ru + writeGrants);
    assert rg + (ru + writeGrants) == AllGrants(r, w);
    CollectedOwn(rg, r.userIds, "user", "read");
    CollectedSkips(rg + ru, writeGrants, "user", "read");
  }

  lemma CollectedFirst(ids: seq<string>, more: seq<Triple>)
    requires forall t <- more :: t.principal.kind != "group" || t.permission != "read"
    ensures Collected(Grants("group", ids, "read") + more, "group", "read") == Deduplicated(ids)
  {
    var own := Grants("group", ids, "read");
    CollectedOwn([], ids, "group", "read");
    assert [] + own == own;
    CollectedSkips(own, more, "group", "read");
  }

  lemma WritesCollected(r: Ids, w: Ids)
    ensures Collected(AllGrants(r, w), "group", "write") == Deduplicated(w.groupIds)
    ensures Collected(AllGrants(r, w), "user", "write") == Deduplicated(w.userIds)
  {
    var readGrants := Grants("group", r.groupIds, "read") + Grants("user", r.userIds, "read");
    var wg, wu := Grants("group", w.groupIds, "write"), Grants("user", w.userIds, "write");
    CollectedOwn(readGrants, w.groupIds, "group", "write");
    CollectedSkips(readGrants + wg, wu, "group", "write");
    assert readGrants + wg + wu == AllGrants(r, w);
    CollectedOwn(readGrants + wg, w.userIds, "user", "write");
  }

  // --- Normalizing what a form sends -----------------------------------------------------------------------

  /** A payload entry; a field that is missing or not a string is None. Entries that are no dicts have none. */
  datatype Raw = Raw(id: Option<string>, kind: Option<string>, principalId: Option<string>, permission: Option<string>)

  datatype Normal = Normal(id: string, triple: Triple)

  predicate ValidTriple(t: Triple) {
    && (t.principal.kind == "user" || t.principal.kind == "group" || t.principal.kind == "anyone")
    && (t.permission == "read" || t.permission == "write")
    && t.principal.id != ""
    && (t.principal.kind == "anyone" ==> t == Triple(Principal("anyone", "*"), "read"))
  }

  function TripleOf(raw: Raw): Option<Triple> {
    if raw.kind.None? || raw.principalId.None? || raw.permission.None? then None
    else
      var t := Triple(Principal(raw.kind.value, raw.principalId.value), raw.permission.value);
      if ValidTriple(t) then Some(t) else None
  }

  function IdOf(raw: Raw, newId: string): string {
    if Truthy(raw.id) then raw.id.value else newId
  }

  /** The entries `normalize_access_grants` keeps: a dict keeps a key where it was first put and its last value. */
  function Put(kept: seq<Normal>, n: Normal): seq<Normal> {
    if kept == [] then [n]
    else if kept[0].triple == n.triple then [n] + kept[1..]
    else [kept[0]] + Put(kept[1..], n)
  }

  function Normalized(raws: seq<Raw>, newId: nat -> string): seq<Normal>
    decreases |raws|
  {
    if raws == [] then []
    else
      var n := |raws| - 1;
      var before, t := Normalized(raws[..n], newId), TripleOf(raws[n]);
      if t.None? then before else Put(before, Normal(IdOf(raws[n], newId(n)), t.value))
  }

  /** `normalize_access_grants`; `newId` gives the ids `uuid4` would. */
  method NormalizeAccessGrants(raws: seq<Raw>, newId: nat -> string) returns (kept: seq<Normal>)
    ensures kept == Normalized(raws, newId)
  {
    kept := [];
    for i := 0 to |raws|
      invariant kept == Normalized(raws[..i], newId)
    {
      assert raws[..i + 1][..i] == raws[..i];
      var triple := TripleOf(raws[i]);
      if triple.Some? {
        kept := Put(kept, Normal(IdOf(raws[i], newId(i)), triple.value));
      }
    }
    assert raws[..|raws|] == raws;
  }

  ghost predicate DistinctTriples(kept: seq<Normal>) {
    forall i, j :: 0 <= i < j < |kept| ==> kept[i].triple != kept[j].triple
  }

  ghost predicate HasTriple(kept: seq<Normal>, t: Triple) {
    exists n :: n in kept && n.triple == t
  }

  lemma {:induction false} PutKeeps(kept: seq<Normal>, n: Normal)
    requires DistinctTriples(kept)
    ensures DistinctTriples(Put(kept, n))
    ensures forall m :: m in Put(kept, n) <==> m == n || (m in kept && m.triple != n.triple)
  {
    if kept != [] {
      assert forall i :: 0 <= i < |kept[1..]| ==> kept[1..][i].triple != kept[0].triple;
      if kept[0].triple != n.triple {
        PutKeeps(kept[1..], n);
        var rest := Put(kept[1..], n);
        forall i | 0 <= i < |rest| ensures rest[i].triple != kept[0].triple {
          assert rest[i] in rest;
          if rest[i] in kept[1..] { var k :| 0 <= k < |kept[1..]| && kept[1..][k] == rest[i]; }
        }
      }
    }
  }

  ghost predicate Offers(raws: seq<Raw>, t: Triple) {
    exists raw :: raw in raws && TripleOf(raw) == Some(t)
  }

  /** Each valid triple that was sent is kept once, and nothing else is. */
  lemma {:induction false} NormalizedKeepsValid(raws: seq<Raw>, newId: nat -> string, t: Triple)
    ensures DistinctTriples(Normalized(raws, newId))
    ensures HasTriple(Normalized(raws, newId), t) <==> Offers(raws, t)
    decreases |raws|
  {
    if raws != [] {
      var n := |raws| - 1;
      var before, last := Normalized(raws[..n], newId), TripleOf(raws[n]);
      NormalizedKeepsValid(raws[..n], newId, t);
      assert raws == raws[..n] + [raws[n]];
      if last.Some? {
        var put := Normal(IdOf(raws[n], newId(n)), last.value);
        PutKeeps(before, put);
        assert put in Put(before, put);
      }
      if Offers(raws[..n], t) {
        var raw :| raw in raws[..n] && TripleOf(raw) == Some(t);
        assert raw in raws;
      }
    }
  }

  /** The entry is for this principal and permission. */
  predicate IsFor(raw: Raw, kind: string, id: string, permission: string) {
    raw.kind == Some(kind) && raw.principalId == Some(id) && raw.permission == Some(permission)
  }

  /** Kept are users and groups that are named, to read or to write, and the public of no account, to read. */
  lemma KeptIff(raws: seq<Raw>, newId: nat -> string, kind: string, id: string, permission: string)
    ensures HasTriple(Normalized(raws, newId), Triple(Principal(kind, id), permission))
            <==> (exists raw <- raws :: IsFor(raw, kind, id, permission))
                 && ((kind in ["user", "group"] && id != "" && permission in ["read", "write"])
                     || (kind == "anyone" && id == "*" && permission == "read"))
  {
    var t := Triple(Principal(kind, id), permission);
    NormalizedKeepsValid(raws, newId, t);
    forall raw | raw in raws
      ensures TripleOf(raw) == Some(t) <==> ValidTriple(t) && IsFor(raw, kind, id, permission)
    {
    }
  }

  /** The first entry that offers the triple, and the last. */
  ghost predicate FirstOffer(raws: seq<Raw>, t: Triple, k: nat) {
    k < |raws| && TripleOf(raws[k]) == Some(t) && forall i :: 0 <= i < k ==> TripleOf(raws[i]) != Some(t)
  }

  ghost predicate LastOffer(raws: seq<Raw>, t: Triple, k: nat) {
    k < |raws| && TripleOf(raws[k]) == Some(t) && forall i :: k < i < |raws| ==> TripleOf(raws[i]) != Some(t)
  }

  /** A kept grant has the id that its last entry came with, or a new one if that came with none. */
  lemma {:induction false} LastIdIsKept(raws: seq<Raw>, newId: nat -> string, n: Normal, k: nat)
    requires n in Normalized(raws, newId) && LastOffer(raws, n.triple, k)
    ensures n.id == if raws[k].id.Some? && raws[k].id.value != "" then raws[k].id.value else newId(k)
    decreases |raws|
  {
    var last := |raws| - 1;
    var t := TripleOf(raws[last]);
    NormalizedKeepsValid(raws[..last], newId, n.triple);
    if t.Some? { PutKeeps(Normalized(raws[..last], newId), Normal(IdOf(raws[last], newId(last)), t.value)); }
    if k < last { LastIdIsKept(raws[..last], newId, n, k); }
  }

  lemma {:induction false} PutInPlace(kept: seq<Normal>, n: Normal)
    requires HasTriple(kept, n.triple)
    ensures |Put(kept, n)| == |kept| && forall i :: 0 <= i < |kept| ==> Put(kept, n)[i].triple == kept[i].triple
  {
    if kept[0].triple != n.triple {
      var m :| m in kept && m.triple == n.triple;
      assert m in kept[1..];
      PutInPlace(kept[1..], n);
    }
  }

  /** Kept grants stand in the order in which they were first offered. */
  lemma {:induction false} KeptInOrder(raws: seq<Raw>, newId: nat -> string, i: nat, j: nat, a: nat, b: nat)
    requires i < j < |Normalized(raws, newId)|
    requires FirstOffer(raws, Normalized(raws, newId)[i].triple, a)
    requires FirstOffer(raws, Normalized(raws, newId)[j].triple, b)
    ensures a < b
    decreases |raws|
  {
    var last := |raws| - 1;
    var before, t := Normalized(raws[..last], newId), TripleOf(raws[last]);
    if t.None? {
      KeptInOrder(raws[..last], newId, i, j, a, b);
    } else {
      var n := Normal(IdOf(raws[last], newId(last)), t.value);
      if HasTriple(before, t.value) {
        PutInPlace(before, n);
        OfferedBefore(raws, newId, before[i].triple, a);
        OfferedBefore(raws, newId, before[j].triple, b);
        KeptInOrder(raws[..last], newId, i, j, a, b);
      } else {
        forall m | m in before ensures m.triple != n.triple { assert HasTriple(before, m.triple); }
        PutNew(before, n);
        OfferedBefore(raws, newId, before[i].triple, a);
        if j < |before| {
          OfferedBefore(raws, newId, before[j].triple, b);
          KeptInOrder(raws[..last], newId, i, j, a, b);
        } else {
          NormalizedKeepsValid(raws[..last], newId, t.value);
          assert b < last ==> raws[b] in raws[..last];
        }
      }
    }
  }

  /** What all but the last entry made kept was first offered among them. */
  lemma OfferedBefore(raws: seq<Raw>, newId: nat -> string, t: Triple, a: nat)
    requires raws != [] && HasTriple(Normalized(raws[..|raws| - 1], newId), t) && FirstOffer(raws, t, a)
    ensures FirstOffer(raws[..|raws| - 1], t, a)
  {
    NormalizedKeepsValid(raws[..|raws| - 1], newId, t);
    var raw :| raw in raws[..|raws| - 1] && TripleOf(raw) == Some(t);
    var i :| 0 <= i < |raws| - 1 && raws[i] == raw;
  }

  /** What was normalized, sent again. */
  function Resent(kept: seq<Normal>): seq<Raw> {
    seq(|kept|, i requires 0 <= i < |kept| => ResentOne(kept[i]))
  }

  function ResentOne(n: Normal): Raw {
    Raw(Some(n.id), Some(n.triple.principal.kind), Some(n.triple.principal.id), Some(n.triple.permission))
  }

  ghost predicate Sendable(kept: seq<Normal>) {
    DistinctTriples(kept) && forall n <- kept :: n.id != "" && ValidTriple(n.triple)
  }

  lemma {:induction false} PutNew(kept: seq<Normal>, n: Normal)
    requires forall m <- kept :: m.triple != n.triple
    ensures Put(kept, n) == kept + [n]
  {
    if kept != [] { PutNew(kept[1..], n); }
  }

  lemma {:induction false} ResentComesBack(kept: seq<Normal>, newId: nat -> string)
    requires Sendable(kept)
    ensures Normalized(Resent(kept), newId) == kept
    decreases |kept|
  {
    if kept != [] {
      var n := |kept| - 1;
      var fewer, last := kept[..n], kept[n];
      LastIsNew(kept);
      ResentComesBack(fewer, newId);
      assert Resent(kept)[..n] == Resent(fewer) && Resent(kept)[n] == ResentOne(last);
      ReadAgain(last, newId(n));
      PutNew(fewer, last);
      assert kept == fewer + [last];
    }
  }

  lemma ReadAgain(n: Normal, newId: string)
    requires n.id != "" && ValidTriple(n.triple)
    ensures TripleOf(ResentOne(n)) == Some(n.triple) && IdOf(ResentOne(n), newId) == n.id
  {
  }

  lemma LastIsNew(kept: seq<Normal>)
    requires Sendable(kept) && kept != []
    ensures Sendable(kept[..|kept| - 1]) && kept[|kept| - 1].id != "" && ValidTriple(kept[|kept| - 1].triple)
    ensures forall m <- kept[..|kept| - 1] :: m.triple != kept[|kept| - 1].triple
  {
    var fewer := kept[..|kept| - 1];
    assert forall m <- fewer :: m in kept;
    assert kept[|kept| - 1] in kept;
  }

  lemma {:induction false} NormalizedIsSendable(raws: seq<Raw>, newId: nat -> string)
    requires forall n: nat :: newId(n) != ""
    ensures Sendable(Normalized(raws, newId))
    decreases |raws|
  {
    if raws != [] {
      var n := |raws| - 1;
      NormalizedIsSendable(raws[..n], newId);
      var last := TripleOf(raws[n]);
      if last.Some? { PutKeeps(Normalized(raws[..n], newId), Normal(IdOf(raws[n], newId(n)), last.value)); }
    }
  }

  /** Normalizing twice is normalizing once, ids included. */
  lemma NormalizingIsIdempotent(raws: seq<Raw>, newId: nat -> string, again: nat -> string)
    requires forall n: nat :: newId(n) != ""
    ensures Normalized(Resent(Normalized(raws, newId)), again) == Normalized(raws, newId)
  {
    NormalizedIsSendable(raws, newId);
    ResentComesBack(Normalized(raws, newId), again);
  }
}
