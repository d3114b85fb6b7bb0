/**
 The membership cache in front of the database: one entry per board member and one map per
 user, both dropped at any time by their TTL.
 */
module MembershipCaches {
  import opened Wrappers

  type Id = string

  type Role = string

  const NO_ROLE: Role := "NONE"
  const ROLE_HIERARCHY: seq<Role> := ["OWNER", "ADMIN", "EDITOR", "VIEWER", NO_ROLE]

  function ToUpper(s: string): string {
    seq(|s|, i requires 0 <= i < |s| => if 'a' <= s[i] <= 'z' then (s[i] as int - 32) as char else s[i])
  }

  /** The role a stored string means; anything unknown or missing is no role. */
  function ParseRole(raw: Option<string>): Role {
    if raw.None? || raw.value == "" then NO_ROLE
    else if ToUpper(raw.value) in ROLE_HIERARCHY then ToUpper(raw.value)
    else NO_ROLE
  }

  /** The name in any letter case, character by character. */
  predicate Spells(s: string, name: Role) {
    |s| == |name|
    && forall i :: 0 <= i < |s| ==> s[i] == name[i] || ('a' <= s[i] <= 'z' && s[i] as int == name[i] as int + 32)
  }

  /** The five names of roles. */
  predicate IsRole(role: Role) {
    role == "OWNER" || role == "ADMIN" || role == "EDITOR" || role == "VIEWER" || role == "NONE"
  }

  lemma UpperIsSpelled(s: string, name: Role)
    requires IsRole(name)
    ensures ToUpper(s) == name <==> Spells(s, name)
  {
    assert forall i :: 0 <= i < |name| ==> 'A' <= name[i] <= 'Z';
    if Spells(s, name) {
      assert forall i :: 0 <= i < |s| ==> ToUpper(s)[i] == name[i];
    }
  }

  lemma IsRoleIff(role: Role)
    ensures role in ROLE_HIERARCHY <==> IsRole(role)
  {
    assert ROLE_HIERARCHY[0] == "OWNER" && ROLE_HIERARCHY[1] == "ADMIN" && ROLE_HIERARCHY[2] == "EDITOR"
           && ROLE_HIERARCHY[3] == "VIEWER" && ROLE_HIERARCHY[4] == "NONE";
  }

  /** What a stored role means: the name it spells, and no role if it spells none. */
  ghost predicate Means(raw: Option<string>, role: Role) {
    && IsRole(role)
    && ((raw.Some? && Spells(raw.value, role))
        || (role == "NONE" && (raw.None? || forall name :: IsRole(name) ==> !Spells(raw.value, name))))
  }

  /** Exactly one role is meant, and parsing finds it. */
  lemma ParsedRoleIff(raw: Option<string>, role: Role)
    ensures Means(raw, role) <==> ParseRole(raw) == role
  {
    forall name | IsRole(name)
      ensures raw.Some? ==> (ToUpper(raw.value) == name <==> Spells(raw.value, name))
    {
      if raw.Some? {
        UpperIsSpelled(raw.value, name);
      }
    }
    if raw.Some? {
      IsRoleIff(ToUpper(raw.value));
    }
    IsRoleIff(role);
  }

  datatype UserKey = UserKey(tenantId: Id, userId: Id)

  datatype BoardKey = BoardKey(tenantId: Id, boardId: Id, userId: Id)
  {
    function User(): UserKey {
      UserKey(tenantId, userId)
    }
  }

  datatype Membership = Membership(role: string, aclVersion: int)

  datatype Entry = Entry(role: Role, aclVersion: int, roles: seq<Role>)

  datatype UserMap = UserMap(boards: map<Id, Entry>, aclVersion: int, roles: seq<Role>)

  /** The database rows and the two kinds of cache keys. */
  datatype State = State(
    memberships: map<BoardKey, Membership>,
    boardEntries: map<BoardKey, Entry>,
    userMaps: map<UserKey, UserMap>)

  function RowOf(memberships: map<BoardKey, Membership>, key: BoardKey): Option<Membership> {
    if key in memberships then Some(memberships[key]) else None
  }

  /** The role the database gives. */
  function DbRole(memberships: map<BoardKey, Membership>, key: BoardKey): Role {
    ParseRole(if key in memberships then Some(memberships[key].role) else None)
  }

  function EntryOf(m: Membership): Entry {
    var role := ParseRole(Some(m.role));
    Entry(role, m.aclVersion, [role])
  }

  /** The entry the database gives; for no member it is one without a role. */
  function DbEntry(memberships: map<BoardKey, Membership>, key: BoardKey): Entry {
    if key in memberships then EntryOf(memberships[key]) else Entry(NO_ROLE, 1, [NO_ROLE])
  }

  // ---------------------------------------------------------------------------
  // Agreement of cache and database
  // ---------------------------------------------------------------------------

  ghost predicate IsHighestVersion(boards: map<Id, Entry>, version: int) {
    && version >= 1
    && (forall b :: b in boards ==> boards[b].aclVersion <= version)
    && (version == 1 || exists b :: b in boards && boards[b].aclVersion == version)
  }

  ghost predicate IsRoleList(boards: map<Id, Entry>, roles: seq<Role>) {
    && (forall i, j :: 0 <= i < j < |roles| ==> roles[i] != roles[j])
    && (forall r :: r in roles ==> exists b :: b in boards && boards[b].role == r)
    && (forall b :: b in boards ==> boards[b].role in roles)
  }

  /** `m` is what the database says about a user: boards, highest version, roles once each. */
  ghost predicate IsUserMap(memberships: map<BoardKey, Membership>, user: UserKey, m: UserMap) {
    && (forall b :: b in m.boards <==> BoardKey(user.tenantId, b, user.userId) in memberships)
    && (forall b :: b in m.boards ==> m.boards[b] == EntryOf(memberships[BoardKey(user.tenantId, b, user.userId)]))
    && IsHighestVersion(m.boards, m.aclVersion)
    && IsRoleList(m.boards, m.roles)
  }

  /** Each board of the map has the role that its row means, the row's version and that one role. */
  ghost predicate SaysTheRows(memberships: map<BoardKey, Membership>, user: UserKey, m: UserMap) {
    forall b :: b in m.boards ==>
      var key := BoardKey(user.tenantId, b, user.userId);
      && key in memberships && Means(Some(memberships[key].role), m.boards[b].role)
      && m.boards[b].aclVersion == memberships[key].aclVersion && m.boards[b].roles == [m.boards[b].role]
  }

  lemma UserMapSaysTheRows(memberships: map<BoardKey, Membership>, user: UserKey, m: UserMap)
    requires IsUserMap(memberships, user, m)
    ensures SaysTheRows(memberships, user, m)
  {
    forall b | b in m.boards
      ensures Means(Some(memberships[BoardKey(user.tenantId, b, user.userId)].role), m.boards[b].role)
    {
      ParsedRoleIff(Some(memberships[BoardKey(user.tenantId, b, user.userId)].role), m.boards[b].role);
    }
  }

  lemma HighestVersionStep(boards: map<Id, Entry>, version: int, id: Id, entry: Entry)
    requires IsHighestVersion(boards, version) && id !in boards
    ensures IsHighestVersion(boards[id := entry], if entry.aclVersion > version then entry.aclVersion else version)
  {
    var after := boards[id := entry];
    assert id in after && after[id] == entry;
    if entry.aclVersion <= version && version != 1 {
      var b :| b in boards && boards[b].aclVersion == version;
      assert b in after && after[b] == boards[b];
    }
  }

  lemma RoleListStep(boards: map<Id, Entry>, roles: seq<Role>, id: Id, entry: Entry)
    requires IsRoleList(boards, roles) && id !in boards
    ensures IsRoleList(boards[id := entry], if entry.role in roles then roles else roles + [entry.role])
  {
    var after := boards[id := entry];
    var roles' := if entry.role in roles then roles else roles + [entry.role];
    assert forall r :: r in roles' <==> r in roles || r == entry.role;
    forall r | r in roles'
      ensures exists b :: b in after && after[b].role == r
    {
      if r == entry.role {
        assert id in after && after[id].role == r;
      } else {
        var b :| b in boards && boards[b].role == r;
        assert b in after && after[b].role == r;
      }
    }
  }

  ghost predicate BoardsAgree(s: State) {
    forall k :: k in s.boardEntries ==> s.boardEntries[k] == DbEntry(s.memberships, k)
  }

  ghost predicate UsersAgree(s: State) {
    forall u :: u in s.userMaps ==> IsUserMap(s.memberships, u, s.userMaps[u])
  }

  ghost predicate Agrees(s: State) {
    BoardsAgree(s) && UsersAgree(s)
  }

  predicate DistinctBoards(rows: seq<(Id, Membership)>) {
    forall i, j :: 0 <= i < j < |rows| ==> rows[i].0 != rows[j].0
  }

  /** The rows the database returns for a user, each board once. */
  ghost predicate IsAnswer(memberships: map<BoardKey, Membership>, user: UserKey, rows: seq<(Id, Membership)>) {
    && DistinctBoards(rows)
    && (forall i :: 0 <= i < |rows| ==>
         RowOf(memberships, BoardKey(user.tenantId, rows[i].0, user.userId)) == Some(rows[i].1))
    && (forall b :: BoardKey(user.tenantId, b, user.userId) in memberships ==>
          exists i :: 0 <= i < |rows| && rows[i].0 == b)
  }

  /** The map after collecting the rows one after the other. */
  function Collected(rows: seq<(Id, Membership)>): UserMap
    decreases |rows|
  {
    if rows == [] then UserMap(map[], 1, [])
    else
      var n := |rows| - 1;
      var before := Collected(rows[..n]);
      var entry := EntryOf(rows[n].1);
      UserMap(before.boards[rows[n].0 := entry],
              if entry.aclVersion > before.aclVersion then entry.aclVersion else before.aclVersion,
              if entry.role in before.roles then before.roles else before.roles + [entry.role])
  }

  lemma {:induction false} CollectedRow(rows: seq<(Id, Membership)>, j: nat)
    requires DistinctBoards(rows) && j < |rows|
    ensures rows[j].0 in Collected(rows).boards && Collected(rows).boards[rows[j].0] == EntryOf(rows[j].1)
    decreases |rows|
  {
    if j < |rows| - 1 {
      CollectedRow(rows[..|rows| - 1], j);
    }
  }

  lemma {:induction false} RowOfCollected(rows: seq<(Id, Membership)>, b: Id) returns (j: nat)
    requires b in Collected(rows).boards
    ensures j < |rows| && rows[j].0 == b
    decreases |rows|
  {
    j := |rows| - 1;
    if rows[j].0 != b {
      j := RowOfCollected(rows[..j], b);
    }
  }

  lemma {:induction false} CollectedSummary(rows: seq<(Id, Membership)>)
    requires DistinctBoards(rows)
    ensures var m := Collected(rows); IsHighestVersion(m.boards, m.aclVersion) && IsRoleList(m.boards, m.roles)
    decreases |rows|
  {
    if rows != [] {
      var n := |rows| - 1;
      var before := Collected(rows[..n]);
      CollectedSummary(rows[..n]);
      NextBoardIsNew(rows);
      HighestVersionStep(before.boards, before.aclVersion, rows[n].0, EntryOf(rows[n].1));
      RoleListStep(before.boards, before.roles, rows[n].0, EntryOf(rows[n].1));
    }
  }

  lemma NextBoardIsNew(rows: seq<(Id, Membership)>)
    requires rows != [] && DistinctBoards(rows)
    ensures rows[|rows| - 1].0 !in Collected(rows[..|rows| - 1]).boards
  {
    var n := |rows| - 1;
    if rows[n].0 in Collected(rows[..n]).boards {
      var j := RowOfCollected(rows[..n], rows[n].0);
      assert false;
    }
  }

  /** Collecting the database's answer for a user gives the user's map. */
  lemma CollectedMap(memberships: map<BoardKey, Membership>, user: UserKey, rows: seq<(Id, Membership)>)
    requires IsAnswer(memberships, user, rows)
    ensures IsUserMap(memberships, user, Collected(rows))
  {
    var boards := Collected(rows).boards;
    CollectedSummary(rows);
    forall b
      ensures b in boards <==> BoardKey(user.tenantId, b, user.userId) in memberships
      ensures b in boards ==> boards[b] == EntryOf(memberships[BoardKey(user.tenantId, b, user.userId)])
    {
      if b in boards {
        var j := RowOfCollected(rows, b);
        CollectedRow(rows, j);
      } else if BoardKey(user.tenantId, b, user.userId) in memberships {
        var j :| 0 <= j < |rows| && rows[j].0 == b;
        CollectedRow(rows, j);
      }
    }
  }

  // ---------------------------------------------------------------------------
  // The cache
  // ---------------------------------------------------------------------------

  class MembershipCache {
    var memberships: map<BoardKey, Membership>
    var boardEntries: map<BoardKey, Entry>
    var userMaps: map<UserKey, UserMap>

    function CacheState(): State
      reads this
    {
      State(memberships, boardEntries, userMaps)
    }

    method GetRole(key: BoardKey) returns (role: Role)
      modifies this`boardEntries
      ensures CacheState() == AfterReadRole(old(CacheState()), key)
      ensures role == boardEntries[key].role
      ensures Agrees(old(CacheState())) ==> role == DbRole(memberships, key)
      ensures Agrees(old(CacheState())) ==>
                Means(if key in memberships then Some(memberships[key].role) else None, role)
      ensures forall k :: k != key ==> (k in boardEntries <==> k in old(boardEntries))
                                       && (k in boardEntries ==> boardEntries[k] == old(boardEntries)[k])
      ensures key in boardEntries && (key in old(boardEntries) ==> boardEntries[key] == old(boardEntries)[key])
      ensures key !in old(boardEntries) ==>
                && boardEntries[key].roles == [role]
                && boardEntries[key].aclVersion == if key in memberships then memberships[key].aclVersion else 1
    {
      ParsedRoleIff(if key in memberships then Some(memberships[key].role) else None, DbRole(memberships, key));
      if key in boardEntries {
        return boardEntries[key].role;
      }
      var row := RowOf(memberships, key);
      role := ParseRole(if row.Some? then Some(row.value.role) else None);
      var aclVersion := if row.Some? then row.value.aclVersion else 1;
      boardEntries := boardEntries[key := Entry(role, aclVersion, [role])];
    }

    /** Nothing for no member, unless a role lookup has cached that there is no role. */
    method GetEntry(key: BoardKey) returns (entry: Option<Entry>)
      modifies this`boardEntries
      ensures CacheState() == AfterReadEntry(old(CacheState()), key)
      ensures entry == if key in boardEntries then Some(boardEntries[key]) else None
      ensures Agrees(old(CacheState())) ==>
                entry == if key in memberships || key in old(boardEntries) then Some(DbEntry(memberships, key))
                    else None
      ensures Agrees(old(CacheState())) && key in memberships ==>
                && entry.Some? && Means(Some(memberships[key].role), entry.value.role)
                && entry.value.aclVersion == memberships[key].aclVersion && entry.value.roles == [entry.value.role]
      ensures Agrees(old(CacheState())) && key !in memberships ==>
                && (entry.Some? <==> key in old(boardEntries)) && (entry.Some? ==> entry.value.role == "NONE")
    {
      if key in memberships {
        ParsedRoleIff(Some(memberships[key].role), DbRole(memberships, key));
      }
      if key in boardEntries {
        return Some(boardEntries[key]);
      }
      var row := RowOf(memberships, key);
      if row.None? {
        return None;
      }
      boardEntries := boardEntries[key := EntryOf(row.value)];
      return Some(boardEntries[key]);
    }

    /** `rows` is the database's answer for the user. */
    method GetByUser(user: UserKey, rows: seq<(Id, Membership)>) returns (r: Option<UserMap>)
      requires IsAnswer(memberships, user, rows)
      modifies this`userMaps
      ensures CacheState() == AfterReadUser(old(CacheState()), user, rows)
      ensures user in old(userMaps) ==> r == Some(old(userMaps)[user]) && userMaps == old(userMaps)
      ensures user !in old(userMaps) && rows == [] ==> r == None && userMaps == old(userMaps)
      ensures user !in old(userMaps) && rows != [] ==>
                && r.Some? && IsUserMap(memberships, user, r.value) && userMaps == old(userMaps)[user := r.value]
                && SaysTheRows(memberships, user, r.value)
    {
      if user in userMaps {
        return Some(userMaps[user]);
      }
      if |rows| == 0 {
        return None;
      }
      var m := BuildUserMap(user, rows);
      UserMapSaysTheRows(memberships, user, m);
      userMaps := userMaps[user := m];
      return Some(m);
    }

    /** Collects the boards, the highest version and the roles, row by row. */
    method BuildUserMap(user: UserKey, rows: seq<(Id, Membership)>) returns (m: UserMap)
      requires IsAnswer(memberships, user, rows)
      ensures m == Collected(rows) && IsUserMap(memberships, user, m)
    {
      m := CollectRows(rows);
      CollectedMap(memberships, user, rows);
    }

    static method CollectRows(rows: seq<(Id, Membership)>) returns (m: UserMap)
      ensures m == Collected(rows)
    {
      var boards: map<Id, Entry> := map[];
      var maxAclVersion := 1;
      var allRoles: seq<Role> := [];
      for i := 0 to |rows|
        invariant UserMap(boards, maxAclVersion, allRoles) == Collected(rows[..i])
      {
        assert rows[..i + 1][..i] == rows[..i];
        var entry := EntryOf(rows[i].1);
        boards := boards[rows[i].0 := entry];
        if entry.aclVersion > maxAclVersion {
          maxAclVersion := entry.aclVersion;
        }
        if entry.role !in allRoles {
          allRoles := allRoles + [entry.role];
        }
      }
      assert rows[..|rows|] == rows;
      m := UserMap(boards, maxAclVersion, allRoles);
    }

    method Upsert(key: BoardKey, role: Role, aclVersion: int)
      modifies this`boardEntries, this`userMaps
      ensures CacheState() == AfterUpsert(old(CacheState()), key, role, aclVersion)
      ensures boardEntries == old(boardEntries)[key := Entry(role, aclVersion, [role])]
      ensures userMaps == old(userMaps) - {UserKey(key.tenantId, key.userId)}
    {
      boardEntries := boardEntries[key := Entry(role, aclVersion, [role])];
      userMaps := userMaps - {key.User()};
    }

    /** With a user: both of the user's keys. Without: the board's keys, but no user map. */
    method Invalidate(tenantId: Id, boardId: Id, userId: Option<Id>)
      modifies this`boardEntries, this`userMaps
      ensures CacheState() ==
              if userId.Some? && userId.value != ""
              then AfterInvalidateUser(old(CacheState()), BoardKey(tenantId, boardId, userId.value))
              else AfterInvalidateBoard(old(CacheState()), tenantId, boardId)
      ensures userId.Some? && userId.value != "" ==>
                && boardEntries == old(boardEntries) - {BoardKey(tenantId, boardId, userId.value)}
                && userMaps == old(userMaps) - {UserKey(tenantId, userId.value)}
      ensures userId.None? || userId.value == "" ==>
                && userMaps == old(userMaps)
                && (forall k :: k in boardEntries <==>
                                  k in old(boardEntries) && !(k.tenantId == tenantId && k.boardId == boardId))
                && forall k :: k in boardEntries ==> boardEntries[k] == old(boardEntries)[k]
    {
      if userId.Some? && userId.value != "" {
        var key := BoardKey(tenantId, boardId, userId.value);
        boardEntries := boardEntries - {key};
        userMaps := userMaps - {key.User()};
      } else {
        boardEntries :=
          map k | k in boardEntries && !(k.tenantId == tenantId && k.boardId == boardId) :: boardEntries[k];
      }
    }
  }

  // ---------------------------------------------------------------------------
  // Runs
  // ---------------------------------------------------------------------------

  function AfterReadRole(s: State, key: BoardKey): State {
    if key in s.boardEntries then s
    else
      var role := DbRole(s.memberships, key);
      var version := if key in s.memberships then s.memberships[key].aclVersion else 1;
      s.(boardEntries := s.boardEntries[key := Entry(role, version, [role])])
  }

  function AfterReadEntry(s: State, key: BoardKey): State {
    if key in s.boardEntries || key !in s.memberships then s
    else s.(boardEntries := s.boardEntries[key := EntryOf(s.memberships[key])])
  }

  /** A user without memberships leaves nothing in the cache. */
  function AfterReadUser(s: State, user: UserKey, rows: seq<(Id, Membership)>): State {
    if user in s.userMaps || rows == [] then s else s.(userMaps := s.userMaps[user := Collected(rows)])
  }

  function AfterUpsert(s: State, key: BoardKey, role: Role, aclVersion: int): State {
    s.(boardEntries := s.boardEntries[key := Entry(role, aclVersion, [role])], userMaps := s.userMaps - {key.User()})
  }

  function AfterInvalidateUser(s: State, key: BoardKey): State {
    s.(boardEntries := s.boardEntries - {key}, userMaps := s.userMaps - {key.User()})
  }

  function AfterInvalidateBoard(s: State, tenantId: Id, boardId: Id): State {
    s.(boardEntries := map k | k in s.boardEntries
        && !(k.tenantId == tenantId && k.boardId == boardId) :: s.boardEntries[k])
  }

  /** A membership set, or removed. */
  function Changed(s: State, key: BoardKey, row: Option<Membership>): State {
    s.(memberships := if row.Some? then s.memberships[key := row.value] else s.memberships - {key})
  }

  /** What happens to cache and database; a change comes with the call that follows it. */
  datatype Step =
    | ReadRole(key: BoardKey)
    | ReadEntry(key: BoardKey)
    | ReadByUser(user: UserKey, rows: seq<(Id, Membership)>)
    | ExpireBoardKey(key: BoardKey)
    | ExpireUserKey(user: UserKey)
    | SetAndUpsert(key: BoardKey, row: Membership)
    | ChangeAndInvalidate(key: BoardKey, change: Option<Membership>)

  ghost predicate Enabled(s: State, step: Step) {
    step.ReadByUser? ==> IsAnswer(s.memberships, step.user, step.rows)
  }

  function Next(s: State, step: Step): State {
    match step
    case ReadRole(key) => AfterReadRole(s, key)
    case ReadEntry(key) => AfterReadEntry(s, key)
    case ReadByUser(user, rows) => AfterReadUser(s, user, rows)
    case ExpireBoardKey(key) => s.(boardEntries := s.boardEntries - {key})
    case ExpireUserKey(user) => s.(userMaps := s.userMaps - {user})
    case SetAndUpsert(key, row) =>
      AfterUpsert(Changed(s, key, Some(row)), key, ParseRole(Some(row.role)), row.aclVersion)
    case ChangeAndInvalidate(key, change) => AfterInvalidateUser(Changed(s, key, change), key)
  }

  /** Other users' maps do not depend on the changed row. */
  lemma OtherUsersUnaffected(s: State, key: BoardKey, row: Option<Membership>, user: UserKey, m: UserMap)
    requires IsUserMap(s.memberships, user, m) && user != key.User()
    ensures IsUserMap(Changed(s, key, row).memberships, user, m)
  {
    var after := Changed(s, key, row).memberships;
    forall b
      ensures RowOf(after, BoardKey(user.tenantId, b, user.userId)) ==
              RowOf(s.memberships, BoardKey(user.tenantId, b, user.userId))
    {
      assert BoardKey(user.tenantId, b, user.userId).User() == user;
    }
    forall b
      ensures BoardKey(user.tenantId, b, user.userId) in after <==>
              BoardKey(user.tenantId, b, user.userId) in s.memberships
    {
      assert RowOf(after, BoardKey(user.tenantId, b, user.userId)) ==
             RowOf(s.memberships, BoardKey(user.tenantId, b, user.userId));
    }
  }

  /** After a change of one membership, all entries of other keys and maps of other users agree. */
  lemma ChangeAgrees(s: State, key: BoardKey, row: Option<Membership>)
    requires Agrees(s)
    ensures Agrees(AfterInvalidateUser(Changed(s, key, row), key))
  {
    forall u | u in s.userMaps && u != key.User()
      ensures IsUserMap(Changed(s, key, row).memberships, u, s.userMaps[u])
    {
      OtherUsersUnaffected(s, key, row, u, s.userMaps[u]);
    }
  }

  /** An upsert is an invalidation that then caches the new entry. */
  lemma UpsertAgrees(s: State, key: BoardKey, row: Membership)
    requires Agrees(s)
    ensures Agrees(AfterUpsert(Changed(s, key, Some(row)), key, ParseRole(Some(row.role)), row.aclVersion))
  {
    ChangeAgrees(s, key, Some(row));
    assert DbEntry(Changed(s, key, Some(row)).memberships, key) == EntryOf(row);
  }

  lemma ReadByUserAgrees(s: State, user: UserKey, rows: seq<(Id, Membership)>)
    requires Agrees(s) && IsAnswer(s.memberships, user, rows)
    ensures Agrees(AfterReadUser(s, user, rows))
  {
    CollectedMap(s.memberships, user, rows);
  }

  lemma StepAgrees(s: State, step: Step)
    requires Agrees(s) && Enabled(s, step)
    ensures Agrees(Next(s, step))
  {
    match step
    case ReadRole(_) =>
    case ReadEntry(_) =>
    case ReadByUser(user, rows) => ReadByUserAgrees(s, user, rows);
    case ExpireBoardKey(_) =>
    case ExpireUserKey(_) =>
    case SetAndUpsert(key, row) => UpsertAgrees(s, key, row);
    case ChangeAndInvalidate(key, change) => ChangeAgrees(s, key, change);
  }

  ghost predicate IsRun(s: State, steps: seq<Step>)
    decreases |steps|
  {
    steps == [] || (Enabled(s, steps[0]) && IsRun(Next(s, steps[0]), steps[1..]))
  }

  function Final(s: State, steps: seq<Step>): State
    decreases |steps|
  {
    if steps == [] then s else Final(Next(s, steps[0]), steps[1..])
  }

  /**
   Over every sequential run of lookups, expiries and changes, each change followed by its
   upsert or by the invalidation for its user, what is cached is what the database says.
   */
  lemma {:induction false} EveryRunAgrees(s: State, steps: seq<Step>)
    requires Agrees(s) && IsRun(s, steps)
    ensures Agrees(Final(s, steps))
    decreases |steps|
  {
    if steps != [] {
      StepAgrees(s, steps[0]);
      EveryRunAgrees(Next(s, steps[0]), steps[1..]);
    }
  }

  lemma EmptyCacheAgrees(memberships: map<BoardKey, Membership>)
    ensures Agrees(State(memberships, map[], map[]))
  {
  }

  // ---------------------------------------------------------------------------
  // Invalidation of a whole board
  // ---------------------------------------------------------------------------

  function CachedView(row: Option<Membership>): Option<Entry> {
    if row.Some? then Some(EntryOf(row.value)) else None
  }

  /** Any memberships set or removed at once, as when a board is archived. */
  function ChangedAll(s: State, changes: map<BoardKey, Option<Membership>>): State {
    s.(memberships :=
         map k | k in s.memberships.Keys + changes.Keys && (k in changes ==> changes[k].Some?) ::
           if k in changes then changes[k].value else s.memberships[k])
  }

  lemma ChangedRow(s: State, changes: map<BoardKey, Option<Membership>>, key: BoardKey)
    ensures RowOf(ChangedAll(s, changes).memberships, key) == if key in changes then changes[key]
            else RowOf(s.memberships, key)
  {
  }

  /** The rows of a user are the same before and after, except perhaps on one board. */
  ghost predicate SameExcept(before: map<BoardKey, Membership>, after: map<BoardKey, Membership>, key: BoardKey) {
    forall b :: b != key.boardId ==>
      RowOf(after, BoardKey(key.tenantId, b, key.userId)) == RowOf(before, BoardKey(key.tenantId, b, key.userId))
  }

  /** A cached user map stays right exactly if the change does not show in it. */
  lemma {:induction false} MapStaysRightIff(before: map<BoardKey, Membership>, after: map<BoardKey, Membership>,
      key: BoardKey, m: UserMap)
    requires IsUserMap(before, key.User(), m) && SameExcept(before, after, key)
    ensures IsUserMap(after, key.User(), m) <==> CachedView(RowOf(after, key)) == CachedView(RowOf(before, key))
  {
    var user := key.User();
    assert BoardKey(user.tenantId, key.boardId, user.userId) == key;
    forall b | b != key.boardId
      ensures BoardKey(key.tenantId, b, key.userId) in after <==> BoardKey(key.tenantId, b, key.userId) in before
    {
      assert RowOf(after, BoardKey(key.tenantId, b, key.userId)) ==
             RowOf(before, BoardKey(key.tenantId, b, key.userId));
    }
    assert key.boardId in m.boards <==> key in before;
  }

  /** What the changes of one board do to one user's map. */
  lemma MapAfterChanges(s: State, tenantId: Id, boardId: Id, changes: map<BoardKey, Option<Membership>>, user: UserKey)
    requires UsersAgree(s) && user in s.userMaps
    requires forall k :: k in changes ==> k.tenantId == tenantId && k.boardId == boardId
    ensures var key := BoardKey(user.tenantId, boardId, user.userId);
            IsUserMap(ChangedAll(s, changes).memberships, user, s.userMaps[user]) <==>
            (key in changes ==> CachedView(changes[key]) == CachedView(RowOf(s.memberships, key)))
  {
    var key := BoardKey(user.tenantId, boardId, user.userId);
    var after := ChangedAll(s, changes).memberships;
    forall b | b != boardId
      ensures RowOf(after, BoardKey(user.tenantId, b, user.userId)) ==
              RowOf(s.memberships, BoardKey(user.tenantId, b, user.userId))
    {
      ChangedRow(s, changes, BoardKey(user.tenantId, b, user.userId));
    }
    ChangedRow(s, changes, key);
    MapStaysRightIff(s.memberships, after, key, s.userMaps[user]);
  }

  /**
   Following any changes on a board with the invalidation of the whole board keeps the per-board
   entries right, but the user maps exactly when no changed user has one cached in which the
   change shows.
   */
  lemma BoardInvalidationAgreesIff(s: State, tenantId: Id, boardId: Id, changes: map<BoardKey, Option<Membership>>)
    requires Agrees(s) && forall k :: k in changes ==> k.tenantId == tenantId && k.boardId == boardId
    ensures var after := AfterInvalidateBoard(ChangedAll(s, changes), tenantId, boardId);
            && BoardsAgree(after)
            && (UsersAgree(after) <==>
                forall k :: k in changes && k.User() in s.userMaps ==>
                              CachedView(changes[k]) == CachedView(RowOf(s.memberships, k)))
  {
    var after := AfterInvalidateBoard(ChangedAll(s, changes), tenantId, boardId);
    forall u | u in s.userMaps
      ensures var key := BoardKey(u.tenantId, boardId, u.userId);
              IsUserMap(after.memberships, u, after.userMaps[u]) <==>
              (key in changes ==> CachedView(changes[key]) == CachedView(RowOf(s.memberships, key)))
    {
      MapAfterChanges(s, tenantId, boardId, changes, u);
    }
    forall k | k in changes
      ensures BoardKey(k.User().tenantId, boardId, k.User().userId) == k
    {
    }
    forall k | k in after.boardEntries
      ensures after.boardEntries[k] == DbEntry(after.memberships, k)
    {
      ChangedRow(s, changes, k);
    }
  }
}
