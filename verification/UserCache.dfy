/**
 * The cached user of get_jwt_user (backend/common/security/jwt.py) against the
 * tables it was read from: UserCacheManager and the role, scope, rule, menu and
 * user services of backend/app/admin.
 *
 * A cached entry is the user with department, roles, menus, data scopes and
 * data rules, as CRUDUser.get_join nests them.  Every covered mutation clears
 * the entries of all users whose joined record it changes.
 */
module UserCache {
  import opened Wrappers
  import opened RedisKeys

  /** The columns of a row as text; the last login time is not one of them. */
  type Row = map<string, string>

  /** A table by primary key. */
  type Table = map<nat, Row>

  datatype Database = Database(
    users: Table, depts: Table, roles: Table, menus: Table, scopes: Table, rules: Table,
    userRole: set<(nat, nat)>,
    roleMenu: set<(nat, nat)>,
    roleScope: set<(nat, nat)>,
    scopeRule: set<(nat, nat)>)

  datatype ScopeSnapshot = ScopeSnapshot(row: Row, rules: Table)
  datatype RoleSnapshot = RoleSnapshot(row: Row, menus: Table, scopes: map<nat, ScopeSnapshot>)
  datatype Snapshot = Snapshot(row: Row, dept: Table, roles: map<nat, RoleSnapshot>)

  /** A missing column reads as the empty text, like NULL. */
  function Cell(row: Row, column: string): string {
    if column in row then row[column] else ""
  }

  /** A foreign key column holds the id. */
  predicate Refers(row: Row, column: string, id: nat) {
    Cell(row, column) == Dec(id)
  }

  // ---------------------------------------------------------------- get_join

  function MenusOf(db: Database, role: nat): Table {
    map m | m in db.menus && (role, m) in db.roleMenu :: db.menus[m]
  }

  function RulesOf(db: Database, scope: nat): Table {
    map r | r in db.rules && (scope, r) in db.scopeRule :: db.rules[r]
  }

  function ScopesOf(db: Database, role: nat): map<nat, ScopeSnapshot> {
    map s | s in db.scopes && (role, s) in db.roleScope :: ScopeSnapshot(db.scopes[s], RulesOf(db, s))
  }

  function RoleOf(db: Database, role: nat): RoleSnapshot
    requires role in db.roles
  {
    RoleSnapshot(db.roles[role], MenusOf(db, role), ScopesOf(db, role))
  }

  function RolesOf(db: Database, user: nat): map<nat, RoleSnapshot> {
    map r | r in db.roles && (user, r) in db.userRole :: RoleOf(db, r)
  }

  /** The department of a user, if there is one. */
  function DeptOf(db: Database, row: Row): Table {
    map d | d in db.depts && Refers(row, "dept_id", d) :: db.depts[d]
  }

  /** The joined record of a user, if the user exists. */
  function GetJoin(db: Database, user: nat): Option<Snapshot> {
    if user in db.users then Some(Snapshot(db.users[user], DeptOf(db, db.users[user]), RolesOf(db, user))) else None
  }

  // What the joined record shows, place by place.

  predicate ShowsDept(db: Database, user: nat, dept: nat, row: Row) {
    GetJoin(db, user).Some? && dept in GetJoin(db, user).value.dept && GetJoin(db, user).value.dept[dept] == row
  }

  function RolesShown(db: Database, user: nat): map<nat, RoleSnapshot> {
    if GetJoin(db, user).Some? then GetJoin(db, user).value.roles else map[]
  }

  predicate ShowsRole(db: Database, user: nat, role: nat, row: Row) {
    role in RolesShown(db, user) && RolesShown(db, user)[role].row == row
  }

  predicate ShowsMenu(db: Database, user: nat, role: nat, menu: nat, row: Row) {
    var roles := RolesShown(db, user);
    role in roles && menu in roles[role].menus && roles[role].menus[menu] == row
  }

  predicate ShowsScope(db: Database, user: nat, role: nat, scope: nat, row: Row) {
    var roles := RolesShown(db, user);
    role in roles && scope in roles[role].scopes && roles[role].scopes[scope].row == row
  }

  predicate ShowsRule(db: Database, user: nat, role: nat, scope: nat, rule: nat, row: Row) {
    var roles := RolesShown(db, user);
    && role in roles && scope in roles[role].scopes
    && rule in roles[role].scopes[scope].rules && roles[role].scopes[scope].rules[rule] == row
  }

  predicate IsRow(t: Table, id: nat, row: Row) {
    id in t && t[id] == row
  }

  predicate HasRole(db: Database, user: nat, role: nat) {
    user in db.users && (user, role) in db.userRole && role in db.roles
  }

  /** A scope is reached through an existing role. */
  predicate ReachesScope(db: Database, user: nat, role: nat, scope: nat) {
    HasRole(db, user, role) && (role, scope) in db.roleScope && scope in db.scopes
  }

  /** The record shows the user's row, and at every place exactly the rows that the associations lead to. */
  lemma RecordShowsTables(db: Database, user: nat)
    ensures GetJoin(db, user).Some? <==> user in db.users
    ensures user in db.users ==> GetJoin(db, user).value.row == db.users[user]
    ensures forall d: nat, row :: ShowsDept(db, user, d, row) <==>
      user in db.users && Refers(db.users[user], "dept_id", d) && IsRow(db.depts, d, row)
    ensures forall r: nat, row :: ShowsRole(db, user, r, row) <==> HasRole(db, user, r) && IsRow(db.roles, r, row)
    ensures forall r: nat, m: nat, row :: ShowsMenu(db, user, r, m, row) <==>
      HasRole(db, user, r) && (r, m) in db.roleMenu && IsRow(db.menus, m, row)
    ensures forall r: nat, s: nat, row :: ShowsScope(db, user, r, s, row) <==>
      HasRole(db, user, r) && (r, s) in db.roleScope && IsRow(db.scopes, s, row)
    ensures forall r: nat, s: nat, x: nat, row :: ShowsRule(db, user, r, s, x, row) <==>
      ReachesScope(db, user, r, s) && (s, x) in db.scopeRule && IsRow(db.rules, x, row)
  {
  }

  // ---------------------------------------------------------------- the four joins

  function UsersOfRoles(db: Database, roles: set<nat>): set<nat> {
    set p | p in db.userRole && p.1 in roles :: p.0
  }

  function UsersOfMenus(db: Database, menus: set<nat>): set<nat> {
    set p, q | p in db.userRole && q in db.roleMenu && p.1 == q.0 && q.1 in menus :: p.0
  }

  function UsersOfScopes(db: Database, scopes: set<nat>): set<nat> {
    set p, q | p in db.userRole && q in db.roleScope && p.1 == q.0 && q.1 in scopes :: p.0
  }

  function UsersOfRules(db: Database, rules: set<nat>): set<nat> {
    set p, q, r | p in db.userRole && q in db.roleScope && r in db.scopeRule
      && p.1 == q.0 && q.1 == r.0 && r.1 in rules :: p.0
  }

  // ---------------------------------------------------------------- mutations

  type Cache = map<nat, Snapshot>

  datatype System = System(db: Database, cache: Cache)

  /** Delete the association rows of `left`, then insert the given ones. */
  function Reassign(rows: set<(nat, nat)>, left: nat, rights: set<nat>): set<(nat, nat)> {
    (set p | p in rows && p.0 != left) + (set r | r in rights :: (left, r))
  }

  /** One request each, with the clearing that follows it; errors change nothing. */
  datatype Step =
    | UpdateRole(role: nat, row: Row)
    | UpdateRoleMenu(role: nat, menus: set<nat>)
    | UpdateRoleScope(role: nat, scopes: set<nat>)
    | DeleteRoles(roles: set<nat>)
    | UpdateScope(scope: nat, row: Row)
    | UpdateScopeRules(scope: nat, rules: set<nat>)
    | DeleteScopes(scopes: set<nat>)
    | UpdateRule(rule: nat, row: Row)
    | DeleteRules(rules: set<nat>)
    | UpdateMenu(menu: nat, row: Row)
    | UpdateUser(user: nat, row: Row, roles: set<nat>)
    | UpdateUserColumns(user: nat, row: Row)
    | DeleteUser(user: nat)
    | LoadUser(user: nat)
    | EvictUser(user: nat)
    | DeleteMenu(menu: nat)
    | UpdateDept(dept: nat, row: Row)

  datatype ServiceError = NotFound | Conflict | Forbidden | UserLocked | DeptLocked | DeptDeleted | RolesLocked

  /** Some row has the given text in a column. */
  predicate Taken(rows: Table, column: string, text: string) {
    exists x :: x in rows && Cell(rows[x], column) == text
  }

  /** Updating a named row: it must exist, and a new name must be free. */
  function NameRefusal(rows: Table, id: nat, row: Row, column: string): (r: Option<ServiceError>)
    ensures r.None? <==> NameIsFree(rows, id, row, column)
    ensures r == Some(NotFound) <==> id !in rows
    ensures r == Some(Conflict) <==>
      && id in rows && Cell(rows[id], column) != Cell(row, column)
      && exists x :: x in rows && Cell(rows[x], column) == Cell(row, column)
  {
    if id !in rows then Some(NotFound)
    else if Cell(rows[id], column) != Cell(row, column) && Taken(rows, column, Cell(row, column)) then Some(Conflict)
    else None
  }

  predicate NameIsFree(rows: Table, id: nat, row: Row, column: string) {
    id in rows && (Cell(rows[id], column) == Cell(row, column) || !Taken(rows, column, Cell(row, column)))
  }

  /** No two rows have the same text in a column. */
  ghost predicate Unique(rows: Table, column: string) {
    forall x, y :: x in rows && y in rows && Cell(rows[x], column) == Cell(rows[y], column) ==> x == y
  }

  /** What the check is for: accepted updates keep unique names unique, and others would not. */
  lemma NamesStayUnique(rows: Table, id: nat, row: Row, column: string)
    requires Unique(rows, column) && id in rows
    ensures NameRefusal(rows, id, row, column).None? <==> Unique(rows[id := row], column)
  {
    var next := rows[id := row];
    if x :| x in rows && x != id && Cell(rows[x], column) == Cell(row, column) {
      assert x in next && id in next && Cell(next[x], column) == Cell(next[id], column);
    }
  }

  predicate IsNull(text: string) {
    text == "" || text == Dec(0)
  }

  /** Updating a row with a parent: the parent must exist and be another row. */
  function TreeRefusal(rows: Table, id: nat, row: Row, column: string): (r: Option<ServiceError>)
    ensures r.None? <==>
      && NameIsFree(rows, id, row, column) && !Refers(row, "parent_id", id)
      && (IsNull(Cell(row, "parent_id")) || exists p :: p in rows && Refers(row, "parent_id", p))
    ensures id in rows && r == Some(Forbidden) ==> Refers(row, "parent_id", id)
  {
    var refusal := NameRefusal(rows, id, row, column);
    if refusal.Some? then refusal
    else if !IsNull(Cell(row, "parent_id")) && !exists p :: p in rows && Refers(row, "parent_id", p) then Some(NotFound)
    else if Refers(row, "parent_id", id) then Some(Forbidden)
    else None
  }

  predicate DeptIsPresent(db: Database, row: Row) {
    exists d :: d in db.depts && Refers(row, "dept_id", d)
  }

  function UserRefusal(db: Database, user: nat, row: Row, roles: set<nat>): Option<ServiceError> {
    var refusal := NameRefusal(db.users, user, row, "username");
    if refusal.Some? then refusal
    else if !IsNull(Cell(row, "dept_id")) && Cell(row, "dept_id") != Cell(db.users[user], "dept_id")
      && !exists d :: d in db.depts && Refers(row, "dept_id", d) then Some(NotFound)
    else if !(roles <= db.roles.Keys) then Some(NotFound)
    else None
  }

  /** A user update is accepted exactly when the name is free, the roles exist, and a new department exists. */
  lemma UserIsRefusedIff(db: Database, user: nat, row: Row, roles: set<nat>)
    ensures UserRefusal(db, user, row, roles).None? <==>
      && NameIsFree(db.users, user, row, "username") && roles <= db.roles.Keys
      && (|| DeptIsPresent(db, row) || IsNull(Cell(row, "dept_id"))
          || Cell(row, "dept_id") == Cell(db.users[user], "dept_id"))
    ensures UserRefusal(db, user, row, roles) == Some(Conflict) <==>
      user in db.users && !NameIsFree(db.users, user, row, "username")
  {
  }

  function Present(found: bool): Option<ServiceError> {
    if found then None else Some(NotFound)
  }

  /** Why a service refuses a request before it changes anything. */
  function Refusal(db: Database, step: Step): Option<ServiceError> {
    match step
    case UpdateRole(r, row) => NameRefusal(db.roles, r, row, "name")
    case UpdateRoleMenu(r, menus) => Present(r in db.roles && menus <= db.menus.Keys)
    case UpdateRoleScope(r, scopes) => Present(r in db.roles && scopes <= db.scopes.Keys)
    case UpdateScope(s, row) => NameRefusal(db.scopes, s, row, "name")
    case UpdateScopeRules(s, rules) => Present(s in db.scopes && rules <= db.rules.Keys)
    case UpdateRule(r, row) => NameRefusal(db.rules, r, row, "name")
    case UpdateMenu(m, row) => TreeRefusal(db.menus, m, row, "title")
    case UpdateUser(u, row, roles) => UserRefusal(db, u, row, roles)
    case UpdateUserColumns(u, _) => Present(u in db.users)
    case DeleteUser(u) => Present(u in db.users)
    case DeleteMenu(m) => if Taken(db.menus, "parent_id", Dec(m)) then Some(Conflict) else None
    case UpdateDept(d, row) => TreeRefusal(db.depts, d, row, "name")
    case _ => None
  }

  predicate Accepted(db: Database, step: Step) {
    Refusal(db, step).None?
  }

  predicate Off(row: Row, column: string) {
    IsNull(Cell(row, column))
  }

  /** The status checks of get_current_user. */
  function StatusRefusal(s: Snapshot): (r: Option<ServiceError>)
    ensures r.None? <==>
      && !Off(s.row, "status")
      && (forall d :: d in s.dept && d != 0 ==> !Off(s.dept[d], "status") && Off(s.dept[d], "del_flag"))
      && (s.roles == map[] || exists r :: r in s.roles && !Off(s.roles[r].row, "status"))
    ensures r == Some(UserLocked) <==> Off(s.row, "status")
    ensures r == Some(DeptLocked) <==>
      !Off(s.row, "status") && exists d :: d in s.dept && d != 0 && Off(s.dept[d], "status")
    ensures r == Some(RolesLocked) ==> s.roles != map[] && forall r :: r in s.roles ==> Off(s.roles[r].row, "status")
    ensures r.Some? ==> r.value in {UserLocked, DeptLocked, DeptDeleted, RolesLocked}
  {
    if Off(s.row, "status") then Some(UserLocked)
    else if exists d :: d in s.dept && d != 0 && Off(s.dept[d], "status") then Some(DeptLocked)
    else if exists d :: d in s.dept && d != 0 && !Off(s.dept[d], "del_flag") then Some(DeptDeleted)
    else if s.roles != map[] && forall r :: r in s.roles ==> Off(s.roles[r].row, "status") then Some(RolesLocked)
    else None
  }

  /** What loading a user yields: the joined record, if it exists and passes the checks. */
  function Loaded(db: Database, user: nat): Result<Snapshot, ServiceError> {
    match GetJoin(db, user)
    case None => Err(NotFound)
    case Some(s) =>
      match StatusRefusal(s)
      case None => Ok(s)
      case Some(e) => Err(e)
  }

  /** Whose status is missing, empty or 0 is refused, and no one else for that reason. */
  lemma LockedUserIsRefused(db: Database, user: nat)
    requires user in db.users
    ensures Loaded(db, user) == Err(UserLocked) <==>
      "status" !in db.users[user] || db.users[user]["status"] == "" || db.users[user]["status"] == "0"
  {
    assert Dec(0) == "0";
  }

  function WithoutMenu(db: Database, menu: nat): Database {
    db.(menus := db.menus - {menu}, roleMenu := set p | p in db.roleMenu && p.1 != menu)
  }

  function Changed(db: Database, step: Step): Database
    requires Accepted(db, step)
  {
    match step
    case UpdateRole(r, row) => db.(roles := db.roles[r := row])
    case UpdateRoleMenu(r, menus) => db.(roleMenu := Reassign(db.roleMenu, r, menus))
    case UpdateRoleScope(r, scopes) => db.(roleScope := Reassign(db.roleScope, r, scopes))
    case DeleteRoles(roles) => db.(roles := db.roles - roles)
    case UpdateScope(s, row) => db.(scopes := db.scopes[s := row])
    case UpdateScopeRules(s, rules) => db.(scopeRule := Reassign(db.scopeRule, s, rules))
    case DeleteScopes(scopes) => db.(scopes := db.scopes - scopes)
    case UpdateRule(r, row) => db.(rules := db.rules[r := row])
    case DeleteRules(rules) => db.(rules := db.rules - rules)
    case UpdateMenu(m, row) => db.(menus := db.menus[m := row])
    case UpdateUser(u, row, roles) => db.(users := db.users[u := row], userRole := Reassign(db.userRole, u, roles))
    case UpdateUserColumns(u, row) => db.(users := db.users[u := row])
    case DeleteUser(u) => db.(users := db.users - {u}, userRole := Reassign(db.userRole, u, {}))
    case LoadUser(_) => db
    case EvictUser(_) => db
    case DeleteMenu(m) => WithoutMenu(db, m)
    case UpdateDept(d, row) => db.(depts := db.depts[d := row])
  }

  /** The entries the service deletes, found by joins over the tables as they are after the change. */
  function Cleared(db: Database, cache: Cache, step: Step): set<nat> {
    match step
    case UpdateRole(r, _) => UsersOfRoles(db, {r})
    case UpdateRoleMenu(r, _) => UsersOfRoles(db, {r})
    case UpdateRoleScope(r, _) => UsersOfRoles(db, {r})
    case DeleteRoles(roles) => UsersOfRoles(db, roles)
    case UpdateScope(s, _) => UsersOfScopes(db, {s})
    case UpdateScopeRules(s, _) => UsersOfScopes(db, {s})
    case DeleteScopes(scopes) => UsersOfScopes(db, scopes)
    case UpdateRule(r, _) => UsersOfRules(db, {r})
    case DeleteRules(rules) => UsersOfRules(db, rules)
    case UpdateMenu(m, _) => UsersOfMenus(db, {m})
    case UpdateUser(u, _, _) => {u}
    case UpdateUserColumns(u, _) => {u}
    case DeleteUser(u) => set v | v in cache && Dec(u) <= Dec(v)
    case LoadUser(_) => {}
    case EvictUser(u) => {u}
    case DeleteMenu(m) => UsersOfMenus(db, {m})
    case UpdateDept(_, _) => {}
  }

  function Apply(s: System, step: Step): System {
    if !Accepted(s.db, step) then s
    else
      var db := Changed(s.db, step);
      var cache := s.cache - Cleared(db, s.cache, step);
      if step.LoadUser? && step.user !in cache && Loaded(db, step.user).Ok? then
        System(db, cache[step.user := Loaded(db, step.user).value])
      else System(db, cache)
  }

  // ---------------------------------------------------------------- what a request does

  /** Which requests are refused, and why. */
  lemma RefusedIff(db: Database, step: Step)
    ensures step.UpdateRole? ==> Refusal(db, step) == NameRefusal(db.roles, step.role, step.row, "name")
    ensures step.UpdateScope? ==> Refusal(db, step) == NameRefusal(db.scopes, step.scope, step.row, "name")
    ensures step.UpdateRule? ==> Refusal(db, step) == NameRefusal(db.rules, step.rule, step.row, "name")
    ensures step.UpdateMenu? ==> Refusal(db, step) == TreeRefusal(db.menus, step.menu, step.row, "title")
    ensures step.UpdateDept? ==> Refusal(db, step) == TreeRefusal(db.depts, step.dept, step.row, "name")
    ensures step.UpdateUser? ==> Refusal(db, step) == UserRefusal(db, step.user, step.row, step.roles)
    ensures step.UpdateRoleMenu? ==>
      (Refusal(db, step).None? <==> step.role in db.roles && forall m :: m in step.menus ==> m in db.menus)
    ensures step.UpdateRoleScope? ==>
      (Refusal(db, step).None? <==> step.role in db.roles && forall s :: s in step.scopes ==> s in db.scopes)
    ensures step.UpdateScopeRules? ==>
      (Refusal(db, step).None? <==> step.scope in db.scopes && forall x :: x in step.rules ==> x in db.rules)
    ensures step.UpdateUserColumns? || step.DeleteUser? ==> (Refusal(db, step).None? <==> step.user in db.users)
    ensures step.DeleteMenu? ==>
      (Refusal(db, step) == Some(Conflict) <==>
        exists m :: m in db.menus && Refers(db.menus[m], "parent_id", step.menu))
    ensures step.DeleteRoles? || step.DeleteScopes? || step.DeleteRules? ==> Refusal(db, step).None?
  {
  }

  // The rows after a request, table by table: what it writes or deletes, and every other row as before.

  lemma UserRowsAfter(s: System, step: Step, id: nat, row: Row)
    ensures var db, after := s.db, Apply(s, step).db;
      if !Accepted(db, step) then after == db
      else
        && (IsRow(after.users, id, row) <==>
             if (step.UpdateUser? || step.UpdateUserColumns?) && step.user == id then row == step.row
             else IsRow(db.users, id, row) && step != DeleteUser(id))
        && (IsRow(after.depts, id, row) <==>
             if step.UpdateDept? && step.dept == id then row == step.row else IsRow(db.depts, id, row))
  {
  }

  lemma RoleRowsAfter(s: System, step: Step, id: nat, row: Row)
    requires Accepted(s.db, step)
    ensures IsRow(Apply(s, step).db.roles, id, row) <==>
      if step.UpdateRole? && step.role == id then row == step.row
      else IsRow(s.db.roles, id, row) && !(step.DeleteRoles? && id in step.roles)
  {
  }

  lemma MenuRowsAfter(s: System, step: Step, id: nat, row: Row)
    requires Accepted(s.db, step)
    ensures IsRow(Apply(s, step).db.menus, id, row) <==>
      if step.UpdateMenu? && step.menu == id then row == step.row
      else IsRow(s.db.menus, id, row) && step != DeleteMenu(id)
  {
  }

  lemma ScopeRowsAfter(s: System, step: Step, id: nat, row: Row)
    requires Accepted(s.db, step)
    ensures IsRow(Apply(s, step).db.scopes, id, row) <==>
      if step.UpdateScope? && step.scope == id then row == step.row
      else IsRow(s.db.scopes, id, row) && !(step.DeleteScopes? && id in step.scopes)
  {
  }

  lemma RuleRowsAfter(s: System, step: Step, id: nat, row: Row)
    requires Accepted(s.db, step)
    ensures IsRow(Apply(s, step).db.rules, id, row) <==>
      if step.UpdateRule? && step.rule == id then row == step.row
      else IsRow(s.db.rules, id, row) && !(step.DeleteRules? && id in step.rules)
  {
  }

  /** a list replaces exactly the old one; deleted roles, scopes and rules keep theirs. */
  lemma AssociationsAfter(s: System, step: Step, a: nat, b: nat)
    ensures var db, after := s.db, Apply(s, step).db;
      Accepted(db, step) ==>
        && ((a, b) in after.userRole <==>
             if step.UpdateUser? && step.user == a then b in step.roles
             else (a, b) in db.userRole && step != DeleteUser(a))
        && ((a, b) in after.roleMenu <==>
             if step.UpdateRoleMenu? && step.role == a then b in step.menus
             else (a, b) in db.roleMenu && step != DeleteMenu(b))
        && ((a, b) in after.roleScope <==>
             if step.UpdateRoleScope? && step.role == a then b in step.scopes else (a, b) in db.roleScope)
        && ((a, b) in after.scopeRule <==>
             if step.UpdateScopeRules? && step.scope == a then b in step.rules else (a, b) in db.scopeRule)
  {
  }

  /** Whoever has the role is shown exactly the menus of the new list under it. */
  lemma NewMenusAreShown(s: System, role: nat, menus: set<nat>, user: nat, menu: nat, row: Row)
    requires Accepted(s.db, UpdateRoleMenu(role, menus)) && HasRole(s.db, user, role)
    ensures ShowsMenu(Apply(s, UpdateRoleMenu(role, menus)).db, user, role, menu, row) <==>
      menu in menus && IsRow(s.db.menus, menu, row)
  {
    var after := Apply(s, UpdateRoleMenu(role, menus)).db;
    RecordShowsTables(after, user);
    AssociationsAfter(s, UpdateRoleMenu(role, menus), role, menu);
  }

  lemma NewScopesAreShown(s: System, role: nat, scopes: set<nat>, user: nat, scope: nat, row: Row)
    requires Accepted(s.db, UpdateRoleScope(role, scopes)) && HasRole(s.db, user, role)
    ensures ShowsScope(Apply(s, UpdateRoleScope(role, scopes)).db, user, role, scope, row) <==>
      scope in scopes && IsRow(s.db.scopes, scope, row)
  {
    var after := Apply(s, UpdateRoleScope(role, scopes)).db;
    RecordShowsTables(after, user);
    AssociationsAfter(s, UpdateRoleScope(role, scopes), role, scope);
  }

  lemma NewRulesAreShown(s: System, scope: nat, rules: set<nat>, user: nat, role: nat, rule: nat, row: Row)
    requires Accepted(s.db, UpdateScopeRules(scope, rules)) && ReachesScope(s.db, user, role, scope)
    ensures ShowsRule(Apply(s, UpdateScopeRules(scope, rules)).db, user, role, scope, rule, row) <==>
      rule in rules && IsRow(s.db.rules, rule, row)
  {
    var after := Apply(s, UpdateScopeRules(scope, rules)).db;
    RecordShowsTables(after, user);
    AssociationsAfter(s, UpdateScopeRules(scope, rules), scope, rule);
  }

  lemma NewRolesAreShown(s: System, user: nat, row: Row, roles: set<nat>, role: nat, shown: Row)
    requires Accepted(s.db, UpdateUser(user, row, roles))
    ensures ShowsRole(Apply(s, UpdateUser(user, row, roles)).db, user, role, shown) <==>
      role in roles && IsRow(s.db.roles, role, shown)
  {
    var after := Apply(s, UpdateUser(user, row, roles)).db;
    RecordShowsTables(after, user);
    AssociationsAfter(s, UpdateUser(user, row, roles), user, role);
  }

  // What the deletion of rules, scopes and roles takes from a record.

  ghost predicate HasRule(db: Database, user: nat, rule: nat) {
    rule in db.rules && exists r: nat, c: nat :: ReachesScope(db, user, r, c) && (c, rule) in db.scopeRule
  }

  /** Deleting rules changes a user's record exactly if the user has one of them. */
  lemma RuleLossShows(s: System, rules: set<nat>, user: nat)
    ensures GetJoin(Apply(s, DeleteRules(rules)).db, user) == GetJoin(s.db, user) <==>
      !exists x :: x in rules && HasRule(s.db, user, x)
  {
    var db, next := s.db, Apply(s, DeleteRules(rules)).db;
    if x :| x in rules && HasRule(db, user, x) {
      var r: nat, c: nat :| ReachesScope(db, user, r, c) && (c, x) in db.scopeRule;
      RecordShowsTables(db, user);
      RecordShowsTables(next, user);
      assert ShowsRule(db, user, r, c, x, db.rules[x]) && !ShowsRule(next, user, r, c, x, db.rules[x]);
    } else {
      OtherRulesUnseen(db, rules, user);
    }
  }

  lemma OtherRulesUnseen(db: Database, rules: set<nat>, user: nat)
    requires forall x :: x in rules ==> !HasRule(db, user, x)
    ensures GetJoin(db.(rules := db.rules - rules), user) == GetJoin(db, user)
  {
    var next := db.(rules := db.rules - rules);
    forall r: nat | HasRole(db, user, r) ensures RoleOf(db, r) == RoleOf(next, r) {
      assert MenusOf(db, r) == MenusOf(next, r);
      forall c | c in db.scopes && (r, c) in db.roleScope ensures RulesOf(db, c) == RulesOf(next, c) {
        OtherRulesOf(db, rules, user, r, c);
      }
      assert ScopesOf(db, r) == ScopesOf(next, r);
    }
    SameExistingRoles(db, next, user);
  }

  lemma OtherRulesOf(db: Database, rules: set<nat>, user: nat, role: nat, scope: nat)
    requires ReachesScope(db, user, role, scope) && forall x :: x in rules ==> !HasRule(db, user, x)
    ensures RulesOf(db.(rules := db.rules - rules), scope) == RulesOf(db, scope)
  {
    forall x | x in db.rules && (scope, x) in db.scopeRule ensures x !in rules {
      assert HasRule(db, user, x);
    }
  }

  lemma SameExistingRoles(db: Database, next: Database, user: nat)
    requires db.users == next.users && db.depts == next.depts && db.roles == next.roles && db.userRole == next.userRole
    requires forall r: nat :: HasRole(db, user, r) ==> RoleOf(db, r) == RoleOf(next, r)
    ensures GetJoin(db, user) == GetJoin(next, user)
  {
    if user in db.users {
      assert RolesOf(db, user) == RolesOf(next, user);
    }
  }

  /** Deleting scopes changes a user's record exactly if the user has one of them. */
  lemma ScopeLossShows(s: System, scopes: set<nat>, user: nat)
    ensures GetJoin(Apply(s, DeleteScopes(scopes)).db, user) == GetJoin(s.db, user) <==>
      !exists r: nat, c :: c in scopes && ReachesScope(s.db, user, r, c)
  {
    var db, next := s.db, Apply(s, DeleteScopes(scopes)).db;
    if r: nat, c :| c in scopes && ReachesScope(db, user, r, c) {
      RecordShowsTables(db, user);
      RecordShowsTables(next, user);
      assert ShowsScope(db, user, r, c, db.scopes[c]) && !ShowsScope(next, user, r, c, db.scopes[c]);
    } else {
      forall r: nat | HasRole(db, user, r) ensures RoleOf(db, r) == RoleOf(next, r) {
        assert MenusOf(db, r) == MenusOf(next, r);
        forall c | c in db.scopes && (r, c) in db.roleScope
          ensures c !in scopes && RulesOf(db, c) == RulesOf(next, c)
        {
          assert ReachesScope(db, user, r, c);
        }
        assert ScopesOf(db, r) == ScopesOf(next, r);
      }
      SameExistingRoles(db, next, user);
    }
  }

  /** Deleting roles takes exactly those roles from every record. */
  lemma RoleLossShows(s: System, roles: set<nat>, user: nat)
    ensures RolesShown(Apply(s, DeleteRoles(roles)).db, user) == RolesShown(s.db, user) - roles
  {
    var db, next := s.db, Apply(s, DeleteRoles(roles)).db;
    forall r | r in next.roles ensures RoleOf(db, r) == RoleOf(next, r) {
      assert MenusOf(db, r) == MenusOf(next, r);
      forall c | c in db.scopes ensures RulesOf(db, c) == RulesOf(next, c) {
      }
      assert ScopesOf(db, r) == ScopesOf(next, r);
    }
  }

  // ---------------------------------------------------------------- which entries a request clears

  ghost predicate OnRoles(db: Database, ids: set<nat>, user: nat) {
    exists r :: r in ids && (user, r) in db.userRole
  }

  ghost predicate OnMenus(db: Database, ids: set<nat>, user: nat) {
    exists r, m :: m in ids && (user, r) in db.userRole && (r, m) in db.roleMenu
  }

  ghost predicate OnScopes(db: Database, ids: set<nat>, user: nat) {
    exists r, c :: c in ids && (user, r) in db.userRole && (r, c) in db.roleScope
  }

  ghost predicate OnRules(db: Database, ids: set<nat>, user: nat) {
    exists r, c, x :: x in ids && (user, r) in db.userRole && (r, c) in db.roleScope && (c, x) in db.scopeRule
  }

  /** The clearing joins find exactly the users with a path to one of the ids. */
  lemma JoinsFind(db: Database, ids: set<nat>, user: nat)
    ensures user in UsersOfRoles(db, ids) <==> OnRoles(db, ids, user)
    ensures user in UsersOfMenus(db, ids) <==> OnMenus(db, ids, user)
    ensures user in UsersOfScopes(db, ids) <==> OnScopes(db, ids, user)
    ensures user in UsersOfRules(db, ids) <==> OnRules(db, ids, user)
  {
  }

  /** The request touches the user's record, by the associations of the tables or by id. */
  ghost predicate Touches(db: Database, step: Step, user: nat) {
    match step
    case UpdateRole(r, _) => OnRoles(db, {r}, user)
    case UpdateRoleMenu(r, _) => OnRoles(db, {r}, user)
    case UpdateRoleScope(r, _) => OnRoles(db, {r}, user)
    case DeleteRoles(roles) => OnRoles(db, roles, user)
    case UpdateScope(c, _) => OnScopes(db, {c}, user)
    case UpdateScopeRules(c, _) => OnScopes(db, {c}, user)
    case DeleteScopes(scopes) => OnScopes(db, scopes, user)
    case UpdateRule(x, _) => OnRules(db, {x}, user)
    case DeleteRules(rules) => OnRules(db, rules, user)
    case UpdateMenu(m, _) => OnMenus(db, {m}, user)
    case UpdateUser(u, _, _) => user == u
    case UpdateUserColumns(u, _) => user == u
    case EvictUser(u) => user == u
    case DeleteUser(u) => Dec(u) <= Dec(user)
    case _ => false
  }

  /**
   * The cache after a request: exactly the entries of the users it touches are
   * gone, the others are as they were, and only loading a user adds one, which is
   * the record as it then is.
   */
  lemma EntriesAfter(s: System, step: Step, user: nat)
    requires Accepted(s.db, step)
    ensures var after := Apply(s, step);
      && (user in after.cache <==>
           || (user in s.cache && !Touches(after.db, step, user))
           || (step == LoadUser(user) && Loaded(s.db, user).Ok?))
      && (user in after.cache ==> if user in s.cache then after.cache[user] == s.cache[user]
                                  else GetJoin(s.db, user) == Some(after.cache[user]))
  {
    if step.DeleteMenu? {
      NothingToClear(s, step.menu);
    } else if user in s.cache {
      ClearedIffTouched(Changed(s.db, step), s.cache, step, user);
    }
  }

  lemma ClearedIffTouched(db: Database, cache: Cache, step: Step, user: nat)
    requires user in cache && !step.DeleteMenu?
    ensures user in Cleared(db, cache, step) <==> Touches(db, step, user)
  {
    match step
    case UpdateRole(r, _) => JoinsFind(db, {r}, user);
    case UpdateRoleMenu(r, _) => JoinsFind(db, {r}, user);
    case UpdateRoleScope(r, _) => JoinsFind(db, {r}, user);
    case DeleteRoles(roles) => JoinsFind(db, roles, user);
    case UpdateScope(c, _) => JoinsFind(db, {c}, user);
    case UpdateScopeRules(c, _) => JoinsFind(db, {c}, user);
    case DeleteScopes(scopes) => JoinsFind(db, scopes, user);
    case UpdateRule(x, _) => JoinsFind(db, {x}, user);
    case DeleteRules(rules) => JoinsFind(db, rules, user);
    case UpdateMenu(m, _) => JoinsFind(db, {m}, user);
    case _ =>
  }

  // ---------------------------------------------------------------- coherence

  /** Every cached entry is what get_join would return now. */
  ghost predicate Coherent(s: System) {
    forall u :: u in s.cache ==> GetJoin(s.db, u) == Some(s.cache[u])
  }

  /** The role looks the same in both databases. */
  ghost predicate SameRole(db: Database, other: Database, role: nat) {
    && (role in db.roles <==> role in other.roles)
    && (role in db.roles ==> db.roles[role] == other.roles[role])
    && MenusOf(db, role) == MenusOf(other, role)
    && ScopesOf(db, role) == ScopesOf(other, role)
  }

  lemma SameRolesSameJoin(db: Database, other: Database, user: nat)
    requires user in db.users <==> user in other.users
    requires user in db.users ==>
      db.users[user] == other.users[user] && DeptOf(db, db.users[user]) == DeptOf(other, db.users[user])
    requires forall r :: (user, r) in db.userRole <==> (user, r) in other.userRole
    requires forall r :: (user, r) in db.userRole ==> SameRole(db, other, r)
    ensures GetJoin(db, user) == GetJoin(other, user)
  {
    assert RolesOf(db, user) == RolesOf(other, user);
  }

  /** A scope none of whose rules is touched keeps its rules. */
  lemma SameScopesOf(db: Database, other: Database, role: nat)
    requires db.roleScope == other.roleScope && forall s :: (role, s) in db.roleScope ==>
      && (s in db.scopes <==> s in other.scopes) && (s in db.scopes ==> db.scopes[s] == other.scopes[s])
      && RulesOf(db, s) == RulesOf(other, s)
    ensures ScopesOf(db, role) == ScopesOf(other, role)
  {
  }

  // Whoever the joins miss has no path to the changed ids.

  lemma RoleJoinMisses(db: Database, ids: set<nat>, user: nat, role: nat)
    requires user !in UsersOfRoles(db, ids) && (user, role) in db.userRole
    ensures role !in ids
  {
    var p := (user, role);
    assert p.1 in ids ==> p.0 in UsersOfRoles(db, ids);
  }

  lemma MenuJoinMisses(db: Database, ids: set<nat>, user: nat, role: nat, menu: nat)
    requires user !in UsersOfMenus(db, ids) && (user, role) in db.userRole && (role, menu) in db.roleMenu
    ensures menu !in ids
  {
    var p, q := (user, role), (role, menu);
    assert p.1 == q.0 && (q.1 in ids ==> p.0 in UsersOfMenus(db, ids));
  }

  lemma ScopeJoinMisses(db: Database, ids: set<nat>, user: nat, role: nat, scope: nat)
    requires user !in UsersOfScopes(db, ids) && (user, role) in db.userRole && (role, scope) in db.roleScope
    ensures scope !in ids
  {
    var p, q := (user, role), (role, scope);
    assert p.1 == q.0 && (q.1 in ids ==> p.0 in UsersOfScopes(db, ids));
  }

  lemma RuleJoinMisses(db: Database, ids: set<nat>, user: nat, role: nat, scope: nat, rule: nat)
    requires user !in UsersOfRules(db, ids)
    requires (user, role) in db.userRole && (role, scope) in db.roleScope && (scope, rule) in db.scopeRule
    ensures rule !in ids
  {
    var p, q, r := (user, role), (role, scope), (scope, rule);
    assert p.1 == q.0 && q.1 == r.0 && (r.1 in ids ==> p.0 in UsersOfRules(db, ids));
  }

  predicate ChangesRole(step: Step) {
    step.UpdateRole? || step.UpdateRoleMenu? || step.UpdateRoleScope? || step.DeleteRoles?
  }

  predicate ChangesScope(step: Step) {
    step.UpdateScope? || step.UpdateScopeRules? || step.DeleteScopes?
  }

  predicate ChangesRule(step: Step) {
    step.UpdateRule? || step.DeleteRules?
  }

  predicate ChangesUser(step: Step) {
    step.UpdateUser? || step.UpdateUserColumns? || step.DeleteUser?
  }

  lemma RoleStepSpares(db: Database, cache: Cache, step: Step, user: nat)
    requires ChangesRole(step) && Accepted(db, step) && user !in Cleared(Changed(db, step), cache, step)
    ensures GetJoin(Changed(db, step), user) == GetJoin(db, user)
  {
    var next := Changed(db, step);
    var touched := if step.DeleteRoles? then step.roles else {step.role};
    forall r | (user, r) in db.userRole ensures SameRole(db, next, r) {
      RoleJoinMisses(next, touched, user, r);
      assert MenusOf(db, r) == MenusOf(next, r);
      assert ScopesOf(db, r) == ScopesOf(next, r);
    }
    SameRolesSameJoin(db, next, user);
  }

  lemma ScopeStepSpares(db: Database, cache: Cache, step: Step, user: nat)
    requires ChangesScope(step) && Accepted(db, step) && user !in Cleared(Changed(db, step), cache, step)
    ensures GetJoin(Changed(db, step), user) == GetJoin(db, user)
  {
    var next := Changed(db, step);
    var touched := if step.DeleteScopes? then step.scopes else {step.scope};
    forall r | (user, r) in db.userRole ensures SameRole(db, next, r) {
      forall s | (r, s) in db.roleScope
        ensures s !in touched && RulesOf(db, s) == RulesOf(next, s)
      {
        ScopeJoinMisses(next, touched, user, r, s);
      }
      SameScopesOf(db, next, r);
    }
    SameRolesSameJoin(db, next, user);
  }

  /** The databases differ in the touched rules only. */
  ghost predicate SameButRules(db: Database, next: Database, touched: set<nat>) {
    && next == db.(rules := next.rules)
    && forall x :: x !in touched ==>
         (x in db.rules <==> x in next.rules) && (x in db.rules ==> db.rules[x] == next.rules[x])
  }

  lemma RulesSpared(db: Database, next: Database, touched: set<nat>, user: nat, role: nat, scope: nat)
    requires SameButRules(db, next, touched) && user !in UsersOfRules(next, touched)
    requires (user, role) in db.userRole && (role, scope) in db.roleScope
    ensures RulesOf(db, scope) == RulesOf(next, scope)
  {
    forall x | (scope, x) in db.scopeRule ensures x !in touched {
      RuleJoinMisses(next, touched, user, role, scope, x);
    }
  }

  lemma RuleStepSpares(db: Database, cache: Cache, step: Step, user: nat)
    requires ChangesRule(step) && Accepted(db, step) && user !in Cleared(Changed(db, step), cache, step)
    ensures GetJoin(Changed(db, step), user) == GetJoin(db, user)
  {
    var touched := if step.DeleteRules? then step.rules else {step.rule};
    OtherRulesSpare(db, Changed(db, step), touched, user);
  }

  lemma OtherRulesSpare(db: Database, next: Database, touched: set<nat>, user: nat)
    requires SameButRules(db, next, touched) && user !in UsersOfRules(next, touched)
    ensures GetJoin(next, user) == GetJoin(db, user)
  {
    forall r | (user, r) in db.userRole ensures SameRole(db, next, r) {
      forall s | (r, s) in db.roleScope ensures RulesOf(db, s) == RulesOf(next, s) {
        RulesSpared(db, next, touched, user, r, s);
      }
      SameScopesOf(db, next, r);
    }
    SameRolesSameJoin(db, next, user);
  }

  lemma MenuStepSpares(db: Database, cache: Cache, step: Step, user: nat)
    requires step.UpdateMenu? && Accepted(db, step) && user !in Cleared(Changed(db, step), cache, step)
    ensures GetJoin(Changed(db, step), user) == GetJoin(db, user)
  {
    OtherMenuSpares(db, step.menu, step.row, user);
  }

  lemma OtherMenuSpares(db: Database, menu: nat, row: Row, user: nat)
    requires menu in db.menus && user !in UsersOfMenus(db.(menus := db.menus[menu := row]), {menu})
    ensures GetJoin(db.(menus := db.menus[menu := row]), user) == GetJoin(db, user)
  {
    var next := db.(menus := db.menus[menu := row]);
    forall r | (user, r) in db.userRole ensures SameRole(db, next, r) {
      forall m | (r, m) in db.roleMenu ensures m != menu {
        MenuJoinMisses(next, {menu}, user, r, m);
      }
      assert MenusOf(db, r) == MenusOf(next, r);
      assert ScopesOf(db, r) == ScopesOf(next, r);
    }
    SameRolesSameJoin(db, next, user);
  }

  lemma UserStepSpares(db: Database, cache: Cache, step: Step, user: nat)
    requires ChangesUser(step) && Accepted(db, step)
    requires user in cache && user !in Cleared(Changed(db, step), cache, step)
    ensures GetJoin(Changed(db, step), user) == GetJoin(db, user)
  {
    var next := Changed(db, step);
    assert user != step.user;
    forall r ensures SameRole(db, next, r) {
      assert MenusOf(db, r) == MenusOf(next, r);
      assert ScopesOf(db, r) == ScopesOf(next, r);
    }
    SameRolesSameJoin(db, next, user);
  }

  predicate Covered(step: Step) {
    !step.DeleteMenu? && !step.UpdateDept?
  }

  /** Every covered request keeps all cached entries equal to the joined record. */
  lemma StepKeepsCoherent(s: System, step: Step)
    requires Coherent(s) && Covered(step)
    ensures Coherent(Apply(s, step))
  {
    if Accepted(s.db, step) {
      var t := Apply(s, step);
      forall u | u in t.cache ensures GetJoin(t.db, u) == Some(t.cache[u]) {
        if ChangesRole(step) {
          RoleStepSpares(s.db, s.cache, step, u);
        } else if ChangesScope(step) {
          ScopeStepSpares(s.db, s.cache, step, u);
        } else if ChangesRule(step) {
          RuleStepSpares(s.db, s.cache, step, u);
        } else if step.UpdateMenu? {
          MenuStepSpares(s.db, s.cache, step, u);
        } else if ChangesUser(step) {
          UserStepSpares(s.db, s.cache, step, u);
        }
      }
    }
  }

  function Run(s: System, steps: seq<Step>): System {
    if steps == [] then s else Apply(Run(s, steps[..|steps| - 1]), steps[|steps| - 1])
  }

  /** No run of covered requests leaves a stale entry. */
  lemma {:induction false} CacheNeverStale(s: System, steps: seq<Step>)
    requires s.cache == map[] && forall i :: 0 <= i < |steps| ==> Covered(steps[i])
    ensures Coherent(Run(s, steps))
  {
    if steps != [] {
      CacheNeverStale(s, steps[..|steps| - 1]);
      StepKeepsCoherent(Run(s, steps[..|steps| - 1]), steps[|steps| - 1]);
    }
  }

  // ---------------------------------------------------------------- the two requests that are not covered

  /** A user reaches a menu through an existing role. */
  ghost predicate HasMenu(db: Database, user: nat, menu: nat) {
    menu in db.menus && exists r :: (user, r) in db.userRole && r in db.roles && (r, menu) in db.roleMenu
  }

  /**
   * Deleting a menu drops its association rows before the clearing join reads
   * them, so nothing is cleared: entries stay correct exactly when no cached
   * user has the menu.
   */
  lemma DeleteMenuIsCoherentIff(s: System, menu: nat)
    requires Coherent(s) && Accepted(s.db, DeleteMenu(menu))
    ensures Cleared(Changed(s.db, DeleteMenu(menu)), s.cache, DeleteMenu(menu)) == {}
    ensures Coherent(Apply(s, DeleteMenu(menu))) <==>
      forall u :: u in s.cache ==> !HasMenu(s.db, u, menu)
  {
    var next := Changed(s.db, DeleteMenu(menu));
    assert UsersOfMenus(next, {menu}) == {};
    assert Apply(s, DeleteMenu(menu)) == System(next, s.cache);
    forall u | u in s.cache ensures GetJoin(next, u) == GetJoin(s.db, u) <==> !HasMenu(s.db, u, menu) {
      MenuLossShows(s.db, menu, u);
    }
  }

  lemma NothingToClear(s: System, menu: nat)
    requires Accepted(s.db, DeleteMenu(menu))
    ensures UsersOfMenus(Changed(s.db, DeleteMenu(menu)), {menu}) == {}
    ensures Apply(s, DeleteMenu(menu)) == System(Changed(s.db, DeleteMenu(menu)), s.cache)
  {
    assert s.cache - {} == s.cache;
  }

  /** Whoever has a menu is cached with it: loading the user and deleting the menu leaves a stale entry. */
  lemma DeletedMenuIsServed(db: Database, user: nat, menu: nat)
    requires HasMenu(db, user, menu) && Loaded(db, user).Ok? && Accepted(db, DeleteMenu(menu))
    ensures var s := Run(System(db, map[]), [LoadUser(user), DeleteMenu(menu)]);
      !Coherent(s) && user in s.cache && GetJoin(s.db, user) != Some(s.cache[user])
  {
    var start, loaded := System(db, map[]), Apply(System(db, map[]), LoadUser(user));
    var steps := [LoadUser(user), DeleteMenu(menu)];
    assert steps[..1] == [LoadUser(user)] && steps[..1][..0] == [];
    assert Run(start, steps[..1]) == loaded;
    assert user in loaded.cache;
    DeleteMenuIsCoherentIff(loaded, menu);
    MenuLossShows(db, menu, user);
  }

  /** A department's row likewise. */
  lemma OldDeptIsServed(db: Database, user: nat, dept: nat, row: Row)
    requires Loaded(db, user).Ok? && Accepted(db, UpdateDept(dept, row))
    requires row != db.depts[dept] && Refers(db.users[user], "dept_id", dept)
    ensures !Coherent(Run(System(db, map[]), [LoadUser(user), UpdateDept(dept, row)]))
  {
    var start, loaded := System(db, map[]), Apply(System(db, map[]), LoadUser(user));
    var steps := [LoadUser(user), UpdateDept(dept, row)];
    assert steps[..1] == [LoadUser(user)] && steps[..1][..0] == [];
    assert Run(start, steps[..1]) == loaded;
    UpdateDeptIsCoherentIff(loaded, dept, row);
  }

  /** One user in one department. */
  function SmallDatabase(userRow: Row, deptRow: Row): Database {
    Database(map[1 := userRow], map[2 := deptRow], map[], map[], map[], map[], {}, {}, {}, {})
  }

  lemma SmallUserLoads(userRow: Row, deptRow: Row)
    requires !Off(userRow, "status") && !Off(deptRow, "status") && Off(deptRow, "del_flag")
    ensures Loaded(SmallDatabase(userRow, deptRow), 1).Ok?
  {
    var db := SmallDatabase(userRow, deptRow);
    assert RolesOf(db, 1) == map[];
    assert forall d :: d in DeptOf(db, userRow) ==> DeptOf(db, userRow)[d] == deptRow;
  }

  lemma SmallDeptMayChange(userRow: Row, deptRow: Row, row: Row)
    requires Cell(row, "name") == Cell(deptRow, "name") && Cell(row, "parent_id") == ""
    ensures Accepted(SmallDatabase(userRow, deptRow), UpdateDept(2, row))
  {
    assert Dec(2) == "2";
  }

  /** Such users and departments exist. */
  lemma DeptsCanBeServedAfterUpdate()
    ensures exists db, user, dept, row ::
      && Loaded(db, user).Ok? && Accepted(db, UpdateDept(dept, row))
      && row != db.depts[dept] && Refers(db.users[user], "dept_id", dept)
  {
    var userRow, deptRow := map["status" := "1", "dept_id" := "2"], map["status" := "1"];
    var row, db := deptRow["leader" := "x"], SmallDatabase(userRow, deptRow);
    assert Dec(0) == "0" && Dec(2) == "2";
    SmallUserLoads(userRow, deptRow);
    SmallDeptMayChange(userRow, deptRow, row);
    assert Refers(db.users[1], "dept_id", 2);
    assert "leader" !in deptRow && "leader" in row;
  }

  /** One user with one role and one menu. */
  function MenuDatabase(on: Row): Database {
    Database(map[1 := on], map[], map[2 := on], map[3 := map[]], map[], map[], {(1, 2)}, {(2, 3)}, {}, {})
  }

  lemma MenuUserLoads(on: Row)
    requires !Off(on, "status") && Cell(on, "dept_id") == ""
    ensures Loaded(MenuDatabase(on), 1).Ok?
  {
    var db := MenuDatabase(on);
    DecHasDigits(0);
    forall d ensures d !in DeptOf(db, on) {
    }
    assert (1, 2) in db.userRole && 2 in RolesOf(db, 1);
  }

  /** Such users exist. */
  lemma MenusCanBeServedAfterDeletion()
    ensures exists db, user, menu ::
      HasMenu(db, user, menu) && Loaded(db, user).Ok? && Accepted(db, DeleteMenu(menu))
  {
    var on := map["status" := "1"];
    var db := MenuDatabase(on);
    assert (1, 2) in db.userRole;
    assert HasMenu(db, 1, 3);
    assert Dec(0) == "0" && Dec(3) == "3";
    MenuUserLoads(on);
    assert Accepted(db, DeleteMenu(3));
  }

  lemma MenuLossShows(db: Database, menu: nat, user: nat)
    requires Accepted(db, DeleteMenu(menu)) && user in db.users
    ensures GetJoin(Changed(db, DeleteMenu(menu)), user) == GetJoin(db, user) <==> !HasMenu(db, user, menu)
  {
    var next := Changed(db, DeleteMenu(menu));
    if HasMenu(db, user, menu) {
      var r :| (user, r) in db.userRole && r in db.roles && (r, menu) in db.roleMenu;
      assert menu in RolesOf(db, user)[r].menus && menu !in RolesOf(next, user)[r].menus;
    } else {
      forall r | (user, r) in db.userRole && r in db.roles ensures RoleOf(db, r) == RoleOf(next, r) {
        assert MenusOf(db, r) == MenusOf(next, r);
        assert ScopesOf(db, r) == ScopesOf(next, r);
      }
      assert RolesOf(db, user) == RolesOf(next, user);
    }
  }

  /**
   * Updating a department clears nothing: entries stay correct exactly when the
   * row does not change or no cached user belongs to the department.
   */
  lemma UpdateDeptIsCoherentIff(s: System, dept: nat, row: Row)
    requires Coherent(s) && Accepted(s.db, UpdateDept(dept, row))
    ensures Coherent(Apply(s, UpdateDept(dept, row))) <==>
      row == s.db.depts[dept] || forall u :: u in s.cache ==> !Refers(s.db.users[u], "dept_id", dept)
  {
    var next := Changed(s.db, UpdateDept(dept, row));
    assert Apply(s, UpdateDept(dept, row)) == System(next, s.cache);
    forall u | u in s.cache
      ensures u in s.db.users
      ensures GetJoin(next, u) == GetJoin(s.db, u) <==>
        row == s.db.depts[dept] || !Refers(s.db.users[u], "dept_id", dept)
    {
      DeptChangeShows(s.db, dept, row, u);
    }
  }

  lemma DeptChangeShows(db: Database, dept: nat, row: Row, user: nat)
    requires dept in db.depts && user in db.users
    ensures GetJoin(db.(depts := db.depts[dept := row]), user) == GetJoin(db, user) <==>
      row == db.depts[dept] || !Refers(db.users[user], "dept_id", dept)
  {
    var next := db.(depts := db.depts[dept := row]);
    forall r | r in db.roles ensures RoleOf(db, r) == RoleOf(next, r) {
      assert MenusOf(db, r) == MenusOf(next, r);
      assert ScopesOf(db, r) == ScopesOf(next, r);
    }
    assert RolesOf(db, user) == RolesOf(next, user);
    if Refers(db.users[user], "dept_id", dept) {
      assert DeptOf(db, db.users[user])[dept] == db.depts[dept] && DeptOf(next, db.users[user])[dept] == row;
      assert row == db.depts[dept] ==> next.depts == db.depts;
    } else {
      assert DeptOf(db, db.users[user]) == DeptOf(next, db.users[user]);
    }
  }

  // ---------------------------------------------------------------- the services

  /** The request succeeds, or fails with the reason of the step. */
  ghost predicate Answers(db: Database, step: Step, r: Result<(), ServiceError>) {
    r == match Refusal(db, step) case None => Ok(()) case Some(e) => Err(e)
  }

  /** The services over the tables, and the cache manager over Redis. */
  class AuthorizationServices {
    var db: Database
    var cache: Cache

    constructor (db: Database)
      ensures Current() == System(db, map[])
    {
      this.db, cache := db, map[];
    }

    ghost function Current(): System
      reads this
    {
      System(db, cache)
    }

    method Clear(userIds: set<nat>)
      modifies this`cache
      ensures cache == old(cache) - userIds
    {
      cache := cache - userIds;
    }

    method ClearByRoleId(roleIds: set<nat>)
      modifies this`cache
      ensures cache == old(cache) - UsersOfRoles(db, roleIds)
    {
      Clear(set p | p in db.userRole && p.1 in roleIds :: p.0);
    }

    method ClearByMenuId(menuIds: set<nat>)
      modifies this`cache
      ensures cache == old(cache) - UsersOfMenus(db, menuIds)
    {
      Clear(set p, q | p in db.userRole && q in db.roleMenu && p.1 == q.0 && q.1 in menuIds :: p.0);
    }

    method ClearByDataScopeId(scopeIds: set<nat>)
      modifies this`cache
      ensures cache == old(cache) - UsersOfScopes(db, scopeIds)
    {
      Clear(set p, q | p in db.userRole && q in db.roleScope && p.1 == q.0 && q.1 in scopeIds :: p.0);
    }

    method ClearByDataRuleId(ruleIds: set<nat>)
      modifies this`cache
      ensures cache == old(cache) - UsersOfRules(db, ruleIds)
    {
      Clear(UsersOfRules(db, ruleIds));
    }

    /** The row exists, and a new name is free. */
    static method CheckName(rows: Table, id: nat, row: Row, column: string) returns (refusal: Option<ServiceError>)
      ensures refusal == NameRefusal(rows, id, row, column)
    {
      if id !in rows {
        return Some(NotFound);
      }
      if Cell(rows[id], column) != Cell(row, column) && Taken(rows, column, Cell(row, column)) {
        return Some(Conflict);
      }
      refusal := None;
    }

    method UpdateRole(role: nat, row: Row) returns (r: Result<(), ServiceError>)
      modifies this
      ensures Answers(old(db), Step.UpdateRole(role, row), r)
      ensures Current() == Apply(old(Current()), Step.UpdateRole(role, row))
    {
      var refusal := CheckName(db.roles, role, row, "name");
      if refusal.Some? {
        return Err(refusal.value);
      }
      db := db.(roles := db.roles[role := row]);
      ClearByRoleId({role});
      r := Ok(());
    }

    method UpdateRoleMenu(role: nat, menus: set<nat>) returns (r: Result<nat, ServiceError>)
      modifies this
      ensures r == if Accepted(old(db), Step.UpdateRoleMenu(role, menus)) then Ok(|menus|) else Err(NotFound)
      ensures Current() == Apply(old(Current()), Step.UpdateRoleMenu(role, menus))
    {
      if role !in db.roles || !(menus <= db.menus.Keys) {
        return Err(NotFound);
      }
      db := db.(roleMenu := set p | p in db.roleMenu && p.0 != role);
      if menus != {} {
        db := db.(roleMenu := db.roleMenu + set m | m in menus :: (role, m));
      }
      assert db.roleMenu == Reassign(old(db.roleMenu), role, menus);
      ClearByRoleId({role});
      r := Ok(|menus|);
    }

    method UpdateRoleScope(role: nat, scopes: set<nat>) returns (r: Result<nat, ServiceError>)
      modifies this
      ensures r == if Accepted(old(db), Step.UpdateRoleScope(role, scopes)) then Ok(|scopes|) else Err(NotFound)
      ensures Current() == Apply(old(Current()), Step.UpdateRoleScope(role, scopes))
    {
      if role !in db.roles || !(scopes <= db.scopes.Keys) {
        return Err(NotFound);
      }
      db := db.(roleScope := set p | p in db.roleScope && p.0 != role);
      if scopes != {} {
        db := db.(roleScope := db.roleScope + set s | s in scopes :: (role, s));
      }
      assert db.roleScope == Reassign(old(db.roleScope), role, scopes);
      ClearByRoleId({role});
      r := Ok(|scopes|);
    }

    method DeleteRoles(roles: set<nat>)
      modifies this
      ensures Current() == Apply(old(Current()), Step.DeleteRoles(roles))
    {
      db := db.(roles := db.roles - roles);
      ClearByRoleId(roles);
    }

    method UpdateDataScope(scope: nat, row: Row) returns (r: Result<(), ServiceError>)
      modifies this
      ensures Answers(old(db), Step.UpdateScope(scope, row), r)
      ensures Current() == Apply(old(Current()), Step.UpdateScope(scope, row))
    {
      var refusal := CheckName(db.scopes, scope, row, "name");
      if refusal.Some? {
        return Err(refusal.value);
      }
      db := db.(scopes := db.scopes[scope := row]);
      ClearByDataScopeId({scope});
      r := Ok(());
    }

    method UpdateDataScopeRule(scope: nat, rules: set<nat>) returns (r: Result<nat, ServiceError>)
      modifies this
      ensures r == if Accepted(old(db), Step.UpdateScopeRules(scope, rules)) then Ok(|rules|) else Err(NotFound)
      ensures Current() == Apply(old(Current()), Step.UpdateScopeRules(scope, rules))
    {
      if scope !in db.scopes || !(rules <= db.rules.Keys) {
        return Err(NotFound);
      }
      db := db.(scopeRule := set p | p in db.scopeRule && p.0 != scope);
      if rules != {} {
        db := db.(scopeRule := db.scopeRule + set x | x in rules :: (scope, x));
      }
      assert db.scopeRule == Reassign(old(db.scopeRule), scope, rules);
      ClearByDataScopeId({scope});
      r := Ok(|rules|);
    }

    method DeleteDataScopes(scopes: set<nat>)
      modifies this
      ensures Current() == Apply(old(Current()), Step.DeleteScopes(scopes))
    {
      db := db.(scopes := db.scopes - scopes);
      ClearByDataScopeId(scopes);
    }

    method UpdateDataRule(rule: nat, row: Row) returns (r: Result<(), ServiceError>)
      modifies this
      ensures Answers(old(db), Step.UpdateRule(rule, row), r)
      ensures Current() == Apply(old(Current()), Step.UpdateRule(rule, row))
    {
      var refusal := CheckName(db.rules, rule, row, "name");
      if refusal.Some? {
        return Err(refusal.value);
      }
      db := db.(rules := db.rules[rule := row]);
      assert db == Changed(old(db), Step.UpdateRule(rule, row));
      ClearByDataRuleId({rule});
      r := Ok(());
    }

    method DeleteDataRules(rules: set<nat>)
      modifies this
      ensures Current() == Apply(old(Current()), Step.DeleteRules(rules))
    {
      db := db.(rules := db.rules - rules);
      ClearByDataRuleId(rules);
    }

    method UpdateUser(user: nat, row: Row, roles: set<nat>) returns (r: Result<(), ServiceError>)
      modifies this
      ensures Answers(old(db), Step.UpdateUser(user, row, roles), r)
      ensures Current() == Apply(old(Current()), Step.UpdateUser(user, row, roles))
    {
      var refusal := CheckUser(user, row, roles);
      if refusal.Some? {
        return Err(refusal.value);
      }
      db := db.(users := db.users[user := row]);
      db := db.(userRole := set p | p in db.userRole && p.0 != user);
      if roles != {} {
        db := db.(userRole := db.userRole + set x | x in roles && x in db.roles :: (user, x));
      }
      assert db.userRole == Reassign(old(db.userRole), user, roles);
      assert db == Changed(old(db), Step.UpdateUser(user, row, roles));
      Clear({user});
      r := Ok(());
    }

    method CheckUser(user: nat, row: Row, roles: set<nat>) returns (refusal: Option<ServiceError>)
      ensures refusal == UserRefusal(db, user, row, roles)
    {
      refusal := CheckName(db.users, user, row, "username");
      if refusal.Some? {
        return;
      }
      if !IsNull(Cell(row, "dept_id")) && Cell(row, "dept_id") != Cell(db.users[user], "dept_id")
        && !exists d :: d in db.depts && Refers(row, "dept_id", d)
      {
        return Some(NotFound);
      }
      if !(roles <= db.roles.Keys) {
        return Some(NotFound);
      }
      refusal := None;
    }

    method UpdateMenu(menu: nat, row: Row) returns (r: Result<(), ServiceError>)
      modifies this
      ensures Answers(old(db), Step.UpdateMenu(menu, row), r)
      ensures Current() == Apply(old(Current()), Step.UpdateMenu(menu, row))
    {
      var refusal := CheckTree(db.menus, menu, row, "title");
      if refusal.Some? {
        return Err(refusal.value);
      }
      db := db.(menus := db.menus[menu := row]);
      ClearByMenuId({menu});
      r := Ok(());
    }

    /** The checks of the menu and the department service before an update. */
    static method CheckTree(rows: Table, id: nat, row: Row, column: string) returns (refusal: Option<ServiceError>)
      ensures refusal == TreeRefusal(rows, id, row, column)
    {
      refusal := CheckName(rows, id, row, column);
      if refusal.Some? {
        return;
      }
      if !IsNull(Cell(row, "parent_id")) && !exists p :: p in rows && Refers(row, "parent_id", p) {
        return Some(NotFound);
      }
      if Refers(row, "parent_id", id) {
        return Some(Forbidden);
      }
      refusal := None;
    }

    /** The association rows go first. */
    method DeleteMenuRows(menu: nat) returns (count: nat)
      modifies this`db
      ensures db == WithoutMenu(old(db), menu) && count == if menu in old(db.menus) then 1 else 0
    {
      db := db.(roleMenu := set p | p in db.roleMenu && p.1 != menu);
      count := if menu in db.menus then 1 else 0;
      db := db.(menus := db.menus - {menu});
    }

    /** The clearing comes after, and finds no association row. */
    method DeleteMenu(menu: nat) returns (r: Result<nat, ServiceError>)
      modifies this
      ensures r == if Taken(old(db.menus), "parent_id", Dec(menu)) then Err(Conflict)
                   else Ok(if menu in old(db.menus) then 1 else 0)
      ensures Current() == Apply(old(Current()), Step.DeleteMenu(menu)) && cache == old(cache)
    {
      if Taken(db.menus, "parent_id", Dec(menu)) {
        return Err(Conflict);
      }
      NothingToClear(Current(), menu);
      var count := DeleteMenuRows(menu);
      if count != 0 {
        ClearByMenuId({menu});
        assert cache == old(cache);
      }
      r := Ok(count);
    }

    method UpdateDept(dept: nat, row: Row) returns (r: Result<(), ServiceError>)
      modifies this`db
      ensures Answers(old(db), Step.UpdateDept(dept, row), r)
      ensures Current() == Apply(old(Current()), Step.UpdateDept(dept, row))
    {
      var refusal := CheckTree(db.depts, dept, row, "name");
      if refusal.Some? {
        return Err(refusal.value);
      }
      db := db.(depts := db.depts[dept := row]);
      r := Ok(());
    }

    method DeleteUser(user: nat) returns (r: Result<(), ServiceError>)
      modifies this
      ensures Answers(old(db), Step.DeleteUser(user), r)
      ensures Current() == Apply(old(Current()), Step.DeleteUser(user))
    {
      if user !in db.users {
        return Err(NotFound);
      }
      db := db.(users := db.users - {user}, userRole := set p | p in db.userRole && p.0 != user);
      assert db.userRole == Reassign(old(db.userRole), user, {});
      assert db == Changed(old(db), Step.DeleteUser(user));
      Clear(set v | v in cache && Dec(user) <= Dec(v));
      r := Ok(());
    }

    /** get_jwt_user: the cached entry, or the joined record, cached when its status checks pass. */
    method GetJwtUser(user: nat) returns (r: Result<Snapshot, ServiceError>)
      modifies this
      ensures Current() == Apply(old(Current()), LoadUser(user))
      ensures r == if user in old(cache) then Ok(old(cache)[user]) else Loaded(old(db), user)
    {
      if user in cache {
        return Ok(cache[user]);
      }
      r := GetCurrentUser(user);
      if r.Ok? {
        cache := cache[user := r.value];
      }
    }

    method GetCurrentUser(user: nat) returns (r: Result<Snapshot, ServiceError>)
      ensures r == Loaded(db, user)
    {
      var joined := GetJoin(db, user);
      if joined.None? {
        return Err(NotFound);
      }
      var record := joined.value;
      if Off(record.row, "status") {
        return Err(UserLocked);
      }
      if exists d :: d in record.dept && d != 0 && Off(record.dept[d], "status") {
        return Err(DeptLocked);
      }
      if exists d :: d in record.dept && d != 0 && !Off(record.dept[d], "del_flag") {
        return Err(DeptDeleted);
      }
      if record.roles != map[] && forall x :: x in record.roles ==> Off(record.roles[x].row, "status") {
        return Err(RolesLocked);
      }
      r := Ok(record);
    }
  }
}
