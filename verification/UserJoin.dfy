/**
 * The joined record of a user (CRUDUser.get_join in
 * backend/app/admin/crud/crud_user.py): what the serializer makes of the rows
 * of the user query, read back as a value, is the record that UserCache
 * computes from the tables.
 */
module UserJoin {
  import opened Wrappers
  import opened Strings
  import opened RedisKeys
  import opened RelationText
  import opened JoinNesting
  import opened OuterJoin
  import UserCache

  type Database = UserCache.Database
  type Table = UserCache.Table
  type TableRow = UserCache.Row

  // ---------------------------------------------------------------- the relations

  /** The names of the joined models. */
  datatype Schema = Schema(user: string, dept: string, role: string, menu: string, scope: string, rule: string)
  {
    function Layout(): seq<string> {
      [user, dept, role, menu, scope, rule]
    }

    ghost predicate Valid() {
      && (forall i, j :: 0 <= i < j < 6 ==> Layout()[i] != Layout()[j])
      && role + "s" != dept && menu + "s" != "scopes"
    }

    function Relationships(): seq<Entry> {
      [Relation(user, ManyToOne, dept, ""),
       Relation(user, ManyToMany, role, ""),
       Relation(role, ManyToMany, menu, ""),
       Relation(role, ManyToMany, scope, "scopes"),
       Relation(scope, ManyToMany, rule, "rules")]
    }

    ghost function Parsed(): Relations {
      Declared(Relationships(), 5)
    }

    function Rank(model: string): nat {
      if model == user then 3 else if model == role then 2 else if model == scope then 1 else 0
    }
  }

  lemma DeclaredNext(entries: seq<Entry>, n: nat)
    requires n < |entries|
    ensures Declared(entries, n + 1) == Declare(Declared(entries, n), entries[n])
  {
  }

  lemma UpsertSecond(e: Edge, f: Edge)
    requires e.dst != f.dst
    ensures Upsert([e], f) == [e, f]
  {
    UpsertNewTarget([e], f);
  }

  /** The parsed relation list, written out. */
  lemma ParsedIs(n: Schema)
    requires n.Valid()
    ensures n.Parsed() == Relations(
      map[n.user := [Edge(n.dept, ManyToOne), Edge(n.role, ManyToMany)],
          n.role := [Edge(n.menu, ManyToMany), Edge(n.scope, ManyToMany)],
          n.scope := [Edge(n.rule, ManyToMany)]],
      map[n.dept := n.user, n.role := n.user, n.menu := n.role, n.scope := n.role, n.rule := n.scope],
      map[(n.role, n.scope) := "scopes", (n.scope, n.rule) := "rules"])
  {
    var es := n.Relationships();
    SchemaDiffers(n);
    UpsertSecond(Edge(n.dept, ManyToOne), Edge(n.role, ManyToMany));
    UpsertSecond(Edge(n.menu, ManyToMany), Edge(n.scope, ManyToMany));
    DeclaredNext(es, 0);
    assert Declared(es, 0) == Relations(map[], map[], map[]);
    assert Declared(es, 1).graph == map[n.user := [Edge(n.dept, ManyToOne)]];
    DeclaredNext(es, 1);
    assert Declared(es, 2).graph == map[n.user := [Edge(n.dept, ManyToOne), Edge(n.role, ManyToMany)]];
    DeclaredNext(es, 2);
    DeclaredNext(es, 3);
    assert Declared(es, 4).graph[n.role] == [Edge(n.menu, ManyToMany), Edge(n.scope, ManyToMany)];
    DeclaredNext(es, 4);
  }

  lemma SchemaDiffers(n: Schema)
    requires n.Valid()
    ensures n.user != n.dept && n.user != n.role && n.user != n.menu && n.user != n.scope && n.user != n.rule
    ensures n.dept != n.role && n.dept != n.menu && n.dept != n.scope && n.dept != n.rule
    ensures n.role != n.menu && n.role != n.scope && n.role != n.rule
    ensures n.menu != n.scope && n.menu != n.rule && n.scope != n.rule
  {
    var l := n.Layout();
    assert l[0] != l[1] && l[0] != l[2] && l[0] != l[3] && l[0] != l[4] && l[0] != l[5];
    assert l[1] != l[2] && l[1] != l[3] && l[1] != l[4] && l[1] != l[5];
    assert l[2] != l[3] && l[2] != l[4] && l[2] != l[5] && l[3] != l[4] && l[3] != l[5] && l[4] != l[5];
  }

  /** The relations of every model, with their field names. */
  lemma SchemaEdges(n: Schema)
    requires n.Valid()
    ensures var rel := n.Parsed();
      && Edges(rel, n.user) == [Edge(n.dept, ManyToOne), Edge(n.role, ManyToMany)]
      && Edges(rel, n.role) == [Edge(n.menu, ManyToMany), Edge(n.scope, ManyToMany)]
      && Edges(rel, n.scope) == [Edge(n.rule, ManyToMany)]
      && (forall m :: m != n.user && m != n.role && m != n.scope ==> Edges(rel, m) == [])
      && KeyOf(rel, n.user, Edge(n.dept, ManyToOne)) == n.dept
      && KeyOf(rel, n.user, Edge(n.role, ManyToMany)) == n.role + "s"
      && KeyOf(rel, n.role, Edge(n.menu, ManyToMany)) == n.menu + "s"
      && KeyOf(rel, n.role, Edge(n.scope, ManyToMany)) == "scopes"
      && KeyOf(rel, n.scope, Edge(n.rule, ManyToMany)) == "rules"
  {
    ParsedIs(n);
    SchemaDiffers(n);
  }

  /** No two relations of a model share a field name. */
  lemma KeysAreOwned(n: Schema, model: string, i: nat)
    requires n.Valid() && i < |Edges(n.Parsed(), model)|
    ensures OwnsKey(n.Parsed(), model, i)
  {
    SchemaEdges(n);
  }

  // ---------------------------------------------------------------- the query

  lemma SchemaSourcesFirst(q: Query, n: Schema)
    requires n.Valid() && q.layout == n.Layout() && q.rel == n.Parsed()
    ensures q.SourcesFirst()
  {
    ParsedIs(n);
    SchemaDiffers(n);
    forall k: nat | 1 <= k < 6 ensures q.HasParentColumn(k) {
      assert q.IsParentColumn(if k <= 2 then 0 else if k <= 4 then 2 else 4, k);
    }
  }

  lemma SchemaRelationsJoined(q: Query, n: Schema)
    requires n.Valid() && q.layout == n.Layout() && q.rel == n.Parsed()
    ensures q.RelationsJoined()
  {
    forall c: nat, i: nat | c < 6 && i < |Edges(q.rel, q.layout[c])| ensures q.EdgeJoined(c, i) {
      EdgeSource(n, q.layout[c], i);
      TargetJoined(n, Edges(q.rel, q.layout[c])[i]);
    }
  }

  lemma EdgeSource(n: Schema, src: string, i: nat)
    requires n.Valid() && i < |Edges(n.Parsed(), src)|
    ensures var e := Edges(n.Parsed(), src)[i];
      && e.dst in {n.dept, n.role, n.menu, n.scope, n.rule}
      && e.dst in n.Parsed().reverse && n.Parsed().reverse[e.dst] == src
  {
    ParsedIs(n);
    SchemaDiffers(n);
  }

  lemma TargetJoined(n: Schema, e: Edge)
    requires e.dst in {n.dept, n.role, n.menu, n.scope, n.rule}
    ensures e.dst in n.Layout()[1..]
  {
    var rest := n.Layout()[1..];
    assert rest[0] == n.dept && rest[1] == n.role && rest[2] == n.menu && rest[3] == n.scope && rest[4] == n.rule;
  }

  lemma SchemaRanked(n: Schema)
    requires n.Valid()
    ensures Ranked(n.Parsed(), n.Rank)
  {
    ParsedIs(n);
    SchemaDiffers(n);
  }

  /** The user query meets the conditions of NestingUndoesJoin for any keyed objects. */
  lemma UserQueryIsCovered(q: Query, n: Schema)
    requires n.Valid() && q.layout == n.Layout() && q.rel == n.Parsed() && q.ObjectsKeyed()
    ensures q.Valid() && Ranked(q.rel, n.Rank)
  {
    SchemaSourcesFirst(q, n);
    SchemaRelationsJoined(q, n);
    SchemaRanked(n);
  }

  /** The object that a row is loaded as. */
  function ObjOf(model: string, id: nat, row: TableRow): Obj {
    Obj(model, Some(id), 0, row)
  }

  function Objs(model: string, t: Table): set<Obj> {
    set id | id in t :: ObjOf(model, id, t[id])
  }

  function RolesOf(db: Database, user: int): Table {
    map r | r in db.roles && (user, r) in db.userRole :: db.roles[r]
  }

  function ScopesOf(db: Database, role: int): Table {
    map s | s in db.scopes && (role, s) in db.roleScope :: db.scopes[s]
  }

  /** The rows joined to a row with a given id, by model. */
  function Associated(db: Database, n: Schema, model: string, id: int): Table {
    if id < 0 then map[]
    else if model == n.dept then if id in db.users then UserCache.DeptOf(db, db.users[id]) else map[]
    else if model == n.role then RolesOf(db, id)
    else if model == n.menu then UserCache.MenusOf(db, id)
    else if model == n.scope then ScopesOf(db, id)
    else if model == n.rule then UserCache.RulesOf(db, id)
    else map[]
  }

  function TableOf(db: Database, n: Schema, model: string): Table {
    if model == n.dept then db.depts
    else if model == n.role then db.roles
    else if model == n.menu then db.menus
    else if model == n.scope then db.scopes
    else if model == n.rule then db.rules
    else map[]
  }

  ghost function JoinOf(db: Database, n: Schema, user: nat): Query {
    Query(n.Layout(), n.Parsed(),
          if user in db.users then {ObjOf(n.user, user, db.users[user])} else {},
          (model, id) => Objs(model, Associated(db, n, model, id)))
  }

  ghost predicate PositiveIds(t: Table) {
    0 !in t
  }

  ghost predicate Positive(db: Database) {
    && PositiveIds(db.users) && PositiveIds(db.depts) && PositiveIds(db.roles)
    && PositiveIds(db.menus) && PositiveIds(db.scopes) && PositiveIds(db.rules)
  }

  lemma AssociatedRows(db: Database, n: Schema, model: string, id: int, x: nat)
    requires x in Associated(db, n, model, id)
    ensures x in TableOf(db, n, model) && Associated(db, n, model, id)[x] == TableOf(db, n, model)[x]
  {
  }

  lemma KidsAre(db: Database, n: Schema, user: nat, model: string, id: int, o: Obj)
    requires o in JoinOf(db, n, user).Kids(model, id) && Positive(db)
    ensures o.id.Some? && o.id.value > 0 && o.id.value in TableOf(db, n, model)
    ensures o == ObjOf(model, o.id.value, TableOf(db, n, model)[o.id.value])
  {
    var x :| x in Associated(db, n, model, id) && o == ObjOf(model, x, Associated(db, n, model, id)[x]);
    AssociatedRows(db, n, model, id, x);
  }

  lemma JoinIsValid(db: Database, n: Schema, user: nat)
    requires n.Valid() && Positive(db)
    ensures JoinOf(db, n, user).Valid() && Ranked(n.Parsed(), n.Rank)
  {
    var q := JoinOf(db, n, user);
    forall t, pk, o ensures q.KidKeyed(t, pk, o) {
      if o in q.Kids(t, pk) {
        KidsAre(db, n, user, t, pk, o);
      }
    }
    forall t, a, o, b, x ensures q.KidsAgree(t, a, o, b, x) {
      if o in q.Kids(t, a) && x in q.Kids(t, b) {
        KidsAre(db, n, user, t, a, o);
        KidsAre(db, n, user, t, b, x);
      }
    }
    UserQueryIsCovered(q, n);
  }

  // ---------------------------------------------------------------- reading a record back

  function Columns(n: Nested): TableRow {
    map c | c in n.data && n.data[c].Column? :: n.data[c].text
  }

  function ItemsOf(f: Field): seq<Nested> {
    match f
    case Column(_) => []
    case Single(None) => []
    case Single(Some(item)) => [item]
    case Many(items) => items
  }

  function Under(n: Nested, key: string): seq<Nested> {
    if key in n.data then ItemsOf(n.data[key]) else []
  }

  ghost function Ids(items: seq<Nested>): set<nat> {
    set i | 0 <= i < |items| && items[i].source.id.Some? && items[i].source.id.value >= 0 ::
      items[i].source.id.value as nat
  }

  ghost function ItemWith(items: seq<Nested>, id: nat): (item: Nested)
    requires id in Ids(items)
    ensures item in items && item.source.id == Some(id)
  {
    var i :| 0 <= i < |items| && items[i].source.id == Some(id);
    items[i]
  }

  ghost function ReadTable(items: seq<Nested>): Table {
    map id | id in Ids(items) :: Columns(ItemWith(items, id))
  }

  ghost function ReadScope(item: Nested): UserCache.ScopeSnapshot {
    UserCache.ScopeSnapshot(Columns(item), ReadTable(Under(item, "rules")))
  }

  ghost function ReadScopes(items: seq<Nested>): map<nat, UserCache.ScopeSnapshot> {
    map id | id in Ids(items) :: ReadScope(ItemWith(items, id))
  }

  ghost function ReadRole(n: Schema, item: Nested): UserCache.RoleSnapshot {
    UserCache.RoleSnapshot(Columns(item), ReadTable(Under(item, n.menu + "s")), ReadScopes(Under(item, "scopes")))
  }

  ghost function ReadRoles(n: Schema, items: seq<Nested>): map<nat, UserCache.RoleSnapshot> {
    map id | id in Ids(items) :: ReadRole(n, ItemWith(items, id))
  }

  ghost function ReadUser(n: Schema, record: Nested): UserCache.Snapshot {
    UserCache.Snapshot(Columns(record), ReadTable(Under(record, n.dept)), ReadRoles(n, Under(record, n.role + "s")))
  }

  // ---------------------------------------------------------------- what is read is what the tables say

  /** No column has the name of a relation. */
  predicate PlainRow(n: Schema, row: TableRow) {
    row.Keys !! {n.dept, n.role + "s", n.menu + "s", "scopes", "rules"}
  }

  ghost predicate PlainTable(n: Schema, t: Table) {
    forall id :: id in t ==> PlainRow(n, t[id])
  }

  ghost predicate Plain(db: Database, n: Schema) {
    && PlainTable(n, db.users) && PlainTable(n, db.depts) && PlainTable(n, db.roles)
    && PlainTable(n, db.menus) && PlainTable(n, db.scopes) && PlainTable(n, db.rules)
  }

  /** The tables, and the rows of the query for a user. */
  datatype View = View(db: Database, n: Schema, user: nat, rows: seq<Row>)
  {
    ghost function Join(): Query {
      JoinOf(db, n, user)
    }

    ghost predicate Valid() {
      n.Valid() && Positive(db) && Plain(db, n) && Join().Valid() && Join().Produces(rows)
    }

    /** The record shows a row of a model. */
    ghost predicate Record(record: Nested, model: string, id: nat, row: TableRow)
      requires Valid()
    {
      record.source == ObjOf(model, id, row) && PlainRow(n, row) && Shows(Join(), rows, user, record)
    }

    /** The records list the rows of a table, and show them. */
    ghost predicate Records(items: seq<Nested>, model: string, t: Table)
      requires Valid()
    {
      && PlainTable(n, t) && Lists(items, Objs(model, t))
      && forall i :: 0 <= i < |items| ==> Shows(Join(), rows, user, items[i])
    }
  }

  lemma FieldIs(v: View, record: Nested, model: string, id: nat, row: TableRow, i: nat)
    requires v.Valid() && v.Record(record, model, id, row) && i < |Edges(v.n.Parsed(), model)|
    ensures var e := Edges(v.n.Parsed(), model)[i];
      var key := KeyOf(v.n.Parsed(), model, e);
      key in record.data && FieldShows(v.Join(), v.rows, v.user, id, record.data[key], e)
  {
    KeysAreOwned(v.n, model, i);
  }

  lemma KeyIsPlain(n: Schema, model: string, i: nat)
    requires n.Valid() && i < |Edges(n.Parsed(), model)|
    ensures var key := KeyOf(n.Parsed(), model, Edges(n.Parsed(), model)[i]);
      key in {n.dept, n.role + "s", n.menu + "s", "scopes", "rules"}
  {
    SchemaEdges(n);
  }

  lemma KeyIsNoColumn(v: View, record: Nested, model: string, id: nat, row: TableRow, name: string)
    requires v.Valid() && v.Record(record, model, id, row) && IsKey(v.n.Parsed(), model, name)
    ensures name in record.data && !record.data[name].Column? && name !in row
  {
    var edges := Edges(v.n.Parsed(), model);
    var i :| 0 <= i < |edges| && KeyOf(v.n.Parsed(), model, edges[i]) == name;
    FieldIs(v, record, model, id, row, i);
    KeyIsPlain(v.n, model, i);
  }

  /** The columns of a record are those of its row. */
  lemma ColumnsAre(v: View, record: Nested, model: string, id: nat, row: TableRow)
    requires v.Valid() && v.Record(record, model, id, row)
    ensures Columns(record) == row
  {
    forall name | IsKey(v.n.Parsed(), model, name)
      ensures name in record.data && !record.data[name].Column? && name !in row
    {
      KeyIsNoColumn(v, record, model, id, row, name);
    }
    ColumnsMatch(v.n.Parsed(), record, model, row);
  }

  lemma ColumnsMatch(rel: Relations, record: Nested, model: string, row: TableRow)
    requires forall name :: name in record.data <==> name in row || IsKey(rel, model, name)
    requires forall c :: c in row && !IsKey(rel, model, c) ==> record.data[c] == Column(row[c])
    requires forall c :: IsKey(rel, model, c) ==> !record.data[c].Column? && c !in row
    ensures Columns(record) == row
  {
  }

  lemma RowIsListed(items: seq<Nested>, model: string, t: Table, id: nat)
    requires Lists(items, Objs(model, t))
    ensures id in t <==> id in Ids(items)
    ensures id in t ==> ItemWith(items, id).source == ObjOf(model, id, t[id])
  {
    if id in t {
      assert ObjOf(model, id, t[id]) in Objs(model, t);
      var i :| 0 <= i < |items| && items[i].source == ObjOf(model, id, t[id]);
      assert id in Ids(items);
    }
    if id in Ids(items) {
      var item := ItemWith(items, id);
      var j :| 0 <= j < |items| && items[j] == item;
      assert items[j].source in Objs(model, t);
    }
  }

  lemma ItemIs(v: View, items: seq<Nested>, model: string, t: Table, id: nat)
    requires v.Valid() && v.Records(items, model, t)
    ensures id in t <==> id in Ids(items)
    ensures id in t ==> v.Record(ItemWith(items, id), model, id, t[id]) && Columns(ItemWith(items, id)) == t[id]
  {
    RowIsListed(items, model, t, id);
    if id in t {
      var item := ItemWith(items, id);
      var j :| 0 <= j < |items| && items[j] == item;
      ColumnsAre(v, item, model, id, t[id]);
    }
  }

  ghost predicate RowAgrees(items: seq<Nested>, t: Table, id: nat) {
    (id in t <==> id in Ids(items)) && (id in t ==> Columns(ItemWith(items, id)) == t[id])
  }

  lemma TableFrom(items: seq<Nested>, t: Table)
    requires forall id :: RowAgrees(items, t, id)
    ensures ReadTable(items) == t
  {
    forall id ensures id in t <==> id in Ids(items) {
      assert RowAgrees(items, t, id);
    }
    forall id | id in t ensures Columns(ItemWith(items, id)) == t[id] {
      assert RowAgrees(items, t, id);
    }
  }

  lemma TableIsRead(v: View, items: seq<Nested>, model: string, t: Table)
    requires v.Valid() && v.Records(items, model, t)
    ensures ReadTable(items) == t
  {
    forall id ensures RowAgrees(items, t, id) {
      ItemIs(v, items, model, t, id);
    }
    TableFrom(items, t);
  }

  lemma AssociatedIsPlain(v: View, model: string, id: int)
    requires v.Valid()
    ensures PlainTable(v.n, Associated(v.db, v.n, model, id))
  {
    forall x | x in Associated(v.db, v.n, model, id) ensures PlainRow(v.n, Associated(v.db, v.n, model, id)[x]) {
      AssociatedRows(v.db, v.n, model, id, x);
    }
  }

  predicate AtMostOne(t: Table) {
    forall x, y :: x in t && y in t ==> x == y
  }

  lemma OneItemLists(f: Field, model: string, t: Table)
    requires f.Single? && (f.item.None? <==> Objs(model, t) == {}) && AtMostOne(t)
    requires f.item.Some? ==> f.item.value.source in Objs(model, t)
    ensures Lists(ItemsOf(f), Objs(model, t))
  {
    forall o | o in Objs(model, t) ensures f.item.Some? && f.item.value.source == o {
      assert Objs(model, t) != {};
    }
    if f.item.Some? {
      assert ItemsOf(f)[0] == f.item.value;
    }
  }

  /** What is found under a relation of a record: the associated rows. */
  lemma UnderIs(v: View, record: Nested, model: string, id: nat, row: TableRow, i: nat)
    requires v.Valid() && v.Record(record, model, id, row) && i < |Edges(v.n.Parsed(), model)|
    requires var e := Edges(v.n.Parsed(), model)[i]; IsList(e.kind) || AtMostOne(Associated(v.db, v.n, e.dst, id))
    ensures var e := Edges(v.n.Parsed(), model)[i];
      v.Records(Under(record, KeyOf(v.n.Parsed(), model, e)), e.dst, Associated(v.db, v.n, e.dst, id))
  {
    var e := Edges(v.n.Parsed(), model)[i];
    FieldIs(v, record, model, id, row, i);
    AssociatedIsPlain(v, e.dst, id);
    FieldLists(v, record.data[KeyOf(v.n.Parsed(), model, e)], e, id);
  }

  lemma FieldItems(q: Query, rows: seq<Row>, main: int, parent: int, f: Field, e: Edge, t: Table)
    requires q.Valid() && FieldShows(q, rows, main, parent, f, e) && q.Kids(e.dst, parent) == Objs(e.dst, t)
    requires IsList(e.kind) || AtMostOne(t)
    ensures Lists(ItemsOf(f), Objs(e.dst, t))
    ensures forall i :: 0 <= i < |ItemsOf(f)| ==> Shows(q, rows, main, ItemsOf(f)[i])
  {
    if !IsList(e.kind) {
      OneItemLists(f, e.dst, t);
    }
  }

  lemma FieldLists(v: View, f: Field, e: Edge, id: nat)
    requires v.Valid() && FieldShows(v.Join(), v.rows, v.user, id, f, e)
    requires PlainTable(v.n, Associated(v.db, v.n, e.dst, id))
    requires IsList(e.kind) || AtMostOne(Associated(v.db, v.n, e.dst, id))
    ensures v.Records(ItemsOf(f), e.dst, Associated(v.db, v.n, e.dst, id))
  {
    var t := Associated(v.db, v.n, e.dst, id);
    assert v.Join().Kids(e.dst, id) == Objs(e.dst, t);
    FieldItems(v.Join(), v.rows, v.user, id, f, e, t);
  }

  // ---------------------------------------------------------------- scopes, roles, the user

  /** A relation by its edge and its field name. */
  ghost predicate HasRelation(n: Schema, model: string, i: nat, e: Edge, key: string) {
    && i < |Edges(n.Parsed(), model)| && Edges(n.Parsed(), model)[i] == e && KeyOf(n.Parsed(), model, e) == key
  }

  lemma RelationsAre(n: Schema)
    requires n.Valid()
    ensures HasRelation(n, n.user, 0, Edge(n.dept, ManyToOne), n.dept)
    ensures HasRelation(n, n.user, 1, Edge(n.role, ManyToMany), n.role + "s")
    ensures HasRelation(n, n.role, 0, Edge(n.menu, ManyToMany), n.menu + "s")
    ensures HasRelation(n, n.role, 1, Edge(n.scope, ManyToMany), "scopes")
    ensures HasRelation(n, n.scope, 0, Edge(n.rule, ManyToMany), "rules")
  {
    SchemaEdges(n);
  }

  /** The records under a relation list and show the given table. */
  lemma Found(v: View, record: Nested, model: string, id: nat, row: TableRow, i: nat, e: Edge, key: string, t: Table)
    requires v.Valid() && v.Record(record, model, id, row) && HasRelation(v.n, model, i, e, key)
    requires t == Associated(v.db, v.n, e.dst, id) && (IsList(e.kind) || AtMostOne(t))
    ensures v.Records(Under(record, key), e.dst, t)
  {
    UnderIs(v, record, model, id, row, i);
  }

  lemma AssociatedAre(db: Database, n: Schema, id: nat)
    requires n.Valid()
    ensures id in db.users ==> Associated(db, n, n.dept, id) == UserCache.DeptOf(db, db.users[id])
    ensures Associated(db, n, n.role, id) == RolesOf(db, id)
    ensures Associated(db, n, n.menu, id) == UserCache.MenusOf(db, id)
    ensures Associated(db, n, n.scope, id) == ScopesOf(db, id)
    ensures Associated(db, n, n.rule, id) == UserCache.RulesOf(db, id)
  {
    SchemaDiffers(n);
  }

  lemma RulesAreRead(v: View, record: Nested, id: nat, row: TableRow)
    requires v.Valid() && v.Record(record, v.n.scope, id, row)
    ensures ReadTable(Under(record, "rules")) == UserCache.RulesOf(v.db, id)
  {
    RelationsAre(v.n);
    AssociatedAre(v.db, v.n, id);
    var t := UserCache.RulesOf(v.db, id);
    Found(v, record, v.n.scope, id, row, 0, Edge(v.n.rule, ManyToMany), "rules", t);
    TableIsRead(v, Under(record, "rules"), v.n.rule, t);
  }

  ghost predicate ScopeAgrees(items: seq<Nested>, scopes: map<nat, UserCache.ScopeSnapshot>, id: nat) {
    (id in scopes <==> id in Ids(items)) && (id in scopes ==> ReadScope(ItemWith(items, id)) == scopes[id])
  }

  lemma ScopeIsRead(v: View, items: seq<Nested>, role: nat, id: nat)
    requires v.Valid() && v.Records(items, v.n.scope, ScopesOf(v.db, role))
    ensures ScopeAgrees(items, UserCache.ScopesOf(v.db, role), id)
  {
    var t := ScopesOf(v.db, role);
    ItemIs(v, items, v.n.scope, t, id);
    if id in t {
      RulesAreRead(v, ItemWith(items, id), id, t[id]);
    }
  }

  lemma ScopesFrom(items: seq<Nested>, scopes: map<nat, UserCache.ScopeSnapshot>)
    requires forall id :: ScopeAgrees(items, scopes, id)
    ensures ReadScopes(items) == scopes
  {
    forall id ensures id in scopes <==> id in Ids(items) {
      assert ScopeAgrees(items, scopes, id);
    }
    forall id | id in scopes ensures ReadScope(ItemWith(items, id)) == scopes[id] {
      assert ScopeAgrees(items, scopes, id);
    }
  }

  lemma ScopesAreRead(v: View, items: seq<Nested>, role: nat)
    requires v.Valid() && v.Records(items, v.n.scope, ScopesOf(v.db, role))
    ensures ReadScopes(items) == UserCache.ScopesOf(v.db, role)
  {
    forall id ensures ScopeAgrees(items, UserCache.ScopesOf(v.db, role), id) {
      ScopeIsRead(v, items, role, id);
    }
    ScopesFrom(items, UserCache.ScopesOf(v.db, role));
  }

  lemma RoleMenusAreRead(v: View, record: Nested, id: nat, row: TableRow)
    requires v.Valid() && v.Record(record, v.n.role, id, row)
    ensures ReadTable(Under(record, v.n.menu + "s")) == UserCache.MenusOf(v.db, id)
  {
    RelationsAre(v.n);
    AssociatedAre(v.db, v.n, id);
    var t := UserCache.MenusOf(v.db, id);
    Found(v, record, v.n.role, id, row, 0, Edge(v.n.menu, ManyToMany), v.n.menu + "s", t);
    TableIsRead(v, Under(record, v.n.menu + "s"), v.n.menu, t);
  }

  lemma RoleScopesAreRead(v: View, record: Nested, id: nat, row: TableRow)
    requires v.Valid() && v.Record(record, v.n.role, id, row)
    ensures ReadScopes(Under(record, "scopes")) == UserCache.ScopesOf(v.db, id)
  {
    RelationsAre(v.n);
    AssociatedAre(v.db, v.n, id);
    Found(v, record, v.n.role, id, row, 1, Edge(v.n.scope, ManyToMany), "scopes", ScopesOf(v.db, id));
    ScopesAreRead(v, Under(record, "scopes"), id);
  }

  ghost predicate RoleAgrees(n: Schema, items: seq<Nested>, roles: map<nat, UserCache.RoleSnapshot>, id: nat) {
    (id in roles <==> id in Ids(items)) && (id in roles ==> ReadRole(n, ItemWith(items, id)) == roles[id])
  }

  lemma RoleIsRead(v: View, items: seq<Nested>, user: nat, id: nat)
    requires v.Valid() && v.Records(items, v.n.role, RolesOf(v.db, user))
    ensures RoleAgrees(v.n, items, UserCache.RolesOf(v.db, user), id)
  {
    var t := RolesOf(v.db, user);
    ItemIs(v, items, v.n.role, t, id);
    if id in t {
      RoleMenusAreRead(v, ItemWith(items, id), id, t[id]);
      RoleScopesAreRead(v, ItemWith(items, id), id, t[id]);
    }
  }

  lemma RolesFrom(n: Schema, items: seq<Nested>, roles: map<nat, UserCache.RoleSnapshot>)
    requires forall id :: RoleAgrees(n, items, roles, id)
    ensures ReadRoles(n, items) == roles
  {
    forall id ensures id in roles <==> id in Ids(items) {
      assert RoleAgrees(n, items, roles, id);
    }
    forall id | id in roles ensures ReadRole(n, ItemWith(items, id)) == roles[id] {
      assert RoleAgrees(n, items, roles, id);
    }
  }

  lemma RolesAreRead(v: View, items: seq<Nested>, user: nat)
    requires v.Valid() && v.Records(items, v.n.role, RolesOf(v.db, user))
    ensures ReadRoles(v.n, items) == UserCache.RolesOf(v.db, user)
  {
    forall id ensures RoleAgrees(v.n, items, UserCache.RolesOf(v.db, user), id) {
      RoleIsRead(v, items, user, id);
    }
    RolesFrom(v.n, items, UserCache.RolesOf(v.db, user));
  }

  lemma OneDept(db: Database, row: TableRow)
    ensures AtMostOne(UserCache.DeptOf(db, row))
  {
    forall x, y | x in UserCache.DeptOf(db, row) && y in UserCache.DeptOf(db, row) ensures x == y {
      DecIsInjective(x, y);
    }
  }

  ghost predicate IsUser(v: View, record: Nested)
    requires v.Valid()
  {
    v.user in v.db.users && v.Record(record, v.n.user, v.user, v.db.users[v.user])
  }

  lemma DeptIsRead(v: View, record: Nested)
    requires v.Valid() && IsUser(v, record)
    ensures ReadTable(Under(record, v.n.dept)) == UserCache.DeptOf(v.db, v.db.users[v.user])
  {
    RelationsAre(v.n);
    AssociatedAre(v.db, v.n, v.user);
    var t := UserCache.DeptOf(v.db, v.db.users[v.user]);
    OneDept(v.db, v.db.users[v.user]);
    Found(v, record, v.n.user, v.user, v.db.users[v.user], 0, Edge(v.n.dept, ManyToOne), v.n.dept, t);
    TableIsRead(v, Under(record, v.n.dept), v.n.dept, t);
  }

  lemma UserRolesAreRead(v: View, record: Nested)
    requires v.Valid() && IsUser(v, record)
    ensures ReadRoles(v.n, Under(record, v.n.role + "s")) == UserCache.RolesOf(v.db, v.user)
  {
    RelationsAre(v.n);
    AssociatedAre(v.db, v.n, v.user);
    var t := RolesOf(v.db, v.user);
    Found(v, record, v.n.user, v.user, v.db.users[v.user], 1, Edge(v.n.role, ManyToMany), v.n.role + "s", t);
    RolesAreRead(v, Under(record, v.n.role + "s"), v.user);
  }

  lemma UserIsRead(v: View, record: Nested)
    requires v.Valid() && IsUser(v, record)
    ensures UserCache.GetJoin(v.db, v.user) == Some(ReadUser(v.n, record))
  {
    ColumnsAre(v, record, v.n.user, v.user, v.db.users[v.user]);
    DeptIsRead(v, record);
    UserRolesAreRead(v, record);
  }

  // ---------------------------------------------------------------- main result

  /** The relationships and models of CRUDUser.get_join. */
  const USER_RELATIONSHIPS := [
    "User-m2o-Dept", "User-m2m-Role", "Role-m2m-Menu", "Role-m2m-DataScope:scopes", "DataScope-m2m-DataRule:rules"]

  const USER_SCHEMA := Schema("user", "dept", "role", "menu", "datascope", "datarule")

  lemma UserSchemaIsValid()
    ensures USER_SCHEMA.Valid()
  {
    var l := USER_SCHEMA.Layout();
    assert |l[0]| == 4 && |l[1]| == 4 && |l[2]| == 4 && |l[3]| == 4 && |l[4]| == 9 && |l[5]| == 8;
    assert l[0][0] == 'u' && l[1][0] == 'd' && l[2][0] == 'r' && l[3][0] == 'm';
    assert |"roles"| == 5 && "menus"[0] == 'm' && "scopes"[0] == 's';
  }

  /** A name as written in a relationship, and as a type's lower-cased name. */
  predicate Named(written: string, name: string) {
    IsModel(written) && Lower(written) == name
  }

  /** The model names as written. */
  datatype Written = Written(user: string, dept: string, role: string, menu: string, scope: string, rule: string)
  {
    predicate Names(n: Schema) {
      && Named(user, n.user) && Named(dept, n.dept) && Named(role, n.role)
      && Named(menu, n.menu) && Named(scope, n.scope) && Named(rule, n.rule)
    }
  }

  const USER_MODELS := Written("User", "Dept", "Role", "Menu", "DataScope", "DataRule")

  lemma ModelsAreNamed(w: Written, n: Schema)
    requires w == USER_MODELS && n == USER_SCHEMA
    ensures w.Names(n)
  {
    UserNames(w, n);
    RoleNames(w, n);
    ScopeNames(w, n);
  }

  lemma UserNames(w: Written, n: Schema)
    requires w == USER_MODELS && n == USER_SCHEMA
    ensures Named(w.user, n.user) && Named(w.dept, n.dept)
  {
  }

  lemma RoleNames(w: Written, n: Schema)
    requires w == USER_MODELS && n == USER_SCHEMA
    ensures Named(w.role, n.role) && Named(w.menu, n.menu)
  {
  }

  lemma ScopeNames(w: Written, n: Schema)
    requires w == USER_MODELS && n == USER_SCHEMA
    ensures Named(w.scope, n.scope) && Named(w.rule, n.rule)
  {
  }

  lemma UserTexts(texts: seq<string>, w: Written)
    requires texts == USER_RELATIONSHIPS && w == USER_MODELS
    ensures texts[0] == FormatEntry(w.user, ManyToOne, w.dept, "")
    ensures texts[1] == FormatEntry(w.user, ManyToMany, w.role, "")
    ensures texts[2] == FormatEntry(w.role, ManyToMany, w.menu, "")
  {
  }

  lemma ScopeTexts(texts: seq<string>, w: Written)
    requires texts == USER_RELATIONSHIPS && w == USER_MODELS
    ensures texts[3] == FormatEntry(w.role, ManyToMany, w.scope, "scopes")
    ensures texts[4] == FormatEntry(w.scope, ManyToMany, w.rule, "rules")
  {
  }

  lemma Reads(text: string, src: string, kind: Kind, dst: string, custom: string, source: string, target: string)
    requires Named(src, source) && Named(dst, target) && Trimmed(custom) && text == FormatEntry(src, kind, dst, custom)
    ensures ParseEntry(text) == Relation(source, kind, target, custom)
  {
    ParseFormat(src, kind, dst, custom);
  }

  /** The texts are those of the models' relationships. */
  ghost predicate Format(texts: seq<string>, w: Written) {
    && |texts| == 5
    && texts[0] == FormatEntry(w.user, ManyToOne, w.dept, "")
    && texts[1] == FormatEntry(w.user, ManyToMany, w.role, "")
    && texts[2] == FormatEntry(w.role, ManyToMany, w.menu, "")
    && texts[3] == FormatEntry(w.role, ManyToMany, w.scope, "scopes")
    && texts[4] == FormatEntry(w.scope, ManyToMany, w.rule, "rules")
  }

  predicate ReadAs(texts: seq<string>, entries: seq<Entry>, i: nat) {
    i < |texts| && i < |entries| && ParseEntry(texts[i]) == entries[i]
  }

  lemma EntriesFrom(texts: seq<string>, entries: seq<Entry>)
    requires |texts| == |entries| && forall i {:trigger ReadAs(texts, entries, i)} ::
      0 <= i < |texts| ==> ReadAs(texts, entries, i)
    ensures Entries(texts) == entries
  {
    forall i | 0 <= i < |texts| ensures Entries(texts)[i] == entries[i] {
      assert ReadAs(texts, entries, i);
    }
  }

  lemma UserEntries(texts: seq<string>, w: Written, n: Schema)
    requires w.Names(n) && Format(texts, w)
    ensures forall i :: 0 <= i < 3 ==> ReadAs(texts, n.Relationships(), i)
  {
    Reads(texts[0], w.user, ManyToOne, w.dept, "", n.user, n.dept);
    Reads(texts[1], w.user, ManyToMany, w.role, "", n.user, n.role);
    Reads(texts[2], w.role, ManyToMany, w.menu, "", n.role, n.menu);
  }

  lemma ScopeEntries(texts: seq<string>, w: Written, n: Schema)
    requires w.Names(n) && Format(texts, w)
    ensures forall i :: 3 <= i < 5 ==> ReadAs(texts, n.Relationships(), i)
  {
    Reads(texts[3], w.role, ManyToMany, w.scope, "scopes", n.role, n.scope);
    Reads(texts[4], w.scope, ManyToMany, w.rule, "rules", n.scope, n.rule);
  }

  lemma FormattedIsParsed(texts: seq<string>, w: Written, n: Schema)
    requires w.Names(n) && Format(texts, w)
    ensures Entries(texts) == n.Relationships()
  {
    UserEntries(texts, w, n);
    ScopeEntries(texts, w, n);
    EntriesFrom(texts, n.Relationships());
  }

  lemma RelationshipsAreParsed(texts: seq<string>, w: Written, n: Schema)
    requires texts == USER_RELATIONSHIPS && w == USER_MODELS && n == USER_SCHEMA
    ensures Entries(texts) == n.Relationships()
  {
    UserTexts(texts, w);
    ScopeTexts(texts, w);
    ModelsAreNamed(w, n);
    assert Format(texts, w);
    FormattedIsParsed(texts, w, n);
  }

  lemma RowsNeedPrimaries(q: Query, rows: seq<Row>)
    requires q.Valid() && q.Produces(rows) && rows != []
    ensures q.primaries != {}
  {
    assert q.Sound(rows[0]);
  }

  lemma NoUserNoRows(v: View)
    requires v.Valid() && v.user !in v.db.users
    ensures v.rows == []
  {
    if v.rows != [] {
      RowsNeedPrimaries(v.Join(), v.rows);
    }
  }

  /** On the rows of the user query the serializer's one record reads as the joined record of UserCache. */
  lemma RecordIsJoin(v: View, entries: seq<Entry>) returns (record: Nested)
    requires v.Valid() && v.user in v.db.users && entries == v.n.Relationships() && Ranked(v.n.Parsed(), v.n.Rank)
    ensures v.rows != [] && v.rows[0] != []
    ensures Serialized(v.rows, entries, v.n.Rank) == One(record)
    ensures UserCache.GetJoin(v.db, v.user) == Some(ReadUser(v.n, record))
  {
    ParsedIs(v.n);
    assert v.n.user in v.n.Parsed().graph;
    var records, firsts := NestingUndoesJoin(v.Join(), v.rows, entries, v.n.Rank);
    var p := ObjOf(v.n.user, v.user, v.db.users[v.user]);
    OnlyRecord(records, p);
    record := records[0];
    UserIsRead(v, record);
  }

  lemma TwoDiffer(records: seq<Nested>, objs: set<Obj>)
    requires Lists(records, objs) && |records| > 1
    ensures records[0].source != records[1].source && records[0].source in objs && records[1].source in objs
  {
  }

  lemma OnlyRecord(records: seq<Nested>, p: Obj)
    requires Lists(records, {p})
    ensures |records| == 1 && records[0].source == p
  {
    var i :| 0 <= i < |records| && records[i].source == p;
    if |records| > 1 {
      TwoDiffer(records, {p});
    }
  }

  /** For any tables the user query has rows. */
  lemma ViewExists(db: Database, n: Schema, user: nat) returns (v: View)
    requires n.Valid() && Positive(db) && Plain(db, n)
    ensures v.db == db && v.n == n && v.user == user && v.Valid()
  {
    JoinIsValid(db, n, user);
    var rows := JoinRowsExist(JoinOf(db, n, user));
    v := View(db, n, user, rows);
  }

  /** What the serializer returns for the rows of a user query: nothing, or one record that reads as the join. */
  ghost predicate IsJoin(v: View, entries: seq<Entry>, output: Output) {
    && (v.rows != [] ==> v.rows[0] != [])
    && Ranked(ContextOf(v.rows, entries).rel, v.n.Rank)
    && output == Serialized(v.rows, entries, v.n.Rank)
    && match UserCache.GetJoin(v.db, v.user)
       case None => output == Nothing
       case Some(joined) => output.One? && ReadUser(v.n, output.record) == joined
  }

  /**
   * get_join.  For any tables, and the rows of the user query over them in any
   * order: the serializer returns nothing for a user who does not exist, and
   * otherwise one record, which reads as the joined record of UserCache.
   */
  lemma SerializedUserIsJoin(v: View, relationships: seq<string>) returns (output: Output)
    requires v.Valid() && Entries(relationships) == v.n.Relationships()
    ensures IsJoin(v, Entries(relationships), output)
  {
    SchemaRanked(v.n);
    if v.user in v.db.users {
      var record := RecordIsJoin(v, Entries(relationships));
      output := One(record);
    } else {
      NoUserNoRows(v);
      output := Nothing;
    }
  }

  /** In particular for the relationships and the models of the user query. */
  lemma UserQueryIsJoin(db: Database, user: nat, relationships: seq<string>) returns (v: View, output: Output)
    requires Positive(db) && Plain(db, USER_SCHEMA) && relationships == USER_RELATIONSHIPS
    ensures v.db == db && v.n == USER_SCHEMA && v.user == user && v.Valid()
    ensures IsJoin(v, Entries(relationships), output)
  {
    UserSchemaIsValid();
    v := ViewExists(db, USER_SCHEMA, user);
    RelationshipsAreParsed(relationships, USER_MODELS, v.n);
    output := SerializedUserIsJoin(v, relationships);
  }
}
