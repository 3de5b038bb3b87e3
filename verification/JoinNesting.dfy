/**
 * Turning the flat rows of an outer join back into nested records
 * (backend/utils/serializers.py).
 *
 * The rows of `User LEFT JOIN Role LEFT JOIN Menu ...` repeat every object once
 * per combination of the other columns.  The serializer indexes the rows by
 * (primary object, child type, parent id), drops duplicates, and rebuilds the
 * hierarchy recursively.  The main theorem, NestingUndoesJoin, says that on the
 * rows of an outer join the rebuilt records are exactly the associated objects.
 */
module JoinNesting {
  import opened Wrappers
  import opened RelationText

  // ---------------------------------------------------------------- data model

  /** A mapped object; `address` is what Python's id() returns for it. */
  datatype Obj = Obj(model: string, id: Option<int>, address: int, columns: map<string, string>)

  type Row = seq<Option<Obj>>

  datatype Edge = Edge(dst: string, kind: Kind)

  datatype Relations = Relations(
    graph: map<string, seq<Edge>>,
    reverse: map<string, string>,
    customs: map<(string, string), string>)

  /** The place of an object in the hierarchy: primary object, type, parent id. */
  datatype Place = Place(main: int, model: string, parent: int)

  /** A record with nested fields; `source` is the object it was built from. */
  datatype Nested = Nested(source: Obj, data: map<string, Field>)

  datatype Field = Column(text: string) | Single(item: Option<Nested>) | Many(items: seq<Nested>)

  datatype Output = Nothing | Flat | One(record: Nested) | All(records: seq<Nested>)

  predicate IsList(kind: Kind) {
    kind.OneToMany? || kind.ManyToMany?
  }

  /** get_obj_id: the id, or the address when the id is missing or zero. */
  function MainId(o: Obj): int {
    if o.id.Some? && o.id.value != 0 then o.id.value else o.address
  }

  // ---------------------------------------------------------------- relations

  function Edges(rel: Relations, model: string): seq<Edge> {
    if model in rel.graph then rel.graph[model] else []
  }

  function KeyOf(rel: Relations, model: string, e: Edge): string {
    if (model, e.dst) in rel.customs then rel.customs[(model, e.dst)]
    else if IsList(e.kind) then e.dst + "s"
    else e.dst
  }

  predicate HasEdge(rel: Relations, src: string, dst: string) {
    exists i | 0 <= i < |Edges(rel, src)| :: Edges(rel, src)[i].dst == dst
  }

  /** Insertion into an ordered dict: an existing key keeps its position. */
  function Upsert(es: seq<Edge>, e: Edge): seq<Edge> {
    if es == [] then [e]
    else if es[0].dst == e.dst then [e] + es[1..]
    else [es[0]] + Upsert(es[1..], e)
  }

  function Declare(rel: Relations, r: Entry): Relations {
    if !r.Relation? then rel
    else Relations(
      rel.graph[r.src := Upsert(Edges(rel, r.src), Edge(r.dst, r.kind))],
      rel.reverse[r.dst := r.src],
      if r.custom != "" then rel.customs[(r.src, r.dst) := r.custom] else rel.customs)
  }

  function Declared(entries: seq<Entry>, n: nat): Relations
    requires n <= |entries|
  {
    if n == 0 then Relations(map[], map[], map[]) else Declare(Declared(entries, n - 1), entries[n - 1])
  }

  function Entries(texts: seq<string>): seq<Entry> {
    seq(|texts|, i requires 0 <= i < |texts| => ParseEntry(texts[i]))
  }

  method ParseRelationships(texts: seq<string>) returns (rel: Relations)
    ensures rel == Declared(Entries(texts), |texts|)
  {
    var graph: map<string, seq<Edge>>, reverse: map<string, string> := map[], map[];
    var customs: map<(string, string), string> := map[];
    for i := 0 to |texts|
      invariant Relations(graph, reverse, customs) == Declared(Entries(texts), i)
    {
      graph, reverse, customs := DeclareEntry(graph, reverse, customs, ParseEntry(texts[i]));
    }
    rel := Relations(graph, reverse, customs);
  }

  /** The body of the loop: a valid entry is added, a malformed one skipped. */
  method DeclareEntry(graph: map<string, seq<Edge>>, reverse: map<string, string>,
                      customs: map<(string, string), string>, entry: Entry)
    returns (graph': map<string, seq<Edge>>, reverse': map<string, string>, customs': map<(string, string), string>)
    ensures Relations(graph', reverse', customs') == Declare(Relations(graph, reverse, customs), entry)
  {
    graph', reverse', customs' := graph, reverse, customs;
    match entry
    case Malformed =>
    case UnknownKind =>
    case Relation(src, kind, dst, custom) =>
      graph' := graph[src := Upsert(if src in graph then graph[src] else [], Edge(dst, kind))];
      reverse' := reverse[dst := src];
      if custom != "" {
        customs' := customs[(src, dst) := custom];
      }
  }

  /** No type is the target of two entries. */
  ghost predicate OneSourceEach(entries: seq<Entry>) {
    forall i, j :: 0 <= i < j < |entries| && entries[i].Relation? && entries[j].Relation? ==>
      entries[i].dst != entries[j].dst
  }

  lemma {:induction false} UpsertNewTarget(es: seq<Edge>, e: Edge)
    requires forall i :: 0 <= i < |es| ==> es[i].dst != e.dst
    ensures Upsert(es, e) == es + [e]
  {
    if es != [] {
      UpsertNewTarget(es[1..], e);
    }
  }

  ghost predicate Declares(entries: seq<Entry>, n: nat, src: string, dst: string)
    requires n <= |entries|
  {
    exists i :: 0 <= i < n && entries[i].Relation? && entries[i].src == src && entries[i].dst == dst
  }

  predicate IsEdge(r: Entry, src: string, e: Edge) {
    r.Relation? && r.src == src && r.dst == e.dst && r.kind == e.kind
  }

  ghost predicate DeclaresEdge(entries: seq<Entry>, n: nat, src: string, e: Edge)
    requires n <= |entries|
  {
    exists i :: 0 <= i < n && IsEdge(entries[i], src, e)
  }

  lemma DeclaresEdgeNext(entries: seq<Entry>, n: nat, src: string, e: Edge)
    requires n < |entries|
    ensures DeclaresEdge(entries, n + 1, src, e) <==> DeclaresEdge(entries, n, src, e) || IsEdge(entries[n], src, e)
  {
  }

  /** The next entry has a target of its own. */
  lemma OtherTarget(entries: seq<Entry>, n: nat, src: string, e: Edge)
    requires OneSourceEach(entries) && n < |entries| && entries[n].Relation? && DeclaresEdge(entries, n, src, e)
    ensures e.dst != entries[n].dst
  {
  }

  lemma EdgesNext(entries: seq<Entry>, n: nat, src: string)
    requires n < |entries|
    ensures var es, r := Edges(Declared(entries, n), src), entries[n];
      Edges(Declared(entries, n + 1), src) ==
      if r.Relation? && r.src == src then Upsert(es, Edge(r.dst, r.kind)) else es
  {
  }

  /** The parsed graph has exactly the edges of the valid entries. */
  lemma {:induction false} EdgesAreDeclared(entries: seq<Entry>, n: nat, src: string, e: Edge)
    requires OneSourceEach(entries) && n <= |entries|
    ensures e in Edges(Declared(entries, n), src) <==> DeclaresEdge(entries, n, src, e)
  {
    if n > 0 {
      var es, r := Edges(Declared(entries, n - 1), src), entries[n - 1];
      EdgesAreDeclared(entries, n - 1, src, e);
      EdgesNext(entries, n - 1, src);
      DeclaresEdgeNext(entries, n - 1, src, e);
      if r.Relation? && r.src == src {
        forall i | 0 <= i < |es| ensures es[i].dst != r.dst {
          EdgesAreDeclared(entries, n - 1, src, es[i]);
          OtherTarget(entries, n - 1, src, es[i]);
        }
        UpsertNewTarget(es, Edge(r.dst, r.kind));
      }
    }
  }

  /** Every valid entry is the source of its target and sets its field name, and no other entry interferes. */
  lemma {:induction false} EntryIsParsed(entries: seq<Entry>, n: nat, i: nat)
    requires OneSourceEach(entries) && i < n <= |entries| && entries[i].Relation?
    ensures var rel, r := Declared(entries, n), entries[i];
      && r.dst in rel.reverse && rel.reverse[r.dst] == r.src
      && KeyOf(rel, r.src, Edge(r.dst, r.kind)) ==
           if r.custom != "" then r.custom else if IsList(r.kind) then r.dst + "s" else r.dst
  {
    if i == n - 1 {
      CustomsAreDeclared(entries, n - 1, entries[i].src, entries[i].dst);
    } else {
      EntryIsParsed(entries, n - 1, i);
    }
  }

  /** Every target of an edge has a source, so the serializer never falls back on the primary object as parent. */
  lemma {:induction false} TargetsHaveSources(entries: seq<Entry>, n: nat, src: string, e: Edge)
    requires n <= |entries| && e in Edges(Declared(entries, n), src)
    ensures e.dst in Declared(entries, n).reverse
  {
    var before, r := Declared(entries, n - 1), entries[n - 1];
    if r.Relation? && r.src == src {
      UpsertMembers(Edges(before, src), Edge(r.dst, r.kind), e);
    }
    if e in Edges(before, src) {
      TargetsHaveSources(entries, n - 1, src, e);
    }
  }

  lemma {:induction false} UpsertMembers(es: seq<Edge>, e: Edge, x: Edge)
    requires x in Upsert(es, e)
    ensures x == e || x in es
  {
    if es != [] && es[0].dst != e.dst && x != es[0] {
      UpsertMembers(es[1..], e, x);
    }
  }

  lemma {:induction false} CustomsAreDeclared(entries: seq<Entry>, n: nat, src: string, dst: string)
    requires n <= |entries|
    ensures (src, dst) in Declared(entries, n).customs ==> Declares(entries, n, src, dst)
  {
    if n > 0 {
      CustomsAreDeclared(entries, n - 1, src, dst);
    }
  }

  // ---------------------------------------------------------------- de-duplication

  function Ids(objs: seq<Obj>): set<int> {
    set o | o in objs && o.id.Some? :: o.id.value
  }

  /** The first object of every id among the first n, in order of appearance. */
  function Dedupe(objs: seq<Obj>, n: nat): seq<Obj>
    requires n <= |objs|
  {
    if n == 0 then []
    else
      var kept := Dedupe(objs, n - 1);
      var o := objs[n - 1];
      if o.id.Some? && o.id.value !in Ids(kept) then kept + [o] else kept
  }

  method DedupeObjects(objs: seq<Obj>) returns (unique: seq<Obj>)
    ensures unique == Dedupe(objs, |objs|)
  {
    var seen: set<int> := {};
    unique := [];
    for i := 0 to |objs|
      invariant unique == Dedupe(objs, i)
      invariant seen == Ids(unique)
    {
      var itemId := objs[i].id;
      if itemId.Some? && itemId.value !in seen {
        seen := seen + {itemId.value};
        unique := unique + [objs[i]];
      }
    }
  }

  /** De-duplication keeps every id exactly once and invents no object. */
  lemma {:induction false} DedupeKeepsEachIdOnce(objs: seq<Obj>, n: nat)
    requires n <= |objs|
    ensures forall o :: o in Dedupe(objs, n) ==> o in objs[..n] && o.id.Some?
    ensures forall o :: o in objs[..n] && o.id.Some? ==> o.id.value in Ids(Dedupe(objs, n))
    ensures forall i, j :: 0 <= i < j < |Dedupe(objs, n)| ==> Dedupe(objs, n)[i].id != Dedupe(objs, n)[j].id
  {
    if n > 0 {
      DedupeKeepsEachIdOnce(objs, n - 1);
      assert objs[..n] == objs[..n - 1] + [objs[n - 1]];
      var kept, o := Dedupe(objs, n - 1), objs[n - 1];
      if o.id.Some? && o.id.value !in Ids(kept) {
        assert Ids(kept + [o]) == Ids(kept) + {o.id.value};
        forall i | 0 <= i < |kept| ensures kept[i].id != o.id {
          assert kept[i] in kept;
        }
      }
    }
  }

  /** The object at a position is the first with its id. */
  ghost predicate FirstWithId(objs: seq<Obj>, at: int, o: Obj) {
    && 0 <= at < |objs| && objs[at] == o && o.id.Some?
    && forall j :: 0 <= j < at ==> objs[j].id != o.id
  }

  /** The objects are the first ones with their ids, at rising positions below n. */
  ghost predicate FirstsInOrder(objs: seq<Obj>, kept: seq<Obj>, firsts: seq<int>, n: nat) {
    && |firsts| == |kept|
    && (forall i :: 0 <= i < |firsts| ==> firsts[i] < n && FirstWithId(objs, firsts[i], kept[i]))
    && (forall i, j :: 0 <= i < j < |firsts| ==> firsts[i] < firsts[j])
  }

  lemma NewIdIsFirst(objs: seq<Obj>, n: nat)
    requires n < |objs| && objs[n].id.Some? && objs[n].id.value !in Ids(Dedupe(objs, n))
    ensures FirstWithId(objs, n, objs[n])
  {
    DedupeKeepsEachIdOnce(objs, n);
    forall j | 0 <= j < n ensures objs[j].id != objs[n].id {
      assert objs[j] in objs[..n];
    }
  }

  lemma AppendFirst(objs: seq<Obj>, kept: seq<Obj>, firsts: seq<int>, n: nat)
    requires n < |objs| && FirstsInOrder(objs, kept, firsts, n) && FirstWithId(objs, n, objs[n])
    ensures FirstsInOrder(objs, kept + [objs[n]], firsts + [n], n + 1)
  {
    var kept', firsts' := kept + [objs[n]], firsts + [n];
    forall i | 0 <= i < |firsts'| ensures firsts'[i] < n + 1 && FirstWithId(objs, firsts'[i], kept'[i]) {
      if i < |firsts| {
        assert firsts'[i] == firsts[i] && kept'[i] == kept[i];
      }
    }
  }

  lemma FirstsBelow(objs: seq<Obj>, kept: seq<Obj>, firsts: seq<int>, n: nat)
    requires FirstsInOrder(objs, kept, firsts, n)
    ensures FirstsInOrder(objs, kept, firsts, n + 1)
  {
  }

  lemma DedupeNext(objs: seq<Obj>, n: nat)
    requires n < |objs|
    ensures var kept, o := Dedupe(objs, n), objs[n];
      Dedupe(objs, n + 1) == if o.id.Some? && o.id.value !in Ids(kept) then kept + [o] else kept
  {
  }

  /** De-duplication keeps the first object with every id, in the order of the list. */
  lemma {:induction false} DedupeInOrder(objs: seq<Obj>, n: nat) returns (firsts: seq<int>)
    requires n <= |objs|
    ensures FirstsInOrder(objs, Dedupe(objs, n), firsts, n)
  {
    if n == 0 {
      firsts := [];
    } else {
      firsts := DedupeInOrder(objs, n - 1);
      DedupeNext(objs, n - 1);
      if objs[n - 1].id.Some? && objs[n - 1].id.value !in Ids(Dedupe(objs, n - 1)) {
        NewIdIsFirst(objs, n - 1);
        AppendFirst(objs, Dedupe(objs, n - 1), firsts, n - 1);
        firsts := firsts + [n - 1];
      } else {
        FirstsBelow(objs, Dedupe(objs, n - 1), firsts, n - 1);
      }
    }
  }

  // ---------------------------------------------------------------- indexing the rows

  /** Column index of each type: where a value of that type is first met. */
  function RowColumns(known: map<string, nat>, row: Row, k: nat): map<string, nat>
    requires k <= |row|
  {
    if k == 0 then known
    else
      var m := RowColumns(known, row, k - 1);
      if row[k - 1].Some? && row[k - 1].value.model !in m then m[row[k - 1].value.model := k - 1] else m
  }

  function ColumnIndex(rows: seq<Row>, n: nat): map<string, nat>
    requires n <= |rows|
  {
    if n == 0 then map[] else RowColumns(ColumnIndex(rows, n - 1), rows[n - 1], |rows[n - 1]|)
  }

  method IndexColumns(rows: seq<Row>) returns (clsIdx: map<string, nat>)
    ensures clsIdx == ColumnIndex(rows, |rows|)
  {
    clsIdx := map[];
    for i := 0 to |rows|
      invariant clsIdx == ColumnIndex(rows, i)
    {
      var row := rows[i];
      for k := 0 to |row|
        invariant clsIdx == RowColumns(ColumnIndex(rows, i), row, k)
      {
        if row[k].Some? && row[k].value.model !in clsIdx {
          clsIdx := clsIdx[row[k].value.model := k];
        }
      }
    }
  }

  /** What every indexing step sees: the rows, the relations and the column index. */
  datatype Context = Context(rows: seq<Row>, rel: Relations, clsIdx: map<string, nat>)

  predicate HasMain(row: Row) {
    |row| > 0 && row[0].Some?
  }

  /** Where the hierarchy files the object in column k of a row, if anywhere. */
  function PlaceOf(ctx: Context, row: Row, k: nat): Option<Place>
    requires HasMain(row) && 1 <= k < |row|
  {
    if row[k].None? then None
    else
      var model := row[k].value.model;
      var parent: Option<Obj> :=
        if model in ctx.rel.reverse then
          var parentType := ctx.rel.reverse[model];
          if parentType in ctx.clsIdx && ctx.clsIdx[parentType] < |row| then row[ctx.clsIdx[parentType]] else None
        else if HasEdge(ctx.rel, row[0].value.model, model) then row[0]
        else None;
      if parent.None? || parent.value.id.None? then None
      else Some(Place(MainId(row[0].value), model, parent.value.id.value))
  }

  function Contribution(ctx: Context, row: Row, k: nat, place: Place): seq<Obj>
    requires HasMain(row) && 1 <= k < |row|
  {
    if PlaceOf(ctx, row, k) == Some(place) then [row[k].value] else []
  }

  /** The objects that columns 1..k of a row contribute to a place. */
  function RowBucket(ctx: Context, row: Row, k: nat, place: Place): seq<Obj>
    requires HasMain(row) && 1 <= k <= |row|
  {
    if k == 1 then []
    else
      RowBucket(ctx, row, k - 1, place) + Contribution(ctx, row, k - 1, place)
  }

  /** The objects that the first n rows contribute to a place, in row order. */
  function Bucket(ctx: Context, n: nat, place: Place): seq<Obj>
    requires n <= |ctx.rows|
  {
    if n == 0 then []
    else
      Bucket(ctx, n - 1, place) +
      if HasMain(ctx.rows[n - 1]) then RowBucket(ctx, ctx.rows[n - 1], |ctx.rows[n - 1]|, place) else []
  }

  function Lookup(hierarchy: map<Place, seq<Obj>>, place: Place): seq<Obj> {
    if place in hierarchy then hierarchy[place] else []
  }

  lemma RowBucketStep(ctx: Context, row: Row, k: nat, q: Place)
    requires HasMain(row) && 1 <= k < |row|
    ensures RowBucket(ctx, row, k + 1, q) == RowBucket(ctx, row, k, q) + Contribution(ctx, row, k, q)
  {
  }

  lemma AppendAssociates<T>(a: seq<T>, b: seq<T>, c: seq<T>)
    ensures (a + b) + c == a + (b + c)
  {
  }

  /** The hierarchy extends an earlier one by what columns 1..k of a row contribute. */
  ghost predicate Extends(hierarchy: map<Place, seq<Obj>>, before: map<Place, seq<Obj>>, ctx: Context, row: Row, k: nat)
    requires HasMain(row) && 1 <= k <= |row|
  {
    forall q :: Lookup(hierarchy, q) == Lookup(before, q) + RowBucket(ctx, row, k, q)
  }

  function FileColumn(hierarchy: map<Place, seq<Obj>>, ctx: Context, row: Row, k: nat): (h: map<Place, seq<Obj>>)
    requires HasMain(row) && 1 <= k < |row|
    ensures forall q :: Lookup(h, q) == Lookup(hierarchy, q) + Contribution(ctx, row, k, q)
  {
    var place := PlaceOf(ctx, row, k);
    if place.None? then hierarchy
    else hierarchy[place.value := Lookup(hierarchy, place.value) + [row[k].value]]
  }

  lemma ExtendsStep(hierarchy: map<Place, seq<Obj>>, before: map<Place, seq<Obj>>, ctx: Context, row: Row, k: nat)
    requires HasMain(row) && 1 <= k < |row|
    requires Extends(hierarchy, before, ctx, row, k)
    ensures Extends(FileColumn(hierarchy, ctx, row, k), before, ctx, row, k + 1)
  {
    var h := FileColumn(hierarchy, ctx, row, k);
    forall q ensures Lookup(h, q) == Lookup(before, q) + RowBucket(ctx, row, k + 1, q) {
      RowBucketStep(ctx, row, k, q);
      AppendAssociates(Lookup(before, q), RowBucket(ctx, row, k, q), Contribution(ctx, row, k, q));
    }
  }

  method IndexRow(ctx: Context, row: Row, before: map<Place, seq<Obj>>) returns (hierarchy: map<Place, seq<Obj>>)
    requires HasMain(row)
    ensures Extends(hierarchy, before, ctx, row, |row|)
  {
    hierarchy := before;
    for k := 1 to |row|
      invariant Extends(hierarchy, before, ctx, row, k)
    {
      ExtendsStep(hierarchy, before, ctx, row, k);
      hierarchy := FileColumn(hierarchy, ctx, row, k);
    }
  }

  /** The hierarchy holds what the first n rows contribute. */
  ghost predicate IndexedUpTo(ctx: Context, hierarchy: map<Place, seq<Obj>>, n: nat)
    requires n <= |ctx.rows|
  {
    forall q :: Lookup(hierarchy, q) == Bucket(ctx, n, q)
  }

  ghost predicate Indexed(ctx: Context, hierarchy: map<Place, seq<Obj>>) {
    IndexedUpTo(ctx, hierarchy, |ctx.rows|)
  }

  lemma IndexedNext(ctx: Context, before: map<Place, seq<Obj>>, hierarchy: map<Place, seq<Obj>>, n: nat)
    requires n < |ctx.rows| && IndexedUpTo(ctx, before, n)
    requires if HasMain(ctx.rows[n]) then Extends(hierarchy, before, ctx, ctx.rows[n], |ctx.rows[n]|)
             else hierarchy == before
    ensures IndexedUpTo(ctx, hierarchy, n + 1)
  {
  }

  method BuildHierarchy(ctx: Context) returns (hierarchy: map<Place, seq<Obj>>)
    ensures Indexed(ctx, hierarchy)
  {
    hierarchy := map[];
    for i := 0 to |ctx.rows|
      invariant IndexedUpTo(ctx, hierarchy, i)
    {
      ghost var before := hierarchy;
      if HasMain(ctx.rows[i]) {
        hierarchy := IndexRow(ctx, ctx.rows[i], hierarchy);
      }
      IndexedNext(ctx, before, hierarchy, i);
    }
  }

  // ---------------------------------------------------------------- rebuilding

  /** The relation list is acyclic: some ranking falls along every edge. */
  ghost predicate Ranked(rel: Relations, rank: string -> nat) {
    forall src, i :: 0 <= i < |Edges(rel, src)| ==> rank(Edges(rel, src)[i].dst) < rank(src)
  }

  ghost function ChildObjects(ctx: Context, main: int, model: string, parent: int): seq<Obj> {
    var bucket := Bucket(ctx, |ctx.rows|, Place(main, model, parent));
    Dedupe(bucket, |bucket|)
  }

  /** What build_nested computes, as a function of the rows. */
  ghost function Children(ctx: Context, rank: string -> nat, main: int, model: string, parent: int): seq<Nested>
    requires Ranked(ctx.rel, rank)
    decreases rank(model), 3
  {
    var objs := ChildObjects(ctx, main, model, parent);
    seq(|objs|, i requires 0 <= i < |objs| =>
      var bucket := Bucket(ctx, |ctx.rows|, Place(main, model, parent));
      DedupeKeepsEachIdOnce(bucket, |bucket|);
      assert objs[i] in objs;
      Record(ctx, rank, main, model, objs[i], objs[i].id.value))
  }

  ghost function Record(ctx: Context, rank: string -> nat, main: int, model: string, o: Obj, pk: int): Nested
    requires Ranked(ctx.rel, rank)
    decreases rank(model), 2
  {
    Nested(o, Fields(ctx, rank, main, model, o, pk))
  }

  function ColumnFields(o: Obj): map<string, Field> {
    map c | c in o.columns :: Column(o.columns[c])
  }

  function FieldOf(kind: Kind, items: seq<Nested>): Field {
    if IsList(kind) then Many(items)
    else Single(if items == [] then None else Some(items[0]))
  }

  /** A relation to one object shows the first object filed for the parent. */
  lemma SingleIsFirst(ctx: Context, rank: string -> nat, main: int, model: string, parent: int, kind: Kind)
    requires Ranked(ctx.rel, rank) && !IsList(kind)
    ensures var bucket := Bucket(ctx, |ctx.rows|, Place(main, model, parent));
      var item := FieldOf(kind, Children(ctx, rank, main, model, parent)).item;
      && (item.None? <==> forall o :: o in bucket ==> o.id.None?)
      && (item.Some? ==> exists at ::
            && FirstWithId(bucket, at, item.value.source)
            && forall j :: 0 <= j < at ==> bucket[j].id.None?)
  {
    var bucket := Bucket(ctx, |ctx.rows|, Place(main, model, parent));
    var objs := ChildObjects(ctx, main, model, parent);
    DedupeKeepsEachIdOnce(bucket, |bucket|);
    assert bucket[..|bucket|] == bucket;
    var firsts := DedupeInOrder(bucket, |bucket|);
    if objs != [] {
      forall j | 0 <= j < firsts[0] ensures bucket[j].id.None? {
        assert bucket[j] in bucket;
      }
      assert FirstWithId(bucket, firsts[0], objs[0]);
    }
  }

  /** Fields written over others, one after the other. */
  function Overlay(base: map<string, Field>, keys: seq<string>, fields: seq<Field>, n: nat): map<string, Field>
    requires n <= |keys| == |fields|
  {
    if n == 0 then base else Overlay(base, keys, fields, n - 1)[keys[n - 1] := fields[n - 1]]
  }

  lemma {:induction false} OverlayNames(base: map<string, Field>, keys: seq<string>, fields: seq<Field>, n: nat,
                                        name: string)
    requires n <= |keys| == |fields|
    ensures name in Overlay(base, keys, fields, n) <==> name in base || name in keys[..n]
    ensures name in base && name !in keys[..n] ==> Overlay(base, keys, fields, n)[name] == base[name]
  {
    if n > 0 {
      OverlayNames(base, keys, fields, n - 1, name);
      assert keys[..n] == keys[..n - 1] + [keys[n - 1]];
    }
  }

  lemma {:induction false} OverlayOwner(base: map<string, Field>, keys: seq<string>, fields: seq<Field>, n: nat, i: nat)
    requires i < n <= |keys| == |fields| && forall j :: i < j < |keys| ==> keys[j] != keys[i]
    ensures keys[i] in Overlay(base, keys, fields, n) && Overlay(base, keys, fields, n)[keys[i]] == fields[i]
  {
    if i < n - 1 {
      OverlayOwner(base, keys, fields, n - 1, i);
    }
  }

  function KeysOf(rel: Relations, model: string): seq<string> {
    var edges := Edges(rel, model);
    seq(|edges|, i requires 0 <= i < |edges| => KeyOf(rel, model, edges[i]))
  }

  /** What every relation of a type shows for a parent id. */
  ghost function RelationFields(ctx: Context, rank: string -> nat, main: int, model: string, pk: int): seq<Field>
    requires Ranked(ctx.rel, rank)
    decreases rank(model), 0
  {
    var edges := Edges(ctx.rel, model);
    seq(|edges|, i requires 0 <= i < |edges| => FieldOf(edges[i].kind, Children(ctx, rank, main, edges[i].dst, pk)))
  }

  ghost function Fields(ctx: Context, rank: string -> nat, main: int, model: string, o: Obj, pk: int)
    : map<string, Field>
    requires Ranked(ctx.rel, rank)
    decreases rank(model), 1
  {
    var keys := KeysOf(ctx.rel, model);
    Overlay(ColumnFields(o), keys, RelationFields(ctx, rank, main, model, pk), |keys|)
  }

  /** The columns and the first n relations. */
  ghost predicate FieldsBuilt(ctx: Context, rank: string -> nat, main: int, model: string, o: Obj, pk: int,
                              data: map<string, Field>, n: nat)
    requires Ranked(ctx.rel, rank) && n <= |Edges(ctx.rel, model)|
  {
    data == Overlay(ColumnFields(o), KeysOf(ctx.rel, model), RelationFields(ctx, rank, main, model, pk), n)
  }

  method BuildFields(ctx: Context, hierarchy: map<Place, seq<Obj>>, ghost rank: string -> nat,
                     main: int, model: string, o: Obj, pk: int) returns (data: map<string, Field>)
    requires Ranked(ctx.rel, rank) && Indexed(ctx, hierarchy)
    ensures data == Fields(ctx, rank, main, model, o, pk)
    decreases rank(model), 1, 1
  {
    data := ColumnFields(o);
    for i := 0 to |Edges(ctx.rel, model)|
      invariant FieldsBuilt(ctx, rank, main, model, o, pk, data, i)
    {
      data := AddField(ctx, hierarchy, rank, main, model, o, pk, data, i);
    }
  }

  method AddField(ctx: Context, hierarchy: map<Place, seq<Obj>>, ghost rank: string -> nat,
                  main: int, model: string, ghost o: Obj, pk: int, before: map<string, Field>, i: nat)
    returns (data: map<string, Field>)
    requires Ranked(ctx.rel, rank) && Indexed(ctx, hierarchy) && i < |Edges(ctx.rel, model)|
    requires FieldsBuilt(ctx, rank, main, model, o, pk, before, i)
    ensures FieldsBuilt(ctx, rank, main, model, o, pk, data, i + 1)
    decreases rank(model), 1, 0
  {
    var field := BuildField(ctx, hierarchy, rank, main, model, i, pk);
    var subKey := KeyOf(ctx.rel, model, Edges(ctx.rel, model)[i]);
    data := before[subKey := field];
  }

  method BuildField(ctx: Context, hierarchy: map<Place, seq<Obj>>, ghost rank: string -> nat,
                    main: int, model: string, i: nat, pk: int) returns (field: Field)
    requires Ranked(ctx.rel, rank) && Indexed(ctx, hierarchy) && i < |Edges(ctx.rel, model)|
    ensures field == RelationFields(ctx, rank, main, model, pk)[i]
    decreases rank(model), 0
  {
    var edge := Edges(ctx.rel, model)[i];
    var subList := RecursiveBuild(ctx, hierarchy, rank, main, edge.dst, pk);
    field := FieldOf(edge.kind, subList);
  }

  lemma ChildRecords(ctx: Context, rank: string -> nat, main: int, model: string, pk: int, i: nat)
    requires Ranked(ctx.rel, rank) && i < |ChildObjects(ctx, main, model, pk)|
    ensures var o := ChildObjects(ctx, main, model, pk)[i];
      && o.id.Some?
      && |Children(ctx, rank, main, model, pk)| == |ChildObjects(ctx, main, model, pk)|
      && Children(ctx, rank, main, model, pk)[i] ==
           Nested(o, Fields(ctx, rank, main, model, o, o.id.value))
  {
    var bucket := Bucket(ctx, |ctx.rows|, Place(main, model, pk));
    DedupeKeepsEachIdOnce(bucket, |bucket|);
    assert ChildObjects(ctx, main, model, pk)[i] in ChildObjects(ctx, main, model, pk);
  }

  method RecursiveBuild(ctx: Context, hierarchy: map<Place, seq<Obj>>, ghost rank: string -> nat,
                        main: int, model: string, pk: int) returns (output: seq<Nested>)
    requires Ranked(ctx.rel, rank) && Indexed(ctx, hierarchy)
    ensures output == Children(ctx, rank, main, model, pk)
    decreases rank(model), 2
  {
    var bucket := Lookup(hierarchy, Place(main, model, pk));
    assert bucket == Bucket(ctx, |ctx.rows|, Place(main, model, pk));
    var objs := DedupeObjects(bucket);
    assert objs == ChildObjects(ctx, main, model, pk);
    output := [];
    for i := 0 to |objs|
      invariant output == Children(ctx, rank, main, model, pk)[..i]
    {
      ChildRecords(ctx, rank, main, model, pk, i);
      var data := BuildFields(ctx, hierarchy, rank, main, model, objs[i], objs[i].id.value);
      output := output + [Nested(objs[i], data)];
    }
  }

  /** The first object of every main id, in order of first appearance. */
  function Mains(rows: seq<Row>, n: nat): seq<Obj>
    requires n <= |rows|
  {
    if n == 0 then []
    else
      var earlier := Mains(rows, n - 1);
      var row := rows[n - 1];
      if HasMain(row) && MainId(row[0].value) !in MainIds(earlier) then earlier + [row[0].value] else earlier
  }

  function MainIds(objs: seq<Obj>): set<int> {
    set o | o in objs :: MainId(o)
  }

  predicate HasId(o: Obj) {
    o.id.Some? && o.id.value != 0
  }

  /** The same object: by id, or without one by address. */
  predicate SameObject(a: Obj, b: Obj) {
    HasId(a) == HasId(b) && if HasId(a) then a.id == b.id else a.address == b.address
  }

  /** An address of an object without an id is not the id of another object. */
  predicate Apart(a: Obj, b: Obj) {
    && (!HasId(a) && HasId(b) ==> b.id != Some(a.address))
    && (HasId(a) && !HasId(b) ==> a.id != Some(b.address))
  }

  lemma {:induction false} PrimaryIsListed(rows: seq<Row>, n: nat, i: nat) returns (k: nat)
    requires i < n <= |rows| && HasMain(rows[i])
    ensures k < |Mains(rows, n)| && MainId(Mains(rows, n)[k]) == MainId(rows[i][0].value)
  {
    if i < n - 1 {
      k := PrimaryIsListed(rows, n - 1, i);
    } else if MainId(rows[i][0].value) in MainIds(Mains(rows, i)) {
      k :| 0 <= k < |Mains(rows, i)| && MainId(Mains(rows, i)[k]) == MainId(rows[i][0].value);
    } else {
      k := |Mains(rows, i)|;
    }
  }

  lemma {:induction false} MainsAreDistinct(rows: seq<Row>, n: nat, j: nat, k: nat)
    requires n <= |rows| && j < k < |Mains(rows, n)|
    ensures MainId(Mains(rows, n)[j]) != MainId(Mains(rows, n)[k])
  {
    var earlier := Mains(rows, n - 1);
    if k < |earlier| {
      MainsAreDistinct(rows, n - 1, j, k);
    } else {
      assert Mains(rows, n)[j] == earlier[j] && earlier[j] in earlier;
    }
  }

  /** Every primary object of the rows comes out exactly once, also without an id, when it counts by its address. */
  lemma EveryPrimaryOnce(rows: seq<Row>, i: nat) returns (k: nat)
    requires i < |rows| && HasMain(rows[i])
    requires forall m :: m in Mains(rows, |rows|) ==> Apart(m, rows[i][0].value)
    ensures k < |Mains(rows, |rows|)|
    ensures forall j :: 0 <= j < |Mains(rows, |rows|)| ==>
      (SameObject(Mains(rows, |rows|)[j], rows[i][0].value) <==> j == k)
  {
    var mains, o := Mains(rows, |rows|), rows[i][0].value;
    k := PrimaryIsListed(rows, |rows|, i);
    forall j | 0 <= j < |mains| ensures SameObject(mains[j], o) <==> j == k {
      assert mains[j] in mains;
      assert MainId(mains[j]) == MainId(o) <==> SameObject(mains[j], o);
      if j < k {
        MainsAreDistinct(rows, |rows|, j, k);
      } else if k < j {
        MainsAreDistinct(rows, |rows|, k, j);
      }
    }
  }

  lemma MainIdsStep(rows: seq<Row>, n: nat)
    requires n < |rows|
    ensures var row, ids := rows[n], MainIds(Mains(rows, n));
      MainIds(Mains(rows, n + 1)) ==
      if HasMain(row) && MainId(row[0].value) !in ids then ids + {MainId(row[0].value)} else ids
  {
  }

  /** The top-level records of the primary objects met in the first n rows. */
  ghost function Records(ctx: Context, rank: string -> nat, primary: string, n: nat): seq<Nested>
    requires Ranked(ctx.rel, rank) && n <= |ctx.rows|
  {
    var mains := Mains(ctx.rows, n);
    seq(|mains|, i requires 0 <= i < |mains| =>
      Record(ctx, rank, MainId(mains[i]), primary, mains[i], MainId(mains[i])))
  }

  lemma RecordsStep(ctx: Context, rank: string -> nat, primary: string, n: nat)
    requires Ranked(ctx.rel, rank) && n < |ctx.rows|
    ensures var row, before := ctx.rows[n], Records(ctx, rank, primary, n);
      Records(ctx, rank, primary, n + 1) ==
      if HasMain(row) && MainId(row[0].value) !in MainIds(Mains(ctx.rows, n)) then
        before + [Record(ctx, rank, MainId(row[0].value), primary, row[0].value, MainId(row[0].value))]
      else before
  {
  }

  ghost function ContextOf(rows: seq<Row>, entries: seq<Entry>): Context {
    Context(rows, Declared(entries, |entries|), ColumnIndex(rows, |rows|))
  }

  /** What select_join_serialize returns; the flat mode, without relations, is only named. */
  ghost function Serialized(rows: seq<Row>, entries: seq<Entry>, rank: string -> nat): Output
    requires rows != [] ==> rows[0] != []
    requires Ranked(ContextOf(rows, entries).rel, rank)
  {
    if rows == [] || rows[0][0].None? then Nothing
    else if ContextOf(rows, entries).rel.graph == map[] then Flat
    else
      var records := Records(ContextOf(rows, entries), rank, rows[0][0].value.model, |rows|);
      if |records| == 1 then One(records[0]) else All(records)
  }

  /** The results are the records of the first n rows, and their ids are marked. */
  ghost predicate Built(ctx: Context, rank: string -> nat, primary: string, results: seq<Nested>, processed: set<int>,
                        n: nat)
    requires Ranked(ctx.rel, rank) && n <= |ctx.rows|
  {
    results == Records(ctx, rank, primary, n) && processed == MainIds(Mains(ctx.rows, n))
  }

  method BuildRecords(ctx: Context, hierarchy: map<Place, seq<Obj>>, ghost rank: string -> nat, primary: string)
    returns (results: seq<Nested>)
    requires Ranked(ctx.rel, rank) && Indexed(ctx, hierarchy)
    ensures results == Records(ctx, rank, primary, |ctx.rows|)
  {
    results := [];
    var processed: set<int> := {};
    for i := 0 to |ctx.rows|
      invariant Built(ctx, rank, primary, results, processed, i)
    {
      results, processed := BuildRecord(ctx, hierarchy, rank, primary, i, results, processed);
    }
  }

  /** The body of the loop: a primary object met for the first time gets its record. */
  method BuildRecord(ctx: Context, hierarchy: map<Place, seq<Obj>>, ghost rank: string -> nat, primary: string, i: nat,
                     before: seq<Nested>, seen: set<int>) returns (results: seq<Nested>, processed: set<int>)
    requires Ranked(ctx.rel, rank) && Indexed(ctx, hierarchy) && i < |ctx.rows|
    requires Built(ctx, rank, primary, before, seen, i)
    ensures Built(ctx, rank, primary, results, processed, i + 1)
  {
    var row := ctx.rows[i];
    RecordsStep(ctx, rank, primary, i);
    MainIdsStep(ctx.rows, i);
    results, processed := before, seen;
    if HasMain(row) && MainId(row[0].value) !in seen {
      var main := row[0].value;
      processed := seen + {MainId(main)};
      var data := BuildFields(ctx, hierarchy, rank, MainId(main), primary, main, MainId(main));
      results := before + [Nested(main, data)];
    }
  }

  method SelectJoinSerialize(rows: seq<Row>, relationships: seq<string>, ghost rank: string -> nat)
    returns (out: Output)
    requires rows != [] ==> rows[0] != []
    requires Ranked(ContextOf(rows, Entries(relationships)).rel, rank)
    ensures out == Serialized(rows, Entries(relationships), rank)
  {
    if rows == [] {
      return Nothing;
    }
    if rows[0][0].None? {
      return Nothing;
    }
    var primary := rows[0][0].value.model;
    var rel := ParseRelationships(relationships);
    if rel.graph == map[] {
      return Flat;
    }
    var clsIdx := IndexColumns(rows);
    var ctx := Context(rows, rel, clsIdx);
    var hierarchy := BuildHierarchy(ctx);
    var results := BuildRecords(ctx, hierarchy, rank, primary);
    out := if |results| == 1 then One(results[0]) else All(results);
  }
}
