/**
 * Nesting undoes the join: on the rows of an outer join, the records rebuilt by
 * JoinNesting hold exactly the associated objects, at every depth.
 */
module OuterJoin {
  import opened Wrappers
  import opened RelationText
  import opened JoinNesting

  /**
   * A query: one type per column (column 0 is the primary type), the relations,
   * the primary objects, and the association tables as the objects of a type
   * that belong to a parent id.
   */
  datatype Query = Query(
    layout: seq<string>,
    rel: Relations,
    primaries: set<Obj>,
    kids: (string, int) -> set<Obj>)
  {
    ghost function Kids(model: string, parent: int): set<Obj> {
      kids(model, parent)
    }

    ghost predicate Distinct() {
      forall i, j :: 0 <= i < j < |layout| ==> layout[i] != layout[j]
    }

    ghost predicate IsParentColumn(p: nat, k: nat) {
      p < k < |layout| && layout[k] in rel.reverse && layout[p] == rel.reverse[layout[k]]
    }

    ghost predicate HasParentColumn(k: nat) {
      exists p: nat :: IsParentColumn(p, k)
    }

    /** Every joined type has its single source type in an earlier column. */
    ghost predicate SourcesFirst() {
      forall k: nat {:trigger HasParentColumn(k)} :: 1 <= k < |layout| ==> HasParentColumn(k)
    }

    ghost predicate EdgeJoined(c: nat, i: nat)
      requires c < |layout| && i < |Edges(rel, layout[c])|
    {
      var e := Edges(rel, layout[c])[i];
      e.dst in layout[1..] && e.dst in rel.reverse && rel.reverse[e.dst] == layout[c]
    }

    /** Every relation between joined types is joined, and is the only one into its target. */
    ghost predicate RelationsJoined() {
      forall c: nat, i: nat {:trigger EdgeJoined(c, i)} ::
        c < |layout| && i < |Edges(rel, layout[c])| ==> EdgeJoined(c, i)
    }

    /** The object has the type and a positive id. */
    ghost predicate Keyed(o: Obj, model: string) {
      o.model == model && o.id.Some? && o.id.value > 0
    }

    ghost predicate KidKeyed(model: string, parent: int, o: Obj) {
      o in Kids(model, parent) ==> Keyed(o, model)
    }

    ghost predicate KidsAgree(model: string, a: int, o: Obj, b: int, x: Obj) {
      o in Kids(model, a) && x in Kids(model, b) && o.id == x.id ==> o == x
    }

    /** Ids are positive and identify an object among those of its type. */
    ghost predicate ObjectsKeyed()
      requires |layout| > 0
    {
      && (forall o {:trigger Keyed(o, layout[0])} :: o in primaries ==> Keyed(o, layout[0]))
      && (forall o, x :: o in primaries && x in primaries && o.id == x.id ==> o == x)
      && (forall t, pk, o {:trigger KidKeyed(t, pk, o)} :: KidKeyed(t, pk, o))
      && (forall t, a, o, b, x {:trigger KidsAgree(t, a, o, b, x)} :: KidsAgree(t, a, o, b, x))
    }

    ghost predicate Valid() {
      |layout| > 0 && Distinct() && SourcesFirst() && RelationsJoined() && ObjectsKeyed()
    }

    ghost function ParentColumn(k: nat): (p: nat)
      requires SourcesFirst() && 1 <= k < |layout|
      ensures IsParentColumn(p, k)
    {
      assert HasParentColumn(k);
      var p: nat :| IsParentColumn(p, k);
      p
    }

    /** Column k holds nothing, or an object associated with the one in its parent column. */
    ghost predicate Joined(row: Row, k: nat)
      requires Valid() && 1 <= k < |layout| && k < |row|
    {
      row[k].Some? ==>
        var parent := row[ParentColumn(k)];
        parent.Some? && parent.value.id.Some? && row[k].value in Kids(layout[k], parent.value.id.value)
    }

    /** Column k is empty only when there is nothing to join. */
    ghost predicate Filled(row: Row, k: nat)
      requires Valid() && 1 <= k < |layout| && k < |row|
    {
      var parent := row[ParentColumn(k)];
      parent.Some? && parent.value.id.Some? && Kids(layout[k], parent.value.id.value) != {} ==> row[k].Some?
    }

    /** A row, or its first columns, that the join may produce. */
    ghost predicate Sound(row: Row)
      requires Valid()
    {
      && 0 < |row| <= |layout|
      && row[0].Some? && row[0].value in primaries
      && forall k :: 1 <= k < |row| ==> Joined(row, k)
    }

    /** A row, or its first columns, that uses an association wherever there is one. */
    ghost predicate Full(row: Row)
      requires Valid()
    {
      Sound(row) && forall k :: 1 <= k < |row| ==> Filled(row, k)
    }

    /**
     * The rows of the outer join: every row is sound, every full row appears.
     * Further sound rows, such as the empty ones a dangling association row
     * yields, and repetitions are allowed.
     */
    ghost predicate Produces(rows: seq<Row>)
      requires Valid()
    {
      && (forall i :: 0 <= i < |rows| ==> Sound(rows[i]) && |rows[i]| == |layout|)
      && (forall row :: Full(row) && |row| == |layout| ==> row in rows)
    }
  }

  // ---------------------------------------------------------------- what the records must hold

  /** A relation whose key no later relation of the same type takes over. */
  ghost predicate OwnsKey(rel: Relations, model: string, i: nat)
    requires i < |Edges(rel, model)|
  {
    forall j :: i < j < |Edges(rel, model)| ==>
      KeyOf(rel, model, Edges(rel, model)[j]) != KeyOf(rel, model, Edges(rel, model)[i])
  }

  ghost predicate IsKey(rel: Relations, model: string, name: string) {
    exists i :: 0 <= i < |Edges(rel, model)| && KeyOf(rel, model, Edges(rel, model)[i]) == name
  }

  /** The records list the given objects, each once. */
  ghost predicate Lists(items: seq<Nested>, objs: set<Obj>) {
    && (forall i :: 0 <= i < |items| ==> items[i].source in objs)
    && (forall o :: o in objs ==> exists i :: 0 <= i < |items| && items[i].source == o)
    && (forall i, j :: 0 <= i < j < |items| ==> items[i].source != items[j].source)
  }

  /** A place in the output: the children from a column, of a parent id, under a primary id. */
  datatype Spot = Spot(main: int, column: nat, parent: int)

  ghost predicate IsSpot(q: Query, v: Spot) {
    q.Valid() && 1 <= v.column < |q.layout|
  }

  /** The row combines the primary object, the parent and the child. */
  ghost predicate Combines(q: Query, row: Row, v: Spot, child: Obj)
    requires IsSpot(q, v)
  {
    && |row| == |q.layout| && row[0].Some? && row[0].value.id == Some(v.main)
    && row[v.column] == Some(child)
    && var parent := row[q.ParentColumn(v.column)];
       parent.Some? && parent.value.id == Some(v.parent)
  }

  /** Row r is the first that shows the child at this place. */
  ghost predicate FirstShown(q: Query, rows: seq<Row>, v: Spot, r: int, child: Obj)
    requires IsSpot(q, v)
  {
    0 <= r < |rows| && Combines(q, rows[r], v, child) && forall s :: 0 <= s < r ==> !Combines(q, rows[s], v, child)
  }

  /** The objects are first shown in the given rows, which come in order. */
  ghost predicate ShownInOrder(q: Query, rows: seq<Row>, v: Spot, objs: seq<Obj>, firsts: seq<int>)
    requires IsSpot(q, v)
  {
    && |firsts| == |objs|
    && (forall i :: 0 <= i < |firsts| ==> FirstShown(q, rows, v, firsts[i], objs[i]))
    && (forall i, j :: 0 <= i < j < |firsts| ==> firsts[i] < firsts[j])
  }

  ghost predicate InRowOrder(q: Query, rows: seq<Row>, v: Spot, objs: seq<Obj>)
    requires IsSpot(q, v)
  {
    exists firsts :: ShownInOrder(q, rows, v, objs, firsts)
  }

  /** The object is shown at this place, and no other earlier. */
  ghost predicate ShownFirst(q: Query, rows: seq<Row>, v: Spot, o: Obj)
    requires IsSpot(q, v)
  {
    exists r :: FirstShown(q, rows, v, r, o) && forall s, x :: 0 <= s < r ==> !Combines(q, rows[s], v, x)
  }

  ghost function Sources(records: seq<Nested>): seq<Obj> {
    seq(|records|, i requires 0 <= i < |records| => records[i].source)
  }

  /**
   * A record shows its object's columns and, under every relation, exactly the
   * associated objects, in the order in which the rows first show them.
   */
  ghost predicate Shows(q: Query, rows: seq<Row>, main: int, n: Nested)
    requires q.Valid()
    decreases n
  {
    var o := n.source;
    var edges := Edges(q.rel, o.model);
    && o.id.Some?
    && (forall name :: name in n.data <==> name in o.columns || IsKey(q.rel, o.model, name))
    && (forall c :: c in o.columns && !IsKey(q.rel, o.model, c) ==> n.data[c] == Column(o.columns[c]))
    && (forall i {:trigger OwnsKey(q.rel, o.model, i)} :: 0 <= i < |edges| && OwnsKey(q.rel, o.model, i) ==>
         var key := KeyOf(q.rel, o.model, edges[i]);
         key in n.data && FieldShows(q, rows, main, o.id.value, n.data[key], edges[i]))
  }

  ghost predicate FieldShows(q: Query, rows: seq<Row>, main: int, parent: int, f: Field, e: Edge)
    requires q.Valid()
    decreases f
  {
    var objs := q.Kids(e.dst, parent);
    if IsList(e.kind) then
      && f.Many? && Lists(f.items, objs)
      && (forall k :: 1 <= k < |q.layout| && q.layout[k] == e.dst ==>
           InRowOrder(q, rows, Spot(main, k, parent), Sources(f.items)))
      && forall i :: 0 <= i < |f.items| ==> Shows(q, rows, main, f.items[i])
    else
      && f.Single?
      && (f.item.None? <==> objs == {})
      && (f.item.Some? ==>
           && f.item.value.source in objs && Shows(q, rows, main, f.item.value)
           && forall k :: 1 <= k < |q.layout| && q.layout[k] == e.dst ==>
                ShownFirst(q, rows, Spot(main, k, parent), f.item.value.source))
  }

  // ---------------------------------------------------------------- completing a row

  /** Every full beginning of a row extends to a full row. */
  lemma {:induction false} Complete(q: Query, start: Row) returns (row: Row)
    requires q.Valid() && q.Full(start)
    ensures q.Full(row) && |row| == |q.layout| && start <= row
    decreases |q.layout| - |start|
  {
    if |start| == |q.layout| {
      row := start;
    } else {
      var k := |start|;
      var parent := start[q.ParentColumn(k)];
      var next: Option<Obj> := None;
      if parent.Some? && parent.value.id.Some? && q.Kids(q.layout[k], parent.value.id.value) != {} {
        var o :| o in q.Kids(q.layout[k], parent.value.id.value);
        next := Some(o);
      }
      ExtendFull(q, start, next);
      row := Complete(q, start + [next]);
    }
  }

  lemma ExtendColumn(q: Query, start: Row, next: Option<Obj>, k: nat)
    requires q.Valid() && q.Full(start) && |start| < |q.layout|
    requires 1 <= k < |start|
    ensures q.Joined(start + [next], k) && q.Filled(start + [next], k)
  {
    var row := start + [next];
    assert q.Joined(start, k) && q.Filled(start, k);
    assert row[..k + 1] == start[..k + 1];
  }

  ghost predicate ColumnsFit(q: Query, row: Row, n: nat)
    requires q.Valid() && n <= |row| <= |q.layout|
  {
    forall k :: 1 <= k < n ==> q.Joined(row, k) && q.Filled(row, k)
  }

  lemma ExtendColumns(q: Query, start: Row, next: Option<Obj>)
    requires q.Valid() && q.Full(start) && |start| < |q.layout|
    ensures ColumnsFit(q, start + [next], |start|)
  {
    forall k | 1 <= k < |start| ensures q.Joined(start + [next], k) && q.Filled(start + [next], k) {
      ExtendColumn(q, start, next, k);
    }
  }

  lemma ExtendFull(q: Query, start: Row, next: Option<Obj>)
    requires q.Valid() && q.Full(start) && |start| < |q.layout|
    requires q.Joined(start + [next], |start|) && q.Filled(start + [next], |start|)
    ensures q.Full(start + [next])
  {
    ExtendColumns(q, start, next);
    assert (start + [next])[0] == start[0];
  }

  lemma PrefixFull(q: Query, row: Row, n: nat)
    requires q.Valid() && q.Full(row) && 0 < n <= |row|
    ensures q.Full(row[..n])
  {
    forall k | 1 <= k < n ensures q.Joined(row[..n], k) && q.Filled(row[..n], k) {
      assert q.Joined(row, k) && q.Filled(row, k);
      assert row[..n][..k + 1] == row[..k + 1];
    }
  }

  /** Any association of an object in a full row is used by some full row with the same object. */
  lemma Choose(q: Query, row: Row, c: nat, k: nat, o: Obj, child: Obj) returns (other: Row)
    requires q.Valid() && q.Full(row) && |row| == |q.layout|
    requires 1 <= k < |q.layout| && c == q.ParentColumn(k)
    requires row[c] == Some(o) && o.id.Some? && child in q.Kids(q.layout[k], o.id.value)
    ensures q.Full(other) && |other| == |q.layout|
    ensures other[0] == row[0] && other[c] == Some(o) && other[k] == Some(child)
  {
    PrefixFull(q, row, k);
    ExtendFull(q, row[..k], Some(child));
    other := Complete(q, row[..k] + [Some(child)]);
    assert other[k] == (row[..k] + [Some(child)])[k];
    assert other[c] == (row[..k] + [Some(child)])[c];
    assert other[0] == (row[..k] + [Some(child)])[0];
  }

  // ---------------------------------------------------------------- every query has join rows

  /** What the join may put in the next column of a row. */
  ghost function Options(q: Query, start: Row): set<Option<Obj>>
    requires q.Valid() && 1 <= |start| < |q.layout|
  {
    var parent := start[q.ParentColumn(|start|)];
    if parent.Some? && parent.value.id.Some? && q.Kids(q.layout[|start|], parent.value.id.value) != {} then
      set o | o in q.Kids(q.layout[|start|], parent.value.id.value) :: Some(o)
    else {None}
  }

  lemma OptionsFit(q: Query, start: Row, next: Option<Obj>)
    requires q.Valid() && 1 <= |start| < |q.layout|
    ensures next in Options(q, start) <==>
      q.Joined(start + [next], |start|) && q.Filled(start + [next], |start|)
  {
    var row, p := start + [next], q.ParentColumn(|start|);
    assert row[p] == start[p] && row[|start|] == next;
  }

  /** All full beginnings of n columns. */
  ghost function FullRows(q: Query, n: nat): set<Row>
    requires q.Valid() && 1 <= n <= |q.layout|
    ensures forall r :: r in FullRows(q, n) ==> |r| == n
  {
    if n == 1 then set p | p in q.primaries :: [Some(p)]
    else set r, x | r in FullRows(q, n - 1) && x in Options(q, r) :: r + [x]
  }

  lemma {:induction false} FullRowsAreFull(q: Query, n: nat, row: Row)
    requires q.Valid() && 1 <= n <= |q.layout|
    ensures row in FullRows(q, n) <==> q.Full(row) && |row| == n
  {
    if n > 1 {
      if row in FullRows(q, n) {
        var r, x :| r in FullRows(q, n - 1) && x in Options(q, r) && row == r + [x];
        FullRowsAreFull(q, n - 1, r);
        OptionsFit(q, r, x);
        ExtendFull(q, r, x);
      }
      if q.Full(row) && |row| == n {
        var r, x := row[..n - 1], row[n - 1];
        assert row == r + [x];
        PrefixFull(q, row, n - 1);
        FullRowsAreFull(q, n - 1, r);
        assert q.Joined(row, n - 1) && q.Filled(row, n - 1);
        OptionsFit(q, r, x);
      }
    } else if q.Full(row) && |row| == 1 {
      assert row == [Some(row[0].value)];
    }
  }

  lemma {:induction false} Listed(s: set<Row>) returns (list: seq<Row>)
    ensures forall x :: x in list <==> x in s
    decreases s
  {
    if s == {} {
      list := [];
    } else {
      var x :| x in s;
      var rest := Listed(s - {x});
      list := [x] + rest;
    }
  }

  /** Every query has rows that its join may produce. */
  lemma JoinRowsExist(q: Query) returns (rows: seq<Row>)
    requires q.Valid()
    ensures q.Produces(rows)
  {
    var all := FullRows(q, |q.layout|);
    rows := Listed(all);
    forall row: Row ensures row in rows <==> q.Full(row) && |row| == |q.layout| {
      assert row in rows <==> row in all;
      FullRowsAreFull(q, |q.layout|, row);
    }
    forall i | 0 <= i < |rows| ensures q.Sound(rows[i]) && |rows[i]| == |q.layout| {
      assert rows[i] in rows;
    }
  }

  // ---------------------------------------------------------------- the index on join rows

  lemma JoinedIsKeyed(q: Query, row: Row, k: nat)
    requires q.Valid() && 1 <= k < |q.layout| && k < |row| && q.Joined(row, k) && row[k].Some?
    ensures q.Keyed(row[k].value, q.layout[k])
  {
    var parent := row[q.ParentColumn(k)];
    assert q.KidKeyed(q.layout[k], parent.value.id.value, row[k].value);
  }

  ghost predicate Typed(q: Query, rows: seq<Row>) {
    forall i, k :: 0 <= i < |rows| && 0 <= k < |rows[i]| ==>
      |rows[i]| == |q.layout| && (rows[i][k].Some? ==> rows[i][k].value.model == q.layout[k])
  }

  lemma ProducedRowsAreTyped(q: Query, rows: seq<Row>)
    requires q.Valid() && q.Produces(rows)
    ensures Typed(q, rows)
  {
    forall i, k | 0 <= i < |rows| && 0 <= k < |rows[i]| && rows[i][k].Some?
      ensures rows[i][k].value.model == q.layout[k]
    {
      assert q.Sound(rows[i]);
      if k > 0 {
        assert q.Joined(rows[i], k);
        JoinedIsKeyed(q, rows[i], k);
      } else {
        assert q.Keyed(rows[i][0].value, q.layout[0]);
      }
    }
  }

  ghost predicate Indexes(q: Query, m: map<string, nat>) {
    forall t :: t in m ==> m[t] < |q.layout| && q.layout[m[t]] == t
  }

  lemma {:induction false} RowColumnsIndex(q: Query, known: map<string, nat>, row: Row, k: nat)
    requires q.Distinct() && Indexes(q, known) && k <= |row| == |q.layout|
    requires forall j :: 0 <= j < |row| && row[j].Some? ==> row[j].value.model == q.layout[j]
    ensures Indexes(q, RowColumns(known, row, k))
    ensures known.Keys <= RowColumns(known, row, k).Keys
    ensures forall j :: 0 <= j < k && row[j].Some? ==> q.layout[j] in RowColumns(known, row, k)
  {
    if k > 0 {
      RowColumnsIndex(q, known, row, k - 1);
    }
  }

  lemma {:induction false} ColumnIndexFindsColumns(q: Query, rows: seq<Row>, n: nat)
    requires q.Distinct() && Typed(q, rows) && n <= |rows|
    requires forall i :: 0 <= i < |rows| ==> |rows[i]| == |q.layout|
    ensures Indexes(q, ColumnIndex(rows, n))
    ensures forall i, j :: 0 <= i < n && 0 <= j < |rows[i]| && rows[i][j].Some? ==> q.layout[j] in ColumnIndex(rows, n)
  {
    if n > 0 {
      ColumnIndexFindsColumns(q, rows, n - 1);
      RowColumnsIndex(q, ColumnIndex(rows, n - 1), rows[n - 1], |rows[n - 1]|);
    }
  }

  ghost predicate Serves(q: Query, ctx: Context) {
    q.Valid() && q.Produces(ctx.rows) && ctx.rel == q.rel && ctx.clsIdx == ColumnIndex(ctx.rows, |ctx.rows|)
  }

  /** A join row: its primary object, and the parent of the object in column k. */
  lemma JoinRow(q: Query, rows: seq<Row>, i: nat, k: nat)
    requires q.Valid() && q.Produces(rows) && i < |rows| && 1 <= k < |q.layout| && |rows[i]| == |q.layout|
    requires rows[i][k].Some?
    ensures var row := rows[i];
      var parent := row[q.ParentColumn(k)];
      && HasMain(row) && row[0].value.id.Some? && MainId(row[0].value) == row[0].value.id.value
      && parent.Some? && parent.value.id.Some?
      && row[k].value in q.Kids(q.layout[k], parent.value.id.value) && row[k].value.model == q.layout[k]
  {
    assert q.Sound(rows[i]);
    assert q.Joined(rows[i], k);
    JoinedIsKeyed(q, rows[i], k);
    assert q.Keyed(rows[i][0].value, q.layout[0]);
  }

  /** The index finds the parent column. */
  lemma IndexFindsParent(q: Query, ctx: Context, i: nat, k: nat)
    requires Serves(q, ctx) && i < |ctx.rows| && 1 <= k < |q.layout| && |ctx.rows[i]| == |q.layout|
    requires ctx.rows[i][q.ParentColumn(k)].Some?
    ensures q.layout[k] in ctx.rel.reverse
    ensures var t := ctx.rel.reverse[q.layout[k]]; t in ctx.clsIdx && ctx.clsIdx[t] == q.ParentColumn(k)
  {
    ProducedRowsAreTyped(q, ctx.rows);
    ColumnIndexFindsColumns(q, ctx.rows, |ctx.rows|);
  }

  /** In a join row an object is filed under its primary object and its parent's id. */
  lemma PlaceInJoin(q: Query, ctx: Context, i: nat, k: nat)
    requires Serves(q, ctx) && i < |ctx.rows| && 1 <= k < |q.layout| && |ctx.rows[i]| == |q.layout|
    requires ctx.rows[i][k].Some?
    ensures var row := ctx.rows[i];
      var parent := row[q.ParentColumn(k)];
      && HasMain(row) && row[0].value.id.Some? && parent.Some? && parent.value.id.Some?
      && PlaceOf(ctx, row, k) == Some(Place(row[0].value.id.value, q.layout[k], parent.value.id.value))
  {
    JoinRow(q, ctx.rows, i, k);
    IndexFindsParent(q, ctx, i, k);
  }

  /** What row i contributes to a place in the output: the object of its column, if the row combines them. */
  ghost function RowKids(q: Query, row: Row, v: Spot): seq<Obj>
    requires IsSpot(q, v) && |row| == |q.layout|
  {
    if row[v.column].Some? && Combines(q, row, v, row[v.column].value) then [row[v.column].value] else []
  }

  ghost function PlaceAt(q: Query, v: Spot): Place
    requires IsSpot(q, v)
  {
    Place(v.main, q.layout[v.column], v.parent)
  }

  lemma ContributionInJoin(q: Query, ctx: Context, i: nat, v: Spot, j: nat)
    requires Serves(q, ctx) && IsSpot(q, v) && i < |ctx.rows| && 1 <= j < |q.layout|
    requires |ctx.rows[i]| == |q.layout| && HasMain(ctx.rows[i])
    ensures Contribution(ctx, ctx.rows[i], j, PlaceAt(q, v)) == if j == v.column then RowKids(q, ctx.rows[i], v) else []
  {
    if ctx.rows[i][j].Some? {
      PlaceInJoin(q, ctx, i, j);
    }
  }

  /** Only column c of the row contributes to the place. */
  ghost predicate OnlyFrom(ctx: Context, row: Row, place: Place, c: nat, objs: seq<Obj>)
    requires HasMain(row)
  {
    forall j {:trigger Contribution(ctx, row, j, place)} :: 1 <= j < |row| ==>
      Contribution(ctx, row, j, place) == if j == c then objs else []
  }

  lemma {:induction false} RowBucketFromOne(ctx: Context, row: Row, place: Place, c: nat, objs: seq<Obj>, n: nat)
    requires HasMain(row) && 1 <= c && 1 <= n <= |row| && OnlyFrom(ctx, row, place, c, objs)
    ensures RowBucket(ctx, row, n, place) == if n > c then objs else []
  {
    if n > 1 {
      RowBucketFromOne(ctx, row, place, c, objs, n - 1);
      RowBucketStep(ctx, row, n - 1, place);
    }
  }

  lemma RowBucketInJoin(q: Query, ctx: Context, i: nat, v: Spot)
    requires Serves(q, ctx) && IsSpot(q, v) && i < |ctx.rows|
    requires |ctx.rows[i]| == |q.layout| && HasMain(ctx.rows[i])
    ensures RowBucket(ctx, ctx.rows[i], |q.layout|, PlaceAt(q, v)) == RowKids(q, ctx.rows[i], v)
  {
    var row, place, objs := ctx.rows[i], PlaceAt(q, v), RowKids(q, ctx.rows[i], v);
    forall j | 1 <= j < |row| ensures Contribution(ctx, row, j, place) == if j == v.column then objs else [] {
      ContributionInJoin(q, ctx, i, v, j);
    }
    RowBucketFromOne(ctx, row, place, v.column, objs, |row|);
  }

  lemma BucketNext(q: Query, ctx: Context, v: Spot, n: nat)
    requires Serves(q, ctx) && IsSpot(q, v) && n < |ctx.rows|
    ensures |ctx.rows[n]| == |q.layout|
    ensures Bucket(ctx, n + 1, PlaceAt(q, v)) == Bucket(ctx, n, PlaceAt(q, v)) + RowKids(q, ctx.rows[n], v)
  {
    assert q.Sound(ctx.rows[n]);
    RowBucketInJoin(q, ctx, n, v);
  }

  /** The objects come from the given rows among the first n, all that combine the place, in order. */
  ghost predicate ComesFrom(q: Query, rows: seq<Row>, v: Spot, n: nat, objs: seq<Obj>, at: seq<int>)
    requires IsSpot(q, v) && n <= |rows|
  {
    && |at| == |objs|
    && (forall i :: 0 <= i < |at| ==> 0 <= at[i] < n && Combines(q, rows[at[i]], v, objs[i]))
    && (forall i, j :: 0 <= i < j < |at| ==> at[i] < at[j])
    && (forall r, x :: 0 <= r < n && Combines(q, rows[r], v, x) ==> r in at)
  }

  lemma {:induction false} BucketComesFrom(q: Query, ctx: Context, v: Spot, n: nat) returns (at: seq<int>)
    requires Serves(q, ctx) && IsSpot(q, v) && n <= |ctx.rows|
    ensures ComesFrom(q, ctx.rows, v, n, Bucket(ctx, n, PlaceAt(q, v)), at)
  {
    if n == 0 {
      at := [];
    } else {
      var before := BucketComesFrom(q, ctx, v, n - 1);
      at := BucketComesNext(q, ctx, v, n - 1, before);
    }
  }

  lemma BucketComesNext(q: Query, ctx: Context, v: Spot, n: nat, before: seq<int>) returns (at: seq<int>)
    requires Serves(q, ctx) && IsSpot(q, v) && n < |ctx.rows|
    requires ComesFrom(q, ctx.rows, v, n, Bucket(ctx, n, PlaceAt(q, v)), before)
    ensures ComesFrom(q, ctx.rows, v, n + 1, Bucket(ctx, n + 1, PlaceAt(q, v)), at)
  {
    BucketNext(q, ctx, v, n);
    at := before + if RowKids(q, ctx.rows[n], v) == [] then [] else [n];
    ComesFromNext(q, ctx.rows, v, n, Bucket(ctx, n, PlaceAt(q, v)), before, at);
  }

  lemma ComesFromNext(q: Query, rows: seq<Row>, v: Spot, n: nat, objs: seq<Obj>, before: seq<int>, at: seq<int>)
    requires IsSpot(q, v) && n < |rows| && |rows[n]| == |q.layout| && ComesFrom(q, rows, v, n, objs, before)
    requires at == before + if RowKids(q, rows[n], v) == [] then [] else [n]
    ensures ComesFrom(q, rows, v, n + 1, objs + RowKids(q, rows[n], v), at)
  {
    var more := objs + RowKids(q, rows[n], v);
    forall i | 0 <= i < |at| ensures 0 <= at[i] < n + 1 && Combines(q, rows[at[i]], v, more[i]) {
      if i < |before| {
        assert at[i] == before[i] && more[i] == objs[i];
      }
    }
    forall r, x | 0 <= r < n + 1 && Combines(q, rows[r], v, x) ensures r in at {
      if r < n {
        assert r in before;
      } else {
        assert at[|before|] == n;
      }
    }
  }

  /** A full row in which column c holds o: o is reachable from its primary object. */
  ghost predicate Reaches(q: Query, row: Row, c: nat, o: Obj)
    requires q.Valid()
  {
    q.Full(row) && |row| == |q.layout| && c < |row| && row[c] == Some(o)
  }

  /** Whatever the index holds under a parent id is associated with that id. */
  lemma BucketSound(q: Query, ctx: Context, v: Spot, x: Obj)
    requires Serves(q, ctx) && IsSpot(q, v) && x in Bucket(ctx, |ctx.rows|, PlaceAt(q, v))
    ensures x in q.Kids(q.layout[v.column], v.parent)
  {
    var bucket := Bucket(ctx, |ctx.rows|, PlaceAt(q, v));
    var at := BucketComesFrom(q, ctx, v, |ctx.rows|);
    var i :| 0 <= i < |bucket| && bucket[i] == x;
    assert Combines(q, ctx.rows[at[i]], v, x);
    JoinRow(q, ctx.rows, at[i], v.column);
  }

  /** Whatever is associated with a reachable parent is in the index. */
  lemma BucketComplete(q: Query, ctx: Context, row: Row, c: nat, o: Obj, k: nat, x: Obj)
    requires Serves(q, ctx) && Reaches(q, row, c, o) && row[0].value.id.Some? && o.id.Some?
    requires 1 <= k < |q.layout| && c == q.ParentColumn(k) && x in q.Kids(q.layout[k], o.id.value)
    ensures x in Bucket(ctx, |ctx.rows|, Place(row[0].value.id.value, q.layout[k], o.id.value))
  {
    var v := Spot(row[0].value.id.value, k, o.id.value);
    var other := Choose(q, row, c, k, o, x);
    assert other in ctx.rows;
    var r :| 0 <= r < |ctx.rows| && ctx.rows[r] == other;
    assert Combines(q, ctx.rows[r], v, x);
    var at := BucketComesFrom(q, ctx, v, |ctx.rows|);
    var i :| 0 <= i < |at| && at[i] == r;
    assert Combines(q, ctx.rows[at[i]], v, Bucket(ctx, |ctx.rows|, PlaceAt(q, v))[i]);
  }

  /** De-duplication leaves the objects in the order in which the rows first show them. */
  lemma ChildrenInRowOrder(q: Query, ctx: Context, v: Spot)
    requires Serves(q, ctx) && IsSpot(q, v)
    ensures InRowOrder(q, ctx.rows, v, ChildObjects(ctx, v.main, q.layout[v.column], v.parent))
  {
    var bucket := Bucket(ctx, |ctx.rows|, PlaceAt(q, v));
    var at := BucketComesFrom(q, ctx, v, |ctx.rows|);
    var picks := DedupeInOrder(bucket, |bucket|);
    PicksInOrder(q, ctx.rows, v, bucket, at, Dedupe(bucket, |bucket|), picks);
  }

  lemma PicksInOrder(q: Query, rows: seq<Row>, v: Spot, bucket: seq<Obj>, at: seq<int>, objs: seq<Obj>, picks: seq<int>)
    requires IsSpot(q, v) && ComesFrom(q, rows, v, |rows|, bucket, at)
    requires FirstsInOrder(bucket, objs, picks, |bucket|)
    ensures InRowOrder(q, rows, v, objs)
  {
    var firsts := seq(|objs|, i requires 0 <= i < |objs| && FirstWithId(bucket, picks[i], objs[i]) => at[picks[i]]);
    forall i | 0 <= i < |objs| ensures FirstShown(q, rows, v, firsts[i], objs[i]) {
    }
    assert ShownInOrder(q, rows, v, objs, firsts);
  }

  /** The first of all the objects at a place is shown before the others. */
  lemma FirstIsShownFirst(q: Query, rows: seq<Row>, v: Spot, objs: seq<Obj>)
    requires IsSpot(q, v) && q.Produces(rows) && InRowOrder(q, rows, v, objs) && objs != []
    requires forall x :: x in q.Kids(q.layout[v.column], v.parent) ==> x in objs
    ensures ShownFirst(q, rows, v, objs[0])
  {
    var firsts :| ShownInOrder(q, rows, v, objs, firsts);
    assert FirstShown(q, rows, v, firsts[0], objs[0]);
    forall s, x | 0 <= s < |rows| && Combines(q, rows[s], v, x) ensures firsts[0] <= s {
      JoinRow(q, rows, s, v.column);
      var i :| 0 <= i < |objs| && objs[i] == x;
      assert FirstShown(q, rows, v, firsts[i], x);
    }
  }

  lemma ReachedIsKeyed(q: Query, row: Row, c: nat, o: Obj)
    requires q.Valid() && Reaches(q, row, c, o)
    ensures q.Keyed(o, q.layout[c]) && q.Keyed(row[0].value, q.layout[0])
  {
    assert q.Keyed(row[0].value, q.layout[0]);
    if c > 0 {
      assert q.Joined(row, c);
      JoinedIsKeyed(q, row, c);
    }
  }

  /** De-duplication by id loses no associated object. */
  lemma KidIsKept(q: Query, ctx: Context, v: Spot, x: Obj)
    requires Serves(q, ctx) && IsSpot(q, v) && x in Bucket(ctx, |ctx.rows|, PlaceAt(q, v))
    ensures x in ChildObjects(ctx, v.main, q.layout[v.column], v.parent)
  {
    var bucket := Bucket(ctx, |ctx.rows|, PlaceAt(q, v));
    BucketSound(q, ctx, v, x);
    assert q.KidKeyed(q.layout[v.column], v.parent, x);
    var y := KeptWithId(bucket, x);
    BucketSound(q, ctx, v, y);
    assert q.KidsAgree(q.layout[v.column], v.parent, x, v.parent, y);
  }

  lemma KeptWithId(objs: seq<Obj>, x: Obj) returns (y: Obj)
    requires x in objs && x.id.Some?
    ensures y in objs && y in Dedupe(objs, |objs|) && y.id == x.id
  {
    DedupeKeepsEachIdOnce(objs, |objs|);
    assert objs[..|objs|] == objs;
    y :| y in Dedupe(objs, |objs|) && y.id == x.id;
  }

  /** The index holds, for a reachable parent, exactly its associated objects, each once. */
  lemma ChildObjectsAreKids(q: Query, ctx: Context, row: Row, c: nat, o: Obj, k: nat)
    requires Serves(q, ctx) && Reaches(q, row, c, o) && row[0].value.id.Some? && o.id.Some?
    requires 1 <= k < |q.layout| && c == q.ParentColumn(k)
    ensures var objs := ChildObjects(ctx, row[0].value.id.value, q.layout[k], o.id.value);
      && (forall x :: x in objs <==> x in q.Kids(q.layout[k], o.id.value))
      && (forall i, j :: 0 <= i < j < |objs| ==> objs[i] != objs[j])
  {
    var v := Spot(row[0].value.id.value, k, o.id.value);
    var bucket := Bucket(ctx, |ctx.rows|, PlaceAt(q, v));
    DedupeKeepsEachIdOnce(bucket, |bucket|);
    assert bucket[..|bucket|] == bucket;
    forall x | x in Dedupe(bucket, |bucket|) ensures x in q.Kids(q.layout[k], v.parent) {
      BucketSound(q, ctx, v, x);
    }
    forall x | x in q.Kids(q.layout[k], v.parent) ensures x in Dedupe(bucket, |bucket|) {
      BucketComplete(q, ctx, row, c, o, k, x);
      KidIsKept(q, ctx, v, x);
    }
  }

  // ---------------------------------------------------------------- the records

  /** The fields of a record are its columns, except where a relation takes the name over. */
  lemma FieldNames(ctx: Context, rank: string -> nat, main: int, model: string, o: Obj, pk: int, name: string)
    requires Ranked(ctx.rel, rank)
    ensures var data := Fields(ctx, rank, main, model, o, pk);
      && (name in data <==> name in o.columns || IsKey(ctx.rel, model, name))
      && (name in o.columns && !IsKey(ctx.rel, model, name) ==> data[name] == Column(o.columns[name]))
  {
    var keys, fields := KeysOf(ctx.rel, model), RelationFields(ctx, rank, main, model, pk);
    OverlayNames(ColumnFields(o), keys, fields, |keys|, name);
    KeyIsListed(ctx.rel, model, name);
  }

  lemma KeyIsListed(rel: Relations, model: string, name: string)
    ensures IsKey(rel, model, name) <==> name in KeysOf(rel, model)[..|KeysOf(rel, model)|]
  {
    var keys := KeysOf(rel, model);
    assert keys[..|keys|] == keys;
    if IsKey(rel, model, name) {
      var i :| 0 <= i < |keys| && KeyOf(rel, model, Edges(rel, model)[i]) == name;
      assert keys[i] == name;
    }
  }

  /** A relation that owns its key shows there. */
  lemma FieldOfOwner(ctx: Context, rank: string -> nat, main: int, model: string, o: Obj, pk: int, i: nat)
    requires Ranked(ctx.rel, rank) && i < |Edges(ctx.rel, model)| && OwnsKey(ctx.rel, model, i)
    ensures var data := Fields(ctx, rank, main, model, o, pk);
      var e := Edges(ctx.rel, model)[i];
      var key := KeyOf(ctx.rel, model, e);
      key in data && data[key] == FieldOf(e.kind, Children(ctx, rank, main, e.dst, pk))
  {
    var keys, fields := KeysOf(ctx.rel, model), RelationFields(ctx, rank, main, model, pk);
    OverlayOwner(ColumnFields(o), keys, fields, |keys|, i);
  }

  /** The record of a reachable object shows exactly its associations, at every depth. */
  lemma {:induction false} RecordShows(q: Query, ctx: Context, rank: string -> nat, row: Row, c: nat, o: Obj)
    requires Serves(q, ctx) && Ranked(q.rel, rank) && Reaches(q, row, c, o)
    ensures row[0].value.id.Some? && o.id.Some?
    ensures var main := row[0].value.id.value;
      Shows(q, ctx.rows, main, Record(ctx, rank, main, q.layout[c], o, o.id.value))
    decreases rank(q.layout[c]), 2
  {
    ReachedIsKeyed(q, row, c, o);
    var main, model, pk := row[0].value.id.value, q.layout[c], o.id.value;
    var record := Record(ctx, rank, main, model, o, pk);
    forall name
      ensures name in record.data <==> name in o.columns || IsKey(q.rel, model, name)
      ensures name in o.columns && !IsKey(q.rel, model, name) ==> record.data[name] == Column(o.columns[name])
    {
      FieldNames(ctx, rank, main, model, o, pk, name);
    }
    forall i {:trigger OwnsKey(q.rel, model, i)} | 0 <= i < |Edges(q.rel, model)| && OwnsKey(q.rel, model, i)
      ensures FieldHolds(q, ctx.rows, main, record, model, pk, i)
    {
      RelationShows(q, ctx, rank, row, c, o, i);
    }
  }

  ghost predicate FieldHolds(q: Query, rows: seq<Row>, main: int, record: Nested, model: string, pk: int, i: nat)
    requires q.Valid() && i < |Edges(q.rel, model)|
  {
    var e := Edges(q.rel, model)[i];
    var key := KeyOf(q.rel, model, e);
    key in record.data && FieldShows(q, rows, main, pk, record.data[key], e)
  }

  lemma {:induction false} RelationShows(q: Query, ctx: Context, rank: string -> nat, row: Row, c: nat, o: Obj, i: nat)
    requires Serves(q, ctx) && Ranked(q.rel, rank) && Reaches(q, row, c, o) && row[0].value.id.Some? && o.id.Some?
    requires i < |Edges(q.rel, q.layout[c])| && OwnsKey(q.rel, q.layout[c], i)
    ensures var main, model := row[0].value.id.value, q.layout[c];
      FieldHolds(q, ctx.rows, main, Record(ctx, rank, main, model, o, o.id.value), model, o.id.value, i)
    decreases rank(q.layout[c]), 1
  {
    var main, model, pk := row[0].value.id.value, q.layout[c], o.id.value;
    var e := Edges(q.rel, model)[i];
    assert q.EdgeJoined(c, i);
    var k :| 1 <= k < |q.layout| && q.layout[k] == e.dst;
    FieldOfOwner(ctx, rank, main, model, o, pk, i);
    ChildrenShow(q, ctx, rank, row, c, o, k);
    FieldFromItems(q, ctx.rows, Spot(main, k, pk), e, Children(ctx, rank, main, e.dst, pk));
  }

  /** The records list the objects associated at a place, in order, and show them. */
  ghost predicate ItemsShow(q: Query, rows: seq<Row>, v: Spot, items: seq<Nested>)
    requires IsSpot(q, v)
  {
    && Lists(items, q.Kids(q.layout[v.column], v.parent)) && InRowOrder(q, rows, v, Sources(items))
    && forall i :: 0 <= i < |items| ==> Shows(q, rows, v.main, items[i])
  }

  lemma FieldFromItems(q: Query, rows: seq<Row>, v: Spot, e: Edge, items: seq<Nested>)
    requires IsSpot(q, v) && q.Produces(rows) && q.layout[v.column] == e.dst && ItemsShow(q, rows, v, items)
    ensures FieldShows(q, rows, v.main, v.parent, FieldOf(e.kind, items), e)
  {
    var objs := q.Kids(e.dst, v.parent);
    forall k | 1 <= k < |q.layout| && q.layout[k] == e.dst ensures k == v.column {
    }
    if items != [] {
      forall x | x in objs ensures x in Sources(items) {
        var i :| 0 <= i < |items| && items[i].source == x;
        assert Sources(items)[i] == x;
      }
      FirstIsShownFirst(q, rows, v, Sources(items));
    }
  }

  lemma {:induction false} ChildrenShow(q: Query, ctx: Context, rank: string -> nat, row: Row, c: nat, o: Obj, k: nat)
    requires Serves(q, ctx) && Ranked(q.rel, rank) && Reaches(q, row, c, o) && row[0].value.id.Some? && o.id.Some?
    requires 1 <= k < |q.layout| && c == q.ParentColumn(k) && rank(q.layout[k]) < rank(q.layout[c])
    ensures var main, pk := row[0].value.id.value, o.id.value;
      ItemsShow(q, ctx.rows, Spot(main, k, pk), Children(ctx, rank, main, q.layout[k], pk))
    decreases rank(q.layout[k]), 3
  {
    var main, model, pk := row[0].value.id.value, q.layout[k], o.id.value;
    ChildObjectsAreKids(q, ctx, row, c, o, k);
    ChildrenInRowOrder(q, ctx, Spot(main, k, pk));
    var objs := ChildObjects(ctx, main, model, pk);
    var items := Children(ctx, rank, main, model, pk);
    forall i | 0 <= i < |items| ensures items[i].source == objs[i] && Shows(q, ctx.rows, main, items[i]) {
      assert objs[i] in objs;
      var other := Choose(q, row, c, k, o, objs[i]);
      RecordShows(q, ctx, rank, other, k, objs[i]);
    }
    assert Sources(items) == objs;
    ListsFromSources(items, objs, q.Kids(model, pk));
  }

  lemma ListsFromSources(items: seq<Nested>, objs: seq<Obj>, kids: set<Obj>)
    requires |items| == |objs| && forall i :: 0 <= i < |items| ==> items[i].source == objs[i]
    requires forall x :: x in objs <==> x in kids
    requires forall i, j :: 0 <= i < j < |objs| ==> objs[i] != objs[j]
    ensures Lists(items, kids)
  {
    forall i | 0 <= i < |items| ensures items[i].source in kids {
      assert objs[i] in objs;
    }
    forall x | x in kids ensures exists i :: 0 <= i < |items| && items[i].source == x {
      var i :| 0 <= i < |objs| && objs[i] == x;
      assert items[i].source == x;
    }
  }

  // ---------------------------------------------------------------- the primary objects

  /** Row r is the first whose primary object has m's id, and holds m itself. */
  ghost predicate FirstAt(rows: seq<Row>, r: int, m: Obj) {
    && 0 <= r < |rows| && HasMain(rows[r]) && rows[r][0] == Some(m)
    && forall s :: 0 <= s < r && HasMain(rows[s]) ==> MainId(rows[s][0].value) != MainId(m)
  }

  /** The objects first appear in the given rows, which come in order. */
  ghost predicate FirstAppearances(rows: seq<Row>, mains: seq<Obj>, firsts: seq<int>) {
    && |firsts| == |mains|
    && (forall i :: 0 <= i < |firsts| ==> FirstAt(rows, firsts[i], mains[i]))
    && (forall i, j :: 0 <= i < j < |firsts| ==> firsts[i] < firsts[j])
  }

  lemma {:induction false} EveryMainListed(rows: seq<Row>, n: nat, r: nat)
    requires r < n <= |rows| && HasMain(rows[r])
    ensures MainId(rows[r][0].value) in MainIds(Mains(rows, n))
  {
    if r < n - 1 {
      EveryMainListed(rows, n - 1, r);
    }
  }

  lemma AppearsNext(rows: seq<Row>, mains: seq<Obj>, firsts: seq<int>, r: nat)
    requires r < |rows| && HasMain(rows[r]) && FirstAppearances(rows, mains, firsts)
    requires forall i :: 0 <= i < |firsts| ==> firsts[i] < r
    requires forall s :: 0 <= s < r && HasMain(rows[s]) ==> MainId(rows[s][0].value) != MainId(rows[r][0].value)
    ensures FirstAppearances(rows, mains + [rows[r][0].value], firsts + [r])
  {
    assert FirstAt(rows, r, rows[r][0].value);
    var mains', firsts' := mains + [rows[r][0].value], firsts + [r];
    forall i | 0 <= i < |firsts'| ensures FirstAt(rows, firsts'[i], mains'[i]) {
      if i < |firsts| {
        assert FirstAt(rows, firsts[i], mains[i]);
      }
    }
  }

  lemma {:induction false} MainsInOrder(rows: seq<Row>, n: nat) returns (firsts: seq<int>)
    requires n <= |rows|
    ensures FirstAppearances(rows, Mains(rows, n), firsts)
    ensures forall i :: 0 <= i < |firsts| ==> firsts[i] < n
  {
    if n == 0 {
      firsts := [];
    } else {
      firsts := MainsInOrder(rows, n - 1);
      var earlier, row := Mains(rows, n - 1), rows[n - 1];
      if HasMain(row) && MainId(row[0].value) !in MainIds(earlier) {
        forall s | 0 <= s < n - 1 && HasMain(rows[s]) ensures MainId(rows[s][0].value) != MainId(row[0].value) {
          EveryMainListed(rows, n - 1, s);
        }
        AppearsNext(rows, earlier, firsts, n - 1);
        firsts := firsts + [n - 1];
        assert Mains(rows, n) == earlier + [row[0].value];
      } else {
        assert Mains(rows, n) == earlier;
      }
    }
  }

  lemma PrimariesReached(q: Query, rows: seq<Row>, p: Obj) returns (row: Row)
    requires q.Valid() && q.Produces(rows) && p in q.primaries
    ensures Reaches(q, row, 0, p) && row in rows
  {
    row := Complete(q, [Some(p)]);
    assert row[0] == [Some(p)][0];
  }

  /** On the rows of a join, the distinct primary objects are exactly the query's. */
  lemma MainsArePrimaries(q: Query, rows: seq<Row>, p: Obj)
    requires q.Valid() && q.Produces(rows)
    ensures p in Mains(rows, |rows|) <==> p in q.primaries
  {
    var mains := Mains(rows, |rows|);
    var firsts := MainsInOrder(rows, |rows|);
    forall m | m in mains ensures m in q.primaries {
      var i :| 0 <= i < |mains| && mains[i] == m;
      assert FirstAt(rows, firsts[i], m) && q.Sound(rows[firsts[i]]);
    }
    if p in q.primaries {
      var row := PrimariesReached(q, rows, p);
      var r :| 0 <= r < |rows| && rows[r] == row;
      EveryMainListed(rows, |rows|, r);
      var m :| m in mains && MainId(m) == MainId(p);
      assert q.Keyed(m, q.layout[0]) && q.Keyed(p, q.layout[0]);
    }
  }

  /** Every top-level record shows its primary object's associations. */
  lemma TopRecordShows(q: Query, ctx: Context, rank: string -> nat, p: Obj)
    requires Serves(q, ctx) && Ranked(q.rel, rank) && p in q.primaries
    ensures Shows(q, ctx.rows, MainId(p), Record(ctx, rank, MainId(p), q.layout[0], p, MainId(p)))
  {
    assert q.Keyed(p, q.layout[0]);
    var row := PrimariesReached(q, ctx.rows, p);
    RecordShows(q, ctx, rank, row, 0, p);
  }

  lemma FirstRowIsPrimary(q: Query, rows: seq<Row>)
    requires q.Valid() && q.Produces(rows) && q.primaries != {}
    ensures rows != [] && HasMain(rows[0]) && rows[0][0].value.model == q.layout[0]
  {
    var p :| p in q.primaries;
    var row := PrimariesReached(q, rows, p);
    assert q.Sound(rows[0]);
    assert q.Keyed(rows[0][0].value, q.layout[0]);
  }

  /**
   * Nesting undoes the join.  For an acyclic relation list with one source per
   * type, on the rows of the outer join of any association tables: the output
   * lists every primary object once, in order of first appearance, and every
   * record at every depth shows exactly the objects associated with it, in the
   * order in which the rows first show them.
   */
  lemma NestingUndoesJoin(q: Query, rows: seq<Row>, entries: seq<Entry>, rank: string -> nat)
    returns (records: seq<Nested>, firsts: seq<int>)
    requires q.Valid() && q.Produces(rows) && q.primaries != {}
    requires q.rel == Declared(entries, |entries|) && q.rel.graph != map[] && Ranked(q.rel, rank)
    ensures rows != [] && rows[0] != []
    ensures Serialized(rows, entries, rank) == if |records| == 1 then One(records[0]) else All(records)
    ensures Lists(records, q.primaries)
    ensures forall i :: 0 <= i < |records| ==> Shows(q, rows, MainId(records[i].source), records[i])
    ensures FirstAppearances(rows, Sources(records), firsts)
  {
    FirstRowIsPrimary(q, rows);
    records := Records(ContextOf(rows, entries), rank, q.layout[0], |rows|);
    firsts := MainsInOrder(rows, |rows|);
    RecordsListPrimaries(q, ContextOf(rows, entries), rank, records);
  }

  lemma RecordAt(q: Query, ctx: Context, rank: string -> nat, i: nat)
    requires Serves(q, ctx) && Ranked(q.rel, rank) && i < |Mains(ctx.rows, |ctx.rows|)|
    ensures var record := Records(ctx, rank, q.layout[0], |ctx.rows|)[i];
      record.source == Mains(ctx.rows, |ctx.rows|)[i] && Shows(q, ctx.rows, MainId(record.source), record)
  {
    var m := Mains(ctx.rows, |ctx.rows|)[i];
    assert m in Mains(ctx.rows, |ctx.rows|);
    MainsArePrimaries(q, ctx.rows, m);
    TopRecordShows(q, ctx, rank, m);
  }

  lemma RecordsListPrimaries(q: Query, ctx: Context, rank: string -> nat, records: seq<Nested>)
    requires Serves(q, ctx) && Ranked(q.rel, rank) && records == Records(ctx, rank, q.layout[0], |ctx.rows|)
    ensures Lists(records, q.primaries)
    ensures forall i :: 0 <= i < |records| ==> Shows(q, ctx.rows, MainId(records[i].source), records[i])
    ensures Sources(records) == Mains(ctx.rows, |ctx.rows|)
  {
    forall i | 0 <= i < |records|
      ensures Shows(q, ctx.rows, MainId(records[i].source), records[i])
      ensures records[i].source == Mains(ctx.rows, |ctx.rows|)[i]
    {
      RecordAt(q, ctx, rank, i);
    }
    forall p ensures p in Mains(ctx.rows, |ctx.rows|) <==> p in q.primaries {
      MainsArePrimaries(q, ctx.rows, p);
    }
    assert Sources(records) == Mains(ctx.rows, |ctx.rows|);
    MainsList(ctx.rows, records, q.primaries);
  }

  lemma MainsList(rows: seq<Row>, records: seq<Nested>, primaries: set<Obj>)
    requires Sources(records) == Mains(rows, |rows|) && forall p :: p in Mains(rows, |rows|) <==> p in primaries
    ensures Lists(records, primaries)
  {
    var mains := Mains(rows, |rows|);
    var firsts := MainsInOrder(rows, |rows|);
    MainsDiffer(rows, mains, firsts);
    assert forall i :: 0 <= i < |records| ==> records[i].source == Sources(records)[i];
    ListsFromSources(records, mains, primaries);
  }

  lemma MainsDiffer(rows: seq<Row>, mains: seq<Obj>, firsts: seq<int>)
    requires FirstAppearances(rows, mains, firsts)
    ensures forall i, j :: 0 <= i < j < |mains| ==> mains[i] != mains[j]
  {
    forall i, j | 0 <= i < j < |mains| ensures mains[i] != mains[j] {
      assert FirstAt(rows, firsts[i], mains[i]) && FirstAt(rows, firsts[j], mains[j]);
    }
  }
}
