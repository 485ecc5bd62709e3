/** What a list of builder calls means, and what the query they build returns. */
module QueryCalls {
  import opened Prelude
  import opened Schema
  import opened QueryPlan
  import opened QueryBuilder
  import opened EagerPlan
  import opened EagerJoin
  import opened EagerTheorems
  import EagerLoader

  // ----- the meaning of a list of calls -----

  /** Every predicate given, in order. */
  function Wheres(ops: seq<Op>): seq<Predicate> {
    if ops == [] then []
    else Wheres(ops[..|ops| - 1]) + if ops[|ops| - 1].Where? then ops[|ops| - 1].ps else []
  }

  /** Every order term given, in order. */
  function Terms(ops: seq<Op>): seq<OrderTerm> {
    if ops == [] then []
    else Terms(ops[..|ops| - 1]) + if ops[|ops| - 1].Order? then ops[|ops| - 1].terms else []
  }

  /** Every selected field, in order. */
  function Selected(ops: seq<Op>): seq<Column> {
    if ops == [] then []
    else Selected(ops[..|ops| - 1]) + if ops[|ops| - 1].Select? then ops[|ops| - 1].cs else []
  }

  function Limits(ops: seq<Op>): (r: seq<Option<int>>)
    ensures |r| == |ops|
  {
    seq(|ops|, k requires 0 <= k < |ops| => if ops[k].Limit? then Some(ops[k].n) else None)
  }

  function Offsets(ops: seq<Op>): (r: seq<Option<int>>)
    ensures |r| == |ops|
  {
    seq(|ops|, k requires 0 <= k < |ops| => if ops[k].Offset? then Some(ops[k].n) else None)
  }

  function Uniques(ops: seq<Op>): (r: seq<Option<bool>>)
    ensures |r| == |ops|
  {
    seq(|ops|, k requires 0 <= k < |ops| => if ops[k].Unique? then Some(ops[k].b) else None)
  }

  /**
   The calls that shape the nested query of an edge: the options of the last `With` for it, then
   the calls made through it since. None while the edge was not asked for.
   */
  function EdgeCalls(ops: seq<Op>, e: Edge): Option<seq<Op>> {
    if ops == [] then None
    else
      var before, last := EdgeCalls(ops[..|ops| - 1], e), ops[|ops| - 1];
      if last.With? && last.edge == e then Some(last.ops)
      else if last.Inside? && last.edge == e && before.Some? then Some(before.value + [last.op])
      else before
  }

  /** The table behind an edge: recipients of a broadcast, broadcast of a recipient, workspace of either. */
  ghost predicate LeadsTo(t: Table, e: Edge, there: Table) {
    match (t, e)
    case (_, ToWorkspace) => there == Workspaces
    case (Broadcasts, ToOther) => there == Recipients
    case (Recipients, ToOther) => there == Broadcasts
    case (Workspaces, ToOther) => true
  }

  /** The nested query an edge ends with. */
  ghost predicate NestedBy(t: Table, ops: seq<Op>, e: Edge, n: Option<Plan>) {
    && n.Some? == EdgeCalls(ops, e).Some?
    && (n.Some? ==> LeadsTo(t, e, n.value.table)
                    && n.value == ApplyAll(Fresh(n.value.table), EdgeCalls(ops, e).value))
  }

  /** Predicates, order terms and fields are all those given; limit, offset and unique are the last given. */
  ghost predicate OwnBy(ops: seq<Op>, p: Plan) {
    && p.predicates == Wheres(ops) && p.order == Terms(ops) && p.ctx.fields == Selected(ops)
    && LastOf(Limits(ops), p.ctx.limit) && LastOf(Offsets(ops), p.ctx.offset) && LastOf(Uniques(ops), p.ctx.unique)
  }

  /** What a query of table t stands for after these calls on it. */
  ghost predicate StandsFor(t: Table, ops: seq<Op>, p: Plan) {
    && p.table == t && !p.traversal && OwnBy(ops, p)
    && NestedBy(t, ops, ToWorkspace, p.workspace) && NestedBy(t, ops, ToOther, p.other)
  }

  // ----- the calls mean that -----

  lemma {:induction false} ApplyOneMore(p: Plan, ops: seq<Op>)
    requires ops != []
    ensures ApplyAll(p, ops) == Apply(ApplyAll(p, ops[..|ops| - 1]), ops[|ops| - 1])
    decreases |ops|
  {
    var last := ops[|ops| - 1];
    if |ops| == 1 {
      assert ops[..0] == [] && ops[1..] == [];
    } else {
      assert ops[1..][..|ops| - 2] == ops[..|ops| - 1][1..];
      ApplyOneMore(Apply(p, ops[0]), ops[1..]);
    }
  }

  lemma {:induction false} WindowOneMore(ops: seq<Op>, limit: Option<int>, offset: Option<int>, unique: Option<bool>)
    requires ops != []
    requires var front := ops[..|ops| - 1];
             LastOf(Limits(front), limit) && LastOf(Offsets(front), offset) && LastOf(Uniques(front), unique)
    ensures var last := ops[|ops| - 1];
            && LastOf(Limits(ops), if last.Limit? then Some(last.n) else limit)
            && LastOf(Offsets(ops), if last.Offset? then Some(last.n) else offset)
            && LastOf(Uniques(ops), if last.Unique? then Some(last.b) else unique)
  {
    var front, last := ops[..|ops| - 1], ops[|ops| - 1];
    var n, o, u := Limits(ops)[|front|], Offsets(ops)[|front|], Uniques(ops)[|front|];
    LastOneMore(Limits(front), limit, n);
    LastOneMore(Offsets(front), offset, o);
    LastOneMore(Uniques(front), unique, u);
    assert Limits(ops) == Limits(front) + [n];
    assert Offsets(ops) == Offsets(front) + [o];
    assert Uniques(ops) == Uniques(front) + [u];
  }

  lemma {:induction false} OwnOneMore(ops: seq<Op>, p: Plan)
    requires ops != [] && OwnBy(ops[..|ops| - 1], p)
    ensures OwnBy(ops, Apply(p, ops[|ops| - 1]))
  {
    WindowOneMore(ops, p.ctx.limit, p.ctx.offset, p.ctx.unique);
  }

  /** Whatever calls are made on a new query, in whatever order, it stands for exactly what they say. */
  lemma {:induction false} CallsMean(t: Table, ops: seq<Op>)
    ensures StandsFor(t, ops, ApplyAll(Fresh(t), ops))
    decreases |ops|
  {
    if ops != [] {
      var front, last := ops[..|ops| - 1], ops[|ops| - 1];
      CallsMean(t, front);
      ApplyOneMore(Fresh(t), ops);
      OneMoreMeans(t, ops, ApplyAll(Fresh(t), front));
    }
  }

  lemma {:induction false} OneMoreMeans(t: Table, ops: seq<Op>, p: Plan)
    requires ops != [] && StandsFor(t, ops[..|ops| - 1], p)
    ensures StandsFor(t, ops, Apply(p, ops[|ops| - 1]))
  {
    OwnOneMore(ops, p);
    EdgeOneMore(t, ops, p, ToWorkspace);
    EdgeOneMore(t, ops, p, ToOther);
    TableStays(p, ops[|ops| - 1]);
  }

  lemma {:induction false} TableStays(p: Plan, op: Op)
    ensures Apply(p, op).table == p.table && Apply(p, op).traversal == p.traversal
  {}

  lemma {:induction false} TableStaysAll(p: Plan, ops: seq<Op>)
    ensures ApplyAll(p, ops).table == p.table
    decreases |ops|
  {
    if ops != [] {
      TableStays(p, ops[0]);
      TableStaysAll(Apply(p, ops[0]), ops[1..]);
    }
  }

  lemma {:induction false} EdgeOneMore(t: Table, ops: seq<Op>, p: Plan, e: Edge)
    requires ops != [] && p.table == t && NestedBy(t, ops[..|ops| - 1], e, Nested(p, e))
    ensures NestedBy(t, ops, e, Nested(Apply(p, ops[|ops| - 1]), e))
  {
    var last := ops[|ops| - 1];
    var before := EdgeCalls(ops[..|ops| - 1], e);
    if last.With? && last.edge == e {
      TableStaysAll(Fresh(QueryBuilder.Target(t, e)), last.ops);
    } else if last.Inside? && last.edge == e && before.Some? {
      var longer := before.value + [last.op];
      TableStays(Nested(p, e).value, last.op);
      ApplyOneMore(Fresh(Nested(p, e).value.table), longer);
      assert longer[..|longer| - 1] == before.value;
    }
  }

  // ----- what the query returns -----

  /** The columns the calls make the query read. */
  predicate ReadBy(t: Table, ops: seq<Op>, c: Column) {
    || Selected(ops) == []
    || c == Id || c in Selected(ops)
    || (c == WorkspaceId && EdgeCalls(ops, ToWorkspace).Some?)
    || (c == BroadcastId && t.Recipients? && EdgeCalls(ops, ToOther).Some?)
  }

  /** The node has the row's id and exactly those of its cells the calls make the query read. */
  ghost predicate ShownBy(t: Table, ops: seq<Op>, n: Node, row: Row) {
    && n.id == row.id
    && (forall c :: c in n.fields <==> c in row.fields && ReadBy(t, ops, c))
    && (forall c :: c in n.fields ==> n.fields[c] == row.fields[c])
  }

  /**
   The results of a list of calls, which selects known fields only: the stored rows all predicates
   accept, sorted by all order terms, without as many as the last offset skips, and as many as
   the last limit takes.
   */
  ghost predicate Answers(db: Db, t: Table, ops: seq<Op>, limit: Option<int>, offset: Option<int>,
                          kept: seq<Row>, results: seq<Tree>)
  {
    && (forall c :: c in Selected(ops) ==> c in AllColumns(t))
    && LastOf(Limits(ops), limit) && LastOf(Offsets(ops), offset)
    && Windowed(db.sort(Terms(ops), Matching(Wheres(ops), db.tables(t))), OrZero(offset), OrZero(limit), kept)
    && |results| == |kept|
    && (!t.Workspaces? ==> forall k :: 0 <= k < |kept| ==> ShownBy(t, ops, results[k].node, kept[k]))
  }

  lemma {:induction false} InvalidIsUnknown(all: seq<Column>, fields: seq<Column>)
    ensures var c := FirstInvalid(all, fields);
            if c.Some? then c.value in fields && c.value !in all else forall d :: d in fields ==> d in all
  {
    if fields != [] && fields[0] in all {
      InvalidIsUnknown(all, fields[1..]);
    }
  }

  lemma {:induction false} CallsReturn(db: Db, t: Table, ops: seq<Op>)
    requires Sound(db) && TypedDb(db) && All(db, ApplyAll(Fresh(t), ops)).Ok?
    ensures exists limit, offset, kept :: Answers(db, t, ops, limit, offset, kept, All(db, ApplyAll(Fresh(t), ops)).value)
  {
    var p := ApplyAll(Fresh(t), ops);
    var results := All(db, p).value;
    CallsMean(t, ops);
    AllTakesWindow(db, p);
    AllKeepsNodes(db, p);
    InvalidIsUnknown(AllColumns(t), p.ctx.fields);
    var kept := Rows(db, p).value;
    if !t.Workspaces? {
      forall k | 0 <= k < |kept| ensures ShownBy(t, ops, results[k].node, kept[k]) {
        ResultsShowRows(db, p, k);
        assert forall c :: ReadBy(t, ops, c) == Reads(p, c);
      }
    }
    assert Answers(db, t, ops, p.ctx.limit, p.ctx.offset, kept, results);
  }

  /** A query fails only over an unknown field, a negative window or an edge it loads. */
  ghost predicate MayFail(t: Table, ops: seq<Op>) {
    || (exists c :: c in Selected(ops) && c !in AllColumns(t))
    || (exists k :: 0 <= k < |ops| && ((ops[k].Limit? && ops[k].n < 0) || (ops[k].Offset? && ops[k].n < 0)))
    || EdgeCalls(ops, ToWorkspace).Some? || EdgeCalls(ops, ToOther).Some?
  }

  lemma {:induction false} CallsFail(db: Db, t: Table, ops: seq<Op>)
    requires Sound(db) && All(db, ApplyAll(Fresh(t), ops)).Err?
    ensures MayFail(t, ops)
  {
    var p := ApplyAll(Fresh(t), ops);
    CallsMean(t, ops);
    if FirstInvalid(AllColumns(t), p.ctx.fields).Some? {
      InvalidIsUnknown(AllColumns(t), p.ctx.fields);
    } else if Rows(db, p).Err? {
      RowsTakeWindow(db, p);
      if OrZero(p.ctx.limit) < 0 {
        var k :| 0 <= k < |ops| && Limits(ops)[k] == p.ctx.limit;
        assert ops[k].Limit? && ops[k].n < 0;
      } else {
        var k :| 0 <= k < |ops| && Offsets(ops)[k] == p.ctx.offset;
        assert ops[k].Offset? && ops[k].n < 0;
      }
    }
  }

  /** A new query, the calls on it, and `All`. */
  method RunCalls(db: Db, t: Table, ops: seq<Op>) returns (r: Result<seq<Tree>, QueryError>)
    requires Sound(db) && TypedDb(db)
    ensures r.Ok? ==> exists limit, offset, kept :: Answers(db, t, ops, limit, offset, kept, r.value)
    ensures r.Err? ==> MayFail(t, ops)
  {
    var q := new Query(t);
    q.DoAll(ops);
    ghost var p := q.View();
    r := EagerLoader.All(q, db);
    if r.Ok? {
      CallsReturn(db, t, ops);
    } else {
      CallsFail(db, t, ops);
    }
  }
}
