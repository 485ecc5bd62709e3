/**
 Queries as values: what a query builder holds, the two ways it is compiled, and what the
 compiled statements return from a snapshot of the database.
 */
module QueryPlan {
  import opened Prelude
  import opened Schema

  /** The three tables the edges between Broadcast and BroadcastRecipient touch. */
  datatype Table = Broadcasts | Recipients | Workspaces

  datatype Row = Row(id: int, fields: Fields)

  datatype OrderTerm = OrderTerm(column: Column, descending: bool)

  /** A predicate given by the caller, or the key filter an edge loader adds. */
  datatype Predicate = Custom(holds: Row -> bool) | KeyIn(column: Column, keys: seq<int>)

  datatype Context = Context(limit: Option<int>, offset: Option<int>, unique: Option<bool>, fields: seq<Column>)

  /**
   A query: `workspace` and `other` are the nested queries of its two edges, `other` being
   the recipients of a broadcast and the broadcast of a recipient.
   */
  datatype Plan = Plan(
    table: Table,
    ctx: Context,
    predicates: seq<Predicate>,
    order: seq<OrderTerm>,
    traversal: bool,
    workspace: Option<Plan>,
    other: Option<Plan>)

  /** A snapshot of the tables and the database's sort. */
  datatype Db = Db(tables: Table -> seq<Row>, sort: (seq<OrderTerm>, seq<Row>) -> seq<Row>)

  datatype QueryError =
    | InvalidField(column: Column)
    | BadWindow
    | NotOneColumn
    | NotFound
    | NotSingular
    | NotLoaded
    | UnexpectedKey(id: int)

  const MAX_INT32 := 2147483647

  // ----- statements -----

  /** The integer stored in a column of a row; the id is a column like any other. */
  function Key(row: Row, column: Column): Option<int> {
    if column == Id then Some(row.id)
    else if column in row.fields && row.fields[column].IntV? then Some(row.fields[column].i)
    else None
  }

  predicate Holds(p: Predicate, row: Row) {
    match p
    case Custom(holds) => holds(row)
    case KeyIn(column, keys) => Key(row, column).Some? && Key(row, column).value in keys
  }

  predicate HoldsAll(ps: seq<Predicate>, row: Row) {
    forall k :: 0 <= k < |ps| ==> Holds(ps[k], row)
  }

  function Matching(ps: seq<Predicate>, rows: seq<Row>): (r: seq<Row>)
    ensures forall x :: x in r <==> x in rows && HoldsAll(ps, x)
    ensures |r| <= |rows|
  {
    if rows == [] then []
    else if HoldsAll(ps, rows[0]) then [rows[0]] + Matching(ps, rows[1..])
    else Matching(ps, rows[1..])
  }

  lemma {:induction false} MatchingOne(ps: seq<Predicate>, x: Row)
    ensures Matching(ps, [x]) == if HoldsAll(ps, x) then [x] else []
  {}

  /** Matching goes row by row and keeps their order. */
  lemma {:induction false} MatchingGoesRowByRow(ps: seq<Predicate>, rows: seq<Row>, x: Row)
    ensures Matching(ps, rows + [x]) == Matching(ps, rows) + if HoldsAll(ps, x) then [x] else []
    decreases |rows|
  {
    MatchingOne(ps, x);
    if rows == [] {
      assert rows + [x] == [x];
    } else {
      var more := Matching(ps, rows[1..] + [x]);
      MatchingGoesRowByRow(ps, rows[1..], x);
      assert (rows + [x])[1..] == rows[1..] + [x];
      assert Matching(ps, rows + [x]) == if HoldsAll(ps, rows[0]) then [rows[0]] + more else more;
    }
  }

  /** A SELECT: zero values of the builder are already gone here. */
  datatype Statement = Statement(
    table: Table,
    columns: seq<Column>,
    predicates: seq<Predicate>,
    order: seq<OrderTerm>,
    distinct: bool,
    offset: Option<int>,
    limit: Option<int>)

  /** The rows a statement ranges over, before the window. */
  function Candidates(db: Db, s: Statement): seq<Row> {
    db.sort(s.order, Matching(s.predicates, db.tables(s.table)))
  }

  /** What DISTINCT compares: the selected cells. */
  function Cells(row: Row, columns: seq<Column>): seq<Option<Scalar>> {
    seq(|columns|, k requires 0 <= k < |columns| =>
          if columns[k] == Id then Some(IntV(row.id))
          else if columns[k] in row.fields then Some(row.fields[columns[k]])
          else None)
  }

  predicate SameCells(a: Row, b: Row, columns: seq<Column>) {
    Cells(a, columns) == Cells(b, columns)
  }

  /** Keeps the first row of each group of rows with equal cells. */
  function Dedup(rows: seq<Row>, columns: seq<Column>): seq<Row> {
    if rows == [] then []
    else
      var kept := Dedup(rows[..|rows| - 1], columns);
      var last := rows[|rows| - 1];
      if exists k :: 0 <= k < |kept| && SameCells(kept[k], last, columns) then kept else kept + [last]
  }

  function Drop<T>(n: int, xs: seq<T>): seq<T> {
    if n <= 0 then xs else if n <= |xs| then xs[n..] else []
  }

  function Take<T>(n: int, xs: seq<T>): seq<T> {
    if n <= 0 then [] else if n <= |xs| then xs[..n] else xs
  }

  /** Offset, then limit; the database refuses negative ones. */
  function Window<T>(offset: Option<int>, limit: Option<int>, xs: seq<T>): Result<seq<T>, QueryError> {
    if (offset.Some? && offset.value < 0) || (limit.Some? && limit.value < 0) then Err(BadWindow)
    else
      var rest := if offset.Some? then Drop(offset.value, xs) else xs;
      Ok(if limit.Some? then Take(limit.value, rest) else rest)
  }

  function Run(db: Db, s: Statement): Result<seq<Row>, QueryError> {
    var rows := Candidates(db, s);
    Window(s.offset, s.limit, if s.distinct then Dedup(rows, s.columns) else rows)
  }

  // ----- compilation -----

  /** `sqlgraph.QuerySpec`, where a zero limit or offset means that none was given. */
  datatype QuerySpec = QuerySpec(
    table: Table,
    columns: seq<Column>,
    unique: bool,
    predicates: seq<Predicate>,
    order: seq<OrderTerm>,
    limit: int,
    offset: int)

  function AddOnce(columns: seq<Column>, c: Column): (r: seq<Column>)
    ensures forall d :: d in r <==> d in columns || d == c
    ensures columns <= r
  {
    if c in columns then columns else columns + [c]
  }

  /** The selected fields with the id first. */
  function IdFirst(fields: seq<Column>): (r: seq<Column>)
    ensures forall c :: c in r <==> c == Id || c in fields
  {
    [Id] + WithoutId(fields)
  }

  function WithoutId(fields: seq<Column>): (r: seq<Column>)
    ensures forall c :: c in r <==> c != Id && c in fields
  {
    if fields == [] then []
    else if fields[0] == Id then WithoutId(fields[1..])
    else [fields[0]] + WithoutId(fields[1..])
  }

  /** The foreign key a query needs for its second edge; a broadcast needs none of its own. */
  function OtherKey(t: Table): Option<Column> {
    if t.Recipients? then Some(BroadcastId) else None
  }

  /** The columns `querySpec` asks for. */
  function SpecColumns(all: seq<Column>, p: Plan): seq<Column> {
    if p.ctx.fields == [] then all
    else
      var base := IdFirst(p.ctx.fields);
      var one := if p.workspace.Some? then AddOnce(base, WorkspaceId) else base;
      if p.other.Some? && OtherKey(p.table).Some? then AddOnce(one, OtherKey(p.table).value) else one
  }

  function OrZero(x: Option<int>): int {
    if x.Some? then x.value else 0
  }

  /** `querySpec`. */
  function Compile(all: seq<Column>, p: Plan): QuerySpec {
    QuerySpec(p.table, SpecColumns(all, p),
              if p.ctx.unique.Some? then p.ctx.unique.value else p.traversal,
              p.predicates, p.order, OrZero(p.ctx.limit), OrZero(p.ctx.offset))
  }

  /** What `sqlgraph.QueryNodes` runs for a spec. */
  function SpecStatement(s: QuerySpec): Statement {
    Statement(s.table, s.columns, s.predicates, s.order, s.unique,
              if s.offset != 0 then Some(s.offset) else None,
              if s.limit != 0 then Some(s.limit) else None)
  }

  /** `sqlQuery`: an offset comes with a default limit, which a limit of the caller replaces. */
  function SqlQuery(all: seq<Column>, p: Plan): Statement {
    Statement(p.table, if p.ctx.fields == [] then all else p.ctx.fields, p.predicates, p.order,
              p.ctx.unique == Some(true), p.ctx.offset,
              if p.ctx.limit.Some? then p.ctx.limit
              else if p.ctx.offset.Some? then Some(MAX_INT32) else None)
  }

  // ----- the two compilations -----

  ghost predicate DistinctIds(rows: seq<Row>) {
    forall j, k :: 0 <= j < k < |rows| ==> rows[j].id != rows[k].id
  }

  /** Ids are unique in each table and the sort only reorders. */
  ghost predicate Sound(db: Db) {
    && (forall t :: DistinctIds(db.tables(t)))
    && (forall terms, rows :: multiset(db.sort(terms, rows)) == multiset(rows))
    && (forall terms, rows :: DistinctIds(rows) ==> DistinctIds(db.sort(terms, rows)))
  }

  /** Any tables with unique ids, returned in stored order, are sound. */
  lemma {:induction false} StoredOrderIsSound(tables: Table -> seq<Row>)
    requires forall t :: DistinctIds(tables(t))
    ensures Sound(Db(tables, (terms, rows) => rows))
  {}

  lemma {:induction false} MatchingDistinct(ps: seq<Predicate>, rows: seq<Row>)
    requires DistinctIds(rows)
    ensures DistinctIds(Matching(ps, rows))
  {
    if rows != [] {
      MatchingDistinct(ps, rows[1..]);
      var rest := Matching(ps, rows[1..]);
      forall k | 0 <= k < |rest| ensures rest[k].id != rows[0].id {
        assert rest[k] in rest;
        var j :| 0 <= j < |rows[1..]| && rows[1..][j] == rest[k];
        assert rows[j + 1] == rest[k];
      }
    }
  }

  lemma {:induction false} CandidatesDistinct(db: Db, s: Statement)
    requires Sound(db)
    ensures DistinctIds(Candidates(db, s))
  {
    assert DistinctIds(db.tables(s.table));
    MatchingDistinct(s.predicates, db.tables(s.table));
  }

  /** Rows with an id column never collapse. */
  lemma {:induction false} DedupKeepsIds(rows: seq<Row>, columns: seq<Column>)
    requires DistinctIds(rows) && Id in columns
    ensures Dedup(rows, columns) == rows
  {
    if rows != [] {
      var front := rows[..|rows| - 1];
      var last := rows[|rows| - 1];
      DedupKeepsIds(front, columns);
      var i :| 0 <= i < |columns| && columns[i] == Id;
      forall k | 0 <= k < |front| ensures !SameCells(front[k], last, columns) {
        assert Cells(front[k], columns)[i] == Some(IntV(front[k].id));
        assert Cells(last, columns)[i] == Some(IntV(last.id));
      }
      assert front + [last] == rows;
    }
  }

  /** The rows of a query before its window, the same for both compilations. */
  function Base(db: Db, p: Plan): seq<Row> {
    db.sort(p.order, Matching(p.predicates, db.tables(p.table)))
  }

  /** When the two windows coincide on n rows: a zero limit selects nothing only in `sqlQuery`, which caps an offset. */
  predicate WindowsCoincide(ctx: Context, n: nat) {
    if OrZero(ctx.offset) < 0 || OrZero(ctx.limit) < 0 then true
    else
      var left := n - OrZero(ctx.offset);
      match ctx.limit
      case Some(limit) => limit != 0 || left <= 0
      case None => ctx.offset.None? || left <= 0x7FFF_FFFF
  }

  // ----- rows that look alike -----

  ghost predicate NoneAlike(rows: seq<Row>, columns: seq<Column>) {
    forall j, k :: 0 <= j < k < |rows| ==> !SameCells(rows[j], rows[k], columns)
  }

  lemma {:induction false} NoneAlikeOneMore(rows: seq<Row>, columns: seq<Column>)
    requires rows != []
    ensures var front, last := rows[..|rows| - 1], rows[|rows| - 1];
            NoneAlike(rows, columns) <==>
            NoneAlike(front, columns) && forall k :: 0 <= k < |front| ==> !SameCells(front[k], last, columns)
  {}

  /** DISTINCT keeps everything when no two rows look alike, and loses a row otherwise. */
  lemma {:induction false} DedupKeepsAll(rows: seq<Row>, columns: seq<Column>)
    ensures NoneAlike(rows, columns) ==> Dedup(rows, columns) == rows
    ensures !NoneAlike(rows, columns) ==> |Dedup(rows, columns)| < |rows|
    ensures |Dedup(rows, columns)| <= |rows|
  {
    if rows != [] {
      var front, last := rows[..|rows| - 1], rows[|rows| - 1];
      DedupKeepsAll(front, columns);
      NoneAlikeOneMore(rows, columns);
      assert front + [last] == rows;
    }
  }

  /** The result for a prefix is a prefix of the result, and what follows comes from later rows. */
  lemma {:induction false} DedupPrefix(rows: seq<Row>, columns: seq<Column>, n: nat)
    requires n <= |rows|
    ensures Dedup(rows[..n], columns) <= Dedup(rows, columns)
    ensures forall k :: |Dedup(rows[..n], columns)| <= k < |Dedup(rows, columns)| ==> Dedup(rows, columns)[k] in rows[n..]
  {
    if n == |rows| {
      assert rows[..n] == rows;
    } else {
      var front := rows[..|rows| - 1];
      DedupPrefix(front, columns, n);
      assert front[..n] == rows[..n];
      assert rows[n..] == front[n..] + [rows[|rows| - 1]];
    }
  }

  /** Position n of the result is row n exactly when no two of the first n + 1 rows look alike. */
  lemma {:induction false} DedupAt(rows: seq<Row>, columns: seq<Column>, n: nat)
    requires DistinctIds(rows) && n < |rows|
    ensures n < |Dedup(rows, columns)| && Dedup(rows, columns)[n] == rows[n] <==> NoneAlike(rows[..n + 1], columns)
  {
    var first := rows[..n + 1];
    DedupKeepsAll(first, columns);
    DedupPrefix(rows, columns, n + 1);
    if NoneAlike(first, columns) {
      assert Dedup(rows, columns)[n] == Dedup(first, columns)[n] == first[n];
    } else if n < |Dedup(rows, columns)| {
      assert Dedup(rows, columns)[n] in rows[n + 1..];
    }
  }

  lemma {:induction false} DedupUpTo(rows: seq<Row>, columns: seq<Column>, n: nat)
    requires n <= |rows| && NoneAlike(rows[..n], columns)
    ensures n <= |Dedup(rows, columns)| && Dedup(rows, columns)[..n] == rows[..n]
  {
    DedupKeepsAll(rows[..n], columns);
    DedupPrefix(rows, columns, n);
  }

  /** Two rows show the same in every one of the columns. */
  ghost predicate SameIn(a: Row, b: Row, columns: seq<Column>) {
    forall c :: c in columns ==>
      if c == Id then a.id == b.id
      else (c in a.fields <==> c in b.fields) && (c in a.fields ==> a.fields[c] == b.fields[c])
  }

  lemma {:induction false} SameCellsMeans(a: Row, b: Row, columns: seq<Column>)
    ensures SameCells(a, b, columns) <==> SameIn(a, b, columns)
  {
    if SameCells(a, b, columns) {
      forall c | c in columns
        ensures if c == Id then a.id == b.id
                else (c in a.fields <==> c in b.fields) && (c in a.fields ==> a.fields[c] == b.fields[c])
      {
        var k :| 0 <= k < |columns| && columns[k] == c;
        assert Cells(a, columns)[k] == Cells(b, columns)[k];
      }
    }
    if SameIn(a, b, columns) {
      forall k | 0 <= k < |columns| ensures Cells(a, columns)[k] == Cells(b, columns)[k] {
        assert columns[k] in columns;
      }
    }
  }

  /** No two rows show the same. */
  ghost predicate AllDiffer(rows: seq<Row>, columns: seq<Column>) {
    forall j, k :: 0 <= j < k < |rows| ==> !SameIn(rows[j], rows[k], columns)
  }

  lemma {:induction false} NoneAlikeMeans(rows: seq<Row>, columns: seq<Column>)
    ensures NoneAlike(rows, columns) <==> AllDiffer(rows, columns)
  {
    forall j, k | 0 <= j < k < |rows| ensures SameCells(rows[j], rows[k], columns) <==> SameIn(rows[j], rows[k], columns) {
      SameCellsMeans(rows[j], rows[k], columns);
    }
  }

  // ----- when the compilations agree -----

  /** DISTINCT over selected fields without the id, which the spec adds and the selector does not. */
  predicate Collapses(p: Plan) {
    p.ctx.unique == Some(true) && p.ctx.fields != [] && Id !in p.ctx.fields
  }

  /** The rows up to the end of the spec's window. */
  function Reached(ctx: Context, rows: seq<Row>): seq<Row> {
    var offset, limit := OrZero(ctx.offset), OrZero(ctx.limit);
    if offset < 0 || limit < 0 || |rows| <= offset then []
    else if limit == 0 || |rows| <= offset + limit then rows
    else rows[..offset + limit]
  }

  /**
   The two compilations agree. For any query without traversal path, the spec and the selector
   return the same rows exactly when the caller's limit is not zero (or no row is left), at most
   2^31 - 1 rows remain after an offset without limit, and, for a DISTINCT query over fields
   without the id, no two of the rows up to the end of the window look alike in those fields.
   */
  lemma {:induction false} CompilationsAgree(db: Db, all: seq<Column>, p: Plan)
    requires Sound(db) && !p.traversal && Id in all
    ensures Run(db, SpecStatement(Compile(all, p))) == Run(db, SqlQuery(all, p)) <==>
            && WindowsCoincide(p.ctx, |Base(db, p)|)
            && (Collapses(p) ==> AllDiffer(Reached(p.ctx, Base(db, p)), p.ctx.fields))
  {
    NoneAlikeMeans(Reached(p.ctx, Base(db, p)), p.ctx.fields);
    var rows := Base(db, p);
    CandidatesDistinct(db, SqlQuery(all, p));
    DedupKeepsIds(rows, SpecColumns(all, p));
    if Collapses(p) {
      CollapsedWindows(p.ctx, rows, p.ctx.fields);
    } else {
      if p.ctx.unique == Some(true) {
        DedupKeepsIds(rows, SqlQuery(all, p).columns);
      }
      WindowsMeet(p.ctx, rows);
    }
  }

  function SpecWindow(ctx: Context, rows: seq<Row>): Result<seq<Row>, QueryError> {
    var offset, limit := OrZero(ctx.offset), OrZero(ctx.limit);
    Window(if offset != 0 then Some(offset) else None, if limit != 0 then Some(limit) else None, rows)
  }

  function SqlWindow(ctx: Context, rows: seq<Row>): Result<seq<Row>, QueryError> {
    Window(ctx.offset, if ctx.limit.Some? then ctx.limit else if ctx.offset.Some? then Some(MAX_INT32) else None, rows)
  }

  lemma {:induction false} CollapsedWindows(ctx: Context, rows: seq<Row>, columns: seq<Column>)
    requires DistinctIds(rows)
    ensures SpecWindow(ctx, rows) == SqlWindow(ctx, Dedup(rows, columns)) <==>
            WindowsCoincide(ctx, |rows|) && NoneAlike(Reached(ctx, rows), columns)
  {
    DedupKeepsAll(rows, columns);
    if OrZero(ctx.offset) >= 0 && OrZero(ctx.limit) >= 0 && OrZero(ctx.offset) < |rows| {
      OpenWindows(ctx, rows, columns);
    } else {
      ShutWindows(ctx, rows, Dedup(rows, columns));
    }
  }

  lemma {:induction false} NothingLeft<T>(offset: int, limit: int, xs: seq<T>)
    requires |xs| <= offset
    ensures Drop(offset, xs) == [] && Take(limit, Drop(offset, xs)) == []
  {}

  /** A negative window is refused, and one behind the last row is empty, in both forms. */
  lemma {:induction false} ShutWindows(ctx: Context, rows: seq<Row>, kept: seq<Row>)
    requires OrZero(ctx.offset) < 0 || OrZero(ctx.limit) < 0 || |rows| <= OrZero(ctx.offset)
    requires |kept| <= |rows|
    ensures SpecWindow(ctx, rows) == SqlWindow(ctx, kept)
    ensures WindowsCoincide(ctx, |rows|) && Reached(ctx, rows) == []
  {
    var offset, limit := OrZero(ctx.offset), OrZero(ctx.limit);
    if offset >= 0 && limit >= 0 {
      var cap := if ctx.limit.Some? then limit else MAX_INT32;
      NothingLeft(offset, limit, rows);
      NothingLeft(offset, cap, kept);
    }
  }

  lemma {:induction false} OpenWindows(ctx: Context, rows: seq<Row>, columns: seq<Column>)
    requires DistinctIds(rows) && OrZero(ctx.offset) >= 0 && OrZero(ctx.limit) >= 0 && OrZero(ctx.offset) < |rows|
    ensures SpecWindow(ctx, rows) == SqlWindow(ctx, Dedup(rows, columns)) <==>
            WindowsCoincide(ctx, |rows|) && NoneAlike(Reached(ctx, rows), columns)
  {
    var n := ReachedPrefix(ctx, rows);
    DedupKeepsAll(rows, columns);
    if NoneAlike(rows[..n], columns) {
      DedupUpTo(rows, columns, n);
      SameUpTo(ctx, rows, Dedup(rows, columns), n);
    } else {
      DedupAt(rows, columns, n - 1);
      if SpecWindow(ctx, rows) == SqlWindow(ctx, Dedup(rows, columns)) {
        LastOfWindow(ctx, rows, Dedup(rows, columns), n);
      }
    }
  }

  lemma {:induction false} ReachedPrefix(ctx: Context, rows: seq<Row>) returns (n: nat)
    requires OrZero(ctx.offset) >= 0 && OrZero(ctx.limit) >= 0 && OrZero(ctx.offset) < |rows|
    ensures OrZero(ctx.offset) < n <= |rows| && n == |Reached(ctx, rows)| && Reached(ctx, rows) == rows[..n]
  {
    n := |Reached(ctx, rows)|;
  }

  /** With no collapse up to the end of the window the windows decide. */
  lemma {:induction false} SameUpTo(ctx: Context, rows: seq<Row>, kept: seq<Row>, n: nat)
    requires n == |Reached(ctx, rows)| && OrZero(ctx.offset) >= 0 && OrZero(ctx.limit) >= 0 && OrZero(ctx.offset) < |rows|
    requires n <= |kept| <= |rows| && kept[..n] == rows[..n]
    ensures SpecWindow(ctx, rows) == SqlWindow(ctx, kept) <==> WindowsCoincide(ctx, |rows|)
  {
    var offset := OrZero(ctx.offset);
    var spec := SpecWindow(ctx, rows).value;
    assert spec == rows[offset..n];
    if ctx.limit.None? || ctx.limit == Some(0) {
      assert n == |rows| && kept[..n] == kept && rows[..n] == rows;
      WindowsMeet(ctx, rows);
    } else {
      assert SqlWindow(ctx, kept).value == kept[offset..n];
      assert kept[offset..n] == kept[..n][offset..] == rows[..n][offset..] == rows[offset..n];
    }
  }

  /** Equal windows end with the same row at the same place. */
  lemma {:induction false} LastOfWindow(ctx: Context, rows: seq<Row>, kept: seq<Row>, n: nat)
    requires n == |Reached(ctx, rows)| && OrZero(ctx.offset) >= 0 && OrZero(ctx.limit) >= 0 && OrZero(ctx.offset) < |rows|
    requires SpecWindow(ctx, rows) == SqlWindow(ctx, kept)
    ensures n <= |kept| && kept[n - 1] == rows[n - 1]
  {}

  lemma {:induction false} WindowsMeet(ctx: Context, rows: seq<Row>)
    ensures SpecWindow(ctx, rows) == SqlWindow(ctx, rows) <==> WindowsCoincide(ctx, |rows|)
  {
    var rest := Drop(OrZero(ctx.offset), rows);
    if OrZero(ctx.offset) >= 0 && OrZero(ctx.limit) >= 0 {
      assert |rest| == if |rows| >= OrZero(ctx.offset) then |rows| - OrZero(ctx.offset) else 0;
      if ctx.limit == Some(0) {
        assert Take(0, rest) == [];
      } else if ctx.limit.None? {
        assert |Take(MAX_INT32, rest)| == if |rest| <= MAX_INT32 then |rest| else MAX_INT32;
        assert |rest| == MAX_INT32 ==> rest[..MAX_INT32] == rest;
      }
    }
  }

  /**
   Without the id the agreement fails under DISTINCT: two rows with equal selected cells are
   one row of the selector and two of the spec, which always selects the id.
   */
  lemma {:induction false} DistinctWithoutIdCollapses(all: seq<Column>, a: Row, b: Row, p: Plan)
    requires a.id != b.id && SameIn(a, b, p.ctx.fields)
    requires p.ctx == Context(None, None, Some(true), p.ctx.fields) && p.ctx.fields != [] && Id !in p.ctx.fields
    requires !p.traversal && p.predicates == [] && p.workspace.None? && p.other.None?
    ensures var db := Db(t => if t == p.table then [a, b] else [], (terms, rows) => rows);
            && Run(db, SqlQuery(all, p)) == Ok([a])
            && Run(db, SpecStatement(Compile(all, p))) == Ok([a, b])
  {
    MatchingPair(a, b);
    SameCellsMeans(a, b, p.ctx.fields);
    DedupPair(a, b, p.ctx.fields);
    DedupKeepsIds([a, b], IdFirst(p.ctx.fields));
  }

  lemma {:induction false} MatchingPair(a: Row, b: Row)
    ensures Matching([], [a, b]) == [a, b]
  {}

  lemma {:induction false} DedupPair(a: Row, b: Row, columns: seq<Column>)
    requires SameCells(a, b, columns)
    ensures Dedup([a, b], columns) == [a]
  {
    assert [a, b][..1] == [a] && [a][..0] == [];
    assert Dedup([], columns) == [];
    assert Dedup([a], columns) == [a];
    assert [a][0] == a;
  }
}
