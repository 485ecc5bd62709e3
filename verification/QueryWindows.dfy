/** The terminal calls that narrow a query before running it. */
module QueryWindows {
  import opened Prelude
  import opened Schema
  import opened QueryPlan
  import opened EagerPlan
  import opened EagerJoin
  import opened EagerTheorems

  function Limited(p: Plan, n: int): Plan {
    p.(ctx := p.ctx.(limit := Some(n)))
  }

  function Unlimited(p: Plan): Plan {
    p.(ctx := p.ctx.(limit := None))
  }

  /** `First`. */
  function First(db: Db, p: Plan): Result<Tree, QueryError> {
    match All(db, Limited(p, 1))
    case Err(e) => Err(e)
    case Ok(ts) => if ts == [] then Err(NotFound) else Ok(ts[0])
  }

  /** `Only`. */
  function Only(db: Db, p: Plan): Result<Tree, QueryError> {
    match All(db, Limited(p, 2))
    case Err(e) => Err(e)
    case Ok(ts) => if |ts| == 1 then Ok(ts[0]) else if ts == [] then Err(NotFound) else Err(NotSingular)
  }

  /** The query `IDs` runs: the id is one more selected field. */
  function SelectingId(p: Plan): Plan {
    var unique := if p.ctx.unique.None? && p.traversal then Some(true) else p.ctx.unique;
    p.(ctx := p.ctx.(unique := unique, fields := p.ctx.fields + [Id]))
  }

  /** The selector's rows scanned into a list of integers, which takes exactly one column. */
  function ScanIds(db: Db, q: Plan): Result<seq<int>, QueryError> {
    match FirstInvalid(AllColumns(q.table), q.ctx.fields)
    case Some(c) => Err(InvalidField(c))
    case None =>
      match Run(db, SqlQuery(AllColumns(q.table), q))
      case Err(e) => Err(e)
      case Ok(rows) =>
        if |q.ctx.fields| != 1 then Err(NotOneColumn)
        else Ok(seq(|rows|, k requires 0 <= k < |rows| => rows[k].id))
  }

  /** `IDs`. */
  function IDs(db: Db, p: Plan): Result<seq<int>, QueryError> {
    ScanIds(db, SelectingId(p))
  }

  function FirstID(db: Db, p: Plan): Result<int, QueryError> {
    match IDs(db, Limited(p, 1))
    case Err(e) => Err(e)
    case Ok(ids) => if ids == [] then Err(NotFound) else Ok(ids[0])
  }

  function OnlyID(db: Db, p: Plan): Result<int, QueryError> {
    match IDs(db, Limited(p, 2))
    case Err(e) => Err(e)
    case Ok(ids) => if |ids| == 1 then Ok(ids[0]) else if ids == [] then Err(NotFound) else Err(NotSingular)
  }

  function Exist(db: Db, p: Plan): Result<bool, QueryError> {
    match FirstID(db, p)
    case Err(e) => if e == NotFound then Ok(false) else Err(e)
    case Ok(_) => Ok(true)
  }

  // ----- small windows suffice -----

  /** A positive limit takes that many rows of the unlimited result, whatever limit was set before. */
  lemma {:induction false} LimitTakes(db: Db, p: Plan, n: int)
    requires n > 0
    ensures match Rows(db, Unlimited(p))
            case Err(e) => Rows(db, Limited(p, n)) == Err(e)
            case Ok(rows) => Rows(db, Limited(p, n)) == Ok(Take(n, rows))
  {}

  /** The rows a terminal call is about: everything after the offset. */
  ghost predicate Remaining(db: Db, p: Plan, rows: seq<Row>) {
    Rows(db, Unlimited(p)) == Ok(rows)
  }

  lemma {:induction false} LimitedResults(db: Db, p: Plan, n: int, rows: seq<Row>)
    requires Sound(db) && TypedDb(db) && n > 0 && Remaining(db, p, rows) && All(db, Limited(p, n)).Ok?
    ensures var ts := All(db, Limited(p, n)).value;
            && |ts| == (if |rows| < n then |rows| else n)
            && forall k :: 0 <= k < |ts| ==> ShownAs(p, ts[k].node, rows[k])
  {
    LimitTakes(db, p, n);
    ResultsAreRows(db, Limited(p, n));
    var ts := All(db, Limited(p, n)).value;
    forall k | 0 <= k < |ts| ensures ShownAs(p, ts[k].node, rows[k]) {
      assert RowAt(db, Limited(p, n), k) == Take(n, rows)[k];
      if !p.table.Workspaces? {
        ResultsShowRows(db, Limited(p, n), k);
        assert forall c :: Reads(Limited(p, n), c) == Reads(p, c);
      }
    }
  }

  /** A load can fail only over an unknown field or over an edge of rows that are there. */
  ghost predicate FailsByEdges(p: Plan, rows: seq<Row>) {
    FirstInvalid(AllColumns(p.table), p.ctx.fields).Some? || (rows != [] && (p.workspace.Some? || p.other.Some?))
  }

  lemma {:induction false} LimitedFailure(db: Db, p: Plan, n: int, rows: seq<Row>)
    requires n > 0 && Remaining(db, p, rows) && All(db, Limited(p, n)).Err?
    ensures FailsByEdges(p, rows)
  {
    LimitTakes(db, p, n);
    if rows == [] { assert Take(n, rows) == []; }
  }

  /**
   `Only` with its limit of two decides as the unlimited result would: a row when exactly one
   is left after the offset, NotFound for none and NotSingular for more. It fails otherwise
   only as its load does, over an unknown field or an edge.
   */
  lemma {:induction false} OnlyDecides(db: Db, p: Plan, rows: seq<Row>)
    requires Sound(db) && TypedDb(db) && Remaining(db, p, rows)
    ensures match All(db, Limited(p, 2))
            case Err(e) => Only(db, p) == Err(e) && FailsByEdges(p, rows)
            case Ok(_) =>
              match Only(db, p)
              case Ok(t) => |rows| == 1 && ShownAs(p, t.node, rows[0])
              case Err(e) => (e == NotFound && rows == []) || (e == NotSingular && |rows| >= 2)
  {
    if All(db, Limited(p, 2)).Ok? {
      LimitedResults(db, p, 2, rows);
    } else {
      LimitedFailure(db, p, 2, rows);
    }
  }

  /** `First` is the head of the unlimited result, or fails as its load does. */
  lemma {:induction false} FirstIsHead(db: Db, p: Plan, rows: seq<Row>)
    requires Sound(db) && TypedDb(db) && Remaining(db, p, rows)
    ensures match All(db, Limited(p, 1))
            case Err(e) => First(db, p) == Err(e) && FailsByEdges(p, rows)
            case Ok(_) =>
              match First(db, p)
              case Ok(t) => rows != [] && ShownAs(p, t.node, rows[0])
              case Err(e) => e == NotFound && rows == []
  {
    if All(db, Limited(p, 1)).Ok? {
      LimitedResults(db, p, 1, rows);
    } else {
      LimitedFailure(db, p, 1, rows);
    }
  }

  /** The ids a limited `IDs` returns are those of the first rows of the unlimited result. */
  lemma {:induction false} LimitedIds(db: Db, p: Plan, n: int, rows: seq<Row>)
    requires Sound(db) && n > 0 && Remaining(db, p, rows) && p.ctx.fields == []
    ensures IDs(db, Limited(p, n)).Ok?
    ensures var ids := IDs(db, Limited(p, n)).value;
            && |ids| == (if |rows| < n then |rows| else n)
            && forall k :: 0 <= k < |ids| ==> ids[k] == rows[k].id
  {
    var q := SelectingId(Limited(p, n));
    var s := SqlQuery(AllColumns(p.table), q);
    IdIsAColumn(p.table);
    assert q.ctx.fields == [Id];
    assert [Id][1..] == [];
    assert FirstInvalid(AllColumns(p.table), [Id]).None?;
    CandidatesDistinct(db, s);
    DedupKeepsIds(Candidates(db, s), s.columns);
    SpecSelectsId(p);
    DedupKeepsIds(Candidates(db, s), SpecOf(Unlimited(p)).columns);
    assert Candidates(db, s) == Base(db, p);
  }

  /** `IDs` returns the ids of the rows, as far as its selector's window takes the same ones. */
  lemma {:induction false} IDsAreRowIds(db: Db, p: Plan, rows: seq<Row>)
    requires Sound(db) && p.ctx.fields == [] && Rows(db, p) == Ok(rows) && WindowsCoincide(p.ctx, |Base(db, p)|)
    ensures IDs(db, p).Ok? && |IDs(db, p).value| == |rows|
    ensures forall k :: 0 <= k < |rows| ==> IDs(db, p).value[k] == rows[k].id
  {
    var q := SelectingId(p);
    var s := SqlQuery(AllColumns(p.table), q);
    IdIsAColumn(p.table);
    assert q.ctx.fields == [Id];
    assert [Id][1..] == [];
    assert FirstInvalid(AllColumns(p.table), [Id]).None?;
    CandidatesDistinct(db, s);
    DedupKeepsIds(Candidates(db, s), s.columns);
    SpecSelectsId(p);
    DedupKeepsIds(Candidates(db, s), SpecOf(p).columns);
    assert Candidates(db, s) == Base(db, p);
    WindowsMeet(p.ctx, Base(db, p));
  }

  /** `Exist` holds exactly when a row is left after the offset; `OnlyID` decides as `Only` does. */
  lemma {:induction false} ExistDecides(db: Db, p: Plan, rows: seq<Row>)
    requires Sound(db) && Remaining(db, p, rows) && p.ctx.fields == []
    ensures Exist(db, p) == Ok(rows != [])
    ensures match FirstID(db, p)
            case Ok(id) => rows != [] && id == rows[0].id
            case Err(e) => e == NotFound && rows == []
    ensures match OnlyID(db, p)
            case Ok(id) => |rows| == 1 && id == rows[0].id
            case Err(e) => (e == NotFound && rows == []) || (e == NotSingular && |rows| >= 2)
  {
    LimitedIds(db, p, 1, rows);
    LimitedIds(db, p, 2, rows);
  }

  /**
   These calls leave their selection in the query, so they work once: `Exist` answers exactly
   when no valid field was selected before, and a second call on the same query object fails
   because the id is then selected twice.
   */
  lemma {:induction false} ExistAnswersOnce(db: Db, p: Plan, rows: seq<Row>)
    requires Sound(db) && Remaining(db, p, rows) && FirstInvalid(AllColumns(p.table), p.ctx.fields).None?
    ensures Exist(db, p).Ok? <==> p.ctx.fields == []
    ensures Exist(db, SelectingId(Limited(p, 1))) == Err(NotOneColumn)
  {
    if p.ctx.fields == [] {
      ExistDecides(db, p, rows);
    } else {
      TwoColumnsFail(db, p);
    }
    var again := SelectingId(Limited(p, 1));
    IdIsAColumn(p.table);
    ValidPlusId(AllColumns(p.table), p.ctx.fields);
    var limited := Limited(again, 1);
    assert limited.ctx.offset == p.ctx.offset;
    TwoColumnsFail(db, again);
  }

  lemma {:induction false} ValidPlusId(all: seq<Column>, fields: seq<Column>)
    requires Id in all && FirstInvalid(all, fields).None?
    ensures FirstInvalid(all, fields + [Id]).None?
    decreases |fields|
  {
    if fields == [] {
      assert [Id][1..] == [];
      assert fields + [Id] == [Id];
    } else {
      ValidPlusId(all, fields[1..]);
      assert (fields + [Id])[1..] == fields[1..] + [Id];
    }
  }

  lemma {:induction false} TwoColumnsFail(db: Db, p: Plan)
    requires p.ctx.fields != [] && FirstInvalid(AllColumns(p.table), p.ctx.fields).None?
    requires OrZero(p.ctx.offset) >= 0
    ensures Exist(db, p) == Err(NotOneColumn)
  {
    IdIsAColumn(p.table);
    ValidPlusId(AllColumns(p.table), p.ctx.fields);
  }
}
