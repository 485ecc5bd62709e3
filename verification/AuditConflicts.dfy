/** What the upsert calls of a create make of the stored rows it meets, row by row of a statement. */
module AuditConflicts {
  import opened Prelude
  import opened Schema
  import opened AuditUpsert
  import opened AuditRuns
  import opened AuditRows
  import Store

  // ----- a create that meets a stored row -----

  /**
   What a call makes of column c of the stored row, if it concerns the column: `asked` is the cell
   the create asks for and `stored` the one that is there.
   */
  function Says(call: Call, asked: Option<Scalar>, stored: Option<Scalar>, c: Column): Option<Option<Scalar>> {
    match call
    case UpdateNewValues => if asked.Some? then Some(asked) else None
    case Ignore => if asked.Some? then Some(stored) else None
    case SetUpdatedAt(v) => if c == UpdatedAt then Some(Some(TimeV(v))) else None
    case UpdateUpdatedAt => if c == UpdatedAt then Some(asked) else None
    case SetWorkspaceID(v) => if c == WorkspaceId then Some(Some(IntV(v))) else None
    case UpdateWorkspaceID => if c == WorkspaceId then Some(asked) else None
    case _ => None
  }

  function Sayings(calls: seq<Call>, asked: Option<Scalar>, stored: Option<Scalar>, c: Column): (r: seq<Option<Option<Scalar>>>)
    ensures |r| == |calls| && forall k :: 0 <= k < |calls| ==> r[k] == Says(calls[k], asked, stored, c)
  {
    seq(|calls|, k requires 0 <= k < |calls| => Says(calls[k], asked, stored, c))
  }

  /** The last call that concerns column c decides it; without one it stays. */
  ghost predicate DecidedCell(calls: seq<Call>, asked: Option<Scalar>, stored: Option<Scalar>, c: Column, cell: Option<Scalar>) {
    exists last :: LastOf(Sayings(calls, asked, stored, c), last) && cell == if last.Some? then last.value else stored
  }

  lemma {:induction false} SayingsOneMore(calls: seq<Call>, asked: Option<Scalar>, stored: Option<Scalar>, c: Column)
    requires calls != []
    ensures Sayings(calls, asked, stored, c) ==
            Sayings(calls[..|calls| - 1], asked, stored, c) + [Says(calls[|calls| - 1], asked, stored, c)]
  {}

  lemma {:induction false} DecidedOneMore(calls: seq<Call>, asked: Option<Scalar>, stored: Option<Scalar>, c: Column, cell: Option<Scalar>)
    requires calls != [] && DecidedCell(calls[..|calls| - 1], asked, stored, c, cell)
    ensures var says := Says(calls[|calls| - 1], asked, stored, c);
            DecidedCell(calls, asked, stored, c, if says.Some? then says.value else cell)
  {
    var before := Sayings(calls[..|calls| - 1], asked, stored, c);
    var says := Says(calls[|calls| - 1], asked, stored, c);
    var last :| LastOf(before, last) && cell == if last.Some? then last.value else stored;
    SayingsOneMore(calls, asked, stored, c);
    LastOneMore(before, last, says);
  }

  /** One more call on a column that is not immutable. */
  lemma {:induction false} ResolvedOneMore(os: seq<ConflictOption>, call: Call, row: Fields, proposed: Fields,
                                           columns: set<Column>, present: set<Column>, c: Column)
    requires c != Id && c !in present && (c in columns <==> c in proposed)
    ensures var says := Says(call, Cell(proposed, c), Cell(row, c), c);
            NewCell(row, Resolve(os + Options(call), columns, present), proposed, c) ==
            if says.Some? then says.value else NewCell(row, Resolve(os, columns, present), proposed, c)
  {
    ResolveCall(os, call, columns, present);
  }

  lemma {:induction false} ResolvedIsDecided(calls: seq<Call>, row: Fields, proposed: Fields,
                                             columns: set<Column>, present: set<Column>, c: Column)
    requires c != Id && c !in present && (c in columns <==> c in proposed)
    ensures DecidedCell(calls, Cell(proposed, c), Cell(row, c), c,
                        NewCell(row, Resolve(Conflict(calls), columns, present), proposed, c))
    decreases |calls|
  {
    var asked, stored := Cell(proposed, c), Cell(row, c);
    if calls == [] {
      assert LastOf(Sayings(calls, asked, stored, c), None);
    } else {
      var front, last := calls[..|calls| - 1], calls[|calls| - 1];
      ResolvedIsDecided(front, row, proposed, columns, present, c);
      ResolvedOneMore(Conflict(front), last, row, proposed, columns, present, c);
      DecidedOneMore(calls, asked, stored, c, NewCell(row, Resolve(Conflict(front), columns, present), proposed, c));
    }
  }

  /** Only updated_at and the workspace may change, as the calls decide. */
  ghost predicate RowDecided(calls: seq<Call>, m: Mut, now: int, before: Fields, after: Fields) {
    forall c :: if c == UpdatedAt || c == WorkspaceId
                then DecidedCell(calls, AskedFor(m, now, c), Cell(before, c), c, Cell(after, c))
                else Cell(after, c) == Cell(before, c)
  }

  /** Only this row may differ, as the calls decide. */
  ghost predicate OnlyRowDecided(calls: seq<Call>, m: Mut, now: int, k: int, before: Store.Table, after: Store.Table)
    requires k in before.rows
  {
    && after.next == before.next && after.rows.Keys == before.rows.Keys
    && (forall j :: j in before.rows && j != k ==> after.rows[j] == before.rows[j])
    && RowDecided(calls, m, now, before.rows[k], after.rows[k])
  }

  /** One row is added, which is what the mutation asks for. */
  ghost predicate OneRowAdded(m: Mut, now: int, before: Store.Table, after: Store.Table) {
    exists id :: id !in before.rows && id in after.rows && (m.id.Some? ==> id == m.id.value)
                 && Recorded(m, now, after.rows[id]) && after.rows == before.rows[id := after.rows[id]]
  }

  /** What the mutation asks for conflicts with the stored row k, or with none. */
  ghost predicate Meets(st: Setup, table: Store.Table, m: Mut, calls: seq<Call>, now: int, k: Option<int>) {
    forall target, spec: Store.Spec :: LastTarget(calls, target) && spec.id == m.id && Recorded(m, now, spec.fields) ==>
      Conflicting(st, table, target, spec) == k
  }

  /** What the statement does for one of its rows. */
  ghost predicate RowStep(st: Setup, calls: seq<Call>, m: Mut, now: int, before: Store.Table, after: Store.Table) {
    if calls == [] || Meets(st, before, m, calls, now, None) then OneRowAdded(m, now, before, after)
    else
      exists k :: Meets(st, before, m, calls, now, Some(k)) && k in before.rows
                  && if DoNothing in calls then after == before else OnlyRowDecided(calls, m, now, k, before, after)
  }

  lemma {:induction false} NothingSaid(calls: seq<Call>, stored: Option<Scalar>, c: Column, cell: Option<Scalar>)
    requires c != UpdatedAt && c != WorkspaceId && DecidedCell(calls, None, stored, c, cell)
    ensures cell == stored
  {}

  /** The immutable columns are all but updated_at and the workspace. */
  lemma {:induction false} ImmutablesAreTheRest(c: Column)
    ensures Immutable(c) <==> c == Id || (TableColumn(c) && c != UpdatedAt && c != WorkspaceId)
  {}

  /** A clause that spares immutable columns keeps the row under its id. */
  lemma {:induction false} UpsertReplaces(st: Setup, table: Store.Table, clause: Clause, spec: Store.Spec, k: int)
    requires clause.DoUpdate? && Spares(clause.assigns)
    requires Conflicting(st, table, clause.target, spec) == Some(k) && Upsert(st, table, clause, spec).Ok?
    ensures k in table.rows
    ensures Upsert(st, table, clause, spec).value ==
            table.(rows := table.rows[k := Assigned(table.rows[k], clause.assigns, spec.fields)])
  {}

  /** The batch proposes the same columns of those that can change for all its rows, and ignores only immutable ones. */
  ghost predicate Proposes(columns: set<Column>, present: set<Column>, proposed: Fields) {
    && (forall c :: c in present ==> Immutable(c))
    && (forall c :: !Immutable(c) ==> (c in columns <==> c in proposed))
  }

  lemma {:induction false} DecidesRow(calls: seq<Call>, m: Mut, now: int, row: Fields, proposed: Fields,
                                      columns: set<Column>, present: set<Column>)
    requires Recorded(m, now, proposed) && Proposes(columns, present, proposed)
    requires Spares(Resolve(Conflict(calls), columns, present))
    ensures RowDecided(calls, m, now, row, Assigned(row, Resolve(Conflict(calls), columns, present), proposed))
  {
    var s := Resolve(Conflict(calls), columns, present);
    forall c
      ensures if c == UpdatedAt || c == WorkspaceId
              then DecidedCell(calls, AskedFor(m, now, c), Cell(row, c), c, NewCell(row, s, proposed, c))
              else NewCell(row, s, proposed, c) == Cell(row, c)
    {
      ImmutablesAreTheRest(c);
      if !Immutable(c) {
        ResolvedIsDecided(calls, row, proposed, columns, present, c);
        assert Cell(proposed, c) == AskedFor(m, now, c);
        if c != UpdatedAt && c != WorkspaceId {
          NothingSaid(calls, Cell(row, c), c, NewCell(row, s, proposed, c));
        }
      }
    }
  }

  lemma {:induction false} ReplacedIsDecided(calls: seq<Call>, m: Mut, now: int, k: int, table: Store.Table, row: Fields)
    requires k in table.rows && RowDecided(calls, m, now, table.rows[k], row)
    ensures OnlyRowDecided(calls, m, now, k, table, table.(rows := table.rows[k := row]))
  {}

  lemma {:induction false} InsertAddsRow(st: Setup, table: Store.Table, m: Mut, now: int, spec: Store.Spec)
    requires spec.id == m.id && Recorded(m, now, spec.fields) && Insert(st, table, spec).Ok?
    ensures OneRowAdded(m, now, table, Insert(st, table, spec).value)
  {}

  /** Target and row are determined by the calls and the mutation, so what is met is, too. */
  lemma {:induction false} MeetsWhatConflicts(st: Setup, table: Store.Table, m: Mut, calls: seq<Call>, now: int,
                                              target: seq<Column>, spec: Store.Spec)
    requires LastTarget(calls, target) && spec.id == m.id && Recorded(m, now, spec.fields)
    ensures forall k :: Meets(st, table, m, calls, now, k) <==> k == Conflicting(st, table, target, spec)
  {
    forall target1, spec1: Store.Spec | LastTarget(calls, target1) && spec1.id == m.id && Recorded(m, now, spec1.fields)
      ensures target1 == target && spec1 == spec
    {
      OneLastTarget(calls, target, target1);
      SameCellsSameRow(spec.fields, spec1.fields);
    }
  }

  lemma {:induction false} RowGoesAsCalled(st: Setup, table: Store.Table, m: Mut, calls: seq<Call>, now: int, spec: Store.Spec,
                                           columns: set<Column>, present: set<Column>)
    requires spec.id == m.id && Recorded(m, now, spec.fields) && Proposes(columns, present, spec.fields)
    requires SparingClause(ClauseOf(Conflict(calls), columns, present))
    requires Upsert(st, table, ClauseOf(Conflict(calls), columns, present), spec).Ok?
    ensures RowStep(st, calls, m, now, table, Upsert(st, table, ClauseOf(Conflict(calls), columns, present), spec).value)
  {
    var clause := ClauseOf(Conflict(calls), columns, present);
    ClauseOfCalls(calls, columns, present);
    if calls == [] {
      InsertAddsRow(st, table, m, now, spec);
    } else {
      MeetsWhatConflicts(st, table, m, calls, now, clause.target, spec);
      match Conflicting(st, table, clause.target, spec)
      case None => InsertAddsRow(st, table, m, now, spec);
      case Some(k) =>
        assert Meets(st, table, m, calls, now, Some(k));
        if DoNothing !in calls {
          UpsertReplaces(st, table, clause, spec, k);
          DecidesRow(calls, m, now, table.rows[k], spec.fields, columns, present);
          ReplacedIsDecided(calls, m, now, k, table, Assigned(table.rows[k], clause.assigns, spec.fields));
        }
    }
  }

  // ----- whole statements -----

  /** The tables before each row of a statement, and after the last. */
  ghost predicate Chain(st: Setup, clause: Clause, specs: seq<Store.Spec>, tables: seq<Store.Table>) {
    && |tables| == |specs| + 1
    && forall i :: 0 <= i < |specs| ==> Upsert(st, tables[i], clause, specs[i]) == Ok(tables[i + 1])
  }

  lemma {:induction false} ChainOneMore(st: Setup, clause: Clause, specs: seq<Store.Spec>, tables: seq<Store.Table>,
                                        last: Store.Spec, after: Store.Table)
    requires Chain(st, clause, specs, tables) && Upsert(st, tables[|specs|], clause, last) == Ok(after)
    ensures Chain(st, clause, specs + [last], tables + [after])
  {}

  lemma {:induction false} StatementTables(st: Setup, table: Store.Table, clause: Clause, specs: seq<Store.Spec>)
    returns (tables: seq<Store.Table>)
    requires UpsertAll(st, table, clause, specs).Ok?
    ensures Chain(st, clause, specs, tables)
    ensures tables[0] == table && tables[|specs|] == UpsertAll(st, table, clause, specs).value
    decreases |specs|
  {
    if specs == [] {
      tables := [table];
    } else {
      var front, last := specs[..|specs| - 1], specs[|specs| - 1];
      var after := UpsertAll(st, table, clause, specs).value;
      tables := StatementTables(st, table, clause, front);
      ChainOneMore(st, clause, front, tables, last, after);
      assert front + [last] == specs;
      tables := tables + [after];
    }
  }

  lemma {:induction false} RowsGoAsCalled(st: Setup, ms: seq<Mut>, calls: seq<Call>, now: int, specs: seq<Store.Spec>,
                                          columns: set<Column>, present: set<Column>, tables: seq<Store.Table>)
    requires RecordedAll(ms, now, specs) && SparingClause(ClauseOf(Conflict(calls), columns, present))
    requires forall i :: 0 <= i < |specs| ==> Proposes(columns, present, specs[i].fields)
    requires Chain(st, ClauseOf(Conflict(calls), columns, present), specs, tables)
    ensures forall i :: 0 <= i < |ms| ==> RowStep(st, calls, ms[i], now, tables[i], tables[i + 1])
  {
    forall i | 0 <= i < |ms| ensures RowStep(st, calls, ms[i], now, tables[i], tables[i + 1]) {
      assert Upsert(st, tables[i], ClauseOf(Conflict(calls), columns, present), specs[i]) == Ok(tables[i + 1]);
      RowGoesAsCalled(st, tables[i], ms[i], calls, now, specs[i], columns, present);
    }
  }

  /** The row of a mutation without a fault has both columns that can change, and only columns of the table. */
  ghost predicate SentRow(fields: Fields) {
    UpdatedAt in fields && WorkspaceId in fields && forall c :: c in fields ==> TableColumn(c)
  }

  lemma {:induction false} FaultlessIsSent(st: Setup, m: Mut, now: int, row: Fields)
    requires Faultless(st, m) && Recorded(m, now, row)
    ensures SentRow(row)
  {
    assert !Faulty(st, m, WorkspaceId);
    assert Cell(row, WorkspaceId) == AskedFor(m, now, WorkspaceId);
    assert Cell(row, UpdatedAt) == AskedFor(m, now, UpdatedAt);
    forall c | c in row ensures TableColumn(c) {
      assert Cell(row, c) == AskedFor(m, now, c);
    }
  }

  lemma {:induction false} BatchProposes(specs: seq<Store.Spec>, present: set<Column>, i: nat)
    requires i < |specs| && (forall j :: 0 <= j < |specs| ==> SentRow(specs[j].fields))
    requires forall c :: c in present ==> Immutable(c)
    ensures Proposes(AllProposed(specs), present, specs[i].fields)
  {
    assert SentRow(specs[i].fields);
    forall c | !Immutable(c) ensures c in AllProposed(specs) <==> c in specs[i].fields {
      ImmutablesAreTheRest(c);
      if c in AllProposed(specs) {
        var j :| 0 <= j < |specs| && c in Proposed(specs[j]);
        assert SentRow(specs[j].fields);
      } else {
        assert c !in Proposed(specs[i]);
      }
    }
  }

  /**
   A successful create, single or bulk, with or without upsert calls, goes row by row: a mutation
   that meets no stored row adds one that is exactly what it asks for. One that meets a stored row
   is skipped if any call said so; otherwise no other row changes, and of that row only updated_at
   and the workspace, each as the last call that concerns it says.
   */
  lemma {:induction false} CreateGoesRowByRow(st: Setup, table: Store.Table, ms: seq<Mut>, calls: seq<Call>, now: int)
    returns (tables: seq<Store.Table>)
    requires Outcome(st, table, Create(ms, calls, now)).Ok?
    ensures |tables| == |ms| + 1 && tables[0] == table && tables[|ms|] == Outcome(st, table, Create(ms, calls, now)).value
    ensures forall i :: 0 <= i < |ms| ==> RowStep(st, calls, ms[i], now, tables[i], tables[i + 1])
  {
    var full := AllWithTimes(ms, now);
    var specs := SpecsOf(full);
    var columns, present := AllProposed(specs), Present(full);
    if ms == [] {
      tables := [table];
    } else {
      tables := StatementTables(st, table, ClauseOf(Conflict(calls), columns, present), specs);
      TypedClauseSpares(full, specs, calls);
      SpecsRecord(ms, now);
      forall i | 0 <= i < |ms| ensures SentRow(specs[i].fields) {
        CreatedIsFaultless(st, table, ms, calls, now, i);
        FaultlessIsSent(st, ms[i], now, specs[i].fields);
      }
      forall i | 0 <= i < |ms| ensures Proposes(columns, present, specs[i].fields) {
        BatchProposes(specs, present, i);
      }
      RowsGoAsCalled(st, ms, calls, now, specs, columns, present, tables);
    }
  }

  /** Every mutation has a row of its own that is exactly what it asks for, and older rows are as before. */
  ghost predicate RecordedUnder(table: Store.Table, after: Store.Table, ms: seq<Mut>, now: int, ids: seq<int>) {
    && |ids| == |ms|
    && (forall k :: 0 <= k < |ms| ==>
          && ids[k] !in table.rows && ids[k] in after.rows && Recorded(ms[k], now, after.rows[ids[k]])
          && (ms[k].id.Some? ==> ids[k] == ms[k].id.value))
    && (forall j, k :: 0 <= j < k < |ms| ==> ids[j] != ids[k])
    && (forall k :: k in table.rows ==> k in after.rows && after.rows[k] == table.rows[k])
    && |after.rows| == |table.rows| + |ms|
  }

  lemma {:induction false} AddedRowsStay(ms: seq<Mut>, now: int, tables: seq<Store.Table>) returns (ids: seq<int>)
    requires |tables| == |ms| + 1 && forall i :: 0 <= i < |ms| ==> OneRowAdded(ms[i], now, tables[i], tables[i + 1])
    ensures RecordedUnder(tables[0], tables[|ms|], ms, now, ids)
    decreases |ms|
  {
    if ms == [] {
      ids := [];
    } else {
      var n := |ms| - 1;
      forall i | 0 <= i < n ensures OneRowAdded(ms[..n][i], now, tables[..n + 1][i], tables[..n + 1][i + 1]) {
        assert OneRowAdded(ms[i], now, tables[i], tables[i + 1]);
      }
      var before := AddedRowsStay(ms[..n], now, tables[..n + 1]);
      ids := OneMoreStays(ms, now, tables[0], tables[n], tables[n + 1], before);
    }
  }

  lemma {:induction false} OneMoreStays(ms: seq<Mut>, now: int, table: Store.Table, before: Store.Table, after: Store.Table,
                                        ids: seq<int>) returns (more: seq<int>)
    requires ms != [] && RecordedUnder(table, before, ms[..|ms| - 1], now, ids)
    requires OneRowAdded(ms[|ms| - 1], now, before, after)
    ensures RecordedUnder(table, after, ms, now, more)
  {
    var id :| id !in before.rows && id in after.rows && (ms[|ms| - 1].id.Some? ==> id == ms[|ms| - 1].id.value)
              && Recorded(ms[|ms| - 1], now, after.rows[id]) && after.rows == before.rows[id := after.rows[id]];
    more := ids + [id];
    forall k | 0 <= k < |ms| - 1
      ensures more[k] == ids[k] && ms[..|ms| - 1][k] == ms[k] && more[k] in before.rows && more[k] != id
    {}
  }

  /** When no row meets a stored one, every mutation has its own new row at the end. */
  lemma {:induction false} CreatesAreRecorded(st: Setup, table: Store.Table, ms: seq<Mut>, calls: seq<Call>, now: int)
    returns (tables: seq<Store.Table>, ids: seq<int>)
    requires Outcome(st, table, Create(ms, calls, now)).Ok?
    ensures |tables| == |ms| + 1 && tables[0] == table && tables[|ms|] == Outcome(st, table, Create(ms, calls, now)).value
    ensures calls == [] || (forall i :: 0 <= i < |ms| ==> Meets(st, tables[i], ms[i], calls, now, None)) ==>
              RecordedUnder(table, Outcome(st, table, Create(ms, calls, now)).value, ms, now, ids)
  {
    tables := CreateGoesRowByRow(st, table, ms, calls, now);
    ids := [];
    if calls == [] || forall i :: 0 <= i < |ms| ==> Meets(st, tables[i], ms[i], calls, now, None) {
      forall i | 0 <= i < |ms| ensures OneRowAdded(ms[i], now, tables[i], tables[i + 1]) {
        assert RowStep(st, calls, ms[i], now, tables[i], tables[i + 1]);
      }
      ids := AddedRowsStay(ms, now, tables);
    }
  }
}
