/** What updates of audit entries leave in the table, and when they are refused. */
module AuditUpdates {
  import opened Prelude
  import opened Schema
  import opened AuditUpsert
  import opened AuditRuns
  import opened AuditRows
  import Store

  /** The update's condition, and its id for a single entry, select row k. */
  predicate Reaches(step: Step, table: Store.Table, k: int)
    requires step.Update? || step.UpdateById?
  {
    k in table.rows && step.matches(k, table.rows[k]) && (step.UpdateById? ==> step.m.id == Some(k))
  }

  /** A cell after an update that reaches its row. */
  function UpdatedTo(m: Mut, now: int, stored: Option<Scalar>, c: Column): Option<Scalar> {
    match c
    case UpdatedAt => Some(if UpdatedAt in m.fields then m.fields[UpdatedAt] else TimeV(now))
    case WorkspaceId =>
      if WorkspaceId in m.fields then Some(m.fields[WorkspaceId]) else if m.workspaceCleared then None else stored
    case ActorId | ActorName | TargetId | TargetName | Diff | RequestId | Ip | UserAgent =>
      if c in m.cleared then None else stored
    case _ => stored
  }

  /**
   A successful update changes exactly the rows it reaches: updated_at and the workspace get the
   mutation's value, the time of the save or null, cleared nullable columns get null, and every
   other cell stays.
   */
  lemma {:induction false} UpdatesWrite(st: Setup, table: Store.Table, step: Step, k: int, c: Column)
    requires (step.Update? || step.UpdateById?) && Outcome(st, table, step).Ok? && k in table.rows
    ensures var after := Outcome(st, table, step).value;
            && after.rows.Keys == table.rows.Keys
            && if Reaches(step, table, k)
               then Cell(after.rows[k], c) == UpdatedTo(step.m, step.now, Cell(table.rows[k], c), c)
               else after.rows[k] == table.rows[k]
  {
    UpdatedCells(table.rows[k], step.m, step.now, c);
  }

  lemma {:induction false} WrittenCell(row: Fields, s: UpdateSpec, c: Column)
    ensures Cell(Updated(row, s), c) == if c in s.sets then Some(s.sets[c]) else if c in s.clears then None else Cell(row, c)
  {}

  lemma {:induction false} UpdatedCells(row: Fields, m: Mut, now: int, c: Column)
    requires !ClearsAndSets(m)
    ensures Cell(Updated(row, UpdateSpecOf(Touched(m, now))), c) == UpdatedTo(m, now, Cell(row, c), c)
  {
    WrittenCell(row, UpdateSpecOf(Touched(m, now)), c);
  }

  lemma {:induction false} FirstUnknownIs(fields: seq<Column>)
    ensures var c := FirstUnknown(fields);
            if c.None? then forall d :: d in fields ==> d == Id || TableColumn(d)
            else c.value != Id && !TableColumn(c.value) && FirstAmong(fields, c.value)
    decreases |fields|
  {
    if fields != [] && (Stored(fields[0]) || fields[0] == Id) {
      FirstUnknownIs(fields[1..]);
      if FirstUnknown(fields[1..]).Some? {
        var k :| 0 <= k < |fields[1..]| && fields[1..][k] == FirstUnknown(fields[1..]).value
                 && forall j :: 0 <= j < k ==> fields[1..][j] == Id || TableColumn(fields[1..][j]);
        assert fields[k + 1] == FirstUnknown(fields).value;
        assert forall j :: 0 < j < k + 1 ==> fields[j] == fields[1..][j - 1];
      }
    }
  }

  /** c is the first of the fields that is neither the id nor a column. */
  ghost predicate FirstAmong(fields: seq<Column>, c: Column) {
    exists k :: 0 <= k < |fields| && fields[k] == c && forall j :: 0 <= j < k ==> fields[j] == Id || TableColumn(fields[j])
  }

  ghost predicate UpdatedRow(m: Mut, now: int, before: Fields, after: Fields) {
    forall c :: Cell(after, c) == UpdatedTo(m, now, Cell(before, c), c)
  }

  /** The rules the rest of the table has for a row refuse what the update makes of row k. */
  ghost predicate RuledOut(st: Setup, table: Store.Table, step: Step, k: int)
    requires (step.Update? || step.UpdateById?) && k in table.rows
  {
    forall row :: UpdatedRow(step.m, step.now, table.rows[k], row) ==> !st.rules(table.rows - {k}, row)
  }

  lemma {:induction false} RuledOutMeans(st: Setup, table: Store.Table, step: Step, k: int)
    requires (step.Update? || step.UpdateById?) && k in table.rows && !ClearsAndSets(step.m)
    ensures RuledOut(st, table, step, k) <==>
            !st.rules(table.rows - {k}, Updated(table.rows[k], UpdateSpecOf(Touched(step.m, step.now))))
  {
    var row := Updated(table.rows[k], UpdateSpecOf(Touched(step.m, step.now)));
    forall c ensures Cell(row, c) == UpdatedTo(step.m, step.now, Cell(table.rows[k], c), c) {
      UpdatedCells(table.rows[k], step.m, step.now, c);
    }
    forall other | UpdatedRow(step.m, step.now, table.rows[k], other) ensures other == row {
      SameCellsSameRow(other, row);
    }
  }

  /**
   When an update fails: it clears the workspace and sets it; for one entry it has no id, selects
   something that is no column, or finds no such row; or the rules refuse a row it reaches.
   */
  lemma {:induction false} UpdateRefusals(st: Setup, table: Store.Table, step: Step)
    requires step.Update? || step.UpdateById?
    ensures var r := Outcome(st, table, step);
            if step.m.workspaceCleared && WorkspaceId in step.m.fields then r == Err(ClearsRequiredEdge)
            else if step.UpdateById? && step.m.id.None? then r == Err(MissingId)
            else if step.UpdateById? && exists c :: c in step.fields && c != Id && !TableColumn(c) then
              r.Err? && r.error.InvalidField? && FirstAmong(step.fields, r.error.column) && !TableColumn(r.error.column)
            else if step.UpdateById? && forall k :: k in table.rows ==> !Reaches(step, table, k) then r == Err(NotFound)
            else if exists k :: Reaches(step, table, k) && RuledOut(st, table, step, k) then
              r == Err(Refused(Store.Constraint("rule")))
            else r.Ok?
  {
    if !ClearsAndSets(step.m) {
      forall k | k in table.rows
        ensures RuledOut(st, table, step, k) <==>
                !st.rules(table.rows - {k}, Updated(table.rows[k], UpdateSpecOf(Touched(step.m, step.now))))
      {
        RuledOutMeans(st, table, step, k);
      }
      if step.UpdateById? {
        FirstUnknownIs(step.fields);
      }
    }
  }
}
