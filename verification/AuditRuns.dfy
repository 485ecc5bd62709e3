/**
 Saving and updating audit entries on a stored table, and what no sequence of such steps can
 change in a stored row.
 */
module AuditRuns {
  import opened Prelude
  import opened Schema
  import opened AuditUpsert
  import Store
  import RowCreate

  datatype Failure =
    | NoConflictAction
    | Refused(error: Store.Error)
    | ClearsRequiredEdge
    | MissingId
    | InvalidField(column: Column)
    | NotFound
    | BuilderError(code: int)
    | BuilderHasConflict(i: nat)
    | MissingOptions

  /** Finds the stored row a proposed row conflicts with on the target columns. */
  type Index = (map<int, Fields>, seq<Column>, Store.Spec) -> Option<int>

  /** What the database and the schema fix: rules, conflict lookup and field validators. */
  datatype Setup = Setup(rules: Store.Rules, index: Index, valid: RowCreate.Validators)

  // ----- check -----

  function Rules(): seq<RowCreate.Rule> {
    [RowCreate.Rule(CreatedAt, false), RowCreate.Rule(UpdatedAt, false), RowCreate.Rule(WorkspaceId, false),
     RowCreate.Rule(EntryKey, true), RowCreate.Rule(OccurredAt, false), RowCreate.Rule(ActorKind, true),
     RowCreate.Rule(Action, true), RowCreate.Rule(TargetType, true)]
  }

  function Check(valid: RowCreate.Validators, m: Mut): Option<Store.Error> {
    RowCreate.FirstBroken(valid, m.fields, Rules())
  }

  function FirstInvalid(valid: RowCreate.Validators, ms: seq<Mut>): Option<Store.Error> {
    if ms == [] then None
    else if Check(valid, ms[0]).Some? then Check(valid, ms[0])
    else FirstInvalid(valid, ms[1..])
  }

  // ----- writing -----

  /** One stored row is replaced, possibly under another id. */
  function Replace(st: Setup, table: Store.Table, k: int, id: int, row: Fields): Result<Store.Table, Failure>
    requires k in table.rows
  {
    var others := table.rows - {k};
    if id in others then Err(Refused(Store.Constraint("primary key")))
    else if !st.rules(others, row) then Err(Refused(Store.Constraint("rule")))
    else Ok(table.(rows := others[id := row]))
  }

  function Insert(st: Setup, table: Store.Table, spec: Store.Spec): Result<Store.Table, Failure> {
    match Store.Insert(st.rules, table, spec)
    case Err(e) => Err(Refused(Store.Wrap(e)))
    case Ok(i) => Ok(i.table)
  }

  /** The stored row a proposed one conflicts with. */
  function Conflicting(st: Setup, table: Store.Table, target: seq<Column>, spec: Store.Spec): (r: Option<int>)
    ensures r.Some? ==> r.value in table.rows
  {
    var k := st.index(table.rows, target, spec);
    if k.Some? && k.value in table.rows then k else None
  }

  /** INSERT with its conflict clause. */
  function Upsert(st: Setup, table: Store.Table, clause: Clause, spec: Store.Spec): Result<Store.Table, Failure> {
    match clause
    case NoClause => Insert(st, table, spec)
    case NoAction => Err(NoConflictAction)
    case Skip(target) =>
      if Conflicting(st, table, target, spec).Some? then Ok(table) else Insert(st, table, spec)
    case DoUpdate(target, s) =>
      match Conflicting(st, table, target, spec)
      case None => Insert(st, table, spec)
      case Some(k) =>
        Replace(st, table, k, NewId(k, s, spec, table.next), Assigned(table.rows[k], s, spec.fields))
  }

  /** One statement: all rows or none. */
  function UpsertAll(st: Setup, table: Store.Table, clause: Clause, specs: seq<Store.Spec>): Result<Store.Table, Failure>
    decreases |specs|
  {
    if specs == [] then Ok(table)
    else
      match UpsertAll(st, table, clause, specs[..|specs| - 1])
      case Err(e) => Err(e)
      case Ok(t) => Upsert(st, t, clause, specs[|specs| - 1])
  }

  function AllWithTimes(ms: seq<Mut>, now: int): (r: seq<Mut>)
    ensures |r| == |ms| && forall k :: 0 <= k < |ms| ==> r[k] == WithTimes(ms[k], now)
  {
    seq(|ms|, k requires 0 <= k < |ms| => WithTimes(ms[k], now))
  }

  function SpecsOf(ms: seq<Mut>): (r: seq<Store.Spec>)
    ensures |r| == |ms| && forall k :: 0 <= k < |ms| ==> r[k] == SpecOf(ms[k])
  {
    seq(|ms|, k requires 0 <= k < |ms| => SpecOf(ms[k]))
  }

  /** The batch of the mutations as they finally are; the conflict list is resolved on them. */
  function WriteBatch(st: Setup, table: Store.Table, ms: seq<Mut>, os: seq<ConflictOption>): Result<Store.Table, Failure> {
    if ms == [] then Ok(table)
    else UpsertAll(st, table, ClauseOf(os, AllProposed(SpecsOf(ms)), Present(ms)), SpecsOf(ms))
  }

  /** `defaults`, `check` for every builder in order, and the batch; one builder is a batch of one. */
  function SaveAll(st: Setup, table: Store.Table, ms: seq<Mut>, os: seq<ConflictOption>, now: int): Result<Store.Table, Failure> {
    var full := AllWithTimes(ms, now);
    match FirstInvalid(st.valid, full)
    case Some(e) => Err(Refused(e))
    case None => WriteBatch(st, table, full, os)
  }

  // ----- updates -----

  /** The columns `sqlSave` of an update clears when the mutation does. */
  const CLEARABLE: seq<Column> := [ActorId, ActorName, TargetId, TargetName, Diff, RequestId, Ip, UserAgent]

  predicate Clearable(c: Column) {
    match c
    case ActorId | ActorName | TargetId | TargetName | Diff | RequestId | Ip | UserAgent => true
    case _ => false
  }

  lemma {:induction false} ClearablesListed()
    ensures forall c :: c in CLEARABLE <==> Clearable(c)
  {}

  /** What an update statement writes: a value, or null. */
  datatype UpdateSpec = UpdateSpec(sets: Fields, clears: set<Column>)

  function ClearedOf(m: Mut): (r: set<Column>)
    ensures forall c :: c in r <==> Clearable(c) && c in m.cleared
  {
    ClearablesListed();
    set c | c in CLEARABLE && c in m.cleared
  }

  function SetOf(m: Mut): (r: Fields)
    ensures forall c :: c in r ==> c == UpdatedAt || c == WorkspaceId
  {
    map c | c in m.fields && (c == UpdatedAt || c == WorkspaceId) :: m.fields[c]
  }

  lemma {:induction false} SetInTwoSteps(m: Mut)
    ensures var first: Fields := if UpdatedAt in m.fields then map[UpdatedAt := m.fields[UpdatedAt]] else map[];
            SetOf(m) == if WorkspaceId in m.fields then first[WorkspaceId := m.fields[WorkspaceId]] else first
  {}

  /** `sqlSave`: of all the mutation holds, only these columns get into the statement. */
  function UpdateSpecOf(m: Mut): (s: UpdateSpec)
    ensures forall c :: c in s.sets ==> c == UpdatedAt || c == WorkspaceId
    ensures forall c :: c in s.clears <==> (Clearable(c) && c in m.cleared) || (c == WorkspaceId && m.workspaceCleared)
  {
    UpdateSpec(SetOf(m), ClearedOf(m) + if m.workspaceCleared then {WorkspaceId} else {})
  }

  function Touched(m: Mut, now: int): Mut {
    if UpdatedAt in m.fields then m else m.(fields := m.fields[UpdatedAt := TimeV(now)])
  }

  function Updated(row: Fields, s: UpdateSpec): Fields {
    (row - s.clears) + s.sets
  }

  predicate ClearsAndSets(m: Mut) {
    m.workspaceCleared && WorkspaceId in m.fields
  }

  type Where = (int, Fields) -> bool

  /** UPDATE on every matching row, or on none. */
  function WriteMany(st: Setup, table: Store.Table, matches: Where, s: UpdateSpec): Result<Store.Table, Failure> {
    if exists k :: k in table.rows && matches(k, table.rows[k]) && !st.rules(table.rows - {k}, Updated(table.rows[k], s))
    then Err(Refused(Store.Constraint("rule")))
    else
      Ok(table.(rows := map k | k in table.rows ::
                  if matches(k, table.rows[k]) then Updated(table.rows[k], s) else table.rows[k]))
  }

  function WriteOne(st: Setup, table: Store.Table, matches: Where, k: int, s: UpdateSpec): Result<Store.Table, Failure> {
    if k !in table.rows || !matches(k, table.rows[k]) then Err(NotFound)
    else Replace(st, table, k, k, Updated(table.rows[k], s))
  }

  /** `AuditEntryUpdate.Save`. */
  function UpdateMany(st: Setup, table: Store.Table, matches: Where, m: Mut, now: int): Result<Store.Table, Failure> {
    if ClearsAndSets(m) then Err(ClearsRequiredEdge)
    else WriteMany(st, table, matches, UpdateSpecOf(Touched(m, now)))
  }

  function FirstUnknown(fields: seq<Column>): Option<Column> {
    if fields == [] then None
    else if Stored(fields[0]) || fields[0] == Id then FirstUnknown(fields[1..])
    else Some(fields[0])
  }

  /** `AuditEntryUpdateOne.Save`, with the checks in its order. */
  function UpdateOne(st: Setup, table: Store.Table, matches: Where, fields: seq<Column>, m: Mut, now: int): Result<Store.Table, Failure> {
    if ClearsAndSets(m) then Err(ClearsRequiredEdge)
    else if m.id.None? then Err(MissingId)
    else if FirstUnknown(fields).Some? then Err(InvalidField(FirstUnknown(fields).value))
    else WriteOne(st, table, matches, m.id.value, UpdateSpecOf(Touched(m, now)))
  }

  // ----- runs -----

  /**
   A step: mutations hold whatever hooks and setters left in them; conflict lists come from
   typed calls. `CreateReplaced` is a bulk create whose hooks put these mutations in the place
   of the checked ones, so that no check or default has touched them.
   */
  datatype Step =
    | Create(ms: seq<Mut>, calls: seq<Call>, now: int)
    | CreateReplaced(ms: seq<Mut>, calls: seq<Call>)
    | Update(matches: Where, m: Mut, now: int)
    | UpdateById(matches: Where, fields: seq<Column>, m: Mut, now: int)

  function Outcome(st: Setup, table: Store.Table, step: Step): Result<Store.Table, Failure> {
    match step
    case Create(ms, calls, now) => SaveAll(st, table, ms, Conflict(calls), now)
    case CreateReplaced(ms, calls) => WriteBatch(st, table, ms, Conflict(calls))
    case Update(matches, m, now) => UpdateMany(st, table, matches, m, now)
    case UpdateById(matches, fields, m, now) => UpdateOne(st, table, matches, fields, m, now)
  }

  /** A failed step leaves the table as it was. */
  function After(st: Setup, table: Store.Table, step: Step): Store.Table {
    match Outcome(st, table, step)
    case Ok(t) => t
    case Err(_) => table
  }

  function AfterAll(st: Setup, table: Store.Table, steps: seq<Step>): Store.Table {
    if steps == [] then table else After(st, AfterAll(st, table, steps[..|steps| - 1]), steps[|steps| - 1])
  }

  /** A successful update reaches row k and its mutation clears the nullable column c. */
  ghost predicate Clears(st: Setup, table: Store.Table, step: Step, k: int, c: Column) {
    && k in table.rows && Clearable(c) && (step.Update? || step.UpdateById?) && c in step.m.cleared
    && step.matches(k, table.rows[k])
    && (step.UpdateById? ==> step.m.id == Some(k))
    && Outcome(st, table, step).Ok?
  }

  ghost predicate EverCleared(st: Setup, table: Store.Table, steps: seq<Step>, k: int, c: Column) {
    steps != [] &&
    (EverCleared(st, table, steps[..|steps| - 1], k, c)
     || Clears(st, AfterAll(st, table, steps[..|steps| - 1]), steps[|steps| - 1], k, c))
  }

  /** Every stored row is still there and shows the same value in an immutable column. */
  ghost predicate Keeps(before: Store.Table, after: Store.Table) {
    forall k :: k in before.rows ==> RowKept(before, after, k)
  }

  ghost predicate RowKept(before: Store.Table, after: Store.Table, k: int)
    requires k in before.rows
  {
    k in after.rows && SameImmutables(before.rows[k], after.rows[k])
  }

  ghost predicate SameImmutables(a: Fields, b: Fields) {
    forall c :: Immutable(c) ==> Cell(a, c) == Cell(b, c)
  }

  ghost predicate SparingClause(clause: Clause) {
    clause.DoUpdate? ==> Spares(clause.assigns)
  }

  lemma {:induction false} UpsertKeeps(st: Setup, table: Store.Table, clause: Clause, spec: Store.Spec)
    requires SparingClause(clause) && Upsert(st, table, clause, spec).Ok?
    ensures Keeps(table, Upsert(st, table, clause, spec).value)
  {}

  lemma {:induction false} KeepsTransitive(a: Store.Table, b: Store.Table, c: Store.Table)
    requires Keeps(a, b) && Keeps(b, c)
    ensures Keeps(a, c)
  {}

  lemma {:induction false} UpsertAllKeeps(st: Setup, table: Store.Table, clause: Clause, specs: seq<Store.Spec>)
    requires SparingClause(clause) && UpsertAll(st, table, clause, specs).Ok?
    ensures Keeps(table, UpsertAll(st, table, clause, specs).value)
    decreases |specs|
  {
    if specs != [] {
      var front := specs[..|specs| - 1];
      UpsertAllKeeps(st, table, clause, front);
      var t := UpsertAll(st, table, clause, front).value;
      UpsertKeeps(st, t, clause, specs[|specs| - 1]);
      KeepsTransitive(table, t, UpsertAll(st, table, clause, specs).value);
    }
  }

  lemma {:induction false} TypedClauseSpares(ms: seq<Mut>, specs: seq<Store.Spec>, calls: seq<Call>)
    requires |specs| == |ms| && forall k :: 0 <= k < |ms| ==> specs[k] == SpecOf(ms[k])
    ensures SparingClause(ClauseOf(Conflict(calls), AllProposed(specs), Present(ms)))
  {
    ProposedImmutablesArePresent(ms, specs);
    TypedCallsSpareImmutables(calls, AllProposed(specs), Present(ms));
  }

  /** Any create, upsert or bulk upsert built with typed calls, whatever the mutations hold. */
  lemma {:induction false} WriteKeeps(st: Setup, table: Store.Table, ms: seq<Mut>, calls: seq<Call>)
    requires WriteBatch(st, table, ms, Conflict(calls)).Ok?
    ensures Keeps(table, WriteBatch(st, table, ms, Conflict(calls)).value)
  {
    var specs := SpecsOf(ms);
    if ms != [] {
      TypedClauseSpares(ms, specs, calls);
      UpsertAllKeeps(st, table, ClauseOf(Conflict(calls), AllProposed(specs), Present(ms)), specs);
    }
  }

  lemma {:induction false} CreateKeeps(st: Setup, table: Store.Table, step: Step)
    requires step.Create? || step.CreateReplaced?
    ensures Keeps(table, After(st, table, step))
  {
    if Outcome(st, table, step).Ok? {
      WriteKeeps(st, table, if step.Create? then AllWithTimes(step.ms, step.now) else step.ms, step.calls);
    }
  }

  lemma {:induction false} UpdatedCell(row: Fields, m: Mut, c: Column)
    requires Immutable(c)
    ensures Cell(Updated(row, UpdateSpecOf(m)), c) == if Clearable(c) && c in m.cleared then None else Cell(row, c)
  {}

  /** One step: every row stays, and an immutable column changes exactly when an update clears it. */
  lemma {:induction false} StepKeeps(st: Setup, table: Store.Table, step: Step, k: int, c: Column)
    requires k in table.rows && Immutable(c)
    ensures var after := After(st, table, step);
            && k in after.rows
            && Cell(after.rows[k], c) == if Clears(st, table, step, k, c) then None else Cell(table.rows[k], c)
  {
    match step
    case Create(_, _, _) =>
      CreateKeeps(st, table, step);
      assert RowKept(table, After(st, table, step), k);
    case CreateReplaced(_, _) =>
      CreateKeeps(st, table, step);
      assert RowKept(table, After(st, table, step), k);
    case Update(_, m, now) =>
      UpdatedCell(table.rows[k], Touched(m, now), c);
    case UpdateById(_, _, m, now) =>
      UpdatedCell(table.rows[k], Touched(m, now), c);
  }

  /**
   Immutable columns survive every run: after any sequence of creates, upserts, bulk upserts and
   updates, a stored row is still stored under its id, and an immutable column of it is what it
   was, unless some update that reached the row cleared it, and then it is null.
   */
  lemma {:induction false} RunKeeps(st: Setup, table: Store.Table, steps: seq<Step>, k: int, c: Column)
    requires k in table.rows && Immutable(c)
    ensures var after := AfterAll(st, table, steps);
            && k in after.rows
            && Cell(after.rows[k], c) == if EverCleared(st, table, steps, k, c) then None else Cell(table.rows[k], c)
  {
    if steps != [] {
      var front := steps[..|steps| - 1];
      RunKeeps(st, table, front, k, c);
      StepKeeps(st, AfterAll(st, table, front), steps[|steps| - 1], k, c);
    }
  }

  /** The required ones (created_at, entry_key, occurred_at, actor_kind, action, target_type) have no way to change at all. */
  lemma {:induction false} RequiredImmutablesSurvive(st: Setup, table: Store.Table, steps: seq<Step>, k: int, c: Column)
    requires k in table.rows && c in {CreatedAt, EntryKey, OccurredAt, ActorKind, Action, TargetType}
    ensures k in AfterAll(st, table, steps).rows
    ensures Cell(AfterAll(st, table, steps).rows[k], c) == Cell(table.rows[k], c)
  {
    RunKeeps(st, table, steps, k, c);
    NeverCleared(st, table, steps, k, c);
  }

  lemma {:induction false} NeverCleared(st: Setup, table: Store.Table, steps: seq<Step>, k: int, c: Column)
    requires !Clearable(c)
    ensures !EverCleared(st, table, steps, k, c)
  {
    if steps != [] {
      NeverCleared(st, table, steps[..|steps| - 1], k, c);
    }
  }
}
