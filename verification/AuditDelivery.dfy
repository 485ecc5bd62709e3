/** The audit subscriber's use of the upsert: at-least-once delivery stores an entry once. */
module AuditDelivery {
  import opened Prelude
  import opened Schema
  import opened AuditUpsert
  import opened AuditRuns
  import opened AuditRows
  import Store

  const KEY: seq<Column> := [WorkspaceId, EntryKey]

  /** `OnConflictColumns(workspace_id, entry_key).Ignore()`. */
  const ONCE: seq<Call> := [OnConflictColumns(KEY), Ignore]

  predicate SameKey(row: Fields, proposed: Fields, target: seq<Column>) {
    forall j :: 0 <= j < |target| ==>
      target[j] in proposed && Cell(row, target[j]) == Some(proposed[target[j]])
  }

  /** The conflict lookup finds a row with the target's values, and one if there is any. */
  ghost predicate FindsConflicts(st: Setup) {
    forall rows, target, spec ::
      match st.index(rows, target, spec)
      case Some(k) => k in rows && SameKey(rows[k], spec.fields, target)
      case None => forall k :: k in rows ==> !SameKey(rows[k], spec.fields, target)
  }

  /** Two mutations for one envelope: the same workspace and entry key. */
  predicate SameEntry(a: Mut, b: Mut) {
    && WorkspaceId in a.fields && WorkspaceId in b.fields && a.fields[WorkspaceId] == b.fields[WorkspaceId]
    && EntryKey in a.fields && EntryKey in b.fields && a.fields[EntryKey] == b.fields[EntryKey]
  }

  ghost predicate HasEntry(rows: map<int, Fields>, m: Mut) {
    exists k :: k in rows && IsEntry(rows[k], m)
  }

  predicate IsEntry(row: Fields, m: Mut) {
    && WorkspaceId in m.fields && Cell(row, WorkspaceId) == Some(m.fields[WorkspaceId])
    && EntryKey in m.fields && Cell(row, EntryKey) == Some(m.fields[EntryKey])
  }

  lemma {:induction false} KeyIsEntry(row: Fields, m: Mut)
    requires WorkspaceId in m.fields && EntryKey in m.fields
    ensures SameKey(row, SpecOf(m).fields, KEY) <==> IsEntry(row, m)
  {
    assert KEY[0] == WorkspaceId && KEY[1] == EntryKey;
  }

  lemma {:induction false} OnceClause(columns: set<Column>, present: set<Column>)
    ensures ClauseOf(Conflict(ONCE), columns, present) == DoUpdate(KEY, All(columns, Self))
  {
    var front := ONCE[..1];
    assert ONCE[..|ONCE| - 1] == front && front == [OnConflictColumns(KEY)] && front[..0] == [];
    assert Conflict(front[..0]) == [];
    assert Conflict(front) == [] + [Target(KEY)] == [Target(KEY)];
    assert Conflict(ONCE) == [Target(KEY)] + [IgnoreAll] == [Target(KEY), IgnoreAll];
    ResolveAppends([Target(KEY)], IgnoreAll, columns, present);
    ResolveAppends([], Target(KEY), columns, present);
    assert [] + [Target(KEY)] == [Target(KEY)];
    var os := [Target(KEY), IgnoreAll];
    assert os[..1] == [Target(KEY)] && os[1] == IgnoreAll;
    assert Resolve([], columns, present) == map[];
    assert Resolve(os, columns, present) == map[] + All(columns, Self) == All(columns, Self);
    assert TargetOf(os) == TargetOf([Target(KEY)]) == KEY;
  }

  /** Setting every column to itself changes no row. */
  lemma {:induction false} IgnoreChangesNothing(st: Setup, table: Store.Table, columns: set<Column>, spec: Store.Spec)
    requires Conflicting(st, table, KEY, spec).Some?
    ensures var r := Upsert(st, table, DoUpdate(KEY, All(columns, Self)), spec); r.Ok? ==> r.value == table
  {
    var k := Conflicting(st, table, KEY, spec).value;
    SameCellsSameRow(Assigned(table.rows[k], All(columns, Self), spec.fields), table.rows[k]);
  }

  lemma {:induction false} SingleCreate(st: Setup, table: Store.Table, m: Mut, now: int)
    ensures var full := WithTimes(m, now);
            var clause := DoUpdate(KEY, All(Proposed(SpecOf(full)), Self));
            Outcome(st, table, Create([m], ONCE, now)).Ok? ==>
              Outcome(st, table, Create([m], ONCE, now)) == Upsert(st, table, clause, SpecOf(full))
  {
    var full := AllWithTimes([m], now);
    var specs := SpecsOf(full);
    OnceClause(AllProposed(specs), Present(full));
    assert specs[..0] == [] && UpsertAll(st, table, ClauseOf(Conflict(ONCE), AllProposed(specs), Present(full)), []) == Ok(table);
    assert AllProposed(specs) == Proposed(specs[0]) by {
      assert specs[1..] == [];
    }
  }

  /** A create that succeeds had the required columns. */
  lemma {:induction false} SuccessHasKey(st: Setup, table: Store.Table, m: Mut, calls: seq<Call>, now: int)
    requires Outcome(st, table, Create([m], calls, now)).Ok?
    ensures WorkspaceId in m.fields && EntryKey in m.fields
  {
    CreatedIsFaultless(st, table, [m], calls, now, 0);
    assert !Faulty(st, m, WorkspaceId) && !Faulty(st, m, EntryKey);
  }

  /** Every row is still there, as it was. */
  ghost predicate OnlyAdds(a: map<int, Fields>, b: map<int, Fields>) {
    forall k :: k in a ==> k in b && b[k] == a[k]
  }

  /** Some new row is exactly what the mutation asks for, and every older one is still there as it was. */
  ghost predicate NewlyRecorded(before: map<int, Fields>, after: map<int, Fields>, m: Mut, now: int) {
    OnlyAdds(before, after) && exists k :: k in after && k !in before && Recorded(m, now, after[k])
  }

  lemma {:induction false} NewEntryIsRecorded(st: Setup, table: Store.Table, m: Mut, now: int)
    requires FindsConflicts(st) && !HasEntry(table.rows, m)
    requires Outcome(st, table, Create([m], ONCE, now)).Ok?
    ensures NewlyRecorded(table.rows, Outcome(st, table, Create([m], ONCE, now)).value.rows, m, now)
  {
    SingleCreate(st, table, m, now);
    SuccessHasKey(st, table, m, ONCE, now);
    SpecRecords(m, now);
    var full := WithTimes(m, now);
    var spec := SpecOf(full);
    forall k | k in table.rows ensures !SameKey(table.rows[k], spec.fields, KEY) {
      KeyIsEntry(table.rows[k], full);
      assert IsEntry(table.rows[k], full) <==> IsEntry(table.rows[k], m);
    }
    var id := if spec.id.Some? then spec.id.value else table.next;
    assert Insert(st, table, spec).value.rows[id] == spec.fields;
  }

  /**
   A delivery that succeeds leaves its entry stored: an entry that was there is left as it is, and
   a new one is stored exactly as its mutation asks.
   */
  lemma {:induction false} DeliveredIsStored(st: Setup, table: Store.Table, m: Mut, now: int)
    requires FindsConflicts(st) && Outcome(st, table, Create([m], ONCE, now)).Ok?
    ensures var after := Outcome(st, table, Create([m], ONCE, now)).value;
            && HasEntry(after.rows, m)
            && if HasEntry(table.rows, m) then after == table else NewlyRecorded(table.rows, after.rows, m, now)
  {
    SuccessHasKey(st, table, m, ONCE, now);
    if HasEntry(table.rows, m) {
      RedeliveryChangesNothing(st, table, m, m, now);
    } else {
      NewEntryIsRecorded(st, table, m, now);
      var rows := Outcome(st, table, Create([m], ONCE, now)).value.rows;
      var k :| k in rows && k !in table.rows && Recorded(m, now, rows[k]);
      assert Cell(rows[k], WorkspaceId) == AskedFor(m, now, WorkspaceId);
      assert Cell(rows[k], EntryKey) == AskedFor(m, now, EntryKey);
      assert IsEntry(rows[k], m);
    }
  }

  /** A delivery of an entry already stored leaves the table as it is, whether it succeeds or fails. */
  lemma {:induction false} RedeliveryChangesNothing(st: Setup, table: Store.Table, m: Mut, again: Mut, now: int)
    requires FindsConflicts(st) && SameEntry(m, again) && HasEntry(table.rows, m)
    ensures After(st, table, Create([again], ONCE, now)) == table
  {
    var full := WithTimes(again, now);
    var spec := SpecOf(full);
    var k :| k in table.rows && IsEntry(table.rows[k], m);
    KeyIsEntry(table.rows[k], full);
    assert Conflicting(st, table, KEY, spec).Some?;
    IgnoreChangesNothing(st, table, Proposed(spec), spec);
    SingleCreate(st, table, again, now);
  }

  /**
   Redelivery writes an entry once: after a delivery has succeeded, any number of deliveries
   with the same workspace and key, whatever else they carry, leave the table unchanged.
   */
  lemma {:induction false} EntryIsWrittenOnce(st: Setup, table: Store.Table, m: Mut, now: int, again: seq<Step>)
    requires FindsConflicts(st) && Outcome(st, table, Create([m], ONCE, now)).Ok?
    requires forall j :: 0 <= j < |again| ==> IsRedelivery(again[j], m)
    ensures AfterAll(st, Outcome(st, table, Create([m], ONCE, now)).value, again)
         == Outcome(st, table, Create([m], ONCE, now)).value
    decreases |again|
  {
    if again != [] {
      EntryIsWrittenOnce(st, table, m, now, again[..|again| - 1]);
      DeliveredIsStored(st, table, m, now);
      var last := again[|again| - 1];
      assert last.ms == [last.ms[0]];
      RedeliveryChangesNothing(st, Outcome(st, table, Create([m], ONCE, now)).value, m, last.ms[0], last.now);
    }
  }

  predicate IsRedelivery(step: Step, m: Mut) {
    step.Create? && |step.ms| == 1 && step.calls == ONCE && SameEntry(m, step.ms[0])
  }

  // ----- any deliveries in any order -----

  predicate IsDelivery(step: Step) {
    step.Create? && |step.ms| == 1 && step.calls == ONCE
  }

  ghost predicate SamePair(a: Fields, b: Fields) {
    && WorkspaceId in a && WorkspaceId in b && a[WorkspaceId] == b[WorkspaceId]
    && EntryKey in a && EntryKey in b && a[EntryKey] == b[EntryKey]
  }

  /** No two stored rows hold the same workspace and entry key. */
  ghost predicate UniquePairs(rows: map<int, Fields>) {
    forall j, k :: j in rows && k in rows && j != k ==> !SamePair(rows[j], rows[k])
  }

  /** A delivery either adds its row, whose pair nobody had, or changes nothing. */
  lemma {:induction false} DeliveryAddsNewPair(st: Setup, table: Store.Table, m: Mut, now: int)
    requires FindsConflicts(st) && UniquePairs(table.rows)
    ensures var after := After(st, table, Create([m], ONCE, now)).rows;
            && UniquePairs(after) && OnlyAdds(table.rows, after)
            && (forall k :: k in after && k !in table.rows ==>
                  Outcome(st, table, Create([m], ONCE, now)).Ok? && Recorded(m, now, after[k]))
  {
    var full := WithTimes(m, now);
    var spec := SpecOf(full);
    SingleCreate(st, table, m, now);
    SpecRecords(m, now);
    if Conflicting(st, table, KEY, spec).Some? {
      IgnoreChangesNothing(st, table, Proposed(spec), spec);
    } else if Outcome(st, table, Create([m], ONCE, now)).Ok? {
      InsertedPairIsNew(st, table, spec);
    }
  }

  lemma {:induction false} InsertedPairIsNew(st: Setup, table: Store.Table, spec: Store.Spec)
    requires FindsConflicts(st) && UniquePairs(table.rows) && Conflicting(st, table, KEY, spec).None?
    requires Insert(st, table, spec).Ok?
    ensures var after := Insert(st, table, spec).value.rows;
            && UniquePairs(after) && OnlyAdds(table.rows, after)
            && (forall k :: k in after && k !in table.rows ==> after[k] == spec.fields)
  {}

  /** Delivery j of the run succeeded. */
  ghost predicate Delivered(st: Setup, table: Store.Table, steps: seq<Step>, j: nat)
    requires j < |steps|
  {
    IsDelivery(steps[j]) && Outcome(st, AfterAll(st, table, steps[..j]), steps[j]).Ok?
  }

  /** A row is what some successful delivery of the run asked for. */
  ghost predicate FromDelivery(st: Setup, table: Store.Table, steps: seq<Step>, row: Fields) {
    exists j :: 0 <= j < |steps| && Delivered(st, table, steps, j) && Recorded(steps[j].ms[0], steps[j].now, row)
  }

  /**
   Over any run of deliveries, of any keys in any order, each pair of workspace and entry key is
   held by at most one row, a delivery that succeeded has its entry at the end, and every new row
   is exactly what one of them asked for.
   */
  lemma {:induction false} EachEntryOnce(st: Setup, table: Store.Table, steps: seq<Step>)
    requires FindsConflicts(st) && UniquePairs(table.rows)
    requires forall j :: 0 <= j < |steps| ==> IsDelivery(steps[j])
    ensures var after := AfterAll(st, table, steps).rows;
            && UniquePairs(after) && OnlyAdds(table.rows, after)
            && (forall j :: 0 <= j < |steps| && Delivered(st, table, steps, j) ==> HasEntry(after, steps[j].ms[0]))
            && (forall k :: k in after && k !in table.rows ==> FromDelivery(st, table, steps, after[k]))
    decreases |steps|
  {
    if steps != [] {
      var front, last := steps[..|steps| - 1], steps[|steps| - 1];
      EachEntryOnce(st, table, front);
      var before := AfterAll(st, table, front);
      assert last.ms == [last.ms[0]];
      DeliveryAddsNewPair(st, before, last.ms[0], last.now);
      EntriesStay(st, table, steps);
      NewRowsAreDelivered(st, table, steps);
    }
  }

  lemma {:induction false} EntriesStay(st: Setup, table: Store.Table, steps: seq<Step>)
    requires FindsConflicts(st) && steps != []
    requires var front := steps[..|steps| - 1];
             var before := AfterAll(st, table, front).rows;
             && OnlyAdds(before, AfterAll(st, table, steps).rows)
             && forall j :: 0 <= j < |front| && Delivered(st, table, front, j) ==> HasEntry(before, front[j].ms[0])
    ensures var after := AfterAll(st, table, steps).rows;
            forall j :: 0 <= j < |steps| && Delivered(st, table, steps, j) ==> HasEntry(after, steps[j].ms[0])
  {
    var front, last := steps[..|steps| - 1], steps[|steps| - 1];
    var before, after := AfterAll(st, table, front), AfterAll(st, table, steps).rows;
    forall j | 0 <= j < |steps| && Delivered(st, table, steps, j) ensures HasEntry(after, steps[j].ms[0]) {
      if j < |front| {
        DeliveredBefore(st, table, steps, j);
        StillHasEntry(before.rows, after, front[j].ms[0]);
      } else {
        assert steps[..j] == front && last.ms == [last.ms[0]];
        DeliveredIsStored(st, before, last.ms[0], last.now);
      }
    }
  }

  lemma {:induction false} NewRowsAreDelivered(st: Setup, table: Store.Table, steps: seq<Step>)
    requires steps != [] && IsDelivery(steps[|steps| - 1])
    requires var front, last := steps[..|steps| - 1], steps[|steps| - 1];
             var before, after := AfterAll(st, table, front), AfterAll(st, table, steps).rows;
             && OnlyAdds(before.rows, after)
             && (forall k :: k in before.rows && k !in table.rows ==> FromDelivery(st, table, front, before.rows[k]))
             && (forall k :: k in after && k !in before.rows ==>
                   Outcome(st, before, last).Ok? && Recorded(last.ms[0], last.now, after[k]))
    ensures var after := AfterAll(st, table, steps).rows;
            forall k :: k in after && k !in table.rows ==> FromDelivery(st, table, steps, after[k])
  {
    var front := steps[..|steps| - 1];
    var before, after := AfterAll(st, table, front).rows, AfterAll(st, table, steps).rows;
    forall k | k in after && k !in table.rows ensures FromDelivery(st, table, steps, after[k]) {
      if k in before {
        LongerRun(st, table, steps, before[k]);
      } else {
        assert Delivered(st, table, steps, |front|);
      }
    }
  }

  /** What a delivery did does not depend on the later ones. */
  lemma {:induction false} DeliveredBefore(st: Setup, table: Store.Table, steps: seq<Step>, j: nat)
    requires j < |steps| - 1
    ensures Delivered(st, table, steps, j) <==> Delivered(st, table, steps[..|steps| - 1], j)
  {
    assert steps[..j] == steps[..|steps| - 1][..j];
  }

  lemma {:induction false} LongerRun(st: Setup, table: Store.Table, steps: seq<Step>, row: Fields)
    requires steps != [] && FromDelivery(st, table, steps[..|steps| - 1], row)
    ensures FromDelivery(st, table, steps, row)
  {
    var front := steps[..|steps| - 1];
    var j :| 0 <= j < |front| && Delivered(st, table, front, j) && Recorded(front[j].ms[0], front[j].now, row);
    DeliveredBefore(st, table, steps, j);
  }

  lemma {:induction false} StillHasEntry(a: map<int, Fields>, b: map<int, Fields>, m: Mut)
    requires HasEntry(a, m) && OnlyAdds(a, b)
    ensures HasEntry(b, m)
  {}
}
