/**
 What creates and updates of audit entries leave in the table, column by column, in terms of
 the mutations and calls a caller made.
 */
module AuditRows {
  import opened Prelude
  import opened Schema
  import opened AuditUpsert
  import opened AuditRuns
  import RowCreate
  import Store

  // ----- the recorded row -----

  /** The columns of the table besides the id. */
  predicate TableColumn(c: Column) {
    match c
    case CreatedAt | UpdatedAt | WorkspaceId | EntryKey | OccurredAt | ActorKind | ActorId | ActorName | Action
      | TargetType | TargetId | TargetName | Diff | RequestId | Ip | UserAgent => true
    case _ => false
  }

  /** A cell as the mutation asks for it: what it sets, the two times when it sets none, else null. */
  function AskedFor(m: Mut, now: int, c: Column): Option<Scalar> {
    if !TableColumn(c) then None
    else if c in m.fields then Some(m.fields[c])
    else if c == CreatedAt || c == UpdatedAt then Some(TimeV(now))
    else None
  }

  ghost predicate Recorded(m: Mut, now: int, row: Fields) {
    forall c :: Cell(row, c) == AskedFor(m, now, c)
  }

  /** The rows a create sends: each has its mutation's id and what the mutation asks for. */
  ghost predicate RecordedAll(ms: seq<Mut>, now: int, specs: seq<Store.Spec>) {
    |specs| == |ms| && forall k :: 0 <= k < |ms| ==> specs[k].id == ms[k].id && Recorded(ms[k], now, specs[k].fields)
  }

  lemma {:induction false} SpecRecords(m: Mut, now: int)
    ensures SpecOf(WithTimes(m, now)).id == m.id && Recorded(m, now, SpecOf(WithTimes(m, now)).fields)
  {}

  lemma {:induction false} SameCellsSameRow(a: Fields, b: Fields)
    requires forall c :: Cell(a, c) == Cell(b, c)
    ensures a == b
  {
    forall c ensures c in a <==> c in b {
      assert Cell(a, c) == Cell(b, c);
    }
    forall c | c in a ensures a[c] == b[c] {
      assert Cell(a, c) == Cell(b, c);
    }
  }

  lemma {:induction false} SpecsRecord(ms: seq<Mut>, now: int)
    ensures RecordedAll(ms, now, SpecsOf(AllWithTimes(ms, now)))
  {
    forall k | 0 <= k < |ms| {
      SpecRecords(ms[k], now);
    }
  }

  // ----- the clause of a list of calls -----

  ghost predicate NoneNames(calls: seq<Call>) {
    forall k :: 0 <= k < |calls| ==> !calls[k].OnConflictColumns?
  }

  ghost predicate NamedAt(calls: seq<Call>, k: nat, target: seq<Column>) {
    k < |calls| && calls[k] == OnConflictColumns(target) && forall j :: k < j < |calls| ==> !calls[j].OnConflictColumns?
  }

  /** The columns of the last call that names a conflict target. */
  ghost predicate LastTarget(calls: seq<Call>, target: seq<Column>) {
    (target == [] && NoneNames(calls)) || exists k :: NamedAt(calls, k, target)
  }

  lemma {:induction false} TargetAppends(os: seq<ConflictOption>, call: Call)
    ensures TargetOf(os + Options(call)) == if call.OnConflictColumns? then call.columns else TargetOf(os)
  {
    if call.UpdateNewValues? {
      assert (os + Options(call))[..|os| + 1] == os + [NewValues];
      assert (os + [NewValues])[..|os|] == os;
    } else {
      assert (os + Options(call))[..|os|] == os;
    }
  }

  lemma {:induction false} LastTargetOneMore(calls: seq<Call>, target: seq<Column>)
    requires calls != [] && LastTarget(calls[..|calls| - 1], target)
    ensures var last := calls[|calls| - 1]; LastTarget(calls, if last.OnConflictColumns? then last.columns else target)
  {
    var front, last := calls[..|calls| - 1], calls[|calls| - 1];
    if last.OnConflictColumns? {
      assert NamedAt(calls, |calls| - 1, last.columns);
    } else if k :| NamedAt(front, k, target) {
      assert NamedAt(calls, k, target);
    }
  }

  lemma {:induction false} TargetOfCalls(calls: seq<Call>)
    ensures LastTarget(calls, TargetOf(Conflict(calls)))
    decreases |calls|
  {
    if calls != [] {
      var front := calls[..|calls| - 1];
      TargetOfCalls(front);
      TargetAppends(Conflict(front), calls[|calls| - 1]);
      LastTargetOneMore(calls, TargetOf(Conflict(front)));
    }
  }

  lemma {:induction false} OptionsOfCalls(calls: seq<Call>)
    ensures Conflict(calls) == [] <==> calls == []
    ensures Nothing in Conflict(calls) <==> DoNothing in calls
    decreases |calls|
  {
    if calls != [] {
      var front, last := calls[..|calls| - 1], calls[|calls| - 1];
      OptionsOfCalls(front);
      assert calls == front + [last];
    }
  }

  ghost predicate AllTargets(os: seq<ConflictOption>) {
    forall k :: 0 <= k < |os| ==> os[k].Target?
  }

  lemma {:induction false} TargetsOfCalls(calls: seq<Call>)
    ensures AllTargets(Conflict(calls)) <==> OnlyTargets(calls)
    decreases |calls|
  {
    if calls != [] {
      var front, last := calls[..|calls| - 1], calls[|calls| - 1];
      TargetsOfCalls(front);
      TargetsOneMore(Conflict(front), last);
      assert OnlyTargets(calls) <==> OnlyTargets(front) && last.OnConflictColumns?;
    }
  }

  lemma {:induction false} TargetsOneMore(os: seq<ConflictOption>, call: Call)
    ensures AllTargets(os + Options(call)) <==> AllTargets(os) && call.OnConflictColumns?
  {
    var longer := os + Options(call);
    assert longer[|os|] == Options(call)[0];
    assert forall k :: 0 <= k < |os| ==> longer[k] == os[k];
  }

  /** Calls that name targets and say nothing of what to do. */
  ghost predicate OnlyTargets(calls: seq<Call>) {
    forall k :: 0 <= k < |calls| ==> calls[k].OnConflictColumns?
  }

  /** The clause of a list of calls: none without calls, one that skips if any call says so, the last target named. */
  lemma {:induction false} ClauseOfCalls(calls: seq<Call>, columns: set<Column>, present: set<Column>)
    ensures var clause := ClauseOf(Conflict(calls), columns, present);
            && (clause.NoClause? <==> calls == [])
            && (clause.Skip? <==> DoNothing in calls)
            && (clause.NoAction? <==> calls != [] && OnlyTargets(calls))
            && (clause.Skip? || clause.DoUpdate? ==> LastTarget(calls, clause.target))
            && (clause.DoUpdate? ==> clause.assigns == Resolve(Conflict(calls), columns, present))
  {
    OptionsOfCalls(calls);
    TargetsOfCalls(calls);
    TargetOfCalls(calls);
  }

  lemma {:induction false} OneLastTarget(calls: seq<Call>, a: seq<Column>, b: seq<Column>)
    requires LastTarget(calls, a) && LastTarget(calls, b)
    ensures a == b
  {}

  // ----- creates that are refused -----

  predicate Demanded(c: Column) {
    match c
    case WorkspaceId | EntryKey | OccurredAt | ActorKind | Action | TargetType => true
    case _ => false
  }

  predicate Validated(c: Column) {
    match c
    case EntryKey | ActorKind | Action | TargetType => true
    case _ => false
  }

  /** The column is missing although every entry has one, or its value is one its validator refuses. */
  predicate Faulty(st: Setup, m: Mut, c: Column) {
    if c in m.fields then Validated(c) && !st.valid(c, m.fields[c]) else Demanded(c)
  }

  /** The rules ask for the times and the demanded columns, and validate the ones with a validator. */
  ghost predicate Demands(rules: seq<RowCreate.Rule>) {
    && (forall k :: 0 <= k < |rules| ==>
          && (Demanded(rules[k].column) || rules[k].column == CreatedAt || rules[k].column == UpdatedAt)
          && rules[k].validated == Validated(rules[k].column))
    && (forall c :: Demanded(c) ==> exists k :: 0 <= k < |rules| && rules[k].column == c)
  }

  lemma {:induction false} RulesDemand()
    ensures Demands(Rules())
  {
    forall c | Demanded(c) ensures exists k :: 0 <= k < |Rules()| && Rules()[k].column == c {
      var k := match c case WorkspaceId => 2 case EntryKey => 3 case OccurredAt => 4 case ActorKind => 5 case Action => 6 case _ => 7;
      assert Rules()[k].column == c;
    }
  }

  lemma {:induction false} CheckFinds(st: Setup, m: Mut, now: int, rules: seq<RowCreate.Rule>)
    requires Demands(rules)
    ensures match RowCreate.FirstBroken(st.valid, WithTimes(m, now).fields, rules)
            case None => forall c :: !Faulty(st, m, c)
            case Some(e) => e.Validation? && Faulty(st, m, e.column)
  {
    var fields := WithTimes(m, now).fields;
    if RowCreate.FirstBroken(st.valid, fields, rules).None? {
      RowCreate.PassingMeetsAll(st.valid, fields, rules);
      forall c ensures !Faulty(st, m, c) {
        if Demanded(c) {
          var k :| 0 <= k < |rules| && rules[k].column == c;
          assert RowCreate.Meets(st.valid, fields, rules[k]);
        }
      }
    } else {
      var k := RowCreate.FirstBrokenAt(st.valid, fields, rules);
    }
  }

  ghost predicate Faultless(st: Setup, m: Mut) {
    forall c :: !Faulty(st, m, c)
  }

  lemma {:induction false} FirstInvalidIs(valid: RowCreate.Validators, ms: seq<Mut>, k: nat)
    requires k <= |ms| && (forall j :: 0 <= j < k ==> Check(valid, ms[j]).None?) && (k < |ms| ==> Check(valid, ms[k]).Some?)
    ensures FirstInvalid(valid, ms) == if k < |ms| then Check(valid, ms[k]) else None
  {
    if k > 0 {
      FirstInvalidIs(valid, ms[1..], k - 1);
    }
  }

  /** A create is refused over the first mutation with a fault, naming one of its faulty columns. */
  lemma {:induction false} CreateReportsFirstFault(st: Setup, table: Store.Table, ms: seq<Mut>, calls: seq<Call>, now: int, k: nat)
    requires k < |ms| && (forall j :: 0 <= j < k ==> Faultless(st, ms[j])) && !Faultless(st, ms[k])
    ensures var r := Outcome(st, table, Create(ms, calls, now));
            r.Err? && r.error.Refused? && r.error.error.Validation? && Faulty(st, ms[k], r.error.error.column)
  {
    RulesDemand();
    var full := AllWithTimes(ms, now);
    forall j | 0 <= j <= k
      ensures match Check(st.valid, full[j])
              case None => Faultless(st, ms[j])
              case Some(e) => e.Validation? && Faulty(st, ms[j], e.column)
    {
      CheckFinds(st, ms[j], now, Rules());
    }
    FirstInvalidIs(st.valid, full, k);
  }

  /** Without a fault only the store and the clause decide. */
  lemma {:induction false} FaultlessIsWritten(st: Setup, table: Store.Table, ms: seq<Mut>, calls: seq<Call>, now: int)
    requires forall j :: 0 <= j < |ms| ==> Faultless(st, ms[j])
    ensures Outcome(st, table, Create(ms, calls, now)) == WriteBatch(st, table, AllWithTimes(ms, now), Conflict(calls))
  {
    RulesDemand();
    var full := AllWithTimes(ms, now);
    forall j | 0 <= j < |ms| ensures Check(st.valid, full[j]).None? {
      CheckFinds(st, ms[j], now, Rules());
    }
    FirstInvalidIs(st.valid, full, |ms|);
  }

  /** So whatever a successful create sent had no fault. */
  lemma {:induction false} CreatedIsFaultless(st: Setup, table: Store.Table, ms: seq<Mut>, calls: seq<Call>, now: int, k: nat)
    requires k < |ms| && Outcome(st, table, Create(ms, calls, now)).Ok?
    ensures Faultless(st, ms[k])
    decreases k
  {
    forall j | 0 <= j < k ensures Faultless(st, ms[j]) {
      CreatedIsFaultless(st, table, ms, calls, now, j);
    }
    if !Faultless(st, ms[k]) {
      CreateReportsFirstFault(st, table, ms, calls, now, k);
    }
  }

  /** A conflict target without an action is refused. */
  lemma {:induction false} TargetAloneIsRefused(st: Setup, table: Store.Table, ms: seq<Mut>, calls: seq<Call>, now: int)
    requires calls != [] && OnlyTargets(calls) && |ms| == 1 && Faultless(st, ms[0])
    ensures Outcome(st, table, Create(ms, calls, now)) == Err(NoConflictAction)
  {
    FaultlessIsWritten(st, table, ms, calls, now);
    var full := AllWithTimes(ms, now);
    var specs := SpecsOf(full);
    ClauseOfCalls(calls, AllProposed(specs), Present(full));
    assert specs[..0] == [] && UpsertAll(st, table, NoAction, []) == Ok(table);
  }
}
