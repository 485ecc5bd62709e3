/** The column names of the three tables modelled here. */
module Schema {

  /** Any name outside the generated constants is an `Other`. */
  datatype Column =
    | Id | CreatedAt | UpdatedAt | WorkspaceId
    // broadcasts
    | Name | Subject | FromName | FromEmail | Body | BodyText | SegmentId | IntegrationId
    | Status | ScheduledAt | SentAt | RecipientsTotal | SentCount | OpenedCount | ClickedCount
    | UnsubscribedCount | FailedCount | SkippedCount | HoldReason | LastScheduledAt
    // broadcast_recipients
    | BroadcastId | ContactId | OutboundMessageId | ErrorText | DeferredUntil | OpenedAt | ClickedAt
    // audit_entries
    | EntryKey | OccurredAt | ActorKind | ActorId | ActorName | Action | TargetType | TargetId
    | TargetName | Diff | RequestId | Ip | UserAgent
    | Other(name: string)
}

/** Shared value types: options, results, column values and the abstract table. */
module Prelude {
  import Schema

  datatype Option<+T> = None | Some(value: T)

  datatype Result<+T, +E> = Ok(value: T) | Err(error: E)

  /** A column value as the driver carries it; times are opaque instants. */
  datatype Scalar = IntV(i: int) | StrV(s: string) | TimeV(t: int)

  /** The fields present in a mutation, or the non-null columns of a stored row. */
  type Fields = map<Schema.Column, Scalar>

  /** r is the last value given, or none when none was. */
  ghost predicate LastOf<T>(values: seq<Option<T>>, r: Option<T>) {
    if r.None? then forall k :: 0 <= k < |values| ==> values[k].None?
    else exists k :: 0 <= k < |values| && values[k] == r && forall j :: k < j < |values| ==> values[j].None?
  }

  lemma {:induction false} LastOneMore<T>(before: seq<Option<T>>, r: Option<T>, last: Option<T>)
    requires LastOf(before, r)
    ensures LastOf(before + [last], if last.Some? then last else r)
  {
    var values := before + [last];
    if last.Some? {
      assert values[|before|] == last;
    } else if r.Some? {
      var k :| 0 <= k < |before| && before[k] == r && forall j :: k < j < |before| ==> before[j].None?;
      assert values[k] == r;
    }
  }
}

/**
 The contract this project assumes of the database behind the generated client:
 a table keyed by id, an id sequence, uniqueness and reference rules given as an
 uninterpreted predicate, and a batch insert that is all or nothing.
 */
module Store {
  import Schema
  import opened Prelude

  datatype Error =
    | Validation(column: Schema.Column)
    | Violation(detail: string)
    | Constraint(wrapped: string)
    | Outage(code: int)
    | HookFailure(code: int)

  /** One INSERT: an explicit id or none, and the columns to write. */
  datatype Spec = Spec(id: Option<int>, fields: Fields)

  datatype Table = Table(rows: map<int, Fields>, next: int)

  /** Uniqueness and reference rules over the rows already stored. */
  type Rules = (map<int, Fields>, Fields) -> bool

  datatype Inserted = Inserted(id: int, table: Table)

  function Insert(rules: Rules, table: Table, spec: Spec): Result<Inserted, Error> {
    var id := if spec.id.Some? then spec.id.value else table.next;
    if id in table.rows then
      Err(Violation("primary key"))
    else if !rules(table.rows, spec.fields) then
      Err(Violation("rule"))
    else
      var next := if spec.id.Some? then table.next else table.next + 1;
      Ok(Inserted(id, Table(table.rows[id := spec.fields], next)))
  }

  datatype Batch = Batch(ids: seq<int>, table: Table)

  /** The batch insert: every spec in order, or the error of the first one refused. */
  function InsertAll(rules: Rules, table: Table, specs: seq<Spec>): (r: Result<Batch, Error>)
    ensures r.Ok? ==> |r.value.ids| == |specs|
    decreases |specs|
  {
    if specs == [] then
      Ok(Batch([], table))
    else
      match Insert(rules, table, specs[0])
      case Err(e) => Err(e)
      case Ok(first) =>
        match InsertAll(rules, first.table, specs[1..])
        case Err(e) => Err(e)
        case Ok(rest) => Ok(Batch([first.id] + rest.ids, rest.table))
  }

  lemma {:induction false} SingletonBatch(rules: Rules, table: Table, spec: Spec)
    requires Insert(rules, table, spec).Ok?
    ensures InsertAll(rules, table, [spec])
         == Ok(Batch([Insert(rules, table, spec).value.id], Insert(rules, table, spec).value.table))
  {
    assert [spec][1..] == [];
    var first := Insert(rules, table, spec).value;
    assert InsertAll(rules, first.table, []) == Ok(Batch([], first.table));
    assert [first.id] + [] == [first.id];
  }

  /** Constraint failures are re-labelled by the builders, all others pass unchanged. */
  function Wrap(e: Error): Error {
    match e
    case Violation(detail) => Constraint(detail)
    case _ => e
  }

  /** An insert is refused over a key or a rule only. */
  lemma {:induction false} RefusalsAreViolations(rules: Rules, table: Table, specs: seq<Spec>)
    ensures InsertAll(rules, table, specs).Err? ==> InsertAll(rules, table, specs).error.Violation?
    decreases |specs|
  {
    if specs != [] && Insert(rules, table, specs[0]).Ok? {
      RefusalsAreViolations(rules, Insert(rules, table, specs[0]).value.table, specs[1..]);
    }
  }

  /** A stored batch adds row k under id k, keeps every older row, and never reuses an id. */
  lemma {:induction false} BatchRows(rules: Rules, table: Table, specs: seq<Spec>)
    requires InsertAll(rules, table, specs).Ok?
    ensures var batch := InsertAll(rules, table, specs).value;
            && (forall id :: id in table.rows ==> id in batch.table.rows && batch.table.rows[id] == table.rows[id])
            && (forall k :: 0 <= k < |specs| ==>
                  && batch.ids[k] !in table.rows
                  && batch.ids[k] in batch.table.rows && batch.table.rows[batch.ids[k]] == specs[k].fields)
            && (forall j, k :: 0 <= j < k < |specs| ==> batch.ids[j] != batch.ids[k])
            && |batch.table.rows| == |table.rows| + |specs|
    decreases |specs|
  {
    if specs != [] {
      var first := Insert(rules, table, specs[0]).value;
      BatchRows(rules, first.table, specs[1..]);
      var rest := InsertAll(rules, first.table, specs[1..]).value;
      var batch := InsertAll(rules, table, specs).value;
      assert batch.ids == [first.id] + rest.ids;
      assert first.id in first.table.rows;
      forall k | 0 < k < |specs|
        ensures batch.ids[k] == rest.ids[k - 1] && specs[k] == specs[1..][k - 1]
      {}
    }
  }

  /** An id given by the caller comes back as given. */
  lemma {:induction false} ExplicitIdsKept(rules: Rules, table: Table, specs: seq<Spec>, k: nat)
    requires InsertAll(rules, table, specs).Ok? && k < |specs| && specs[k].id.Some?
    ensures InsertAll(rules, table, specs).value.ids[k] == specs[k].id.value
    decreases |specs|
  {
    if k > 0 {
      ExplicitIdsKept(rules, Insert(rules, table, specs[0]).value.table, specs[1..], k - 1);
    }
  }

  /** Ids taken from the sequence never collide: rows no rule refuses are all stored, numbered in order. */
  lemma {:induction false} SequenceNeverCollides(rules: Rules, table: Table, specs: seq<Spec>)
    requires forall id :: id in table.rows ==> id < table.next
    requires forall rows, fields :: rules(rows, fields)
    requires forall k :: 0 <= k < |specs| ==> specs[k].id.None?
    ensures InsertAll(rules, table, specs).Ok?
    ensures InsertAll(rules, table, specs).value.ids == seq(|specs|, k => table.next + k)
    ensures InsertAll(rules, table, specs).value.table.next == table.next + |specs|
    decreases |specs|
  {
    if specs != [] {
      SequenceNeverCollides(rules, Insert(rules, table, specs[0]).value.table, specs[1..]);
    }
  }

  /** A stored batch obeys the rules: each row is allowed by the rows stored when its turn comes. */
  lemma {:induction false} BatchObeysRules(rules: Rules, table: Table, specs: seq<Spec>, k: nat)
    requires InsertAll(rules, table, specs).Ok? && k < |specs|
    ensures InsertAll(rules, table, specs[..k]).Ok?
    ensures rules(InsertAll(rules, table, specs[..k]).value.table.rows, specs[k].fields)
    decreases |specs|
  {
    if k == 0 {
      assert specs[..0] == [];
    } else {
      BatchObeysRules(rules, Insert(rules, table, specs[0]).value.table, specs[1..], k - 1);
      assert specs[..k][1..] == specs[1..][..k - 1];
    }
  }
}
