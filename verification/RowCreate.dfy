/** Writing a row: `defaults`, `check` and `createSpec`, and reading it back. */
module RowCreate {
  import opened Prelude
  import opened Schema
  import opened RowCodec
  import Store

  /** Field validators generated from the schema, as a question about a column and its value. */
  type Validators = (Column, Scalar) -> bool

  // ----- defaults -----

  /** The columns `defaults` fills in, in its order. */
  function DefaultedColumns(e: Entity): seq<Column> {
    match e
    case Broadcast => [CreatedAt, UpdatedAt, Subject, Body, BodyText, Status, RecipientsTotal, SentCount,
                       OpenedCount, ClickedCount, UnsubscribedCount, FailedCount, SkippedCount]
    case Recipient => [CreatedAt, UpdatedAt, Status]
  }

  function DefaultValue(e: Entity, column: Column, now: int): Scalar {
    match column
    case CreatedAt | UpdatedAt => TimeV(now)
    case Subject | Body | BodyText => StrV("")
    case Status => StrV(if e.Broadcast? then "draft" else "pending")
    case _ => IntV(0)
  }

  /** The if-chain of `defaults`, one step per column. */
  function DefaultSteps(e: Entity, m: Fields, now: int, columns: seq<Column>): Fields
    decreases |columns|
  {
    if columns == [] then m
    else
      var m1 := if columns[0] in m then m else m[columns[0] := DefaultValue(e, columns[0], now)];
      DefaultSteps(e, m1, now, columns[1..])
  }

  function Defaults(e: Entity, m: Fields, now: int): Fields {
    DefaultSteps(e, m, now, DefaultedColumns(e))
  }

  /** Defaults add exactly the missing columns of their list and change no column already set. */
  lemma {:induction false} DefaultsFillGaps(e: Entity, m: Fields, now: int, columns: seq<Column>)
    ensures DefaultSteps(e, m, now, columns) ==
            map c | c in m.Keys + (set d | d in columns) :: if c in m then m[c] else DefaultValue(e, c, now)
    decreases |columns|
  {
    if columns != [] {
      var m1 := if columns[0] in m then m else m[columns[0] := DefaultValue(e, columns[0], now)];
      DefaultsFillGaps(e, m1, now, columns[1..]);
      assert forall d :: d in columns <==> d == columns[0] || d in columns[1..];
    }
  }

  // ----- check -----

  /** One step of `check`: a required column and whether a validator follows. */
  datatype Rule = Rule(column: Column, validated: bool)

  function Rules(e: Entity): seq<Rule> {
    match e
    case Broadcast =>
      [Rule(CreatedAt, false), Rule(UpdatedAt, false), Rule(WorkspaceId, false), Rule(Name, true),
       Rule(Subject, false), Rule(Body, false), Rule(BodyText, false), Rule(Status, true),
       Rule(RecipientsTotal, true), Rule(SentCount, true), Rule(OpenedCount, true), Rule(ClickedCount, true),
       Rule(UnsubscribedCount, true), Rule(FailedCount, true), Rule(SkippedCount, true)]
    case Recipient =>
      [Rule(CreatedAt, false), Rule(UpdatedAt, false), Rule(WorkspaceId, false), Rule(BroadcastId, false),
       Rule(Status, true)]
  }

  predicate Meets(valid: Validators, m: Fields, rule: Rule) {
    rule.column in m && (rule.validated ==> valid(rule.column, m[rule.column]))
  }

  function FirstBroken(valid: Validators, m: Fields, rules: seq<Rule>): Option<Store.Error> {
    if rules == [] then None
    else if Meets(valid, m, rules[0]) then FirstBroken(valid, m, rules[1..])
    else Some(Store.Validation(rules[0].column))
  }

  /** `check`; its last steps ask again for the edges, whose ids are the columns already required. */
  function Check(e: Entity, valid: Validators, m: Fields): Option<Store.Error> {
    var broken := FirstBroken(valid, m, Rules(e));
    if broken.Some? then broken
    else if WorkspaceId !in m then Some(Store.Validation(WorkspaceId))
    else if e.Recipient? && BroadcastId !in m then Some(Store.Validation(BroadcastId))
    else None
  }

  /** The check reports the first rule that is broken, and nothing exactly when none is. */
  lemma {:induction false} FirstBrokenIsFirst(valid: Validators, m: Fields, rules: seq<Rule>, k: nat)
    requires k <= |rules| && forall j :: 0 <= j < k ==> Meets(valid, m, rules[j])
    ensures k < |rules| && !Meets(valid, m, rules[k]) ==>
              FirstBroken(valid, m, rules) == Some(Store.Validation(rules[k].column))
    ensures k == |rules| ==> FirstBroken(valid, m, rules).None?
    decreases |rules|
  {
    if k > 0 {
      FirstBrokenIsFirst(valid, m, rules[1..], k - 1);
    }
  }

  lemma {:induction false} PassingMeetsAll(valid: Validators, m: Fields, rules: seq<Rule>)
    requires FirstBroken(valid, m, rules).None?
    ensures forall k :: 0 <= k < |rules| ==> Meets(valid, m, rules[k])
    decreases |rules|
  {
    if rules != [] {
      PassingMeetsAll(valid, m, rules[1..]);
      assert forall k :: 0 < k < |rules| ==> rules[k] == rules[1..][k - 1];
    }
  }

  /** What the caller has to supply: every other required column has a default. */
  predicate Supplied(e: Entity, m: Fields) {
    WorkspaceId in m && (if e.Broadcast? then Name in m else BroadcastId in m)
  }

  /** The validated columns of the rules, if set, hold accepted values. */
  ghost predicate Accepted(valid: Validators, m: Fields, rules: seq<Rule>) {
    forall k :: 0 <= k < |rules| && rules[k].validated && rules[k].column in m ==>
      valid(rules[k].column, m[rules[k].column])
  }

  /** The columns of the rules that have no default. */
  predicate CallersColumn(e: Entity, c: Column) {
    c == WorkspaceId || c == (if e.Broadcast? then Name else BroadcastId)
  }

  lemma {:induction false} RequiredIsSuppliedOrDefaulted(e: Entity, k: nat)
    requires k < |Rules(e)|
    ensures Rules(e)[k].column in DefaultedColumns(e) || CallersColumn(e, Rules(e)[k].column)
  {}

  /** The rules ask for the caller's columns and for nothing else that has no default. */
  ghost predicate Covers(e: Entity, defaulted: seq<Column>, rules: seq<Rule>) {
    && (forall k :: 0 <= k < |rules| ==> rules[k].column in defaulted || CallersColumn(e, rules[k].column))
    && (forall c :: CallersColumn(e, c) ==> c !in defaulted && exists k :: 0 <= k < |rules| && rules[k].column == c)
  }

  lemma {:induction false} RulesCover(e: Entity)
    ensures Covers(e, DefaultedColumns(e), Rules(e))
  {
    forall k | 0 <= k < |Rules(e)|
      ensures Rules(e)[k].column in DefaultedColumns(e) || CallersColumn(e, Rules(e)[k].column)
    {
      RequiredIsSuppliedOrDefaulted(e, k);
    }
    forall c | CallersColumn(e, c)
      ensures c !in DefaultedColumns(e) && exists k :: 0 <= k < |Rules(e)| && Rules(e)[k].column == c
    {
      CallersColumnRequired(e, c);
    }
  }

  lemma {:induction false} CallersColumnRequired(e: Entity, c: Column)
    requires CallersColumn(e, c)
    ensures c !in DefaultedColumns(e) && exists k :: 0 <= k < |Rules(e)| && Rules(e)[k].column == c
  {
    if c == WorkspaceId {
      assert Rules(e)[2].column == c;
    } else {
      assert Rules(e)[3].column == c;
    }
  }

  /**
   After `defaults`, `check` passes exactly when the caller supplied the workspace and the
   name (or the broadcast) and every validated column, set or defaulted, is accepted.
   */
  lemma {:induction false} DefaultsMakeCheckPass(e: Entity, valid: Validators, m: Fields, now: int)
    ensures Check(e, valid, Defaults(e, m, now)).None? <==>
            Supplied(e, m) && Accepted(valid, Defaults(e, m, now), Rules(e))
  {
    RulesCover(e);
    FilledDecides(e, valid, m, now, DefaultedColumns(e), Rules(e));
    CheckIsRules(e, valid, Defaults(e, m, now));
  }

  lemma {:induction false} CheckIsRules(e: Entity, valid: Validators, m: Fields)
    requires FirstBroken(valid, m, Rules(e)).None? ==> Supplied(e, m)
    ensures Check(e, valid, m).None? <==> FirstBroken(valid, m, Rules(e)).None?
  {}

  lemma {:induction false} FilledDecides(e: Entity, valid: Validators, m: Fields, now: int, defaulted: seq<Column>, rules: seq<Rule>)
    requires Covers(e, defaulted, rules)
    ensures var d := DefaultSteps(e, m, now, defaulted);
            && (FirstBroken(valid, d, rules).None? <==> Supplied(e, m) && Accepted(valid, d, rules))
            && (FirstBroken(valid, d, rules).None? ==> Supplied(e, d))
  {
    DefaultsFillGaps(e, m, now, defaulted);
    CoverDecides(e, valid, m, DefaultSteps(e, m, now, defaulted), defaulted, rules);
  }

  lemma {:induction false} CoverDecides(e: Entity, valid: Validators, m: Fields, d: Fields, defaulted: seq<Column>, rules: seq<Rule>)
    requires Covers(e, defaulted, rules)
    requires d.Keys == m.Keys + (set c | c in defaulted)
    ensures FirstBroken(valid, d, rules).None? <==> Supplied(e, m) && Accepted(valid, d, rules)
    ensures FirstBroken(valid, d, rules).None? ==> Supplied(e, d)
  {
    if FirstBroken(valid, d, rules).None? {
      PassingMeetsAll(valid, d, rules);
      forall c | CallersColumn(e, c) ensures c in m {
        var k :| 0 <= k < |rules| && rules[k].column == c;
        assert Meets(valid, d, rules[k]);
      }
    }
    if Supplied(e, m) && Accepted(valid, d, rules) {
      FirstBrokenIsFirst(valid, d, rules, |rules|);
    }
  }

  // ----- createSpec -----

  /** The columns `createSpec` copies, in its order; the last ones come from the edges. */
  function CopiedColumns(e: Entity): seq<Column> {
    match e
    case Broadcast =>
      [CreatedAt, UpdatedAt, Name, Subject, FromName, FromEmail, Body, BodyText, SegmentId, IntegrationId,
       Status, ScheduledAt, SentAt, RecipientsTotal, SentCount, OpenedCount, ClickedCount,
       UnsubscribedCount, FailedCount, SkippedCount, HoldReason, LastScheduledAt, WorkspaceId]
    case Recipient =>
      [CreatedAt, UpdatedAt, ContactId, Status, OutboundMessageId, ErrorText, DeferredUntil, SentAt,
       OpenedAt, ClickedAt, WorkspaceId, BroadcastId]
  }

  /** The spec and the node, built side by side: a column present in the mutation goes into both. */
  function CopySteps(m: Fields, columns: seq<Column>, spec: Fields, node: Fields): (Fields, Fields) {
    if columns == [] then (spec, node)
    else if columns[0] in m then
      CopySteps(m, columns[1..], spec[columns[0] := m[columns[0]]], node[columns[0] := m[columns[0]]])
    else
      CopySteps(m, columns[1..], spec, node)
  }

  function CreateSpec(e: Entity, id: Option<int>, m: Fields): (Store.Spec, Node) {
    var (spec, node) := CopySteps(m, CopiedColumns(e), map[], map[]);
    (Store.Spec(id, spec), Node(if id.Some? then id.value else 0, node, map[]))
  }

  /** A map grown by the columns of the list that the mutation has. */
  ghost predicate Copied(m: Fields, columns: seq<Column>, before: Fields, after: Fields) {
    && (forall c :: c in after <==> c in before || (c in columns && c in m))
    && (forall c :: c in after ==> after[c] == if c in columns && c in m then m[c] else before[c])
  }

  lemma {:induction false} CopiesPresentColumns(m: Fields, columns: seq<Column>, spec: Fields, node: Fields)
    ensures Copied(m, columns, spec, CopySteps(m, columns, spec, node).0)
    ensures Copied(m, columns, node, CopySteps(m, columns, spec, node).1)
    decreases |columns|
  {
    if columns != [] {
      var c0 := columns[0];
      assert forall d :: d in columns <==> d == c0 || d in columns[1..];
      if c0 in m {
        CopiesPresentColumns(m, columns[1..], spec[c0 := m[c0]], node[c0 := m[c0]]);
      } else {
        CopiesPresentColumns(m, columns[1..], spec, node);
      }
    }
  }

  lemma {:induction false} CopiesAll(m: Fields, columns: seq<Column>)
    requires forall c :: c in m ==> c in columns
    ensures CopySteps(m, columns, map[], map[]) == (m, m)
  {
    CopiesPresentColumns(m, columns, map[], map[]);
    var (spec, node) := CopySteps(m, columns, map[], map[]);
    assert spec == m && node == m;
  }

  function KindOf(v: Scalar): Kind {
    match v
    case IntV(_) => Int64
    case StrV(_) => Text
    case TimeV(_) => Instant
  }

  /** Fields as the typed setters of a mutation leave them, or the columns of a stored row. */
  ghost predicate Typed(e: Entity, m: Fields) {
    forall c :: c in m ==> c != Id && AssignKind(e, c) == Some(KindOf(m[c]))
  }

  lemma {:induction false} EveryColumnCopied(e: Entity, c: Column)
    requires AssignKind(e, c).Some? && c != Id
    ensures c in CopiedColumns(e)
  {
    var cs := CopiedColumns(e);
    if e.Broadcast? {
      assert c in {cs[0], cs[1], cs[2], cs[3], cs[4], cs[5], cs[6], cs[7], cs[8], cs[9], cs[10], cs[11],
                   cs[12], cs[13], cs[14], cs[15], cs[16], cs[17], cs[18], cs[19], cs[20], cs[21], cs[22]};
    } else {
      assert c in {cs[0], cs[1], cs[2], cs[3], cs[4], cs[5], cs[6], cs[7], cs[8], cs[9], cs[10], cs[11]};
    }
  }

  /** `createSpec` loses nothing: the spec and the node hold exactly the fields of the mutation. */
  lemma {:induction false} CreateSpecIsFaithful(e: Entity, id: Option<int>, m: Fields)
    requires Typed(e, m)
    ensures CreateSpec(e, id, m) == (Store.Spec(id, m), Node(if id.Some? then id.value else 0, m, map[]))
  {
    forall c | c in m ensures c in CopiedColumns(e) {
      EveryColumnCopied(e, c);
    }
    CopiesAll(m, CopiedColumns(e));
  }

  // ----- reading back -----

  /** What the driver scans into the holder of one column; an absent column is NULL. */
  function Scanned(e: Entity, id: int, row: Fields, column: Column): Holder {
    var cell := if column == Id then Some(IntV(id)) else if column in row then Some(row[column]) else None;
    match ScanKind(e, column)
    case None => Unknown(cell)
    case Some(Int64) => if cell.Some? && cell.value.IntV? then NullInt64(true, cell.value.i) else NullInt64(false, 0)
    case Some(Text) => if cell.Some? && cell.value.StrV? then NullString(true, cell.value.s) else NullString(false, "")
    case Some(Instant) => if cell.Some? && cell.value.TimeV? then NullTime(true, cell.value.t) else NullTime(false, 0)
  }

  function ScanRow(e: Entity, columns: seq<Column>, id: int, row: Fields): (r: seq<Holder>)
    ensures |r| == |columns| && forall i :: 0 <= i < |columns| ==> r[i] == Scanned(e, id, row, columns[i])
  {
    seq(|columns|, i requires 0 <= i < |columns| => Scanned(e, id, row, columns[i]))
  }

  /** The node read from a row through a list of columns. */
  function Decode(e: Entity, columns: seq<Column>, id: int, row: Fields): Node {
    Assigned(e, EMPTY, columns, ScanRow(e, columns, id, row)).0
  }

  /** The part of a row that a list of columns selects. */
  function Cut(row: Fields, columns: seq<Column>): Fields {
    map c | c in row && c in columns :: row[c]
  }

  lemma {:induction false} ScannedValue(e: Entity, id: int, row: Fields, c: Column)
    requires Typed(e, row) && AssignKind(e, c).Some?
    ensures HasValue(Scanned(e, id, row, c)) <==> c == Id || c in row
    ensures c in row ==> Content(Scanned(e, id, row, c)) == row[c]
    ensures c == Id ==> Scanned(e, id, row, c) == NullInt64(true, id)
  {}

  /** The last valid holder of a column exists exactly when the row has the column and it is selected. */
  lemma {:induction false} LastScanned(e: Entity, columns: seq<Column>, id: int, row: Fields, c: Column)
    requires Typed(e, row) && AssignKind(e, c).Some? && c != Id
    ensures var last := LastValid(columns, ScanRow(e, columns, id, row), c, |columns|);
            && (last.Some? <==> c in columns && c in row)
            && (last.Some? ==> Content(ScanRow(e, columns, id, row)[last.value]) == row[c])
  {
    ScannedValue(e, id, row, c);
  }

  lemma {:induction false} ColumnDecodes(e: Entity, columns: seq<Column>, id: int, row: Fields, c: Column)
    requires Typed(e, row)
    ensures var n := Decode(e, columns, id, row);
            && (c in n.fields <==> c in row && c in columns)
            && (c in n.fields ==> n.fields[c] == row[c])
            && (c in n.dynamic <==> c in columns && AssignKind(e, c).None?)
            && (c == Id ==> n.id == if Id in columns then id else 0)
  {
    var values := ScanRow(e, columns, id, row);
    forall i | 0 <= i < |columns| ensures Fits(e, columns[i], values[i]) {
      ScannedFits(e, id, row, columns[i]);
    }
    DecoderIsTotal(e, EMPTY, columns, values, |columns|);
    assert Settled(e, EMPTY, columns, values, |columns|, c, Decode(e, columns, id, row));
    if AssignKind(e, c).Some? {
      if c == Id {
        ScannedValue(e, id, row, c);
      } else {
        LastScanned(e, columns, id, row, c);
      }
    }
  }

  lemma {:induction false} ScannedFits(e: Entity, id: int, row: Fields, c: Column)
    ensures Fits(e, c, Scanned(e, id, row, c))
  {}

  /** A decoded node has exactly the selected columns of the row, and the id if it was selected. */
  lemma {:induction false} DecodeSelects(e: Entity, columns: seq<Column>, id: int, row: Fields)
    requires Typed(e, row)
    ensures Assigned(e, EMPTY, columns, ScanRow(e, columns, id, row)).1.None?
    ensures Decode(e, columns, id, row).id == if Id in columns then id else 0
    ensures Decode(e, columns, id, row).fields == Cut(row, columns)
    ensures forall c :: c in Decode(e, columns, id, row).dynamic <==> c in columns && AssignKind(e, c).None?
  {
    var values := ScanRow(e, columns, id, row);
    forall i | 0 <= i < |columns| ensures Fits(e, columns[i], values[i]) {
      ScannedFits(e, id, row, columns[i]);
    }
    DecoderIsTotal(e, EMPTY, columns, values, |columns|);
    var n := Decode(e, columns, id, row);
    forall c
      ensures c in n.fields <==> c in row && c in columns
      ensures c in n.fields ==> n.fields[c] == row[c]
      ensures c in n.dynamic <==> c in columns && AssignKind(e, c).None?
    {
      ColumnDecodes(e, columns, id, row, c);
    }
    ColumnDecodes(e, columns, id, row, Id);
    assert n.fields == Cut(row, columns);
  }

  // ----- what the table stores -----

  /** The columns declared NOT NULL. */
  predicate NotNull(e: Entity, c: Column) {
    match c
    case Id | CreatedAt | UpdatedAt | Status | WorkspaceId => true
    case Name | Subject | Body | BodyText | RecipientsTotal | SentCount | OpenedCount | ClickedCount
      | UnsubscribedCount | FailedCount | SkippedCount => e.Broadcast?
    case BroadcastId => e.Recipient?
    case _ => false
  }

  // ----- what check demands -----

  /** The columns with a validator. */
  predicate Validated(e: Entity, c: Column) {
    match c
    case Status => true
    case Name | RecipientsTotal | SentCount | OpenedCount | ClickedCount | UnsubscribedCount | FailedCount
      | SkippedCount => e.Broadcast?
    case _ => false
  }

  /** The rules ask for exactly the NOT NULL columns but the id, and validate exactly those with a validator. */
  ghost predicate DemandsOf(e: Entity, rules: seq<Rule>) {
    && (forall k :: 0 <= k < |rules| ==>
          && NotNull(e, rules[k].column) && rules[k].column != Id
          && rules[k].validated == Validated(e, rules[k].column))
    && (forall c :: NotNull(e, c) && c != Id ==> exists k :: 0 <= k < |rules| && rules[k].column == c)
  }

  lemma {:induction false} RulesDemand(e: Entity)
    ensures DemandsOf(e, Rules(e))
  {
    forall c | NotNull(e, c) && c != Id ensures exists k :: 0 <= k < |Rules(e)| && Rules(e)[k].column == c {
      NotNullIsRequired(e, c);
    }
  }

  lemma {:induction false} NotNullIsRequired(e: Entity, c: Column)
    requires NotNull(e, c) && c != Id
    ensures exists k :: 0 <= k < |Rules(e)| && Rules(e)[k].column == c
  {
    if c == WorkspaceId {
      assert Rules(e)[2].column == c;
    } else if c == Name || c == BroadcastId {
      assert Rules(e)[3].column == c;
    } else {
      DefaultedIsRequired(e, c, 0);
    }
  }

  /** c is missing although the table demands it, or its value is one its validator refuses. */
  predicate Faulty(e: Entity, valid: Validators, m: Fields, c: Column) {
    if c in m then Validated(e, c) && !valid(c, m[c]) else NotNull(e, c) && c != Id
  }

  /** A check passes exactly when no column is faulty, and otherwise it names one that is. */
  lemma {:induction false} CheckFindsFaults(e: Entity, valid: Validators, m: Fields)
    ensures match Check(e, valid, m)
            case None => forall c :: !Faulty(e, valid, m, c)
            case Some(error) => error.Validation? && Faulty(e, valid, m, error.column)
  {
    RulesDemand(e);
    RulesFindFaults(e, valid, m, Rules(e));
    assert NotNull(e, WorkspaceId) && (e.Recipient? ==> NotNull(e, BroadcastId));
  }

  lemma {:induction false} RulesFindFaults(e: Entity, valid: Validators, m: Fields, rules: seq<Rule>)
    requires DemandsOf(e, rules)
    ensures match FirstBroken(valid, m, rules)
            case None => forall c :: !Faulty(e, valid, m, c)
            case Some(error) => error.Validation? && Faulty(e, valid, m, error.column)
  {
    if FirstBroken(valid, m, rules).None? {
      PassingMeetsAll(valid, m, rules);
      forall c ensures !Faulty(e, valid, m, c) {
        if NotNull(e, c) && c != Id {
          var k :| 0 <= k < |rules| && rules[k].column == c;
          assert Meets(valid, m, rules[k]);
        }
      }
    } else {
      var k := FirstBrokenAt(valid, m, rules);
    }
  }

  lemma {:induction false} FirstBrokenAt(valid: Validators, m: Fields, rules: seq<Rule>) returns (k: nat)
    requires FirstBroken(valid, m, rules).Some?
    ensures k < |rules| && !Meets(valid, m, rules[k])
    ensures FirstBroken(valid, m, rules) == Some(Store.Validation(rules[k].column))
    decreases |rules|
  {
    if Meets(valid, m, rules[0]) {
      k := FirstBrokenAt(valid, m, rules[1..]);
      k := k + 1;
    } else {
      k := 0;
    }
  }

  // ----- column defaults -----

  /** The column defaults of the migrations. */
  function ColumnDefault(e: Entity, c: Column, clock: int): Option<Scalar> {
    match c
    case CreatedAt | UpdatedAt => Some(TimeV(clock))
    case Status => Some(StrV(if e.Broadcast? then "draft" else "pending"))
    case Subject | Body | BodyText => if e.Broadcast? then Some(StrV("")) else None
    case RecipientsTotal | SentCount | OpenedCount | ClickedCount | UnsubscribedCount | FailedCount | SkippedCount =>
      if e.Broadcast? then Some(IntV(0)) else None
    case _ => None
  }

  lemma {:induction false} DefaultsAreColumns(e: Entity, clock: int)
    ensures forall c :: ColumnDefault(e, c, clock).Some? ==> c in Columns(e)
  {}

  /** The row is m with the column defaults for what m lacks. */
  ghost predicate Completes(e: Entity, m: Fields, row: Fields, clock: int) {
    && (forall c :: c in row <==> c in m || ColumnDefault(e, c, clock).Some?)
    && (forall c :: c in row ==> row[c] == if c in m then m[c] else ColumnDefault(e, c, clock).value)
  }

  /**
   One INSERT: an absent column gets its default or NULL, and an absent NOT NULL column
   without a default is refused. The id is never absent: the table assigns it.
   */
  ghost function StoredRow(e: Entity, spec: Fields, clock: int): (r: Option<Fields>)
    ensures r.Some? ==> Completes(e, spec, r.value, clock)
  {
    DefaultsAreColumns(e, clock);
    if exists c :: NotNull(e, c) && c != Id && c !in spec && ColumnDefault(e, c, clock).None? then None
    else
      Some(map c | c in spec.Keys + (set d | d in Columns(e)) && (c in spec || ColumnDefault(e, c, clock).Some?) ::
             if c in spec then spec[c] else ColumnDefault(e, c, clock).value)
  }

  /** The table takes a row exactly when the caller's own columns are in it. */
  lemma {:induction false} TableNeedsSupplied(e: Entity, spec: Fields, clock: int)
    ensures StoredRow(e, spec, clock).Some? <==> Supplied(e, spec)
  {
    if !Supplied(e, spec) {
      var c := if WorkspaceId !in spec then WorkspaceId else if e.Broadcast? then Name else BroadcastId;
      assert NotNull(e, c) && c !in spec && ColumnDefault(e, c, clock).None?;
    }
  }

  /** What builders fill in is what the table would: same columns, same values. */
  lemma {:induction false} BuilderDefaultsAreColumnDefaults(e: Entity, c: Column, now: int)
    ensures c in DefaultedColumns(e) <==> ColumnDefault(e, c, now).Some?
    ensures c in DefaultedColumns(e) ==> ColumnDefault(e, c, now) == Some(DefaultValue(e, c, now))
  {
    if ColumnDefault(e, c, now).Some? {
      ColumnDefaultIsListed(e, c, now);
    }
    if c in DefaultedColumns(e) {
      var k :| 0 <= k < |DefaultedColumns(e)| && DefaultedColumns(e)[k] == c;
      ListedHasColumnDefault(e, k, now);
    }
  }

  lemma {:induction false} ListedHasColumnDefault(e: Entity, k: nat, now: int)
    requires k < |DefaultedColumns(e)|
    ensures ColumnDefault(e, DefaultedColumns(e)[k], now) == Some(DefaultValue(e, DefaultedColumns(e)[k], now))
  {}

  lemma {:induction false} ColumnDefaultIsListed(e: Entity, c: Column, now: int)
    requires ColumnDefault(e, c, now).Some?
    ensures c in DefaultedColumns(e)
  {}

  // ----- what a node shows -----

  /** The fields that are pointers in the Go struct: nil while absent. */
  predicate Pointer(e: Entity, c: Column) {
    match c
    case FromName | FromEmail | SegmentId | IntegrationId | ScheduledAt | HoldReason | LastScheduledAt => e.Broadcast?
    case SentAt => true
    case OutboundMessageId | ErrorText | DeferredUntil | OpenedAt | ClickedAt => e.Recipient?
    case _ => false
  }

  /** The zero value of a Go field; times count from the zero time. */
  function Zero(k: Kind): Scalar {
    match k
    case Int64 => IntV(0)
    case Text => StrV("")
    case Instant => TimeV(0)
  }

  /** What a caller sees in a field: its value, nil, or the zero value of a field that is no pointer. */
  function Shown(e: Entity, n: Fields, c: Column): Option<Scalar> {
    if c in n then Some(n[c])
    else if Pointer(e, c) || AssignKind(e, c).None? then None
    else Some(Zero(AssignKind(e, c).value))
  }

  /** Two nodes look the same in the selected columns. */
  ghost predicate LookAlike(e: Entity, columns: seq<Column>, a: Fields, b: Fields) {
    forall c :: c in columns && c != Id && AssignKind(e, c).Some? ==> Shown(e, a, c) == Shown(e, b, c)
  }

  /** The columns a caller must not leave to the table, unless nobody looks at them. */
  predicate Decisive(c: Column, clock: int) {
    c == Status || ((c == CreatedAt || c == UpdatedAt) && clock != 0)
  }

  lemma {:induction false} OnlyDecisiveDefaultsShow(e: Entity, c: Column, clock: int)
    ensures Decisive(c, clock) ==> ColumnDefault(e, c, clock).Some?
    ensures ColumnDefault(e, c, clock).Some? ==>
              && c != Id && !Pointer(e, c)
              && AssignKind(e, c) == Some(KindOf(ColumnDefault(e, c, clock).value))
              && (ColumnDefault(e, c, clock).value == Zero(AssignKind(e, c).value) <==> !Decisive(c, clock))
  {}

  lemma {:induction false} DefaultShows(e: Entity, m: Fields, row: Fields, columns: seq<Column>, c: Column, clock: int)
    requires Typed(e, m) && Completes(e, m, row, clock)
    requires c in columns && c != Id && AssignKind(e, c).Some?
    ensures Shown(e, Cut(row, columns), c) == Shown(e, m, c) <==> c in m || !Decisive(c, clock)
  {
    OnlyDecisiveDefaultsShow(e, c, clock);
  }

  lemma {:induction false} CompletedIsTyped(e: Entity, m: Fields, row: Fields, clock: int)
    requires Typed(e, m) && Completes(e, m, row, clock)
    ensures Typed(e, row)
  {}

  /**
   Create then read. The table takes the row exactly when the caller's own columns are set.
   Then, for any list of columns, the node read back shows in every selected field what the
   node `createSpec` returned shows, absent optional values being nil, if and only if the
   selected ones of created_at, updated_at and status were set: those alone have a column
   default that is not the zero value (of the timestamps, unless the clock stands at zero).
   */
  lemma {:induction false} CreateThenRead(e: Entity, id: Option<int>, m: Fields, newId: int, clock: int, columns: seq<Column>)
    requires Typed(e, m)
    ensures var (spec, node) := CreateSpec(e, id, m);
            var row := StoredRow(e, spec.fields, clock);
            && (row.Some? <==> Supplied(e, m))
            && (row.Some? ==>
                  (LookAlike(e, columns, Decode(e, columns, newId, row.value).fields, node.fields) <==>
                   forall c :: c in columns && Decisive(c, clock) ==> c in m))
  {
    CreateSpecIsFaithful(e, id, m);
    TableNeedsSupplied(e, m, clock);
    if StoredRow(e, m, clock).Some? {
      StoredReads(e, m, StoredRow(e, m, clock).value, newId, clock, columns);
    }
  }

  lemma {:induction false} StoredReads(e: Entity, m: Fields, row: Fields, newId: int, clock: int, columns: seq<Column>)
    requires Typed(e, m) && Completes(e, m, row, clock)
    ensures LookAlike(e, columns, Decode(e, columns, newId, row).fields, m) <==>
            forall c :: c in columns && Decisive(c, clock) ==> c in m
  {
    CompletedIsTyped(e, m, row, clock);
    DecodeSelects(e, columns, newId, row);
    forall c | c in columns && c != Id && AssignKind(e, c).Some?
      ensures Shown(e, Cut(row, columns), c) == Shown(e, m, c) <==> c in m || !Decisive(c, clock)
    {
      DefaultShows(e, m, row, columns, c, clock);
    }
    if LookAlike(e, columns, Decode(e, columns, newId, row).fields, m) {
      forall c | c in columns && Decisive(c, clock) ensures c in m {
        OnlyDecisiveDefaultsShow(e, c, clock);
      }
    }
  }

  lemma {:induction false} AllColumnsCutNothing(e: Entity, m: Fields, columns: seq<Column>)
    requires columns == Columns(e) && Typed(e, m)
    ensures Cut(m, columns) == m
    ensures forall c :: c in columns ==> AssignKind(e, c).Some?
    ensures Id in columns
  {
    forall c | c in m ensures c in columns {
      KnownListed(e, c);
    }
    forall c | c in columns ensures AssignKind(e, c).Some? {
      var k :| 0 <= k < |columns| && columns[k] == c;
      ColumnsKnown(e, k);
    }
    KnownListed(e, Id);
    assert Cut(m, columns) == m;
  }

  lemma {:induction false} DefaultedIsRequired(e: Entity, c: Column, clock: int)
    requires ColumnDefault(e, c, clock).Some?
    ensures exists k :: 0 <= k < |Rules(e)| && Rules(e)[k].column == c
  {
    var k := match c
      case CreatedAt => 0 case UpdatedAt => 1 case Subject => 4 case Body => 5 case BodyText => 6
      case Status => if e.Broadcast? then 7 else 4
      case RecipientsTotal => 8 case SentCount => 9 case OpenedCount => 10 case ClickedCount => 11
      case UnsubscribedCount => 12 case FailedCount => 13 case _ => 14;
    assert Rules(e)[k].column == c;
  }

  lemma {:induction false} CheckedHasDefaulted(e: Entity, valid: Validators, m: Fields, clock: int)
    requires Check(e, valid, m).None?
    ensures forall c :: ColumnDefault(e, c, clock).Some? ==> c in m
  {
    PassingMeetsAll(valid, m, Rules(e));
    forall c | ColumnDefault(e, c, clock).Some? ensures c in m {
      DefaultedIsRequired(e, c, clock);
      var k :| 0 <= k < |Rules(e)| && Rules(e)[k].column == c;
      assert Meets(valid, m, Rules(e)[k]);
    }
  }

  /** A mutation that passes its check leaves nothing to the column defaults. */
  lemma {:induction false} CheckedIsStoredAsGiven(e: Entity, valid: Validators, m: Fields, clock: int)
    requires Check(e, valid, m).None?
    ensures StoredRow(e, m, clock) == Some(m)
  {
    CheckedIsSupplied(e, valid, m);
    TableNeedsSupplied(e, m, clock);
    CheckedHasDefaulted(e, valid, m, clock);
    NothingToComplete(e, m, StoredRow(e, m, clock).value, clock);
  }

  lemma {:induction false} NothingToComplete(e: Entity, m: Fields, row: Fields, clock: int)
    requires Completes(e, m, row, clock) && forall c :: ColumnDefault(e, c, clock).Some? ==> c in m
    ensures row == m
  {}

  lemma {:induction false} CheckedIsSupplied(e: Entity, valid: Validators, m: Fields)
    requires Check(e, valid, m).None?
    ensures Supplied(e, m)
  {
    PassingMeetsAll(valid, m, Rules(e));
    assert Meets(valid, m, Rules(e)[2]) && Meets(valid, m, Rules(e)[3]);
  }

  /** A checked mutation read back through all columns is the node, with the id the store gave it. */
  lemma {:induction false} CheckedRowReadsBack(e: Entity, valid: Validators, id: Option<int>, m: Fields, newId: int, clock: int)
    requires Typed(e, m) && Check(e, valid, m).None?
    ensures var (spec, node) := CreateSpec(e, id, m);
            && StoredRow(e, spec.fields, clock) == Some(spec.fields)
            && Decode(e, Columns(e), newId, spec.fields) == node.(id := newId)
  {
    CreateSpecIsFaithful(e, id, m);
    CheckedIsStoredAsGiven(e, valid, m, clock);
    ReadsBack(e, m, newId, Columns(e));
  }

  lemma {:induction false} ReadsBack(e: Entity, m: Fields, newId: int, columns: seq<Column>)
    requires Typed(e, m) && columns == Columns(e)
    ensures Decode(e, columns, newId, m) == Node(newId, m, map[])
  {
    AllColumnsCutNothing(e, m, columns);
    DecodeSelects(e, columns, newId, m);
    assert Decode(e, columns, newId, m).dynamic == map[];
  }
}
