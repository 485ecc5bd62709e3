/**
 Rows to nodes and back: `scanValues` and `assignValues` of Broadcast and
 BroadcastRecipient, and `defaults`, `check` and `createSpec` of their builders.
 */
module RowCodec {
  import opened Prelude
  import opened Schema

  datatype Entity = Broadcast | Recipient

  datatype Kind = Int64 | Text | Instant

  /** A scan target: a nullable holder for a known column, any value for another one. */
  datatype Holder =
    | NullInt64(valid: bool, int64: int)
    | NullString(valid: bool, text: string)
    | NullTime(valid: bool, time: int)
    | Unknown(raw: Option<Scalar>)

  datatype CodecError =
    | Mismatch(values: nat, columns: nat)
    | UnexpectedType(column: Column)

  /** A node: its id, the fields assigned so far, and the values of columns it has no field for. */
  datatype Node = Node(id: int, fields: Fields, dynamic: map<Column, Holder>)

  const EMPTY := Node(0, map[], map[])

  /** The case lists of `scanValues`. */
  function ScanKind(e: Entity, column: Column): Option<Kind> {
    match e
    case Broadcast => (
      match column
      case Id | WorkspaceId | SegmentId | IntegrationId | RecipientsTotal | SentCount | OpenedCount
         | ClickedCount | UnsubscribedCount | FailedCount | SkippedCount => Some(Int64)
      case Name | Subject | FromName | FromEmail | Body | BodyText | Status | HoldReason => Some(Text)
      case CreatedAt | UpdatedAt | ScheduledAt | SentAt | LastScheduledAt => Some(Instant)
      case _ => None
    )
    case Recipient => (
      match column
      case Id | WorkspaceId | BroadcastId | ContactId | OutboundMessageId => Some(Int64)
      case Status | ErrorText => Some(Text)
      case CreatedAt | UpdatedAt | DeferredUntil | SentAt | OpenedAt | ClickedAt => Some(Instant)
      case _ => None
    )
  }

  /** The holder type each case of `assignValues` expects, in the order of its cases. */
  function AssignKind(e: Entity, column: Column): Option<Kind> {
    match e
    case Broadcast => (
      match column
      case Id => Some(Int64)
      case CreatedAt => Some(Instant)
      case UpdatedAt => Some(Instant)
      case WorkspaceId => Some(Int64)
      case Name => Some(Text)
      case Subject => Some(Text)
      case FromName => Some(Text)
      case FromEmail => Some(Text)
      case Body => Some(Text)
      case BodyText => Some(Text)
      case SegmentId => Some(Int64)
      case IntegrationId => Some(Int64)
      case Status => Some(Text)
      case ScheduledAt => Some(Instant)
      case SentAt => Some(Instant)
      case RecipientsTotal => Some(Int64)
      case SentCount => Some(Int64)
      case OpenedCount => Some(Int64)
      case ClickedCount => Some(Int64)
      case UnsubscribedCount => Some(Int64)
      case FailedCount => Some(Int64)
      case SkippedCount => Some(Int64)
      case HoldReason => Some(Text)
      case LastScheduledAt => Some(Instant)
      case _ => None
    )
    case Recipient => (
      match column
      case Id => Some(Int64)
      case CreatedAt => Some(Instant)
      case UpdatedAt => Some(Instant)
      case WorkspaceId => Some(Int64)
      case BroadcastId => Some(Int64)
      case ContactId => Some(Int64)
      case Status => Some(Text)
      case OutboundMessageId => Some(Int64)
      case ErrorText => Some(Text)
      case DeferredUntil => Some(Instant)
      case SentAt => Some(Instant)
      case OpenedAt => Some(Instant)
      case ClickedAt => Some(Instant)
      case _ => None
    )
  }

  /** The generated `Columns` slice. */
  function Columns(e: Entity): seq<Column> {
    match e
    case Broadcast =>
      [Id, CreatedAt, UpdatedAt, WorkspaceId, Name, Subject, FromName, FromEmail, Body, BodyText,
       SegmentId, IntegrationId, Status, ScheduledAt, SentAt, RecipientsTotal, SentCount, OpenedCount,
       ClickedCount, UnsubscribedCount, FailedCount, SkippedCount, HoldReason, LastScheduledAt]
    case Recipient =>
      [Id, CreatedAt, UpdatedAt, WorkspaceId, BroadcastId, ContactId, Status, OutboundMessageId,
       ErrorText, DeferredUntil, SentAt, OpenedAt, ClickedAt]
  }

  lemma {:induction false} SwitchesAgree(e: Entity, column: Column)
    ensures ScanKind(e, column) == AssignKind(e, column)
  {}

  lemma {:induction false} ColumnsKnown(e: Entity, k: nat)
    requires k < |Columns(e)|
    ensures AssignKind(e, Columns(e)[k]).Some?
  {}

  lemma {:induction false} KnownListed(e: Entity, column: Column)
    requires AssignKind(e, column).Some?
    ensures column in Columns(e)
  {
    var cs := Columns(e);
    if e.Broadcast? {
      assert column in {cs[0], cs[1], cs[2], cs[3], cs[4], cs[5], cs[6], cs[7], cs[8], cs[9], cs[10], cs[11],
                        cs[12], cs[13], cs[14], cs[15], cs[16], cs[17], cs[18], cs[19], cs[20], cs[21], cs[22], cs[23]};
    } else {
      assert column in {cs[0], cs[1], cs[2], cs[3], cs[4], cs[5], cs[6], cs[7], cs[8], cs[9], cs[10], cs[11], cs[12]};
    }
  }

  // ----- reading a row -----

  /** Whether a case of `assignValues` accepts the holder. */
  predicate Accepts(e: Entity, column: Column, holder: Holder) {
    match AssignKind(e, column)
    case None => true
    case Some(Int64) => holder.NullInt64?
    case Some(Text) => holder.NullString?
    case Some(Instant) => holder.NullTime?
  }

  /** Whether `scanValues` would make a holder of this kind for the column. */
  predicate Fits(e: Entity, column: Column, holder: Holder) {
    match ScanKind(e, column)
    case None => holder.Unknown?
    case Some(Int64) => holder.NullInt64?
    case Some(Text) => holder.NullString?
    case Some(Instant) => holder.NullTime?
  }

  predicate HasValue(holder: Holder) {
    !holder.Unknown? && holder.valid
  }

  function Content(holder: Holder): Scalar
    requires HasValue(holder)
  {
    match holder
    case NullInt64(_, v) => IntV(v)
    case NullString(_, v) => StrV(v)
    case NullTime(_, v) => TimeV(v)
  }

  /** One case of `assignValues`. The id takes the holder's number even when it is not valid. */
  function AssignOne(e: Entity, n: Node, column: Column, holder: Holder): Node
    requires Accepts(e, column, holder)
  {
    if AssignKind(e, column).None? then
      n.(dynamic := n.dynamic[column := holder])
    else if column == Id then
      n.(id := holder.int64)
    else if HasValue(holder) then
      n.(fields := n.fields[column := Content(holder)])
    else
      n
  }

  /** The first i columns assigned; an unexpected holder stops the assignment there. */
  function AssignUpTo(e: Entity, n: Node, columns: seq<Column>, values: seq<Holder>, i: nat): (Node, Option<CodecError>)
    requires i <= |columns| <= |values|
  {
    if i == 0 then
      (n, None)
    else
      var (n1, err) := AssignUpTo(e, n, columns, values, i - 1);
      if err.Some? then (n1, err)
      else if Accepts(e, columns[i - 1], values[i - 1]) then
        (AssignOne(e, n1, columns[i - 1], values[i - 1]), None)
      else
        (n1, Some(UnexpectedType(columns[i - 1])))
  }

  function Assigned(e: Entity, n: Node, columns: seq<Column>, values: seq<Holder>): (Node, Option<CodecError>) {
    if |values| < |columns| then
      (n, Some(Mismatch(|values|, |columns|)))
    else
      AssignUpTo(e, n, columns, values, |columns|)
  }

  /** An entity under construction. */
  class Entry {
    const entity: Entity
    var node: Node

    constructor (entity: Entity)
      ensures this.entity == entity && node == EMPTY
    {
      this.entity, node := entity, EMPTY;
    }

    /** `assignValues`. */
    method AssignValues(columns: seq<Column>, values: array<Holder>) returns (err: Option<CodecError>)
      modifies this
      ensures (node, err) == Assigned(entity, old(node), columns, values[..])
    {
      if values.Length < |columns| {
        return Some(Mismatch(values.Length, |columns|));
      }
      for i := 0 to |columns|
        invariant (node, None) == AssignUpTo(entity, old(node), columns, values[..], i)
      {
        if !Accepts(entity, columns[i], values[i]) {
          err := Some(UnexpectedType(columns[i]));
          StaysFailed(entity, old(node), columns, values[..], i + 1, |columns|);
          return;
        }
        node := AssignOne(entity, node, columns[i], values[i]);
      }
      err := None;
    }
  }

  /** `scanValues`: one fresh holder per column, of the kind its case list names. */
  method ScanValues(e: Entity, columns: seq<Column>) returns (values: array<Holder>)
    ensures fresh(values) && values.Length == |columns|
    ensures forall i :: 0 <= i < |columns| ==> Fits(e, columns[i], values[i]) && !HasValue(values[i])
  {
    values := new Holder[|columns|](_ => Unknown(None));
    for i := 0 to |columns|
      invariant forall j :: 0 <= j < i ==> Fits(e, columns[j], values[j]) && !HasValue(values[j])
    {
      match ScanKind(e, columns[i])
      case Some(Int64) => values[i] := NullInt64(false, 0);
      case Some(Text) => values[i] := NullString(false, "");
      case Some(Instant) => values[i] := NullTime(false, 0);
      case None => values[i] := Unknown(None);
    }
  }

  lemma {:induction false} StaysFailed(e: Entity, n: Node, columns: seq<Column>, values: seq<Holder>, i: nat, j: nat)
    requires i <= j <= |columns| <= |values| && AssignUpTo(e, n, columns, values, i).1.Some?
    ensures AssignUpTo(e, n, columns, values, j) == AssignUpTo(e, n, columns, values, i)
  {
    if i < j { StaysFailed(e, n, columns, values, i, j - 1); }
  }

  function HolderKind(holder: Holder): Option<Kind> {
    match holder
    case NullInt64(_, _) => Some(Int64)
    case NullString(_, _) => Some(Text)
    case NullTime(_, _) => Some(Instant)
    case Unknown(_) => None
  }

  /** A known column takes a holder of its own kind, any other column any holder. */
  predicate Takes(e: Entity, column: Column, holder: Holder) {
    AssignKind(e, column).Some? ==> HolderKind(holder) == AssignKind(e, column)
  }

  /**
   A decoding fails exactly at the first holder that is not of its column's kind; the
   columns before it are assigned and the error names the column.
   */
  lemma {:induction false} FailsAtFirstMismatch(e: Entity, n: Node, columns: seq<Column>, values: seq<Holder>, j: nat)
    requires j <= |columns| <= |values|
    requires forall i :: 0 <= i < j ==> Takes(e, columns[i], values[i])
    ensures AssignUpTo(e, n, columns, values, j).1.None?
    ensures j < |columns| && !Takes(e, columns[j], values[j]) ==>
              Assigned(e, n, columns, values) ==
              (AssignUpTo(e, n, columns, values, j).0, Some(UnexpectedType(columns[j])))
  {
    if j > 0 { FailsAtFirstMismatch(e, n, columns, values, j - 1); }
    if j < |columns| && !Takes(e, columns[j], values[j]) {
      StaysFailed(e, n, columns, values, j + 1, |columns|);
    }
  }

  /** Holders as `scanValues` makes them for these columns, whatever the row put in them. */
  ghost predicate OwnHolders(e: Entity, columns: seq<Column>, values: seq<Holder>) {
    |values| == |columns| && forall i :: 0 <= i < |columns| ==> Fits(e, columns[i], values[i])
  }

  /** The last of the first i columns that is c and whose holder has a value. */
  function LastValid(columns: seq<Column>, values: seq<Holder>, c: Column, i: nat): (r: Option<nat>)
    requires i <= |columns| <= |values|
    ensures r.Some? ==> r.value < i && columns[r.value] == c && HasValue(values[r.value])
    ensures forall j :: (if r.Some? then r.value + 1 else 0) <= j < i ==> columns[j] != c || !HasValue(values[j])
  {
    if i == 0 then None
    else if columns[i - 1] == c && HasValue(values[i - 1]) then Some(i - 1)
    else LastValid(columns, values, c, i - 1)
  }

  /** The last of the first i columns that is c. */
  function LastNamed(columns: seq<Column>, c: Column, i: nat): (r: Option<nat>)
    requires i <= |columns|
    ensures r.Some? ==> r.value < i && columns[r.value] == c
    ensures forall j :: (if r.Some? then r.value + 1 else 0) <= j < i ==> columns[j] != c
  {
    if i == 0 then None
    else if columns[i - 1] == c then Some(i - 1)
    else LastNamed(columns, c, i - 1)
  }

  /** What the first i columns leave for one column name. */
  ghost predicate Settled(e: Entity, n: Node, columns: seq<Column>, values: seq<Holder>, i: nat, c: Column, r: Node)
    requires i <= |columns| && OwnHolders(e, columns, values)
  {
    var valid := LastValid(columns, values, c, i);
    var named := LastNamed(columns, c, i);
    if AssignKind(e, c).None? then
      && (c in r.fields <==> c in n.fields) && (c in n.fields ==> r.fields[c] == n.fields[c])
      && (c in r.dynamic <==> named.Some? || c in n.dynamic)
      && (c in r.dynamic ==> r.dynamic[c] == if named.Some? then values[named.value] else n.dynamic[c])
    else
      && (c in r.dynamic <==> c in n.dynamic) && (c in n.dynamic ==> r.dynamic[c] == n.dynamic[c])
      && (c == Id ==>
            && r.id == (if named.Some? then values[named.value].int64 else n.id)
            && (c in r.fields <==> c in n.fields) && (c in n.fields ==> r.fields[c] == n.fields[c]))
      && (c != Id ==>
            && (c in r.fields <==> valid.Some? || c in n.fields)
            && (c in r.fields ==> r.fields[c] == if valid.Some? then Content(values[valid.value]) else n.fields[c]))
  }

  /**
   The row decoder is total on its own holders: for every list of columns, with repeats and
   unknown names, it reports no error, every field ends with the last valid value of its
   column, the id with the last number scanned for it, and columns without a field go to
   the dynamic values only.
   */
  lemma {:induction false} DecoderIsTotal(e: Entity, n: Node, columns: seq<Column>, values: seq<Holder>, i: nat)
    requires i <= |columns| && OwnHolders(e, columns, values)
    ensures AssignUpTo(e, n, columns, values, i).1.None?
    ensures forall c :: Settled(e, n, columns, values, i, c, AssignUpTo(e, n, columns, values, i).0)
  {
    if i > 0 {
      DecoderIsTotal(e, n, columns, values, i - 1);
      var (n1, err) := AssignUpTo(e, n, columns, values, i - 1);
      var column := columns[i - 1];
      SwitchesAgree(e, column);
      var n2 := AssignOne(e, n1, column, values[i - 1]);
      forall c ensures Settled(e, n, columns, values, i, c, n2) {
        assert Settled(e, n, columns, values, i - 1, c, n1);
      }
    }
  }
}
