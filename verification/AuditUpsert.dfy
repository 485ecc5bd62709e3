/**
 Conflict clauses of audit entries: what the typed upsert calls of a create builder add to its
 conflict list, how the list is resolved when the statement is built, and what the resolved
 clause does to stored rows.
 */
module AuditUpsert {
  import opened Prelude
  import opened Schema
  import Store

  // ----- columns -----

  /** The columns the schema declares immutable, in the order the builders ask for them. */
  const IMMUTABLES: seq<Column> :=
    [Id, CreatedAt, EntryKey, OccurredAt, ActorKind, ActorId, ActorName, Action, TargetType, TargetId,
     TargetName, Diff, RequestId, Ip, UserAgent]

  predicate Immutable(c: Column) {
    match c
    case Id | CreatedAt | EntryKey | OccurredAt | ActorKind | ActorId | ActorName | Action | TargetType
      | TargetId | TargetName | Diff | RequestId | Ip | UserAgent => true
    case _ => false
  }

  lemma {:induction false} ImmutablesListed()
    ensures forall c :: c in IMMUTABLES <==> Immutable(c)
  {}

  /** Columns of the table besides the id. */
  predicate Stored(c: Column) {
    c != Id && (Immutable(c) || c == UpdatedAt || c == WorkspaceId)
  }

  // ----- mutations -----

  /** The state of an `AuditEntryMutation`. */
  datatype Mut = Mut(id: Option<int>, fields: Fields, cleared: set<Column>, workspaceCleared: bool)

  predicate Exists(m: Mut, c: Column) {
    if c == Id then m.id.Some? else c in m.fields
  }

  function WithTimes(m: Mut, now: int): Mut {
    var m1 := if CreatedAt in m.fields then m else m.(fields := m.fields[CreatedAt := TimeV(now)]);
    if UpdatedAt in m1.fields then m1 else m1.(fields := m1.fields[UpdatedAt := TimeV(now)])
  }

  function SpecOf(m: Mut): Store.Spec {
    Store.Spec(m.id, map c | c in m.fields && Stored(c) :: m.fields[c])
  }

  function Proposed(s: Store.Spec): set<Column> {
    s.fields.Keys + if s.id.Some? then {Id} else {}
  }

  function AllProposed(specs: seq<Store.Spec>): (r: set<Column>)
    ensures forall c :: c in r <==> exists k :: 0 <= k < |specs| && c in Proposed(specs[k])
  {
    if specs == [] then {} else Proposed(specs[0]) + AllProposed(specs[1..])
  }

  /** The immutable columns present in at least one mutation. */
  function Present(ms: seq<Mut>): (r: set<Column>)
    ensures forall c :: c in r <==> Immutable(c) && exists k :: 0 <= k < |ms| && Exists(ms[k], c)
  {
    ImmutablesListed();
    set c | c in IMMUTABLES && exists k :: 0 <= k < |ms| && Exists(ms[k], c)
  }

  // ----- conflict lists -----

  /** The new value of a column of the conflicting row. */
  datatype Assign = Excluded | Self | Value(v: Scalar)

  /** `IgnorePresent` is a closure: it asks the mutations when the statement is built. */
  datatype ConflictOption =
    | Target(columns: seq<Column>)
    | NewValues
    | IgnorePresent
    | IgnoreAll
    | Nothing
    | Setter(column: Column, value: Assign)

  datatype Call =
    | OnConflictColumns(columns: seq<Column>)
    | UpdateNewValues
    | Ignore
    | DoNothing
    | SetUpdatedAt(v: int)
    | UpdateUpdatedAt
    | SetWorkspaceID(v: int)
    | UpdateWorkspaceID

  function Options(call: Call): seq<ConflictOption> {
    match call
    case OnConflictColumns(columns) => [Target(columns)]
    case UpdateNewValues => [NewValues, IgnorePresent]
    case Ignore => [IgnoreAll]
    case DoNothing => [Nothing]
    case SetUpdatedAt(v) => [Setter(UpdatedAt, Value(TimeV(v)))]
    case UpdateUpdatedAt => [Setter(UpdatedAt, Excluded)]
    case SetWorkspaceID(v) => [Setter(WorkspaceId, Value(IntV(v)))]
    case UpdateWorkspaceID => [Setter(WorkspaceId, Excluded)]
  }

  function Conflict(calls: seq<Call>): seq<ConflictOption> {
    if calls == [] then [] else Conflict(calls[..|calls| - 1]) + Options(calls[|calls| - 1])
  }

  // ----- resolution -----

  type Assigns = map<Column, Assign>

  function All(columns: set<Column>, a: Assign): Assigns {
    map c | c in columns :: a
  }

  function ApplyOption(o: ConflictOption, columns: set<Column>, present: set<Column>, s: Assigns): Assigns {
    match o
    case NewValues => s + All(columns, Excluded)
    case IgnorePresent => s + All(present, Self)
    case IgnoreAll => s + All(columns, Self)
    case Setter(c, a) => s[c := a]
    case Target(_) => s
    case Nothing => s
  }

  /** The options applied in order: a later assignment to a column replaces an earlier one. */
  function Resolve(os: seq<ConflictOption>, columns: set<Column>, present: set<Column>): Assigns {
    if os == [] then map[]
    else ApplyOption(os[|os| - 1], columns, present, Resolve(os[..|os| - 1], columns, present))
  }

  function TargetOf(os: seq<ConflictOption>): seq<Column> {
    if os == [] then []
    else if os[|os| - 1].Target? then os[|os| - 1].columns
    else TargetOf(os[..|os| - 1])
  }

  datatype Clause =
    | NoClause
    | Skip(target: seq<Column>)
    | DoUpdate(target: seq<Column>, assigns: Assigns)
    | NoAction

  function ClauseOf(os: seq<ConflictOption>, columns: set<Column>, present: set<Column>): Clause {
    if os == [] then NoClause
    else if Nothing in os then Skip(TargetOf(os))
    else if forall k :: 0 <= k < |os| ==> os[k].Target? then NoAction
    else DoUpdate(TargetOf(os), Resolve(os, columns, present))
  }

  // ----- the typed calls spare immutable columns -----

  ghost predicate Spares(s: Assigns) {
    forall c :: c in s && Immutable(c) ==> s[c] == Self
  }

  lemma {:induction false} ResolveAppends(os: seq<ConflictOption>, o: ConflictOption, columns: set<Column>, present: set<Column>)
    ensures Resolve(os + [o], columns, present) == ApplyOption(o, columns, present, Resolve(os, columns, present))
  {}

  lemma {:induction false} ResolveCall(os: seq<ConflictOption>, call: Call, columns: set<Column>, present: set<Column>)
    ensures Resolve(os + Options(call), columns, present)
         == if call.UpdateNewValues? then Resolve(os, columns, present) + All(columns, Excluded) + All(present, Self)
            else ApplyOption(Options(call)[0], columns, present, Resolve(os, columns, present))
  {
    if call.UpdateNewValues? {
      ResolveAppends(os, NewValues, columns, present);
      ResolveAppends(os + [NewValues], IgnorePresent, columns, present);
      assert os + Options(call) == os + [NewValues] + [IgnorePresent];
    } else {
      ResolveAppends(os, Options(call)[0], columns, present);
      assert Options(call) == [Options(call)[0]];
    }
  }

  /** Whatever typed calls are made, in whatever order, the clause sets no immutable column to a new value. */
  lemma {:induction false} TypedCallsSpareImmutables(calls: seq<Call>, columns: set<Column>, present: set<Column>)
    requires forall c :: c in columns && Immutable(c) ==> c in present
    ensures Spares(Resolve(Conflict(calls), columns, present))
  {
    if calls != [] {
      var front, last := calls[..|calls| - 1], calls[|calls| - 1];
      TypedCallsSpareImmutables(front, columns, present);
      CallSpares(Conflict(front), last, columns, present);
    }
  }

  lemma {:induction false} CallSpares(os: seq<ConflictOption>, call: Call, columns: set<Column>, present: set<Column>)
    requires forall c :: c in columns && Immutable(c) ==> c in present
    requires Spares(Resolve(os, columns, present))
    ensures Spares(Resolve(os + Options(call), columns, present))
  {
    ResolveCall(os, call, columns, present);
    var s, t := Resolve(os, columns, present), Resolve(os + Options(call), columns, present);
    forall c | c in t && Immutable(c) ensures t[c] == Self {
      if c in s { assert s[c] == Self; }
    }
  }

  /** The columns proposed for insertion that are immutable are present in some mutation. */
  lemma {:induction false} ProposedImmutablesArePresent(ms: seq<Mut>, specs: seq<Store.Spec>)
    requires |specs| == |ms| && forall k :: 0 <= k < |ms| ==> specs[k] == SpecOf(ms[k])
    ensures forall c :: c in AllProposed(specs) && Immutable(c) <==> c in Present(ms)
  {}

  // ----- stored rows -----

  function Cell(row: Fields, c: Column): Option<Scalar> {
    if c in row then Some(row[c]) else None
  }

  /** A column of the conflicting row after the update; what a row proposes nothing for is null. */
  function NewCell(row: Fields, s: Assigns, proposed: Fields, c: Column): Option<Scalar> {
    if c !in s || c == Id then Cell(row, c)
    else
      match s[c]
      case Self => Cell(row, c)
      case Excluded => Cell(proposed, c)
      case Value(v) => Some(v)
  }

  function Assigned(row: Fields, s: Assigns, proposed: Fields): (r: Fields)
    ensures forall c :: Cell(r, c) == NewCell(row, s, proposed, c)
  {
    map c | c in row.Keys + s.Keys && NewCell(row, s, proposed, c).Some? :: NewCell(row, s, proposed, c).value
  }

  /** The id column can be assigned like any other. */
  function NewId(k: int, s: Assigns, spec: Store.Spec, next: int): int {
    if Id !in s then k
    else
      match s[Id]
      case Self => k
      case Excluded => if spec.id.Some? then spec.id.value else next
      case Value(v) => if v.IntV? then v.i else k
  }

  /**
   One clause serves every row of a batch, and ignoring the immutable columns of all builders
   is exactly what is needed: with any set `ignored` after `ResolveWithNewValues`, no immutable
   column of any conflicting row changes, whatever the row holds, if and only if every
   immutable column of every builder is in the set.
   */
  lemma {:induction false} IgnoredSetIsTheRightOne(ms: seq<Mut>, specs: seq<Store.Spec>, ignored: set<Column>)
    requires |specs| == |ms| && forall k :: 0 <= k < |ms| ==> specs[k] == SpecOf(ms[k])
    ensures Harmless(All(AllProposed(specs), Excluded) + All(ignored, Self), specs)
       <==> forall c :: c in Present(ms) && c != Id ==> c in ignored
  {
    SameColumnsAtStake(ms, specs, ignored);
    if Harmless(All(AllProposed(specs), Excluded) + All(ignored, Self), specs) {
      HarmlessIgnoresAll(specs, ignored);
    } else {
      IgnoringAllIsHarmless(specs, ignored);
    }
  }

  lemma {:induction false} SameColumnsAtStake(ms: seq<Mut>, specs: seq<Store.Spec>, ignored: set<Column>)
    requires |specs| == |ms| && forall k :: 0 <= k < |ms| ==> specs[k] == SpecOf(ms[k])
    ensures (forall c :: c in AllProposed(specs) && Immutable(c) && c != Id ==> c in ignored)
       <==> (forall c :: c in Present(ms) && c != Id ==> c in ignored)
  {}

  lemma {:induction false} NewValuesCell(columns: set<Column>, ignored: set<Column>, proposed: Fields, row: Fields, c: Column)
    requires c != Id
    ensures NewCell(row, All(columns, Excluded) + All(ignored, Self), proposed, c)
         == if c in ignored || c !in columns then Cell(row, c) else Cell(proposed, c)
  {}

  lemma {:induction false} HarmlessIgnoresAll(specs: seq<Store.Spec>, ignored: set<Column>)
    requires Harmless(All(AllProposed(specs), Excluded) + All(ignored, Self), specs)
    ensures forall c :: c in AllProposed(specs) && Immutable(c) && c != Id ==> c in ignored
  {
    forall c | c in AllProposed(specs) && Immutable(c) && c != Id ensures c in ignored {
      var k :| 0 <= k < |specs| && c in Proposed(specs[k]);
      assert Spared(All(AllProposed(specs), Excluded) + All(ignored, Self), specs[k].fields, map[], c);
      NewValuesCell(AllProposed(specs), ignored, specs[k].fields, map[], c);
    }
  }

  lemma {:induction false} IgnoringAllIsHarmless(specs: seq<Store.Spec>, ignored: set<Column>)
    ensures (forall c :: c in AllProposed(specs) && Immutable(c) && c != Id ==> c in ignored) ==>
              Harmless(All(AllProposed(specs), Excluded) + All(ignored, Self), specs)
  {}

  ghost predicate Spared(s: Assigns, proposed: Fields, row: Fields, c: Column) {
    NewCell(row, s, proposed, c) == Cell(row, c)
  }

  /** No row of the batch changes an immutable column of a row it conflicts with. */
  ghost predicate Harmless(s: Assigns, specs: seq<Store.Spec>) {
    forall k, row, c :: 0 <= k < |specs| && Immutable(c) && c != Id ==> Spared(s, specs[k].fields, row, c)
  }

  /**
   In bulk, the columns `UpdateNewValues` leaves alone are exactly the immutable ones present in
   at least one builder; the other proposed columns take the new value.
   */
  lemma {:induction false} BulkIgnoresWhatAnyBuilderSets(ms: seq<Mut>, specs: seq<Store.Spec>, target: seq<Column>, c: Column)
    requires |specs| == |ms| && forall k :: 0 <= k < |ms| ==> specs[k] == SpecOf(ms[k])
    ensures var s := Resolve(Conflict([OnConflictColumns(target), UpdateNewValues]), AllProposed(specs), Present(ms));
            && (c in s && s[c] == Self <==> Immutable(c) && exists k :: 0 <= k < |ms| && Exists(ms[k], c))
            && (c in s && s[c] == Excluded <==> c in AllProposed(specs) && !Immutable(c))
            && (c in s ==> s[c] == Self || s[c] == Excluded)
  {
    ResolvesNewValues(target, AllProposed(specs), Present(ms));
    ProposedImmutablesArePresent(ms, specs);
  }

  lemma {:induction false} ResolvesNewValues(target: seq<Column>, columns: set<Column>, present: set<Column>)
    ensures Resolve(Conflict([OnConflictColumns(target), UpdateNewValues]), columns, present)
         == All(columns, Excluded) + All(present, Self)
  {
    var calls := [OnConflictColumns(target), UpdateNewValues];
    assert calls[..1] == [OnConflictColumns(target)] && calls[..1][..0] == [];
    assert Conflict(calls[..1][..0]) == [];
    assert Conflict(calls[..1]) == [] + Options(OnConflictColumns(target));
    ResolveCall([], OnConflictColumns(target), columns, present);
    ResolveCall(Conflict(calls[..1]), UpdateNewValues, columns, present);
  }

  /**
   The comment on `UpdateNewValues` offers `ResolveWithNewValues` with the id ignored as an
   equivalent. It is not: that form overwrites every other proposed immutable column, which the
   code leaves alone.
   */
  lemma {:induction false} DocumentedFormOverwrites(m: Mut, c: Column)
    requires c in Proposed(SpecOf(m)) && Immutable(c) && c != Id
    ensures var columns := Proposed(SpecOf(m));
            && AssignOf(Resolve([NewValues, IgnorePresent], columns, Present([m])), c) == Some(Self)
            && AssignOf(Resolve([NewValues, Setter(Id, Self)], columns, Present([m])), c) == Some(Excluded)
  {
    BothForms(Proposed(SpecOf(m)), Present([m]));
    assert Exists([m][0], c);
  }

  /** The other proposed columns are treated alike. */
  lemma {:induction false} DocumentedFormAgreesElsewhere(m: Mut, c: Column)
    requires c in Proposed(SpecOf(m)) && (!Immutable(c) || c == Id)
    ensures var columns := Proposed(SpecOf(m));
            AssignOf(Resolve([NewValues, IgnorePresent], columns, Present([m])), c)
            == AssignOf(Resolve([NewValues, Setter(Id, Self)], columns, Present([m])), c)
  {
    BothForms(Proposed(SpecOf(m)), Present([m]));
    assert c == Id ==> Exists([m][0], c);
  }

  function AssignOf(s: Assigns, c: Column): Option<Assign> {
    if c in s then Some(s[c]) else None
  }

  lemma {:induction false} BothForms(columns: set<Column>, present: set<Column>)
    ensures Resolve([NewValues, IgnorePresent], columns, present) == All(columns, Excluded) + All(present, Self)
    ensures Resolve([NewValues, Setter(Id, Self)], columns, present) == All(columns, Excluded)[Id := Self]
  {
    ResolveAppends([], NewValues, columns, present);
    assert [] + [NewValues] == [NewValues];
    ResolveAppends([NewValues], IgnorePresent, columns, present);
    assert [NewValues] + [IgnorePresent] == [NewValues, IgnorePresent];
    ResolveAppends([NewValues], Setter(Id, Self), columns, present);
    assert [NewValues] + [Setter(Id, Self)] == [NewValues, Setter(Id, Self)];
  }
}
