/**
 The audit entry builders as objects: conflict lists appended call by call and resolved when
 the statement is built, and update specs filled step by step. Every method is proved equal to
 its counterpart on values.
 */
module AuditBuilders {
  import opened Prelude
  import opened Schema
  import opened AuditUpsert
  import opened AuditRuns
  import Store

  class Database {
    var table: Store.Table

    constructor (table: Store.Table)
      ensures this.table == table
    {
      this.table := table;
    }
  }

  /** `AuditEntryMutation`. */
  class Mutation {
    var id: Option<int>
    var fields: Fields
    var cleared: set<Column>
    var workspaceCleared: bool
    var done: bool

    constructor (m: Mut)
      ensures View() == m && !done
    {
      id, fields, cleared, workspaceCleared, done := m.id, m.fields, m.cleared, m.workspaceCleared, false;
    }

    function View(): Mut
      reads this
    {
      Mut(id, fields, cleared, workspaceCleared)
    }

    /** `defaults` of a create builder. */
    method FillForCreate(now: int)
      modifies this`fields
      ensures View() == WithTimes(old(View()), now)
    {
      if CreatedAt !in fields {
        fields := fields[CreatedAt := TimeV(now)];
      }
      if UpdatedAt !in fields {
        fields := fields[UpdatedAt := TimeV(now)];
      }
    }

    /** `defaults` of an update builder. */
    method FillForUpdate(now: int)
      modifies this`fields
      ensures View() == Touched(old(View()), now)
    {
      if UpdatedAt !in fields {
        fields := fields[UpdatedAt := TimeV(now)];
      }
    }
  }

  /** `sql.UpdateSet`: assignments over the columns of the insert. */
  class UpdateSet {
    const columns: set<Column>
    var values: Assigns

    constructor (columns: set<Column>)
      ensures this.columns == columns && values == map[]
    {
      this.columns, values := columns, map[];
    }

    method Set(c: Column, a: Assign)
      modifies this
      ensures values == old(values)[c := a]
    {
      values := values[c := a];
    }

    method SetAll(a: Assign)
      modifies this
      ensures values == old(values) + All(columns, a)
    {
      values := values + All(columns, a);
    }
  }

  // ----- create builders -----

  /** `AuditEntryCreate` with its upsert calls. */
  class Create {
    const mutation: Mutation
    var conflict: seq<ConflictOption>

    constructor (m: Mut)
      ensures fresh(mutation) && mutation.View() == m && !mutation.done && conflict == []
    {
      mutation := new Mutation(m);
      conflict := [];
    }

    method Do(call: Call)
      modifies this
      ensures conflict == old(conflict) + Options(call)
    {
      conflict := Appended(conflict, call);
    }

    /** A chain of calls on a builder without options gives the conflict list of the calls. */
    method DoAll(calls: seq<Call>)
      requires conflict == []
      modifies this
      ensures conflict == Conflict(calls)
    {
      for i := 0 to |calls|
        invariant conflict == Conflict(calls[..i])
      {
        assert calls[..i + 1][..i] == calls[..i];
        Do(calls[i]);
      }
      assert calls[..|calls|] == calls;
    }

    /** `AuditEntryUpsertOne.Exec`. */
    method Exec(st: Setup, db: Database, now: int) returns (r: Option<Failure>)
      requires db as object != this && db as object != mutation
      modifies db, mutation
      ensures conflict == [] ==> r == Some(MissingOptions) && db.table == old(db.table) && mutation.View() == old(mutation.View())
      ensures conflict != [] ==> Done(st, old(db.table), [old(mutation.View())], conflict, now, r, db.table)
      ensures mutation.done == (old(mutation.done) || r.None?)
    {
      if |conflict| == 0 {
        return Some(MissingOptions);
      }
      assert [this][0] == this && Views([this]) == [mutation.View()];
      r := SaveBuilders(st, db, [this], conflict, now);
    }
  }

  /** The slice appends of the upsert builders; `UpdateNewValues` makes two. */
  function Appended(conflict: seq<ConflictOption>, call: Call): (r: seq<ConflictOption>)
    ensures r == conflict + Options(call)
  {
    match call
    case UpdateNewValues => conflict + [NewValues] + [IgnorePresent]
    case _ => conflict + Options(call)
  }

  function Views(builders: seq<Create>): (r: seq<Mut>)
    reads set b | b in builders :: b.mutation
    ensures |r| == |builders| && forall k :: 0 <= k < |builders| ==> r[k] == builders[k].mutation.View()
  {
    seq(|builders|, k requires 0 <= k < |builders| reads set b | b in builders :: b.mutation => builders[k].mutation.View())
  }

  ghost predicate OwnMutations(builders: seq<Create>) {
    forall j, k :: 0 <= j < k < |builders| ==> builders[j].mutation != builders[k].mutation
  }

  /** A save did what its value form says; a failure leaves the table alone. */
  ghost predicate Done(st: Setup, before: Store.Table, ms: seq<Mut>, os: seq<ConflictOption>, now: int,
                       r: Option<Failure>, after: Store.Table)
  {
    match SaveAll(st, before, ms, os, now)
    case Ok(t) => r == None && after == t
    case Err(e) => r == Some(e) && after == before
  }

  // ----- resolving a conflict list -----

  function PresentIn(m: Mut, list: seq<Column>): set<Column> {
    set c | c in list && Exists(m, c)
  }

  lemma {:induction false} PresentInGrows(m: Mut, list: seq<Column>, j: nat)
    requires j < |list|
    ensures PresentIn(m, list[..j + 1]) == PresentIn(m, list[..j]) + if Exists(m, list[j]) then {list[j]} else {}
  {}

  /** One builder's turn of the `UpdateNewValues` closure. */
  method IgnoreColumnsOf(s: UpdateSet, m: Mutation, list: seq<Column>)
    requires s as object != m
    modifies s
    ensures s.values == old(s.values) + All(PresentIn(m.View(), list), Self)
  {
    ghost var v, start := m.View(), s.values;
    for j := 0 to |list|
      invariant s.values == start + All(PresentIn(v, list[..j]), Self)
    {
      PresentInGrows(v, list, j);
      OneMoreIgnored(start, PresentIn(v, list[..j]), list[j]);
      if Exists(m.View(), list[j]) {
        s.Set(list[j], Self);
      }
    }
    assert list[..|list|] == list;
  }

  ghost predicate ListsImmutables(list: seq<Column>) {
    forall c :: c in list <==> Immutable(c)
  }

  lemma {:induction false} PresentGrows(ms: seq<Mut>, i: nat, list: seq<Column>)
    requires i < |ms| && ListsImmutables(list)
    ensures Present(ms[..i + 1]) == Present(ms[..i]) + PresentIn(ms[i], list)
  {
    var some, more := ms[..i], ms[..i + 1];
    forall c ensures c in Present(more) <==> c in Present(some) + PresentIn(ms[i], list) {
      if c in Present(some) {
        var k :| 0 <= k < |some| && Exists(some[k], c);
        assert more[k] == some[k];
      }
      if c in PresentIn(ms[i], list) {
        assert more[i] == ms[i];
      }
      if c in Present(more) && c !in PresentIn(ms[i], list) {
        var k :| 0 <= k < |more| && Exists(more[k], c);
        assert some[k] == more[k];
      }
    }
  }

  lemma {:induction false} OneMoreIgnored(s: Assigns, a: set<Column>, c: Column)
    ensures s + All(a + {c}, Self) == (s + All(a, Self))[c := Self]
    ensures a + {} == a
  {}

  lemma {:induction false} AllJoins(s: Assigns, a: set<Column>, b: set<Column>)
    ensures s + All(a + b, Self) == s + All(a, Self) + All(b, Self)
  {}

  /** The closure itself: columns are ignored builder by builder. */
  method IgnorePresentColumns(s: UpdateSet, builders: seq<Create>, list: seq<Column>)
    requires ListsImmutables(list) && forall b :: b in builders ==> b.mutation as object != s
    modifies s
    ensures s.values == old(s.values) + All(Present(Views(builders)), Self)
  {
    ghost var ms, start := Views(builders), s.values;
    assert Present(ms[..0]) == {};
    for i := 0 to |builders|
      invariant s.values == start + All(Present(ms[..i]), Self)
    {
      PresentGrows(ms, i, list);
      IgnoreColumnsOf(s, builders[i].mutation, list);
      AllJoins(start, Present(ms[..i]), PresentIn(ms[i], list));
    }
    assert ms[..|builders|] == ms;
  }

  /** The update set of a statement: every option of the list runs on it in order. */
  method BuildUpdateSet(os: seq<ConflictOption>, columns: set<Column>, builders: seq<Create>) returns (s: UpdateSet)
    ensures fresh(s) && s.values == Resolve(os, columns, Present(Views(builders)))
  {
    s := new UpdateSet(columns);
    for i := 0 to |os|
      invariant fresh(s) && s.columns == columns
      invariant s.values == Resolve(os[..i], columns, Present(Views(builders)))
    {
      assert os[..i + 1][..i] == os[..i];
      match os[i]
      case NewValues => s.SetAll(Excluded);
      case IgnorePresent =>
        ImmutablesListed();
        IgnorePresentColumns(s, builders, IMMUTABLES);
      case IgnoreAll => s.SetAll(Self);
      case Setter(c, a) => s.Set(c, a);
      case Target(_) =>
      case Nothing =>
    }
    assert os[..|os|] == os;
  }

  method BuildClause(os: seq<ConflictOption>, columns: set<Column>, builders: seq<Create>) returns (c: Clause)
    ensures c == ClauseOf(os, columns, Present(Views(builders)))
  {
    if os == [] {
      c := NoClause;
    } else if Nothing in os {
      c := Skip(TargetOf(os));
    } else if forall k :: 0 <= k < |os| ==> os[k].Target? {
      c := NoAction;
    } else {
      var s := BuildUpdateSet(os, columns, builders);
      c := DoUpdate(TargetOf(os), s.values);
    }
  }

  // ----- saving -----

  method FillAll(builders: seq<Create>, now: int)
    requires OwnMutations(builders)
    modifies set b | b in builders :: b.mutation`fields
    ensures Views(builders) == AllWithTimes(old(Views(builders)), now)
  {
    for i := 0 to |builders|
      invariant forall k :: 0 <= k < i ==> builders[k].mutation.View() == WithTimes(old(builders[k].mutation.View()), now)
      invariant forall k :: i <= k < |builders| ==> builders[k].mutation.View() == old(builders[k].mutation.View())
    {
      builders[i].mutation.FillForCreate(now);
    }
  }

  /** The checks and specs of the builders in order. */
  method CheckAll(st: Setup, builders: seq<Create>) returns (err: Option<Store.Error>, specs: seq<Store.Spec>)
    ensures err == FirstInvalid(st.valid, Views(builders))
    ensures err.None? ==> specs == SpecsOf(Views(builders))
  {
    ghost var ms := Views(builders);
    specs := [];
    for i := 0 to |builders|
      invariant |specs| == i && forall k :: 0 <= k < i ==> specs[k] == SpecOf(ms[k])
      invariant FirstInvalid(st.valid, ms) == FirstInvalid(st.valid, ms[i..])
    {
      err := Check(st.valid, builders[i].mutation.View());
      if err.Some? { return; }
      specs := specs + [SpecOf(builders[i].mutation.View())];
    }
    err := None;
  }

  /** The batch save; a single create is a batch of one. */
  method SaveBuilders(st: Setup, db: Database, builders: seq<Create>, os: seq<ConflictOption>, now: int)
    returns (r: Option<Failure>)
    requires OwnMutations(builders) && forall b :: b in builders ==> b.mutation as object != db
    modifies db, set b | b in builders :: b.mutation
    ensures Done(st, old(db.table), old(Views(builders)), os, now, r, db.table)
    ensures forall b :: b in builders ==> b.mutation.done == (old(b.mutation.done) || r.None?)
  {
    FillAll(builders, now);
    var err, specs := CheckAll(st, builders);
    if err.Some? { return Some(Refused(err.value)); }
    if |builders| == 0 { return None; }
    var clause := BuildClause(os, AllProposed(specs), builders);
    match UpsertAll(st, db.table, clause, specs)
    case Err(e) => r := Some(e);
    case Ok(t) =>
      db.table := t;
      MarkDone(builders);
      r := None;
  }

  method MarkDone(builders: seq<Create>)
    modifies set b | b in builders :: b.mutation`done
    ensures forall b :: b in builders ==> b.mutation.done
  {
    for i := 0 to |builders|
      invariant forall k :: 0 <= k < i ==> builders[k].mutation.done
    {
      builders[i].mutation.done := true;
    }
  }

  /** `AuditEntryCreateBulk` with its upsert calls. */
  class CreateBulk {
    const err: Option<int>
    const builders: seq<Create>
    var conflict: seq<ConflictOption>

    constructor (err: Option<int>, builders: seq<Create>)
      ensures this.err == err && this.builders == builders && conflict == []
    {
      this.err, this.builders, conflict := err, builders, [];
    }

    method Do(call: Call)
      modifies this
      ensures conflict == old(conflict) + Options(call)
    {
      conflict := Appended(conflict, call);
    }

    /** A chain of calls on a builder without options gives the conflict list of the calls. */
    method DoAll(calls: seq<Call>)
      requires conflict == []
      modifies this
      ensures conflict == Conflict(calls)
    {
      for i := 0 to |calls|
        invariant conflict == Conflict(calls[..i])
      {
        assert calls[..i + 1][..i] == calls[..i];
        Do(calls[i]);
      }
      assert calls[..|calls|] == calls;
    }

    method Save(st: Setup, db: Database, now: int) returns (r: Option<Failure>)
      requires OwnMutations(builders) && forall b :: b in builders ==> b.mutation as object != db
      requires db as object != this
      modifies db, set b | b in builders :: b.mutation
      ensures err.Some? ==> r == Some(BuilderError(err.value)) && db.table == old(db.table)
      ensures err.None? ==> Done(st, old(db.table), old(Views(builders)), conflict, now, r, db.table)
    {
      if err.Some? { return Some(BuilderError(err.value)); }
      r := SaveBuilders(st, db, builders, conflict, now);
    }

    /**
     `AuditEntryUpsertBulk.Exec`: refuses, before anything is written, a failed client, then the
     first builder with a conflict list of its own, then a missing conflict list. `ExecX` is
     `Save` without these checks.
     */
    method Exec(st: Setup, db: Database, now: int) returns (r: Option<Failure>)
      requires OwnMutations(builders) && forall b :: b in builders ==> b.mutation as object != db
      requires db as object != this
      modifies db, set b | b in builders :: b.mutation
      ensures err.Some? ==> r == Some(BuilderError(err.value)) && db.table == old(db.table)
      ensures err.None? && (exists k :: 0 <= k < |builders| && builders[k].conflict != []) ==>
                db.table == old(db.table) &&
                exists k :: 0 <= k < |builders| && builders[k].conflict != [] && r == Some(BuilderHasConflict(k))
                            && forall j :: 0 <= j < k ==> builders[j].conflict == []
      ensures err.None? && (forall k :: 0 <= k < |builders| ==> builders[k].conflict == []) ==>
                if conflict == [] then r == Some(MissingOptions) && db.table == old(db.table)
                else Done(st, old(db.table), old(Views(builders)), conflict, now, r, db.table)
    {
      if err.Some? { return Some(BuilderError(err.value)); }
      for i := 0 to |builders|
        invariant forall j :: 0 <= j < i ==> builders[j].conflict == []
      {
        if |builders[i].conflict| != 0 { return Some(BuilderHasConflict(i)); }
      }
      if |conflict| == 0 { return Some(MissingOptions); }
      r := SaveBuilders(st, db, builders, conflict, now);
    }
  }

  // ----- updates -----

  /** `sqlgraph.UpdateSpec` under construction. */
  class UpdateStatement {
    var sets: Fields
    var clears: set<Column>

    constructor ()
      ensures sets == map[] && clears == {}
    {
      sets, clears := map[], {};
    }
  }

  /** The `ClearField` steps. */
  method FillClears(s: UpdateStatement, m: Mutation, list: seq<Column>)
    requires s as object != m && s.clears == {}
    modifies s`clears
    ensures s.clears == set c | c in list && c in m.cleared
  {
    for i := 0 to |list|
      invariant s.clears == set c | c in list[..i] && c in m.cleared
    {
      assert list[..i + 1] == list[..i] + [list[i]];
      if list[i] in m.cleared {
        s.clears := s.clears + {list[i]};
      }
    }
    assert list[..|list|] == list;
  }

  method FillClearable(s: UpdateStatement, m: Mutation)
    requires s as object != m && s.clears == {}
    modifies s`clears
    ensures s.clears == ClearedOf(m.View())
  {
    FillClears(s, m, CLEARABLE);
  }

  /** The part `sqlSave` of both update builders shares: what the mutation puts into the statement. */
  method FillStatement(m: Mutation) returns (s: UpdateStatement)
    ensures fresh(s) && UpdateSpec(s.sets, s.clears) == UpdateSpecOf(m.View())
  {
    SetInTwoSteps(m.View());
    s := new UpdateStatement();
    if UpdatedAt in m.fields {
      s.sets := s.sets[UpdatedAt := m.fields[UpdatedAt]];
    }
    FillClearable(s, m);
    if m.workspaceCleared {
      s.clears := s.clears + {WorkspaceId};
    }
    if WorkspaceId in m.fields {
      s.sets := s.sets[WorkspaceId := m.fields[WorkspaceId]];
    }
  }

  /** `AuditEntryUpdate` and `AuditEntryUpdateOne`. */
  class Update {
    const mutation: Mutation
    const matches: Where
    const fields: seq<Column>

    constructor (m: Mut, matches: Where, fields: seq<Column>)
      ensures fresh(mutation) && mutation.View() == m && !mutation.done
      ensures this.matches == matches && this.fields == fields
    {
      mutation := new Mutation(m);
      this.matches, this.fields := matches, fields;
    }

    method SaveMany(st: Setup, db: Database, now: int) returns (r: Option<Failure>)
      requires db as object != this && db as object != mutation
      modifies db, mutation
      ensures match UpdateMany(st, old(db.table), matches, old(mutation.View()), now)
              case Ok(t) => r == None && db.table == t
              case Err(e) => r == Some(e) && db.table == old(db.table)
      ensures mutation.done == (old(mutation.done) || r.None?)
    {
      mutation.FillForUpdate(now);
      if ClearsAndSets(mutation.View()) { return Some(ClearsRequiredEdge); }
      var s := FillStatement(mutation);
      match WriteMany(st, db.table, matches, UpdateSpec(s.sets, s.clears))
      case Err(e) => r := Some(e);
      case Ok(t) =>
        db.table := t;
        mutation.done := true;
        r := None;
    }

    method SaveOne(st: Setup, db: Database, now: int) returns (r: Option<Failure>)
      requires db as object != this && db as object != mutation
      modifies db, mutation
      ensures match UpdateOne(st, old(db.table), matches, fields, old(mutation.View()), now)
              case Ok(t) => r == None && db.table == t
              case Err(e) => r == Some(e) && db.table == old(db.table)
      ensures mutation.done == (old(mutation.done) || r.None?)
    {
      mutation.FillForUpdate(now);
      if ClearsAndSets(mutation.View()) { return Some(ClearsRequiredEdge); }
      if mutation.id.None? { return Some(MissingId); }
      for i := 0 to |fields|
        invariant FirstUnknown(fields) == FirstUnknown(fields[i..])
      {
        if !Stored(fields[i]) && fields[i] != Id { return Some(InvalidField(fields[i])); }
      }
      var s := FillStatement(mutation);
      match WriteOne(st, db.table, matches, mutation.id.value, UpdateSpec(s.sets, s.clears))
      case Err(e) => r := Some(e);
      case Ok(t) =>
        db.table := t;
        mutation.done := true;
        r := None;
    }
  }
}
