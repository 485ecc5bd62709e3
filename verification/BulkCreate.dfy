/**
 Bulk creates as a caller sees them: builders with the columns the caller set and no hooks,
 from the filling in of defaults to the stored rows.
 */
module BulkCreate {
  import opened Prelude
  import opened Store
  import opened BulkChain
  import opened BulkSafety
  import opened BulkRefinement
  import opened BulkSave
  import opened RowCodec
  import opened RowCreate

  // ----- the loop over the builders -----

  /** Each builder's mutation gets its defaults once, and no other mutation is touched. */
  lemma {:induction false} DefaultsReachEachBuilder(defaults: BulkSafety.Defaults, pool: seq<Mut>, cur: seq<nat>, ref: nat)
    requires Distinct(cur) && (forall k :: 0 <= k < |cur| ==> cur[k] < |pool|) && ref < |pool|
    ensures WithDefaults(defaults, pool, cur)[ref] ==
            if ref in cur then pool[ref].(fields := defaults(pool[ref].fields)) else pool[ref]
    decreases |cur|
  {
    if cur != [] {
      var first := cur[0];
      DefaultsReachEachBuilder(defaults, pool[first := pool[first].(fields := defaults(pool[first].fields))], cur[1..], ref);
      assert cur == [first] + cur[1..];
      assert first !in cur[1..];
    }
  }

  // ----- the rows asked for -----

  /** No builder has a hook, and each has its own mutation. */
  ghost predicate Plain(c: Config, pool: seq<Mut>, cur: seq<nat>) {
    && |cur| == |c.hooks| && Distinct(cur)
    && (forall k :: 0 <= k < |cur| ==> cur[k] < |pool|)
    && (forall k :: 0 <= k < |c.hooks| ==> c.hooks[k] == [])
  }

  /** The ids and columns the caller set. */
  ghost function Given(pool: seq<Mut>, cur: seq<nat>): (given: seq<Spec>)
    requires forall k :: 0 <= k < |cur| ==> cur[k] < |pool|
    ensures |given| == |cur|
    ensures forall k :: 0 <= k < |cur| ==> given[k] == Spec(pool[cur[k]].id, pool[cur[k]].fields)
  {
    seq(|cur|, k requires 0 <= k < |cur| => Spec(pool[cur[k]].id, pool[cur[k]].fields))
  }

  /** What was set, completed by what the table would put into the columns that were not. */
  ghost predicate Filled(e: Entity, now: int, given: seq<Spec>, specs: seq<Spec>) {
    && |specs| == |given|
    && forall k :: 0 <= k < |given| ==>
         specs[k].id == given[k].id && Completes(e, given[k].fields, specs[k].fields, now)
  }

  /** For a recipient that means: the two times are the time of the save and the status is pending, if not set. */
  lemma {:induction false} CompletedRecipient(given: Fields, row: Fields, now: int, c: Schema.Column)
    requires Completes(Recipient, given, row, now)
    ensures (if c in row then Some(row[c]) else None) ==
            if c in given then Some(given[c])
            else if c == Schema.CreatedAt || c == Schema.UpdatedAt then Some(TimeV(now))
            else if c == Schema.Status then Some(StrV("pending"))
            else None
  {}

  /** The caller's own columns are set and no value, set or defaulted, is refused by its validator. */
  ghost predicate Creatable(e: Entity, valid: Validators, given: Fields, row: Fields) {
    Supplied(e, given) && forall c :: c in row && Validated(e, c) ==> valid(c, row[c])
  }

  lemma {:induction false} CreatableIsFaultless(e: Entity, valid: Validators, given: Fields, row: Fields, now: int)
    requires Completes(e, given, row, now)
    ensures Check(e, valid, row).None? <==> Creatable(e, valid, given, row)
  {
    CheckFindsFaults(e, valid, row);
    if !Supplied(e, given) {
      var c := if Schema.WorkspaceId !in given then Schema.WorkspaceId
               else if e.Broadcast? then Schema.Name else Schema.BroadcastId;
      assert Faulty(e, valid, row, c);
    }
    if Check(e, valid, row).None? {
      forall c | c in row && Validated(e, c) ensures valid(c, row[c]) {
        assert !Faulty(e, valid, row, c);
      }
    }
  }

  lemma {:induction false} DefaultsComplete(e: Entity, m: Fields, now: int)
    ensures Completes(e, m, RowCreate.Defaults(e, m, now), now)
  {
    DefaultsFillGaps(e, m, now, DefaultedColumns(e));
    forall c
      ensures c in DefaultedColumns(e) <==> ColumnDefault(e, c, now).Some?
      ensures c in DefaultedColumns(e) ==> ColumnDefault(e, c, now) == Some(DefaultValue(e, c, now))
    {
      BuilderDefaultsAreColumnDefaults(e, c, now);
    }
  }

  // ----- the whole save -----

  /** The store's answer to one batch: every row with its node, or the error and nothing stored. */
  ghost predicate Answered(rules: Store.Rules, outage: Option<Error>, table: Table, specs: seq<Spec>,
                           r: Result<seq<Option<BulkChain.Node>>, Error>, after: Table)
  {
    if outage.Some? then r == Err(Wrap(outage.value)) && after == table
    else
      match InsertAll(rules, table, specs)
      case Err(e) => r == Err(Wrap(e)) && after == table
      case Ok(batch) =>
        && after == batch.table && r.Ok? && |r.value| == |specs|
        && forall k :: 0 <= k < |specs| ==> r.value[k] == Some(BulkChain.Node(batch.ids[k], specs[k].fields))
  }

  /** The first builder that cannot be created is reported with a faulty column of its row. */
  ghost predicate Reported(e: Entity, valid: Validators, given: seq<Spec>, specs: seq<Spec>,
                           r: Result<seq<Option<BulkChain.Node>>, Error>, k: nat)
  {
    && k < |given| == |specs|
    && (forall j :: 0 <= j < k ==> Creatable(e, valid, given[j].fields, specs[j].fields))
    && !Creatable(e, valid, given[k].fields, specs[k].fields)
    && r.Err? && r.error.Validation? && Faulty(e, valid, specs[k].fields, r.error.column)
  }

  ghost predicate Created(e: Entity, valid: Validators, given: seq<Spec>, specs: seq<Spec>, rules: Store.Rules,
                          outage: Option<Error>, table: Table, r: Result<seq<Option<BulkChain.Node>>, Error>, after: Table)
    requires |given| == |specs|
  {
    if forall k :: 0 <= k < |given| ==> Creatable(e, valid, given[k].fields, specs[k].fields)
    then Answered(rules, outage, table, specs, r, after)
    else after == table && exists k :: Reported(e, valid, given, specs, r, k)
  }

  /** Row k of a save of builders without hooks, and what its check says. */
  lemma {:induction false} PlainRow(e: Entity, valid: Validators, now: int, c: Config, defaults: BulkSafety.Defaults,
                                    pool: seq<Mut>, cur: seq<nat>, table: Table, k: nat)
    requires Plain(c, pool, cur) && k < |cur|
    requires c.check(defaults(pool[cur[k]].fields)) == Check(e, valid, defaults(pool[cur[k]].fields))
    requires defaults(pool[cur[k]].fields) == RowCreate.Defaults(e, pool[cur[k]].fields, now)
    ensures var s, m := Start(c, defaults, pool, cur, table), pool[cur[k]];
            var row := Row(c, s, k).fields;
            && Row(c, s, k) == m.(fields := defaults(m.fields)) && Completes(e, m.fields, row, now)
            && Verdict(c, s, k) == Check(e, valid, row)
            && (Verdict(c, s, k).None? <==> Creatable(e, valid, m.fields, row))
            && (Verdict(c, s, k).Some? ==>
                  Verdict(c, s, k).value.Validation? && Faulty(e, valid, row, Verdict(c, s, k).value.column))
  {
    var m := pool[cur[k]];
    DefaultsReachEachBuilder(defaults, pool, cur, cur[k]);
    assert c.hooks[k] == [];
    DefaultsComplete(e, m.fields, now);
    CreatableIsFaultless(e, valid, m.fields, defaults(m.fields), now);
    CheckFindsFaults(e, valid, defaults(m.fields));
  }

  /**
   A bulk create without hooks, from the mutations as the caller left them. Every builder's row
   is what was set, completed like the table would complete it. If every builder can be created
   none is refused, and the store's answer to the one batch of these rows decides; otherwise the
   first that cannot is reported and nothing is written.
   */
  lemma {:induction false} PlainCreate(e: Entity, valid: Validators, now: int, c: Config, defaults: BulkSafety.Defaults,
                                       pool: seq<Mut>, cur: seq<nat>, table: Table) returns (specs: seq<Spec>)
    requires Plain(c, pool, cur) && |cur| > 0
    requires forall m :: c.check(m) == Check(e, valid, m)
    requires forall m :: defaults(m) == RowCreate.Defaults(e, m, now)
    ensures Filled(e, now, Given(pool, cur), specs)
    ensures var (r, t) := Save(c, Start(c, defaults, pool, cur, table));
            Created(e, valid, Given(pool, cur), specs, c.rules, c.outage(0), table, r, t.table)
  {
    var given := Given(pool, cur);
    var s := Start(c, defaults, pool, cur, table);
    specs := Batched(Rows(c, s));
    forall k | 0 <= k < |cur| ensures PlainSlot(e, valid, now, c, s, given[k], specs[k], k) {
      PlainRow(e, valid, now, c, defaults, pool, cur, table, k);
    }
    PlainSlotsDecide(e, valid, now, c, s, given, specs);
  }

  /** Slot k: the row completes what was given, and its check finds a fault exactly if there is one. */
  ghost predicate PlainSlot(e: Entity, valid: Validators, now: int, c: Config, s: State, given: Spec, spec: Spec, k: nat)
    requires Valid(c, s) && k < |c.hooks|
  {
    && spec.id == given.id && Completes(e, given.fields, spec.fields, now)
    && (Verdict(c, s, k).None? <==> Creatable(e, valid, given.fields, spec.fields))
    && (Verdict(c, s, k).Some? ==>
          Verdict(c, s, k).value.Validation? && Faulty(e, valid, spec.fields, Verdict(c, s, k).value.column))
  }

  lemma {:induction false} PlainSlotsDecide(e: Entity, valid: Validators, now: int, c: Config, s: State,
                                            given: seq<Spec>, specs: seq<Spec>)
    requires Valid(c, s) && |c.hooks| > 0 && AllPassOn(c) && Distinct(s.cur) && s.writes == []
    requires |given| == |c.hooks| && specs == Batched(Rows(c, s))
    requires forall k :: 0 <= k < |c.hooks| ==> PlainSlot(e, valid, now, c, s, given[k], specs[k], k)
    ensures var (r, t) := Save(c, s); Created(e, valid, given, specs, c.rules, c.outage(0), s.table, r, t.table)
  {
    var j := SomeLeastRefused(c, s, 0);
    SaveReportsFirstRefusal(c, s, j);
    if j < |c.hooks| {
      assert PlainSlot(e, valid, now, c, s, given[j], specs[j], j);
      assert Reported(e, valid, given, specs, Save(c, s).0, j);
    }
  }

  // ----- the client call -----

  /** One new builder, without hooks, for each of the inputs. */
  method NewBuilders(given: seq<Spec>) returns (builders: seq<Builder>)
    ensures |builders| == |given| && fresh(builders)
    ensures forall k :: 0 <= k < |given| ==>
              && builders[k].hooks == [] && fresh(builders[k].mutation)
              && builders[k].mutation.View() == Mut(given[k].fields, given[k].id, false)
    ensures forall j, k :: 0 <= j < k < |given| ==>
              builders[j] != builders[k] && builders[j].mutation != builders[k].mutation
  {
    builders := [];
    for i := 0 to |given|
      invariant |builders| == i && fresh(builders)
      invariant forall k :: 0 <= k < i ==>
                  && builders[k].hooks == [] && fresh(builders[k].mutation)
                  && builders[k].mutation.View() == Mut(given[k].fields, given[k].id, false)
      invariant forall j, k :: 0 <= j < k < i ==>
                  builders[j] != builders[k] && builders[j].mutation != builders[k].mutation
    {
      var b := new Builder(given[i].fields, given[i].id, []);
      builders := builders + [b];
    }
  }

  /** A new run of new builders with new mutations consists of new objects. */
  twostate lemma {:induction false} AllNew(new run: Run)
    requires fresh(run) && fresh(run.specs) && fresh(run.nodes) && fresh(run.builders)
    requires |run.pool| == |run.builders|
    requires forall k :: 0 <= k < |run.pool| ==> run.pool[k] == run.builders[k].mutation && fresh(run.builders[k].mutation)
    ensures fresh(run.Repr())
  {}

  /** The run of `CreateBulk(builders...)` on new builders. */
  method NewRun(check: Fields -> Option<Error>, defaults: BulkSafety.Defaults, rules: Store.Rules,
                outage: nat -> Option<Error>, table: Table, given: seq<Spec>) returns (run: Run)
    ensures run.OK() && fresh(run.Repr()) && run.err.None? && |run.builders| == |given|
    ensures run.check == check && run.defaults == defaults && run.rules == rules && run.outage == outage
    ensures forall k :: 0 <= k < |given| ==>
              run.builders[k].hooks == [] && run.builders[k].mutation.View() == Mut(given[k].fields, given[k].id, false)
    ensures run.cur == seq(|given|, k => k)
    ensures run.table == table && run.writes == [] && run.trace == []
    ensures run.nodes[..] == seq(|given|, _ => None) && run.specs[..] == seq(|given|, _ => None)
  {
    var builders := NewBuilders(given);
    run := new Run(None, builders, check, defaults, rules, outage, table);
    AllNew(run);
    ghost var s := run.View();
    assert s.cur == run.cur && s.table == run.table && s.writes == run.writes && s.trace == run.trace;
    assert s.nodes == run.nodes[..] && s.specs == run.specs[..];
  }

  lemma {:induction false} RunIsPlain(run: Run, given: seq<Spec>)
    requires run.OK() && |run.builders| == |given| && run.cur == seq(|given|, k => k)
    requires forall k :: 0 <= k < |given| ==>
               run.builders[k].hooks == [] && run.builders[k].mutation.View() == Mut(given[k].fields, given[k].id, false)
    ensures Plain(run.Fixed(), run.View().pool, run.cur) && Given(run.View().pool, run.cur) == given
  {}

  /** `CreateBulk(builders...).Save` on a client. */
  method CreateAll(e: Entity, valid: Validators, now: int, rules: Store.Rules, outage: nat -> Option<Error>,
                   table: Table, given: seq<Spec>)
    returns (r: Result<seq<Option<BulkChain.Node>>, Error>, after: Table)
    ensures given == [] ==> r == Ok([]) && after == table
    ensures given != [] ==>
              exists specs :: Filled(e, now, given, specs) && Created(e, valid, given, specs, rules, outage(0), table, r, after)
  {
    var defaults := m => RowCreate.Defaults(e, m, now);
    var run := NewRun(m => Check(e, valid, m), defaults, rules, outage, table, given);
    RunIsPlain(run, given);
    ghost var c, s := run.Fixed(), run.View();
    r := run.Save();
    after := run.table;
    assert s.(pool := WithDefaults(defaults, s.pool, s.cur)) == Start(c, defaults, s.pool, s.cur, table);
    assert (r, run.View()) == BulkSafety.Save(c, Start(c, defaults, s.pool, s.cur, table));
    if given != [] {
      ghost var specs := PlainCreate(e, valid, now, c, defaults, s.pool, s.cur, table);
    }
  }

  /** With ids from the sequence, no rule in the way and no outage, a batch that is answered is stored. */
  lemma {:induction false} NothingStopsTheBatch(rules: Store.Rules, table: Table, specs: seq<Spec>,
                                                r: Result<seq<Option<BulkChain.Node>>, Error>, after: Table)
    requires Answered(rules, None, table, specs, r, after)
    requires forall id :: id in table.rows ==> id < table.next
    requires forall rows, fields :: rules(rows, fields)
    requires forall k :: 0 <= k < |specs| ==> specs[k].id.None?
    ensures r.Ok? && forall k :: 0 <= k < |specs| ==> r.value[k] == Some(BulkChain.Node(table.next + k, specs[k].fields))
  {
    SequenceNeverCollides(rules, table, specs);
  }

  /** What a successful create leaves: every row under a new id of its own, and all older rows. */
  lemma {:induction false} CreatedRowsAreStored(e: Entity, now: int, given: seq<Spec>, specs: seq<Spec>, rules: Store.Rules,
                                                outage: Option<Error>, table: Table,
                                                r: Result<seq<Option<BulkChain.Node>>, Error>, after: Table)
    requires Filled(e, now, given, specs) && Answered(rules, outage, table, specs, r, after) && r.Ok?
    ensures forall k :: 0 <= k < |given| ==> r.value[k].Some? && NewRow(e, now, given[k], r.value[k].value, table, after)
    ensures forall j, k :: 0 <= j < k < |given| ==> r.value[j].value.id != r.value[k].value.id
    ensures forall id :: id in table.rows ==> id in after.rows && after.rows[id] == table.rows[id]
    ensures |after.rows| == |table.rows| + |given|
  {
    BatchRows(rules, table, specs);
    forall k | 0 <= k < |given| && given[k].id.Some? ensures r.value[k].value.id == given[k].id.value {
      ExplicitIdsKept(rules, table, specs, k);
    }
  }

  /** The node was not stored before, is stored as it is, and completes what was given. */
  ghost predicate NewRow(e: Entity, now: int, given: Spec, node: BulkChain.Node, table: Table, after: Table) {
    && node.id !in table.rows && node.id in after.rows && after.rows[node.id] == node.fields
    && Completes(e, given.fields, node.fields, now)
    && (given.id.Some? ==> node.id == given.id.value)
  }
}
