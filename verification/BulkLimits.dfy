/**
 Hooks that are not honest: what the table holds in any case, when the report of a save is
 right, and two hooks for which it is not or for which the batch is sent twice.
 */
module BulkLimits {
  import opened Prelude
  import opened Store
  import opened BulkChain
  import opened BulkSafety

  // ----- the report of a save -----

  /** One batch of s's table was stored in t. */
  ghost predicate Wrote(c: Config, s: State, t: State) {
    && |t.writes| == |s.writes| + 1 && c.outage(|s.writes|).None?
    && var batch := InsertAll(c.rules, s.table, Batched(t.writes[|s.writes|]));
    && batch.Ok? && t.table == batch.value.table
  }

  /** How many hooks of this run report a success as a failure, or a failure as a success. */
  ghost function Misreports(c: Config, i: nat, h: nat, ref: nat, s: State): nat
    requires i < |c.hooks| && h <= |c.hooks[i]| && Valid(c, s) && ref < |s.pool|
    decreases |c.hooks| - i, |c.hooks[i]| - h
  {
    if h < |c.hooks[i]| then
      var hook := c.hooks[i][h];
      var move := hook.decide(s.pool[ref], []);
      if hook.calls == 0 then Count(hook.last([]).Saved?)
      else if move.Answer? then Count(move.outcome.Saved?)
      else
        var (s1, ref1) := Handed(Log(s, Enter(i, h)), ref, move);
        var o := Mutate(c, i, h + 1, ref1, s1).0;
        Misreports(c, i, h + 1, ref1, s1) + Count(hook.last([o]).Saved? != o.Saved?)
    else if c.check(s.pool[s.cur[i]].fields).Some? || i == |c.hooks| - 1 then 0
    else
      var s1 := Filled(i, ref, s);
      Misreports(c, i + 1, 0, s1.cur[i + 1], s1)
  }

  function Count(b: bool): nat {
    if b then 1 else 0
  }

  /** Nothing was written yet, or one batch was, and it was stored or the table is as before. */
  ghost predicate OneBatchOrNone(c: Config, s: State, t: State) {
    (t.writes == s.writes && t.table == s.table)
    || (|t.writes| == |s.writes| + 1 && t.writes[..|s.writes|] == s.writes && (Wrote(c, s, t) || t.table == s.table))
  }

  ghost predicate Parity(c: Config, s: State, o: Outcome, t: State, misreports: nat) {
    OneBatchOrNone(c, s, t) && ((o.Saved? <==> Wrote(c, s, t)) <==> misreports % 2 == 0)
  }

  lemma {:induction false} ReportParity(c: Config, i: nat, h: nat, ref: nat, s: State)
    requires i < |c.hooks| && h <= |c.hooks[i]| && Valid(c, s) && ref < |s.pool| && AtMostOnce(c)
    ensures Parity(c, s, Mutate(c, i, h, ref, s).0, Mutate(c, i, h, ref, s).1, Misreports(c, i, h, ref, s))
    decreases |c.hooks| - i, |c.hooks[i]| - h, 1
  {
    if h < |c.hooks[i]| {
      var hook := c.hooks[i][h];
      assert hook.calls <= 1;
      var s0 := Log(s, Enter(i, h));
      var move := hook.decide(s.pool[ref], []);
      if hook.calls == 1 && move.Call? {
        var (s1, ref1) := Handed(s0, ref, move);
        ReportParity(c, i, h + 1, ref1, s1);
        var (o, s2) := Mutate(c, i, h + 1, ref1, s1);
        assert [] + [o] == [o];
        assert RunHook(c, i, h, ref, [o], s2) == (hook.last([o]), s2);
        assert RunHook(c, i, h, ref, [], s0) == (hook.last([o]), s2);
      }
    } else if c.check(s.pool[s.cur[i]].fields).None? {
      BodyParity(c, i, ref, s);
    }
  }

  lemma {:induction false} BodyParity(c: Config, i: nat, ref: nat, s: State)
    requires i < |c.hooks| && Valid(c, s) && ref < |s.pool| && AtMostOnce(c)
    requires c.check(s.pool[s.cur[i]].fields).None?
    ensures Parity(c, s, Body(c, i, ref, s).0, Body(c, i, ref, s).1, Misreports(c, i, |c.hooks[i]|, ref, s))
    decreases |c.hooks| - i, 0, 0
  {
    var s1 := Filled(i, ref, s);
    if i < |c.hooks| - 1 {
      ReportParity(c, i + 1, 0, s1.cur[i + 1], s1);
    } else {
      WriteReports(c, s1);
    }
  }

  /** The store's answer to the batch is right. */
  lemma {:induction false} WriteReports(c: Config, s: State)
    requires Valid(c, s)
    ensures OneBatchOrNone(c, s, WriteBatch(c, s).1)
    ensures WriteBatch(c, s).0.None? <==> Wrote(c, s, WriteBatch(c, s).1)
  {}

  /**
   The table and the report. With hooks that call next at most once, whatever they answer, the
   table ends with all rows of one batch or as it was; and `Save` reports success exactly when
   the batch was stored if and only if an even number of hooks misreported in this run. So one
   hook that turns a reached success into a failure leaves the rows stored, and one that turns
   a failure into a success reports nodes nobody stored.
   */
  lemma {:induction false} ReportIsRight(c: Config, s: State)
    requires |c.hooks| > 0 && Valid(c, s) && AtMostOnce(c)
    ensures var (r, t) := Save(c, s);
            && (Wrote(c, s, t) || t.table == s.table)
            && ((r.Ok? <==> Wrote(c, s, t)) <==> Misreports(c, 0, 0, s.cur[0], s) % 2 == 0)
  {
    ReportParity(c, 0, 0, s.cur[0], s);
  }

  /** Honest hooks never misreport. */
  lemma {:induction false} HonestNeverMisreport(c: Config, i: nat, h: nat, ref: nat, s: State)
    requires i < |c.hooks| && h <= |c.hooks[i]| && Valid(c, s) && ref < |s.pool| && AllHonest(c)
    ensures Misreports(c, i, h, ref, s) == 0
    decreases |c.hooks| - i, |c.hooks[i]| - h
  {
    if h < |c.hooks[i]| {
      var hook := c.hooks[i][h];
      assert Honest(hook);
      var move := hook.decide(s.pool[ref], []);
      if hook.calls == 1 && move.Call? {
        var (s1, ref1) := Handed(Log(s, Enter(i, h)), ref, move);
        HonestNeverMisreport(c, i, h + 1, ref1, s1);
      }
    } else if c.check(s.pool[s.cur[i]].fields).None? && i < |c.hooks| - 1 {
      var s1 := Filled(i, ref, s);
      HonestNeverMisreport(c, i + 1, 0, s1.cur[i + 1], s1);
    }
  }

  // ----- two hooks -----

  /** A hook that lets the save happen and then reports an error of its own. */
  function FailingLate(code: int): Hook {
    Hook(1, (m: Mut, past: seq<Outcome>) => Call(m.fields, m.id, false),
         (past: seq<Outcome>) => Failed(HookFailure(code)))
  }

  /** A hook that calls its next twice and returns the second answer. */
  function Retrying(): Hook {
    Hook(2, (m: Mut, past: seq<Outcome>) => Call(m.fields, m.id, false),
         (past: seq<Outcome>) => if |past| == 2 then past[1] else Failed(HookFailure(0)))
  }

  /** A save of one builder with one hook that the check and the store accept. */
  ghost predicate Acceptable(c: Config, m: Mut, table: Table, hook: Hook) {
    && c.hooks == [[hook]] && m.id.None?
    && c.check(m.fields).None? && (forall n :: c.outage(n).None?)
    && table.next !in table.rows && c.rules(table.rows, m.fields)
  }

  function One(m: Mut, table: Table): State {
    State([m], [0], [None], [None], table, [], [])
  }

  /** The first call of the only hook: the row is stored under the next id. */
  lemma {:induction false} FirstCall(c: Config, m: Mut, table: Table, hook: Hook, s: State)
    requires Acceptable(c, m, table, hook)
    requires Valid(c, s) && s.pool == [m] && s.cur == [0] && s.table == table && s.writes == []
    ensures var (o, t) := Mutate(c, 0, 1, 0, s);
            && o.Saved? && t.cur == [0] && t.pool == [Mut(m.fields, Some(table.next), true)]
            && t.table == Table(table.rows[table.next := m.fields], table.next + 1)
            && |t.writes| == 1
  {
    var f := Filled(0, 0, s);
    assert Batched(f.specs) == [Spec(None, m.fields)];
    SingletonBatch(c.rules, table, Spec(None, m.fields));
    assert WriteBatch(c, f).0.None?;
    assert Inner(c, 0, f) == WriteBatch(c, f);
    assert Body(c, 0, 0, s) == Finished(0, 0, WriteBatch(c, f).1);
  }

  /** A hook that fails after its next succeeded: the save fails, the row stays and is marked done. */
  lemma {:induction false} LateFailureKeepsTheRow(c: Config, m: Mut, table: Table, code: int)
    requires Acceptable(c, m, table, FailingLate(code))
    ensures var (r, t) := Save(c, One(m, table));
            && r == Err(HookFailure(code))
            && t.table.rows == table.rows[table.next := m.fields]
            && t.pool[0].done
  {
    var hook := FailingLate(code);
    var s0 := Log(One(m, table), Enter(0, 0));
    var (s1, ref1) := Handed(s0, 0, hook.decide(m, []));
    FirstCall(c, m, table, hook, s1);
    var (o, s2) := Mutate(c, 0, 1, 0, s1);
    assert [] + [o] == [o];
    assert RunHook(c, 0, 0, 0, [o], s2) == (Failed(HookFailure(code)), s2);
    assert RunHook(c, 0, 0, 0, [], s0) == (Failed(HookFailure(code)), s2);
  }

  /**
   A hook that calls next twice: the second batch repeats the id the first one got, so the
   save fails on the primary key although its own row is stored, and two batches were sent.
   */
  lemma {:induction false} RetryWritesTwice(c: Config, m: Mut, table: Table)
    requires Acceptable(c, m, table, Retrying())
    ensures var (r, t) := Save(c, One(m, table));
            && r == Err(Constraint("primary key"))
            && |t.writes| == 2
            && t.table.rows == table.rows[table.next := m.fields]
  {
    var hook := Retrying();
    var s0 := Log(One(m, table), Enter(0, 0));
    var (s1, ref1) := Handed(s0, 0, hook.decide(m, []));
    FirstCall(c, m, table, hook, s1);
    var (o, s2) := Mutate(c, 0, 1, 0, s1);
    var (s3, ref3) := Handed(s2, 0, hook.decide(s2.pool[0], [o]));
    assert s3 == s2;
    SecondCall(c, m, table, s3);
    var (p, s4) := Mutate(c, 0, 1, 0, s3);
    assert [] + [o] == [o];
    assert [o] + [p] == [o, p];
    assert RunHook(c, 0, 0, 0, [o, p], s4) == (p, s4);
    assert RunHook(c, 0, 0, 0, [o], s2) == (p, s4);
    assert RunHook(c, 0, 0, 0, [], s0) == (p, s4);
  }

  lemma {:induction false} SecondCall(c: Config, m: Mut, table: Table, s: State)
    requires Acceptable(c, m, table, Retrying())
    requires Valid(c, s) && s.pool == [Mut(m.fields, Some(table.next), true)] && s.cur == [0]
    requires s.table == Table(table.rows[table.next := m.fields], table.next + 1) && |s.writes| == 1
    ensures var (o, t) := Mutate(c, 0, 1, 0, s);
            o == Failed(Constraint("primary key")) && |t.writes| == 2 && t.table == s.table
  {
    var f := Filled(0, 0, s);
    assert Batched(f.specs) == [Spec(Some(table.next), m.fields)];
    assert InsertAll(c.rules, s.table, Batched(f.specs)).Err?;
    assert Inner(c, 0, f) == WriteBatch(c, f);
    assert Mutate(c, 0, 1, 0, s) == Body(c, 0, 0, s);
  }
}
