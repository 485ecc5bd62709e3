/**
 Whole bulk saves: how often the batch is written, which rows can reach it, and when a
 save leaves nothing behind.
 */
module BulkSafety {
  import opened Prelude
  import opened Store
  import opened BulkChain
  import opened BulkNesting

  type Defaults = Fields -> Fields

  /** The loop over the builders that fills in default values before any hook runs. */
  function WithDefaults(defaults: Defaults, pool: seq<Mut>, cur: seq<nat>): (r: seq<Mut>)
    requires forall k :: 0 <= k < |cur| ==> cur[k] < |pool|
    ensures |r| == |pool|
    decreases |cur|
  {
    if cur == [] then
      pool
    else
      var m := pool[cur[0]];
      WithDefaults(defaults, pool[cur[0] := m.(fields := defaults(m.fields))], cur[1..])
  }

  function Start(c: Config, defaults: Defaults, pool: seq<Mut>, cur: seq<nat>, table: Table): (s: State)
    requires |cur| == |c.hooks| && forall k :: 0 <= k < |cur| ==> cur[k] < |pool|
    ensures Valid(c, s)
  {
    State(WithDefaults(defaults, pool, cur), cur,
          seq(|cur|, k => None), seq(|cur|, k => None), table, [], [])
  }

  /** `CreateBulk.Save`: the slice of nodes, or the error of the chain. */
  function Save(c: Config, s: State): (r: (Result<seq<Option<Node>>, Error>, State))
    requires Valid(c, s)
    ensures Valid(c, r.1)
  {
    if |c.hooks| == 0 then
      (Ok(s.nodes), s)
    else
      var (o, t) := Mutate(c, 0, 0, s.cur[0], s);
      (if o.Failed? then Err(o.error) else Ok(t.nodes), t)
  }

  /** Whatever the hooks do, the trace is bracketed and every event sits at its place. */
  lemma {:induction false} SaveNests(c: Config, s: State)
    requires Valid(c, s) && s.trace == []
    ensures Nested(c, Save(c, s).1.trace) && Open(Save(c, s).1.trace) == Some([])
  {
    if |c.hooks| > 0 {
      MutateNests(c, 0, 0, s.cur[0], s);
    }
  }

  /** Whatever the hooks do, every batch sent to the store has all its slots filled. */
  lemma {:induction false} SaveWritesWholeBatches(c: Config, s: State)
    requires Valid(c, s)
    ensures s.writes <= Save(c, s).1.writes
    ensures forall k :: |s.writes| <= k < |Save(c, s).1.writes| ==>
              |Save(c, s).1.writes[k]| == |c.hooks| && Complete(Save(c, s).1.writes[k])
  {
    if |c.hooks| > 0 {
      MutateWithin(c, 0, 0, s.cur[0], s);
      assert Complete(s.specs[..0]);
    }
  }

  // ----- how often the batch is written -----

  /** The product of the call bounds of every hook still to be entered. */
  ghost function Calls(c: Config, i: nat, h: nat): nat
    requires i < |c.hooks| && h <= |c.hooks[i]|
    decreases |c.hooks| - i, |c.hooks[i]| - h
  {
    if h < |c.hooks[i]| then c.hooks[i][h].calls * Calls(c, i, h + 1)
    else if i < |c.hooks| - 1 then Calls(c, i + 1, 0)
    else 1
  }

  lemma {:induction false} MutateWrites(c: Config, i: nat, h: nat, ref: nat, s: State)
    requires i < |c.hooks| && h <= |c.hooks[i]| && Valid(c, s) && ref < |s.pool|
    ensures |Mutate(c, i, h, ref, s).1.writes| <= |s.writes| + Calls(c, i, h)
    decreases |c.hooks| - i, |c.hooks[i]| - h, 2, 0
  {
    if h < |c.hooks[i]| {
      HookWrites(c, i, h, ref, [], Log(s, Enter(i, h)));
    } else if c.check(s.pool[s.cur[i]].fields).None? {
      var s1 := Filled(i, ref, s);
      if i < |c.hooks| - 1 {
        MutateWrites(c, i + 1, 0, s1.cur[i + 1], s1);
      }
      assert |Inner(c, i, s1).1.writes| <= |s.writes| + Calls(c, i, h);
    }
  }

  lemma {:induction false} HookWrites(c: Config, i: nat, h: nat, ref: nat, past: seq<Outcome>, s: State)
    requires i < |c.hooks| && h < |c.hooks[i]| && Valid(c, s) && ref < |s.pool|
    requires |past| <= c.hooks[i][h].calls
    ensures |RunHook(c, i, h, ref, past, s).1.writes|
         <= |s.writes| + (c.hooks[i][h].calls - |past|) * Calls(c, i, h + 1)
    decreases |c.hooks| - i, |c.hooks[i]| - h, 1, c.hooks[i][h].calls - |past|
  {
    var hook := c.hooks[i][h];
    var left := hook.calls - |past|;
    var each := Calls(c, i, h + 1);
    if left > 0 && hook.decide(s.pool[ref], past).Call? {
      var (s1, ref1) := Handed(s, ref, hook.decide(s.pool[ref], past));
      MutateWrites(c, i, h + 1, ref1, s1);
      var (o, s2) := Mutate(c, i, h + 1, ref1, s1);
      HookWrites(c, i, h, ref, past + [o], s2);
      assert left * each == (left - 1) * each + each;
    } else {
      assert left * each >= 0;
    }
  }

  ghost predicate AtMostOnce(c: Config) {
    forall i, h :: 0 <= i < |c.hooks| && 0 <= h < |c.hooks[i]| ==> c.hooks[i][h].calls <= 1
  }

  lemma {:induction false} CallsAtMostOnce(c: Config, i: nat, h: nat)
    requires i < |c.hooks| && h <= |c.hooks[i]| && AtMostOnce(c)
    ensures Calls(c, i, h) <= 1
    decreases |c.hooks| - i, |c.hooks[i]| - h
  {
    if h < |c.hooks[i]| {
      CallsAtMostOnce(c, i, h + 1);
      assert c.hooks[i][h].calls <= 1;
    } else if i < |c.hooks| - 1 {
      CallsAtMostOnce(c, i + 1, 0);
    }
  }

  /** Hooks that call their next at most once let the batch be written at most once. */
  lemma {:induction false} SaveWritesAtMostOnce(c: Config, s: State)
    requires Valid(c, s) && AtMostOnce(c)
    ensures |Save(c, s).1.writes| <= |s.writes| + 1
  {
    if |c.hooks| > 0 {
      MutateWrites(c, 0, 0, s.cur[0], s);
      CallsAtMostOnce(c, 0, 0);
    }
  }

  // ----- which rows reach the batch -----

  /** Hooks that never put another mutation object in the place of the one they were given. */
  ghost predicate InPlace(c: Config) {
    forall i, h, m, past :: 0 <= i < |c.hooks| && 0 <= h < |c.hooks[i]| && c.hooks[i][h].decide(m, past).Call? ==>
      !c.hooks[i][h].decide(m, past).replace
  }

  /** Every slot is filled with a row that passes the check. */
  ghost predicate Passing(c: Config, w: seq<Option<Spec>>) {
    forall k :: 0 <= k < |w| ==> w[k].Some? && c.check(w[k].value.fields).None?
  }

  /** What frames from builder i on keep when no hook replaces a mutation. */
  ghost predicate OnlyPassing(c: Config, i: nat, s: State, t: State)
    requires i <= |c.hooks| && Valid(c, s) && Valid(c, t)
  {
    && t.cur == s.cur
    && Passing(c, t.specs[..i])
    && s.writes <= t.writes
    && forall k :: |s.writes| <= k < |t.writes| ==> Passing(c, t.writes[k])
  }

  lemma {:induction false} MutatePasses(c: Config, i: nat, h: nat, s: State)
    requires i < |c.hooks| && h <= |c.hooks[i]| && Valid(c, s) && InPlace(c)
    requires Passing(c, s.specs[..i])
    ensures OnlyPassing(c, i, s, Mutate(c, i, h, s.cur[i], s).1)
    decreases |c.hooks| - i, |c.hooks[i]| - h, 2, 0
  {
    if h < |c.hooks[i]| {
      HookPasses(c, i, h, [], Log(s, Enter(i, h)));
    } else {
      BodyPasses(c, i, s);
    }
  }

  lemma {:induction false} HookPasses(c: Config, i: nat, h: nat, past: seq<Outcome>, s: State)
    requires i < |c.hooks| && h < |c.hooks[i]| && Valid(c, s) && InPlace(c)
    requires |past| <= c.hooks[i][h].calls
    requires Passing(c, s.specs[..i])
    ensures OnlyPassing(c, i, s, RunHook(c, i, h, s.cur[i], past, s).1)
    decreases |c.hooks| - i, |c.hooks[i]| - h, 1, c.hooks[i][h].calls - |past|
  {
    var hook := c.hooks[i][h];
    var ref := s.cur[i];
    if |past| < hook.calls && hook.decide(s.pool[ref], past).Call? {
      var (s1, ref1) := Handed(s, ref, hook.decide(s.pool[ref], past));
      MutatePasses(c, i, h + 1, s1);
      var (o, s2) := Mutate(c, i, h + 1, ref1, s1);
      HookPasses(c, i, h, past + [o], s2);
    }
  }

  lemma {:induction false} BodyPasses(c: Config, i: nat, s: State)
    requires i < |c.hooks| && Valid(c, s) && InPlace(c)
    requires Passing(c, s.specs[..i])
    ensures OnlyPassing(c, i, s, Body(c, i, s.cur[i], s).1)
    decreases |c.hooks| - i, 0, 0, 1
  {
    if c.check(s.pool[s.cur[i]].fields).None? {
      var s1 := Filled(i, s.cur[i], s);
      assert s1.cur == s.cur;
      assert s1.specs[..i + 1] == s.specs[..i] + [s1.specs[i]];
      InnerPasses(c, i, s1);
      var s2 := Inner(c, i, s1).1;
      assert s2.specs[..i] == s2.specs[..i + 1][..i];
    }
  }

  lemma {:induction false} InnerPasses(c: Config, i: nat, s: State)
    requires i < |c.hooks| && Valid(c, s) && InPlace(c)
    requires Passing(c, s.specs[..i + 1])
    ensures OnlyPassing(c, i + 1, s, Inner(c, i, s).1)
    decreases |c.hooks| - i, 0, 0, 0
  {
    if i < |c.hooks| - 1 {
      MutatePasses(c, i + 1, 0, s);
    } else {
      assert s.specs[..i + 1] == s.specs;
      var t := WriteBatch(c, s).1;
      assert t.specs[..i + 1] == t.specs;
    }
  }

  /** When no hook replaces a mutation, every row of every batch passed its check. */
  lemma {:induction false} SaveWritesCheckedRows(c: Config, s: State)
    requires Valid(c, s) && InPlace(c)
    ensures forall k :: |s.writes| <= k < |Save(c, s).1.writes| ==> Passing(c, Save(c, s).1.writes[k])
  {
    if |c.hooks| > 0 {
      MutatePasses(c, 0, 0, s);
    }
  }

  // ----- all or nothing -----

  /**
   Hooks that call next at most once, never claim success without it, and report a success or a
   failure exactly as next did; they may wrap its error or return another node.
   */
  ghost predicate Honest(hook: Hook) {
    && hook.calls <= 1
    && (hook.calls == 0 ==> hook.last([]).Failed?)
    && (forall m :: hook.decide(m, []).Answer? ==> hook.decide(m, []).outcome.Failed?)
    && (forall o :: hook.last([o]).Saved? <==> o.Saved?)
  }

  ghost predicate AllHonest(c: Config) {
    forall i, h :: 0 <= i < |c.hooks| && 0 <= h < |c.hooks[i]| ==> Honest(c.hooks[i][h])
  }

  /** Nothing was stored and no mutation was marked as saved. */
  ghost predicate Untouched(s: State, t: State) {
    && t.table == s.table
    && |s.pool| <= |t.pool|
    && (forall r :: 0 <= r < |s.pool| ==> t.pool[r].done == s.pool[r].done)
    && (forall r :: |s.pool| <= r < |t.pool| ==> !t.pool[r].done)
  }

  /** One batch was stored, and builders i and later have their node, its id and the done mark. */
  ghost predicate Stored(c: Config, i: nat, s: State, t: State)
    requires i <= |c.hooks| && Valid(c, s) && Valid(c, t)
  {
    && |t.writes| == |s.writes| + 1
    && var batch := InsertAll(c.rules, s.table, Batched(t.writes[|s.writes|]));
    && |t.writes[|s.writes|]| == |c.hooks|
    && batch.Ok?
    && t.table == batch.value.table
    && (forall k :: 0 <= k < |c.hooks| ==> t.specs[k].Some? && t.specs[k].value.id == Some(batch.value.ids[k]))
    && (forall k :: i <= k < |c.hooks| ==>
          && t.nodes[k].Some? && t.nodes[k].value.id == batch.value.ids[k]
          && t.nodes[k].value.fields == Batched(t.writes[|s.writes|])[k].fields
          && t.pool[t.cur[k]].done)
  }

  /** A node whose slot was filled has the fields of its spec, and the id it asks for, if any. */
  ghost predicate SlotsAgree(c: Config, s: State, i: nat)
    requires i <= |c.hooks| && Valid(c, s)
  {
    forall k :: 0 <= k < i ==>
      && s.nodes[k].Some? && s.specs[k].Some?
      && s.nodes[k].value.fields == s.specs[k].value.fields
      && s.nodes[k].value.id == (if s.specs[k].value.id.Some? then s.specs[k].value.id.value else 0)
  }

  /** The specs a batch was written from differ from the ones it left only in their ids. */
  ghost predicate Settled(c: Config, i: nat, s: State, t: State, o: Outcome)
    requires i < |c.hooks| && Valid(c, s) && Valid(c, t)
  {
    if o.Failed? then Untouched(s, t) else |s.pool| <= |t.pool| && Stored(c, i, s, t)
  }

  /** The slots before i are in the batch as they were when the frames from i on started. */
  ghost predicate Carried(c: Config, i: nat, s: State, t: State)
    requires i <= |c.hooks| && Valid(c, s) && Valid(c, t)
  {
    && s.writes <= t.writes
    && t.nodes[..i] == s.nodes[..i]
    && t.cur[..i] == s.cur[..i]
    && |s.pool| <= |t.pool|
    && (forall r :: 0 <= r < |s.pool| && s.pool[r].done ==> t.pool[r].done)
    && (|t.writes| > |s.writes| ==>
          |t.writes[|s.writes|]| == |c.hooks| && t.writes[|s.writes|][..i] == s.specs[..i])
  }

  lemma {:induction false} MutateSettles(c: Config, i: nat, h: nat, ref: nat, s: State)
    requires i < |c.hooks| && h <= |c.hooks[i]| && Valid(c, s) && ref < |s.pool|
    requires AllHonest(c) && SlotsAgree(c, s, i)
    ensures Settled(c, i, s, Mutate(c, i, h, ref, s).1, Mutate(c, i, h, ref, s).0)
    ensures Carried(c, i, s, Mutate(c, i, h, ref, s).1)
    decreases |c.hooks| - i, |c.hooks[i]| - h, 2, 0
  {
    if h < |c.hooks[i]| {
      var hook := c.hooks[i][h];
      assert Honest(hook);
      var s0 := Log(s, Enter(i, h));
      var move := hook.decide(s.pool[ref], []);
      if hook.calls == 1 && move.Call? {
        var (s1, ref1) := Handed(s0, ref, move);
        MutateSettles(c, i, h + 1, ref1, s1);
        var (o, s2) := Mutate(c, i, h + 1, ref1, s1);
        assert [] + [o] == [o];
        assert RunHook(c, i, h, ref, [o], s2) == (hook.last([o]), s2);
        assert RunHook(c, i, h, ref, [], s0) == (hook.last([o]), s2);
      }
    } else {
      BodySettles(c, i, ref, s);
    }
  }

  lemma {:induction false} BodySettles(c: Config, i: nat, ref: nat, s: State)
    requires i < |c.hooks| && Valid(c, s) && ref < |s.pool|
    requires AllHonest(c) && SlotsAgree(c, s, i)
    ensures Settled(c, i, s, Body(c, i, ref, s).1, Body(c, i, ref, s).0)
    ensures Carried(c, i, s, Body(c, i, ref, s).1)
    decreases |c.hooks| - i, 0, 0, 0
  {
    if c.check(s.pool[s.cur[i]].fields).None? {
      var s1 := Filled(i, ref, s);
      if i < |c.hooks| - 1 {
        MutateSettles(c, i + 1, 0, s1.cur[i + 1], s1);
        var (o, s2) := Mutate(c, i + 1, 0, s1.cur[i + 1], s1);
        CarriedInto(c, i, ref, s, s1, s2);
        if o.Saved? { FinishStores(c, i, ref, s, s1, s2); }
      } else {
        var (e, s2) := WriteBatch(c, s1);
        if e.None? { FinishStores(c, i, ref, s, s1, s2); }
        assert s1.specs[..i] == s.specs[..i];
        assert s1.nodes[..i] == s.nodes[..i];
      }
    }
  }

  lemma {:induction false} CarriedInto(c: Config, i: nat, ref: nat, s: State, s1: State, s2: State)
    requires i < |c.hooks| && Valid(c, s) && ref < |s.pool| && s1 == Filled(i, ref, s) && Valid(c, s2)
    requires Carried(c, i + 1, s1, s2)
    ensures Carried(c, i, s, s2)
  {}

  /** After a stored batch, finishing builder i gives its node the id the store returned. */
  lemma {:induction false} FinishStores(c: Config, i: nat, ref: nat, s: State, s1: State, s2: State)
    requires i < |c.hooks| && Valid(c, s) && ref < |s.pool| && s1 == Filled(i, ref, s) && Valid(c, s2)
    requires Stored(c, i + 1, s1, s2) && Carried(c, i + 1, s1, s2) && |s1.pool| <= |s2.pool|
    ensures Stored(c, i, s, Finished(i, ref, s2).1)
    ensures Carried(c, i, s, Finished(i, ref, s2).1)
  {
    var w := s2.writes[|s.writes|];
    var batch := InsertAll(c.rules, s.table, Batched(w)).value;
    assert w[i] == w[..i + 1][i] == s1.specs[..i + 1][i] == s1.specs[i];
    assert s2.nodes[i] == s2.nodes[..i + 1][i] == s1.nodes[..i + 1][i] == s1.nodes[i];
    assert s2.cur[i] == s2.cur[..i + 1][i] == s1.cur[..i + 1][i] == ref;
    if s1.specs[i].value.id.Some? {
      ExplicitIdsKept(c.rules, s.table, Batched(w), i);
    }
    CarriedInto(c, i, ref, s, s1, s2);
    var t := Finished(i, ref, s2).1;
    assert t.nodes[..i] == s2.nodes[..i];
  }

  /**
   With honest hooks a bulk save is all or nothing, whatever they do to errors and nodes. On
   success one batch was stored, every builder has the node with the id the store gave its row,
   and every mutation is marked done; on failure the table and all done marks are as before.
   */
  lemma {:induction false} SaveIsAllOrNothing(c: Config, s: State)
    requires |c.hooks| > 0 && Valid(c, s) && AllHonest(c)
    ensures var (r, t) := Save(c, s);
            if r.Ok? then r.value == t.nodes && Stored(c, 0, s, t) else Untouched(s, t)
  {
    MutateSettles(c, 0, 0, s.cur[0], s);
  }
}
