/** Saving one builder: `withHooks` around `sqlSave`, and saving several one after another. */
module SingleSave {
  import opened Prelude
  import opened Store
  import opened BulkChain
  import opened BulkSafety
  import opened BulkRefinement

  /** The mutation objects and the table; `home` below is the builder's own mutation object. */
  datatype One = One(pool: seq<Mut>, table: Table)

  /** `sqlSave` on the builder's own mutation. */
  function SqlSave(c: Config, home: nat, s: One): (r: (Outcome, One))
    requires home < |s.pool|
    ensures |r.1.pool| == |s.pool|
  {
    var m := s.pool[home];
    match c.check(m.fields)
    case Some(e) => (Failed(e), s)
    case None =>
      match Insert(c.rules, s.table, Spec(m.id, m.fields))
      case Err(e) => (Failed(Wrap(e)), s)
      case Ok(inserted) =>
        (Saved(Node(inserted.id, m.fields)),
         One(s.pool[home := m.(id := Some(inserted.id), done := true)], inserted.table))
  }

  /** The hook tower of one builder; its body copies the mutation it got over the builder's own. */
  function Single(c: Config, hooks: seq<Hook>, home: nat, h: nat, ref: nat, s: One): (r: (Outcome, One))
    requires h <= |hooks| && home < |s.pool| && ref < |s.pool|
    ensures |s.pool| <= |r.1.pool|
    decreases |hooks| - h, 1, 0
  {
    if h < |hooks| then
      SingleHook(c, hooks, home, h, ref, [], s)
    else
      SqlSave(c, home, s.(pool := s.pool[home := s.pool[ref]]))
  }

  function SingleHook(c: Config, hooks: seq<Hook>, home: nat, h: nat, ref: nat, past: seq<Outcome>, s: One): (r: (Outcome, One))
    requires h < |hooks| && home < |s.pool| && ref < |s.pool| && |past| <= hooks[h].calls
    ensures |s.pool| <= |r.1.pool|
    decreases |hooks| - h, 0, hooks[h].calls - |past|
  {
    var hook := hooks[h];
    if |past| == hook.calls then
      (hook.last(past), s)
    else
      match hook.decide(s.pool[ref], past)
      case Answer(o) => (o, s)
      case Call(fields, id, replace) =>
        var (pool1, ref1) :=
          if replace then (s.pool + [Mut(fields, id, false)], |s.pool|)
          else (s.pool[ref := s.pool[ref].(fields := fields, id := id)], ref);
        var (o, s1) := Single(c, hooks, home, h + 1, ref1, s.(pool := pool1));
        SingleHook(c, hooks, home, h, ref, past + [o], s1)
  }

  /** Saving the builders from k on one after another, up to the first error. */
  function SaveEach(c: Config, cur: seq<nat>, k: nat, s: One): (r: (Result<seq<Node>, Error>, One))
    requires |cur| == |c.hooks| && k <= |cur|
    requires forall j :: 0 <= j < |cur| ==> cur[j] < |s.pool|
    ensures r.0.Ok? ==> |r.0.value| == |cur| - k
    decreases |cur| - k
  {
    if k == |cur| then
      (Ok([]), s)
    else
      var (o, s1) := Single(c, c.hooks[k], cur[k], 0, cur[k], s);
      if o.Failed? then
        (Err(o.error), s1)
      else
        var (rest, s2) := SaveEach(c, cur, k + 1, s1);
        (if rest.Err? then rest else Ok([o.node] + rest.value), s2)
  }

  // ----- a single save checks what it stores -----

  /** Every row the second table has beyond the first passed the check. */
  ghost predicate Grown(c: Config, a: Table, b: Table) {
    && (forall id :: id in a.rows ==> id in b.rows && b.rows[id] == a.rows[id])
    && (forall id :: id in b.rows && id !in a.rows ==> c.check(b.rows[id]).None?)
  }

  /** Whatever its hooks do, also when they replace the mutation, a single save stores only checked rows. */
  lemma {:induction false} SingleStoresCheckedRows(c: Config, hooks: seq<Hook>, home: nat, h: nat, ref: nat, s: One)
    requires h <= |hooks| && home < |s.pool| && ref < |s.pool|
    ensures Grown(c, s.table, Single(c, hooks, home, h, ref, s).1.table)
    decreases |hooks| - h, 1, 0
  {
    if h < |hooks| {
      SingleHookStoresCheckedRows(c, hooks, home, h, ref, [], s);
    }
  }

  lemma {:induction false} SingleHookStoresCheckedRows(
    c: Config, hooks: seq<Hook>, home: nat, h: nat, ref: nat, past: seq<Outcome>, s: One)
    requires h < |hooks| && home < |s.pool| && ref < |s.pool| && |past| <= hooks[h].calls
    ensures Grown(c, s.table, SingleHook(c, hooks, home, h, ref, past, s).1.table)
    decreases |hooks| - h, 0, hooks[h].calls - |past|
  {
    var hook := hooks[h];
    if |past| < hook.calls {
      var move := hook.decide(s.pool[ref], past);
      if move.Call? {
        var (pool1, ref1) :=
          if move.replace then (s.pool + [Mut(move.fields, move.id, false)], |s.pool|)
          else (s.pool[ref := s.pool[ref].(fields := move.fields, id := move.id)], ref);
        var s0 := s.(pool := pool1);
        SingleStoresCheckedRows(c, hooks, home, h + 1, ref1, s0);
        var (o, s1) := Single(c, hooks, home, h + 1, ref1, s0);
        SingleHookStoresCheckedRows(c, hooks, home, h, ref, past + [o], s1);
      }
    }
  }

  /** The error of `sqlSave`: its check's own, or a constraint error exactly when the insert is refused. */
  lemma {:induction false} SingleConstraintMeansViolation(c: Config, home: nat, s: One)
    requires home < |s.pool|
    ensures var o, m := SqlSave(c, home, s).0, s.pool[home];
            && (c.check(m.fields).Some? ==> o == Failed(c.check(m.fields).value))
            && (c.check(m.fields).None? ==>
                  if Insert(c.rules, s.table, Spec(m.id, m.fields)).Err? then o.Failed? && o.error.Constraint? else o.Saved?)
  {}

  // ----- a bulk save against saving each builder -----

  /** What a single save of the final mutation m does: the check sees what is saved. */
  ghost predicate SavedAlone(c: Config, home: nat, ref: nat, m: Mut, s: One, o: Outcome, t: One)
    requires home < |s.pool| <= |t.pool|
  {
    && (forall r :: 0 <= r < |s.pool| && r != home && r != ref ==> t.pool[r] == s.pool[r])
    && match c.check(m.fields)
       case Some(e) => o == Failed(e) && t.table == s.table
       case None =>
         match Insert(c.rules, s.table, SpecOf(m))
         case Err(e) => o == Failed(Wrap(e)) && t.table == s.table
         case Ok(inserted) =>
           && o == Saved(Node(inserted.id, m.fields)) && t.table == inserted.table
           && t.pool[home] == Mut(m.fields, Some(inserted.id), true)
  }

  lemma {:induction false} SingleIsExact(c: Config, hooks: seq<Hook>, home: nat, h: nat, ref: nat, s: One)
    requires h <= |hooks| && home < |s.pool| && ref < |s.pool| && forall k :: 0 <= k < |hooks| ==> PassesOn(hooks[k])
    ensures var (o, t) := Single(c, hooks, home, h, ref, s);
            && SavedAlone(c, home, ref, Final(hooks, h, s.pool[ref]), s, o, t)
            && ((forall k :: 0 <= k < |hooks| ==> Edits(hooks[k])) ==> |t.pool| == |s.pool|)
    decreases |hooks| - h
  {
    if h < |hooks| {
      var hook := hooks[h];
      assert PassesOn(hook);
      var move := hook.decide(s.pool[ref], []);
      var (pool1, ref1) :=
        if move.replace then (s.pool + [Mut(move.fields, move.id, false)], |s.pool|)
        else (s.pool[ref := s.pool[ref].(fields := move.fields, id := move.id)], ref);
      var s0 := s.(pool := pool1);
      SingleIsExact(c, hooks, home, h + 1, ref1, s0);
      var (o, s1) := Single(c, hooks, home, h + 1, ref1, s0);
      assert [] + [o] == [o];
      assert SingleHook(c, hooks, home, h, ref, [o], s1) == (o, s1);
      assert SingleHook(c, hooks, home, h, ref, [], s) == (o, s1);
    }
  }

  /** The mutations builders k and later still have to save are as they were in s. */
  ghost predicate Pending(c: Config, s: State, k: nat, one: One)
    requires Valid(c, s)
  {
    |s.pool| <= |one.pool| && forall j :: k <= j < |s.cur| ==> one.pool[s.cur[j]] == s.pool[s.cur[j]]
  }

  /** The checks of a single save accept the rows of builders k and later. */
  ghost predicate RowsPass(c: Config, s: State, from: nat)
    requires Valid(c, s)
  {
    forall k :: from <= k < |c.hooks| ==> c.check(Row(c, s, k).fields).None?
  }

  /** The insert of the rows of builders k and later as one batch. */
  ghost function BatchFrom(c: Config, s: State, k: nat, table: Table): (r: Result<Batch, Error>)
    requires Valid(c, s) && k <= |c.hooks|
    ensures r.Ok? ==> |r.value.ids| == |c.hooks| - k
  {
    InsertAll(c.rules, table, Batched(Rows(c, s))[k..])
  }

  lemma {:induction false} BatchStep(c: Config, s: State, k: nat, table: Table)
    requires Valid(c, s) && k < |c.hooks|
    ensures BatchFrom(c, s, k, table) ==
            match Insert(c.rules, table, SpecOf(Row(c, s, k)))
            case Err(e) => Err(e)
            case Ok(first) =>
              match BatchFrom(c, s, k + 1, first.table)
              case Err(e) => Err(e)
              case Ok(rest) => Ok(Batch([first.id] + rest.ids, rest.table))
  {}

  /** The answers of saving builders k and later one by one: those of the batch. */
  ghost predicate EachAnswers(c: Config, s: State, k: nat, one: One, r: Result<seq<Node>, Error>, t: One)
    requires Valid(c, s) && k <= |c.hooks|
  {
    match BatchFrom(c, s, k, one.table)
    case Err(e) => r == Err(Wrap(e))
    case Ok(b) =>
      && r.Ok? && |r.value| == |c.hooks| - k && t.table == b.table
      && forall j :: k <= j < |c.hooks| ==> r.value[j - k] == Node(b.ids[j - k], Row(c, s, j).fields)
  }

  /** What it leaves in the mutations: ids and done marks as the batch would, all others untouched. */
  ghost predicate EachSettles(c: Config, s: State, k: nat, one: One, t: One)
    requires Valid(c, s) && k <= |c.hooks| && |s.pool| <= |one.pool| <= |t.pool|
    requires BatchFrom(c, s, k, one.table).Ok?
  {
    var ids := BatchFrom(c, s, k, one.table).value.ids;
    && (forall j :: k <= j < |s.cur| ==> t.pool[s.cur[j]] == Mut(Row(c, s, j).fields, Some(ids[j - k]), true))
    && (forall p :: 0 <= p < |one.pool| && (forall j :: k <= j < |s.cur| ==> s.cur[j] != p) ==> t.pool[p] == one.pool[p])
    && (OnlyEdits(c) ==> |t.pool| == |one.pool|)
  }

  lemma {:induction false} PoolGrows(c: Config, cur: seq<nat>, k: nat, s: One)
    requires |cur| == |c.hooks| && k <= |cur| && forall j :: 0 <= j < |cur| ==> cur[j] < |s.pool|
    ensures |s.pool| <= |SaveEach(c, cur, k, s).1.pool|
    decreases |cur| - k
  {
    if k < |cur| {
      var (o, s1) := Single(c, c.hooks[k], cur[k], 0, cur[k], s);
      if o.Saved? { PoolGrows(c, cur, k + 1, s1); }
    }
  }

  /**
   Saving one by one is the batch insert of the final mutations, provided every final
   mutation passes the check; otherwise it fails.
   */
  lemma {:induction false} EachIsInsertAll(c: Config, s: State, k: nat, one: One)
    requires Valid(c, s) && AllPassOn(c) && Distinct(s.cur) && k <= |c.hooks| && Pending(c, s, k, one)
    ensures var (r, t) := SaveEach(c, s.cur, k, one);
            && |one.pool| <= |t.pool|
            && if RowsPass(c, s, k) then
                 EachAnswers(c, s, k, one, r, t) && (r.Ok? ==> EachSettles(c, s, k, one, t))
               else r.Err?
    decreases |c.hooks| - k
  {
    PoolGrows(c, s.cur, k, one);
    if k < |c.hooks| {
      var home := s.cur[k];
      SingleIsExact(c, c.hooks[k], home, 0, home, one);
      BatchStep(c, s, k, one.table);
      var (o, s1) := Single(c, c.hooks[k], home, 0, home, one);
      assert SavedAlone(c, home, home, Row(c, s, k), one, o, s1);
      if o.Saved? {
        EachIsInsertAll(c, s, k + 1, s1);
        var (rest, t) := SaveEach(c, s.cur, k + 1, s1);
        if RowsPass(c, s, k) {
          AnswersStep(c, s, k, one, o, s1, rest, t);
          if rest.Ok? { SettlesStep(c, s, k, one, o, s1, t); }
        }
      }
    }
  }

  lemma {:induction false} AnswersStep(c: Config, s: State, k: nat, one: One, o: Outcome, s1: One,
                                       rest: Result<seq<Node>, Error>, t: One)
    requires Valid(c, s) && k < |c.hooks| && o.Saved?
    requires Insert(c.rules, one.table, SpecOf(Row(c, s, k))) == Ok(Inserted(o.node.id, s1.table))
    requires o.node.fields == Row(c, s, k).fields && EachAnswers(c, s, k + 1, s1, rest, t)
    ensures EachAnswers(c, s, k, one, if rest.Err? then rest else Ok([o.node] + rest.value), t)
  {
    BatchStep(c, s, k, one.table);
  }

  lemma {:induction false} SettlesStep(c: Config, s: State, k: nat, one: One, o: Outcome, s1: One, t: One)
    requires Valid(c, s) && Distinct(s.cur) && k < |c.hooks| && o.Saved?
    requires |s.pool| <= |one.pool| <= |s1.pool| <= |t.pool|
    requires Insert(c.rules, one.table, SpecOf(Row(c, s, k))) == Ok(Inserted(o.node.id, s1.table))
    requires s1.pool[s.cur[k]] == Mut(Row(c, s, k).fields, Some(o.node.id), true)
    requires forall r :: 0 <= r < |one.pool| && r != s.cur[k] ==> s1.pool[r] == one.pool[r]
    requires OnlyEdits(c) ==> |s1.pool| == |one.pool|
    requires BatchFrom(c, s, k + 1, s1.table).Ok? && EachSettles(c, s, k + 1, s1, t)
    ensures BatchFrom(c, s, k, one.table).Ok? && EachSettles(c, s, k, one, t)
  {
    BatchStep(c, s, k, one.table);
    var ids, rest := BatchFrom(c, s, k, one.table).value.ids, BatchFrom(c, s, k + 1, s1.table).value.ids;
    assert ids == [o.node.id] + rest;
    forall j | k <= j < |s.cur| ensures t.pool[s.cur[j]] == Mut(Row(c, s, j).fields, Some(ids[j - k]), true) {
      if j > k { assert ids[j - k] == rest[j - (k + 1)]; }
    }
  }

  /** The checks of a bulk save accept every builder's own mutation. */
  ghost predicate VerdictsPass(c: Config, s: State)
    requires Valid(c, s)
  {
    forall k :: 0 <= k < |c.hooks| ==> Verdict(c, s, k).None?
  }

  /**
   Bulk against one by one, for hooks that edit or replace the mutation and pass the answer on
   and a store that answers. The bulk save succeeds exactly when every own mutation passes its
   check and the store takes the batch; one by one succeeds exactly when every final mutation
   passes and the store takes the rows. So they agree exactly when the store refuses or the
   two checks come out alike. When both succeed, nodes and table are the same; when bulk
   fails, the table is unchanged.
   */
  lemma {:induction false} BulkAndEachDecide(c: Config, s: State)
    requires Valid(c, s) && AllPassOn(c) && Distinct(s.cur) && |c.hooks| > 0
    requires forall n :: c.outage(n).None?
    ensures var (r, t) := Save(c, s);
            var (each, u) := SaveEach(c, s.cur, 0, One(s.pool, s.table));
            var taken := BatchFrom(c, s, 0, s.table);
            && (r.Ok? <==> VerdictsPass(c, s) && taken.Ok?)
            && (each.Ok? <==> RowsPass(c, s, 0) && taken.Ok?)
            && ((r.Ok? <==> each.Ok?) <==> taken.Err? || (VerdictsPass(c, s) <==> RowsPass(c, s, 0)))
            && (r.Ok? && each.Ok? ==>
                  && |r.value| == |each.value|
                  && (forall k :: 0 <= k < |r.value| ==> r.value[k] == Some(each.value[k]))
                  && t.table == u.table)
            && (r.Err? ==> t.table == s.table)
            && (r.Err? && VerdictsPass(c, s) && RowsPass(c, s, 0) ==> each == Err(r.error))
  {
    var j := SomeLeastRefused(c, s, 0);
    SaveReportsFirstRefusal(c, s, j);
    EachIsInsertAll(c, s, 0, One(s.pool, s.table));
    assert Batched(Rows(c, s))[0..] == Batched(Rows(c, s));
    if j < |c.hooks| {
      assert !VerdictsPass(c, s);
    } else {
      assert VerdictsPass(c, s);
      if Reply(c, s.table, |s.writes|, Rows(c, s)).Ok? { SettledNodes(c, s); }
    }
  }

  lemma {:induction false} SettledNodes(c: Config, s: State)
    requires Valid(c, s) && AllPassOn(c) && Distinct(s.cur) && |c.hooks| > 0 && LeastRefused(c, s, |c.hooks|)
    requires Reply(c, s.table, |s.writes|, Rows(c, s)).Ok?
    ensures var (r, t) := Save(c, s);
            r.Ok? && |r.value| == |c.hooks|
            && forall k :: 0 <= k < |c.hooks| ==>
                 r.value[k] == Some(Node(Reply(c, s.table, |s.writes|, Rows(c, s)).value.ids[k], Row(c, s, k).fields))
  {
    SaveReportsFirstRefusal(c, s, |c.hooks|);
    var (r, t) := Save(c, s);
    var ids := Reply(c, s.table, |s.writes|, Rows(c, s)).value.ids;
    forall k | 0 <= k < |c.hooks| ensures r.value[k] == Some(Node(ids[k], Row(c, s, k).fields)) {
      assert SettledAs(c, t, k, Row(c, s, k), ids[k]);
    }
  }

  lemma {:induction false} EditedChecksAlike(c: Config, s: State)
    requires Valid(c, s) && OnlyEdits(c)
    ensures AllPassOn(c) && (VerdictsPass(c, s) <==> RowsPass(c, s, 0))
  {
    forall k | 0 <= k < |c.hooks| ensures Verdict(c, s, k) == c.check(Row(c, s, k).fields) {
      EditsAreSeen(c.hooks[k], 0, s.pool[s.cur[k]]);
    }
    forall i, h | 0 <= i < |c.hooks| && 0 <= h < |c.hooks[i]| ensures PassesOn(c.hooks[i][h]) {
      assert Edits(c.hooks[i][h]);
    }
  }

  /**
   Bulk refines one by one. Hooks that only edit, distinct mutations and a store that
   answers: the bulk save succeeds exactly when saving each builder in turn does, and then
   nodes, table and mutations are the same.
   */
  lemma {:induction false} BulkRefinesOneByOne(c: Config, s: State)
    requires Valid(c, s) && OnlyEdits(c) && Distinct(s.cur) && |c.hooks| > 0
    requires forall n :: c.outage(n).None?
    ensures var (r, t) := Save(c, s);
            var (each, u) := SaveEach(c, s.cur, 0, One(s.pool, s.table));
            && (r.Ok? <==> each.Ok?)
            && (r.Ok? ==>
                  && |r.value| == |each.value|
                  && (forall k :: 0 <= k < |r.value| ==> r.value[k] == Some(each.value[k]))
                  && t.table == u.table && t.pool == u.pool)
            && (r.Err? ==> t.table == s.table)
            && (r.Err? && RowsPass(c, s, 0) ==> each == Err(r.error))
  {
    EditedChecksAlike(c, s);
    BulkAndEachDecide(c, s);
    if Save(c, s).0.Ok? { SamePools(c, s); }
  }

  lemma {:induction false} SamePools(c: Config, s: State)
    requires Valid(c, s) && OnlyEdits(c) && AllPassOn(c) && Distinct(s.cur) && |c.hooks| > 0
    requires VerdictsPass(c, s) && RowsPass(c, s, 0) && (forall n :: c.outage(n).None?)
    requires BatchFrom(c, s, 0, s.table).Ok?
    ensures Save(c, s).1.pool == SaveEach(c, s.cur, 0, One(s.pool, s.table)).1.pool
  {
    var one := One(s.pool, s.table);
    EachIsInsertAll(c, s, 0, one);
    assert Batched(Rows(c, s))[0..] == Batched(Rows(c, s));
    SaveIsExact(c, s, |c.hooks|);
    var t, u := Save(c, s).1.pool, SaveEach(c, s.cur, 0, one).1.pool;
    assert |t| == |u| == |s.pool|;
    forall p | 0 <= p < |s.pool| ensures t[p] == u[p] {
      if k :| 0 <= k < |s.cur| && s.cur[k] == p {
        var f := Entry(0, 0, s.cur[0]);
        assert SettledAs(c, Save(c, s).1, k, Kept(c, s, f, k), Reply(c, s.table, |s.writes|, Rows(c, s)).value.ids[k]);
      }
    }
  }

  // ----- the difference is real -----

  /** A hook that hands on a new mutation with the given fields and returns the answer. */
  function Replacing(fields: Fields): Hook {
    Hook(1, (m: Mut, past: seq<Outcome>) => Call(fields, None, true),
         (past: seq<Outcome>) => if |past| == 1 then past[0] else Failed(HookFailure(0)))
  }

  /**
   With a hook that replaces a valid mutation by a refused one, the single save fails with the
   check's error and the bulk save stores the refused row.
   */
  lemma {:induction false} BulkStoresAReplacedMutationUnchecked(c: Config, m: Mut, refused: Fields, table: Table)
    requires c.hooks == [[Replacing(refused)]]
    requires c.check(m.fields).None? && c.check(refused).Some?
    requires c.outage(0).None? && table.next !in table.rows && c.rules(table.rows, refused)
    ensures var s := State([m], [0], [None], [None], table, [], []);
            var (r, t) := Save(c, s);
            r.Ok? && t.table.rows == table.rows[table.next := refused]
    ensures var (o, t) := Single(c, c.hooks[0], 0, 0, 0, One([m], table));
            o == Failed(c.check(refused).value) && t.table == table
  {
    var s := State([m], [0], [None], [None], table, [], []);
    assert PassesOn(Replacing(refused));
    assert AllPassOn(c);
    assert Final(c.hooks[0], 0, m) == Final(c.hooks[0], 1, Mut(refused, None, false)) == Mut(refused, None, false);
    SaveReportsFirstRefusal(c, s, 1);
    assert Batched(Rows(c, s)) == [Spec(None, refused)];
    SingletonBatch(c.rules, table, Spec(None, refused));
    SingleIsExact(c, c.hooks[0], 0, 0, 0, One([m], table));
  }
}
