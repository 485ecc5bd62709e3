/**
 Bulk saves whose hooks edit or replace the mutation they are given and pass the answer on:
 the exact outcome, what each check sees and what each row is.
 */
module BulkRefinement {
  import opened Prelude
  import opened Store
  import opened BulkChain
  import opened BulkSafety

  /** A hook that calls next once, with the mutation edited or with another one, and returns its answer. */
  ghost predicate PassesOn(hook: Hook) {
    && hook.calls == 1
    && (forall m :: hook.decide(m, []).Call?)
    && (forall o :: hook.last([o]) == o)
  }

  ghost predicate AllPassOn(c: Config) {
    forall i, h :: 0 <= i < |c.hooks| && 0 <= h < |c.hooks[i]| ==> PassesOn(c.hooks[i][h])
  }

  /** A hook that passes on and never replaces the mutation. */
  ghost predicate Edits(hook: Hook) {
    PassesOn(hook) && forall m :: !hook.decide(m, []).replace
  }

  ghost predicate OnlyEdits(c: Config) {
    forall i, h :: 0 <= i < |c.hooks| && 0 <= h < |c.hooks[i]| ==> Edits(c.hooks[i][h])
  }

  function Given(m: Mut, move: Move): Mut
    requires move.Call?
  {
    if move.replace then Mut(move.fields, move.id, false) else m.(fields := move.fields, id := move.id)
  }

  /** What the check sees: the builder's mutation with the edits made before the first replacement. */
  ghost function Own(hooks: seq<Hook>, h: nat, m: Mut): Mut
    requires h <= |hooks|
    decreases |hooks| - h
  {
    if h == |hooks| then m
    else
      var move := hooks[h].decide(m, []);
      if move.Answer? || move.replace then m else Own(hooks, h + 1, Given(m, move))
  }

  /** What is saved: every edit and replacement, outermost hook first. */
  ghost function Final(hooks: seq<Hook>, h: nat, m: Mut): Mut
    requires h <= |hooks|
    decreases |hooks| - h
  {
    if h == |hooks| then m
    else
      var move := hooks[h].decide(m, []);
      if move.Answer? then m else Final(hooks, h + 1, Given(m, move))
  }

  /** Without replacements the check sees what is saved. */
  lemma {:induction false} EditsAreSeen(hooks: seq<Hook>, h: nat, m: Mut)
    requires h <= |hooks| && forall k :: 0 <= k < |hooks| ==> Edits(hooks[k])
    ensures Own(hooks, h, m) == Final(hooks, h, m)
    decreases |hooks| - h
  {
    if h < |hooks| {
      assert Edits(hooks[h]);
      EditsAreSeen(hooks, h + 1, Given(m, hooks[h].decide(m, [])));
    }
  }

  ghost predicate Distinct(cur: seq<nat>) {
    forall j, k :: 0 <= j < k < |cur| ==> cur[j] != cur[k]
  }

  // ----- what a chain entered at some frame will check and save -----

  /** The frame of hook h of builder i, entered with the mutation object `ref`. */
  datatype Entry = Entry(i: nat, h: nat, ref: nat)

  /** The object is builder i's own or belongs to no builder. */
  ghost predicate Enters(c: Config, s: State, f: Entry) {
    && Valid(c, s) && Distinct(s.cur)
    && f.i < |c.hooks| && f.h <= |c.hooks[f.i]| && f.ref < |s.pool|
    && forall k :: 0 <= k < |s.cur| && s.cur[k] == f.ref ==> k == f.i
  }

  /** What builder k's check will see. */
  ghost function Seen(c: Config, s: State, f: Entry, k: nat): Mut
    requires Enters(c, s, f) && f.i <= k < |c.hooks|
  {
    if k > f.i then Own(c.hooks[k], 0, s.pool[s.cur[k]])
    else if f.ref == s.cur[k] then Own(c.hooks[k], f.h, s.pool[f.ref])
    else s.pool[s.cur[k]]
  }

  /** What builder k will save. */
  ghost function Kept(c: Config, s: State, f: Entry, k: nat): Mut
    requires Enters(c, s, f) && f.i <= k < |c.hooks|
  {
    if k > f.i then Final(c.hooks[k], 0, s.pool[s.cur[k]]) else Final(c.hooks[k], f.h, s.pool[f.ref])
  }

  ghost function Refusal(c: Config, s: State, f: Entry, k: nat): Option<Error>
    requires Enters(c, s, f) && f.i <= k < |c.hooks|
  {
    c.check(Seen(c, s, f, k).fields)
  }

  /** j is the least builder from f on whose check refuses, or the number of builders. */
  ghost predicate FirstRefused(c: Config, s: State, f: Entry, j: nat)
    requires Enters(c, s, f)
  {
    && f.i <= j <= |c.hooks|
    && (forall k :: f.i <= k < j ==> Refusal(c, s, f, k).None?)
    && (j < |c.hooks| ==> Refusal(c, s, f, j).Some?)
  }

  /** The trace of a chain whose first refused builder is j, or of one with none refused. */
  ghost function Script(c: Config, i: nat, h: nat, j: nat): seq<Event>
    requires i < |c.hooks| && h <= |c.hooks[i]|
    decreases |c.hooks| - i, |c.hooks[i]| - h
  {
    if h < |c.hooks[i]| then [Enter(i, h)] + Script(c, i, h + 1, j) + [Exit(i, h)]
    else if i == j then []
    else if i < |c.hooks| - 1 then [Fill(i)] + Script(c, i + 1, 0, j)
    else [Fill(i), Write]
  }

  ghost function SpecOf(m: Mut): Spec {
    Spec(m.id, m.fields)
  }

  ghost function Wanted(c: Config, s: State, f: Entry): (w: seq<Option<Spec>>)
    requires Enters(c, s, f)
    ensures |w| == |c.hooks|
  {
    seq(|c.hooks|, k requires 0 <= k < |c.hooks| => if k < f.i then s.specs[k] else Some(SpecOf(Kept(c, s, f, k))))
  }

  /** What the store answers to the n-th batch w of a save. */
  ghost function Reply(c: Config, table: Table, n: nat, w: seq<Option<Spec>>): (r: Result<Batch, Error>)
    ensures r.Ok? ==> |r.value.ids| == |w|
  {
    if c.outage(n).Some? then Err(Wrap(c.outage(n).value))
    else
      match InsertAll(c.rules, table, Batched(w))
      case Err(e) => Err(Wrap(e))
      case Ok(batch) => Ok(batch)
  }

  /** Builder j is the first one refused: its error comes out and no batch was written. */
  ghost predicate Refused(c: Config, s: State, f: Entry, j: nat, o: Outcome, t: State)
    requires Enters(c, s, f) && f.i <= j < |c.hooks| && Valid(c, t)
  {
    && Refusal(c, s, f, j).Some? && o == Failed(Refusal(c, s, f, j).value)
    && t.table == s.table && t.writes == s.writes
    && t.trace == s.trace + Script(c, f.i, f.h, j)
  }

  /** Builder k has its node and its mutation is settled with the id of its row. */
  ghost predicate SettledAs(c: Config, t: State, k: nat, m: Mut, id: int)
    requires Valid(c, t) && k < |c.hooks|
  {
    t.nodes[k] == Some(Node(id, m.fields)) && t.pool[t.cur[k]] == Mut(m.fields, Some(id), true)
  }

  /** No builder is refused: one batch with every final mutation, and the store's answer. */
  ghost predicate Accepted(c: Config, s: State, f: Entry, o: Outcome, t: State)
    requires Enters(c, s, f) && Valid(c, t)
  {
    var w := Wanted(c, s, f);
    && t.writes == s.writes + [w]
    && t.trace == s.trace + Script(c, f.i, f.h, |c.hooks|)
    && match Reply(c, s.table, |s.writes|, w)
       case Err(e) => o == Failed(e) && t.table == s.table
       case Ok(batch) =>
         && t.table == batch.table
         && o == Saved(Node(batch.ids[f.i], Kept(c, s, f, f.i).fields))
         && t.specs == seq(|c.hooks|, k requires 0 <= k < |c.hooks| =>
                             Some(Spec(Some(batch.ids[k]), Batched(w)[k].fields)))
         && forall k :: f.i <= k < |c.hooks| ==> SettledAs(c, t, k, Kept(c, s, f, k), batch.ids[k])
  }

  /** The frames from f on touch only the mutations and slots of their builders. */
  ghost predicate Local(c: Config, s: State, f: Entry, t: State)
    requires Enters(c, s, f) && Valid(c, t)
  {
    && t.cur[..f.i] == s.cur[..f.i] && |s.pool| <= |t.pool|
    && t.nodes[..f.i] == s.nodes[..f.i]
    && (forall r :: 0 <= r < |s.pool| && r != f.ref && (forall k :: f.i <= k < |s.cur| ==> s.cur[k] != r) ==>
          t.pool[r] == s.pool[r])
    && (forall k :: f.i <= k < |s.cur| ==>
          t.cur[k] == s.cur[k] || (k == f.i && t.cur[k] == f.ref) || |s.pool| <= t.cur[k])
    && (OnlyEdits(c) && f.ref == s.cur[f.i] ==> t.cur == s.cur && |t.pool| == |s.pool|)
  }

  ghost predicate Exact(c: Config, s: State, f: Entry, j: nat, o: Outcome, t: State)
    requires Enters(c, s, f) && f.i <= j <= |c.hooks| && Valid(c, t)
  {
    && Local(c, s, f, t)
    && if j < |c.hooks| then Refused(c, s, f, j, o, t) else Accepted(c, s, f, o, t)
  }

  // ----- the chain is exact -----

  /** Two entries with the same prospects from the second's builder on. */
  ghost predicate SameProspects(c: Config, s: State, f: Entry, s1: State, f1: Entry)
    requires Enters(c, s, f) && Enters(c, s1, f1) && f.i <= f1.i
  {
    forall k :: f1.i <= k < |c.hooks| ==> Seen(c, s1, f1, k) == Seen(c, s, f, k) && Kept(c, s1, f1, k) == Kept(c, s, f, k)
  }

  lemma {:induction false} SameFirstRefused(c: Config, s: State, f: Entry, s1: State, f1: Entry, j: nat)
    requires Enters(c, s, f) && Enters(c, s1, f1) && f.i <= f1.i <= j && SameProspects(c, s, f, s1, f1)
    requires FirstRefused(c, s, f, j)
    ensures FirstRefused(c, s1, f1, j)
  {
    forall k | f1.i <= k < j ensures Refusal(c, s1, f1, k).None? {
      assert Refusal(c, s, f, k).None?;
    }
  }

  lemma {:induction false} ChainIsExact(c: Config, s: State, f: Entry, j: nat)
    requires Enters(c, s, f) && AllPassOn(c) && FirstRefused(c, s, f, j)
    ensures var (o, t) := Mutate(c, f.i, f.h, f.ref, s); Exact(c, s, f, j, o, t)
    decreases |c.hooks| - f.i, |c.hooks[f.i]| - f.h, 1
  {
    if f.h < |c.hooks[f.i]| {
      HookIsExact(c, s, f, j);
    } else if j == f.i {
      assert Script(c, f.i, f.h, j) == [];
    } else if f.i == |c.hooks| - 1 {
      LastIsExact(c, s, f);
    } else {
      BodyIsExact(c, s, f, j);
    }
  }

  /** Handing on keeps the prospects: replacing hides the mutation from the check, editing does not. */
  lemma {:induction false} HandingKeepsProspects(c: Config, s: State, f: Entry, s1: State, ref1: nat)
    requires Enters(c, s, f) && f.h < |c.hooks[f.i]| && AllPassOn(c)
    requires (s1, ref1) == Handed(Log(s, Enter(f.i, f.h)), f.ref, c.hooks[f.i][f.h].decide(s.pool[f.ref], []))
    ensures Enters(c, s1, Entry(f.i, f.h + 1, ref1)) && SameProspects(c, s, f, s1, Entry(f.i, f.h + 1, ref1))
  {}

  lemma {:induction false} HookIsExact(c: Config, s: State, f: Entry, j: nat)
    requires Enters(c, s, f) && AllPassOn(c) && FirstRefused(c, s, f, j) && f.h < |c.hooks[f.i]|
    ensures var (o, t) := Mutate(c, f.i, f.h, f.ref, s); Exact(c, s, f, j, o, t)
    decreases |c.hooks| - f.i, |c.hooks[f.i]| - f.h, 0
  {
    var hook := c.hooks[f.i][f.h];
    assert PassesOn(hook);
    var s0 := Log(s, Enter(f.i, f.h));
    var (s1, ref1) := Handed(s0, f.ref, hook.decide(s.pool[f.ref], []));
    var f1 := Entry(f.i, f.h + 1, ref1);
    HandingKeepsProspects(c, s, f, s1, ref1);
    SameFirstRefused(c, s, f, s1, f1, j);
    ChainIsExact(c, s1, f1, j);
    var (o, s2) := Mutate(c, f.i, f.h + 1, ref1, s1);
    assert [] + [o] == [o];
    assert RunHook(c, f.i, f.h, f.ref, [o], s2) == (o, s2);
    assert RunHook(c, f.i, f.h, f.ref, [], s0) == (o, s2);
    HookOutwards(c, s, f, j, s1, ref1, o, s2);
  }

  lemma {:induction false} HookOutwards(c: Config, s: State, f: Entry, j: nat, s1: State, ref1: nat, o: Outcome, s2: State)
    requires Enters(c, s, f) && f.h < |c.hooks[f.i]| && AllPassOn(c) && f.i <= j <= |c.hooks| && Valid(c, s2)
    requires (s1, ref1) == Handed(Log(s, Enter(f.i, f.h)), f.ref, c.hooks[f.i][f.h].decide(s.pool[f.ref], []))
    requires Enters(c, s1, Entry(f.i, f.h + 1, ref1)) && SameProspects(c, s, f, s1, Entry(f.i, f.h + 1, ref1))
    requires Exact(c, s1, Entry(f.i, f.h + 1, ref1), j, o, s2)
    ensures Exact(c, s, f, j, o, Log(s2, Exit(f.i, f.h)))
  {
    var t := Log(s2, Exit(f.i, f.h));
    HookLocal(c, s, f, s1, ref1, s2);
    assert t.trace == s.trace + ([Enter(f.i, f.h)] + Script(c, f.i, f.h + 1, j) + [Exit(f.i, f.h)]);
    if j == |c.hooks| {
      var f1 := Entry(f.i, f.h + 1, ref1);
      assert Wanted(c, s1, f1) == Wanted(c, s, f);
    }
  }

  lemma {:induction false} HookLocal(c: Config, s: State, f: Entry, s1: State, ref1: nat, s2: State)
    requires Enters(c, s, f) && f.h < |c.hooks[f.i]| && AllPassOn(c) && Valid(c, s2)
    requires (s1, ref1) == Handed(Log(s, Enter(f.i, f.h)), f.ref, c.hooks[f.i][f.h].decide(s.pool[f.ref], []))
    requires Enters(c, s1, Entry(f.i, f.h + 1, ref1)) && Local(c, s1, Entry(f.i, f.h + 1, ref1), s2)
    ensures Local(c, s, f, Log(s2, Exit(f.i, f.h)))
  {}

  /** The state a body hands to the next builder. */
  lemma {:induction false} FillingKeepsProspects(c: Config, s: State, f: Entry, s1: State)
    requires Enters(c, s, f) && f.h == |c.hooks[f.i]| && f.i < |c.hooks| - 1 && s1 == Filled(f.i, f.ref, s)
    ensures Enters(c, s1, Entry(f.i + 1, 0, s1.cur[f.i + 1]))
    ensures SameProspects(c, s, f, s1, Entry(f.i + 1, 0, s1.cur[f.i + 1]))
    ensures Wanted(c, s1, Entry(f.i + 1, 0, s1.cur[f.i + 1])) == Wanted(c, s, f)
  {}

  lemma {:induction false} LastIsExact(c: Config, s: State, f: Entry)
    requires Enters(c, s, f) && f.h == |c.hooks[f.i]| && f.i == |c.hooks| - 1 && Refusal(c, s, f, f.i).None?
    ensures var (o, t) := Body(c, f.i, f.ref, s); Exact(c, s, f, |c.hooks|, o, t)
  {
    var s1 := Filled(f.i, f.ref, s);
    assert Wanted(c, s, f) == s1.specs;
    var (e, s2) := WriteBatch(c, s1);
    assert s2.trace == s.trace + Script(c, f.i, f.h, |c.hooks|);
    assert s2.nodes[..f.i] == s.nodes[..f.i];
    if e.None? { FinishIsExact(c, s, f, s2); }
  }

  lemma {:induction false} BodyIsExact(c: Config, s: State, f: Entry, j: nat)
    requires Enters(c, s, f) && f.h == |c.hooks[f.i]| && f.i < |c.hooks| - 1 && f.i < j
    requires AllPassOn(c) && FirstRefused(c, s, f, j)
    ensures var (o, t) := Body(c, f.i, f.ref, s); Exact(c, s, f, j, o, t)
    decreases |c.hooks| - f.i, 0, 0
  {
    assert Refusal(c, s, f, f.i).None?;
    var s1 := Filled(f.i, f.ref, s);
    var f1 := Entry(f.i + 1, 0, s1.cur[f.i + 1]);
    FillingKeepsProspects(c, s, f, s1);
    SameFirstRefused(c, s, f, s1, f1, j);
    ChainIsExact(c, s1, f1, j);
    var (o, s2) := Mutate(c, f1.i, 0, f1.ref, s1);
    BodyOutwards(c, s, f, j, s1, f1, o, s2);
    assert Body(c, f.i, f.ref, s) == if o.Failed? then (o, s2) else Finished(f.i, f.ref, s2);
  }

  lemma {:induction false} BodyOutwards(c: Config, s: State, f: Entry, j: nat, s1: State, f1: Entry, o: Outcome, s2: State)
    requires Enters(c, s, f) && f.h == |c.hooks[f.i]| && f.i < |c.hooks| - 1 && f.i < j <= |c.hooks|
    requires s1 == Filled(f.i, f.ref, s) && Valid(c, s2) && f1 == Entry(f.i + 1, 0, s1.cur[f.i + 1])
    requires Enters(c, s1, f1) && SameProspects(c, s, f, s1, f1) && Wanted(c, s1, f1) == Wanted(c, s, f)
    requires Exact(c, s1, f1, j, o, s2)
    ensures o.Failed? ==> Exact(c, s, f, j, o, s2)
    ensures o.Saved? ==> Exact(c, s, f, j, Finished(f.i, f.ref, s2).0, Finished(f.i, f.ref, s2).1)
  {
    BodyLocal(c, s, f, s1, s2);
    assert s2.trace == s.trace + ([Fill(f.i)] + Script(c, f.i + 1, 0, j));
    if o.Saved? { FinishIsExact(c, s, f, s2); }
  }

  lemma {:induction false} BodyLocal(c: Config, s: State, f: Entry, s1: State, s2: State)
    requires Enters(c, s, f) && f.i < |c.hooks| - 1 && s1 == Filled(f.i, f.ref, s) && Valid(c, s2)
    requires Enters(c, s1, Entry(f.i + 1, 0, s1.cur[f.i + 1])) && Local(c, s1, Entry(f.i + 1, 0, s1.cur[f.i + 1]), s2)
    ensures Local(c, s, f, s2)
    ensures s2.cur[f.i] == f.ref && s2.pool[f.ref] == s.pool[f.ref] && s2.nodes[f.i] == s1.nodes[f.i]
    ensures forall k :: f.i < k < |s.cur| ==> s2.cur[k] != f.ref
  {
    assert s2.cur[f.i] == s2.cur[..f.i + 1][f.i] == s1.cur[..f.i + 1][f.i];
    assert s2.nodes[f.i] == s2.nodes[..f.i + 1][f.i] == s1.nodes[..f.i + 1][f.i];
    assert s2.nodes[..f.i] == s2.nodes[..f.i + 1][..f.i];
    assert s2.cur[..f.i] == s2.cur[..f.i + 1][..f.i];
  }

  /** Settling builder i after a stored batch completes the picture. */
  lemma {:induction false} FinishIsExact(c: Config, s: State, f: Entry, s2: State)
    requires Enters(c, s, f) && f.h == |c.hooks[f.i]| && Valid(c, s2) && Local(c, s, f, s2)
    requires s2.cur[f.i] == f.ref && s2.pool[f.ref] == s.pool[f.ref]
    requires s2.nodes[f.i] == Filled(f.i, f.ref, s).nodes[f.i]
    requires forall k :: f.i < k < |s.cur| ==> s2.cur[k] != f.ref
    requires s2.writes == s.writes + [Wanted(c, s, f)]
    requires s2.trace == s.trace + Script(c, f.i, f.h, |c.hooks|)
    requires Reply(c, s.table, |s.writes|, Wanted(c, s, f)).Ok?
    requires var w := Wanted(c, s, f);
             var batch := Reply(c, s.table, |s.writes|, w).value;
             && s2.table == batch.table
             && s2.specs == seq(|c.hooks|, k requires 0 <= k < |c.hooks| =>
                                  Some(Spec(Some(batch.ids[k]), Batched(w)[k].fields)))
             && forall k :: f.i < k < |c.hooks| ==> SettledAs(c, s2, k, Kept(c, s, f, k), batch.ids[k])
    ensures var (o, t) := Finished(f.i, f.ref, s2); Exact(c, s, f, |c.hooks|, o, t)
  {
    var w := Wanted(c, s, f);
    var batch := Reply(c, s.table, |s.writes|, w).value;
    var m := s.pool[f.ref];
    assert Kept(c, s, f, f.i) == m && w[f.i] == Some(SpecOf(m));
    if m.id.Some? {
      ExplicitIdsKept(c.rules, s.table, Batched(w), f.i);
    }
    var (o, t) := Finished(f.i, f.ref, s2);
    assert t.nodes[..f.i] == s2.nodes[..f.i];
    assert SettledAs(c, t, f.i, m, batch.ids[f.i]);
    forall k | f.i < k < |c.hooks| ensures SettledAs(c, t, k, Kept(c, s, f, k), batch.ids[k]) {
      assert SettledAs(c, s2, k, Kept(c, s, f, k), batch.ids[k]);
    }
  }

  // ----- whole saves -----

  /** The check of builder k, and the row it asks for, when every hook passes on. */
  ghost function Verdict(c: Config, s: State, k: nat): Option<Error>
    requires Valid(c, s) && k < |c.hooks|
  {
    c.check(Own(c.hooks[k], 0, s.pool[s.cur[k]]).fields)
  }

  ghost function Row(c: Config, s: State, k: nat): Mut
    requires Valid(c, s) && k < |c.hooks|
  {
    Final(c.hooks[k], 0, s.pool[s.cur[k]])
  }

  ghost function Rows(c: Config, s: State): (w: seq<Option<Spec>>)
    requires Valid(c, s)
    ensures |w| == |c.hooks| && forall k :: 0 <= k < |w| ==> w[k] == Some(SpecOf(Row(c, s, k)))
  {
    seq(|c.hooks|, k requires 0 <= k < |c.hooks| => Some(SpecOf(Row(c, s, k))))
  }

  /** j is the least builder whose own mutation is refused, or the number of builders. */
  ghost predicate LeastRefused(c: Config, s: State, j: nat)
    requires Valid(c, s)
  {
    && j <= |c.hooks|
    && (forall k :: 0 <= k < j ==> Verdict(c, s, k).None?)
    && (j < |c.hooks| ==> Verdict(c, s, j).Some?)
  }

  /** A search for the first refused builder always ends. */
  lemma {:induction false} SomeLeastRefused(c: Config, s: State, from: nat) returns (j: nat)
    requires Valid(c, s) && from <= |c.hooks| && forall k :: 0 <= k < from ==> Verdict(c, s, k).None?
    ensures LeastRefused(c, s, j)
    decreases |c.hooks| - from
  {
    if from == |c.hooks| || Verdict(c, s, from).Some? {
      j := from;
    } else {
      j := SomeLeastRefused(c, s, from + 1);
    }
  }

  lemma {:induction false} SaveIsExact(c: Config, s: State, j: nat)
    requires Valid(c, s) && |c.hooks| > 0 && AllPassOn(c) && Distinct(s.cur) && LeastRefused(c, s, j)
    ensures var f := Entry(0, 0, s.cur[0]);
            && Enters(c, s, f)
            && (forall k :: 0 <= k < |c.hooks| ==> Refusal(c, s, f, k) == Verdict(c, s, k) && Kept(c, s, f, k) == Row(c, s, k))
            && Wanted(c, s, f) == Rows(c, s)
            && Exact(c, s, f, j, Mutate(c, 0, 0, s.cur[0], s).0, Mutate(c, 0, 0, s.cur[0], s).1)
  {
    var f := Entry(0, 0, s.cur[0]);
    assert forall k :: 0 <= k < |c.hooks| ==> Refusal(c, s, f, k) == Verdict(c, s, k) && Kept(c, s, f, k) == Row(c, s, k);
    ChainIsExact(c, s, f, j);
  }

  /**
   The error of a bulk save. With hooks that edit or replace the mutation, call next once and
   pass its answer on, the save fails with the check's error of the least builder whose own
   mutation is refused, writing nothing; if none is refused, the single batch holds every
   final mutation in builder order and the store's answer decides. The trace is fixed too.
   */
  lemma {:induction false} SaveReportsFirstRefusal(c: Config, s: State, j: nat)
    requires Valid(c, s) && |c.hooks| > 0 && AllPassOn(c) && Distinct(s.cur) && LeastRefused(c, s, j)
    ensures var (r, t) := Save(c, s);
            && t.trace == s.trace + Script(c, 0, 0, j)
            && if j < |c.hooks| then
                 r == Err(Verdict(c, s, j).value) && t.table == s.table && t.writes == s.writes
               else
                 && t.writes == s.writes + [Rows(c, s)]
                 && match Reply(c, s.table, |s.writes|, Rows(c, s))
                    case Err(e) => r == Err(e) && t.table == s.table
                    case Ok(batch) =>
                      r.Ok? && t.table == batch.table
                      && forall k :: 0 <= k < |c.hooks| ==> SettledAs(c, t, k, Row(c, s, k), batch.ids[k])
  {
    SaveIsExact(c, s, j);
  }

  /**
   Which rows go unchecked: with such hooks row k of a batch is one its check refuses exactly
   when the builder's own mutation passes and the final one, after a replacement, does not.
   */
  lemma {:induction false} UncheckedRows(c: Config, s: State, k: nat)
    requires Valid(c, s) && AllPassOn(c) && Distinct(s.cur) && k < |c.hooks|
    requires Save(c, s).1.writes != s.writes
    ensures var w := Save(c, s).1.writes;
            && |w| == |s.writes| + 1 && w[|s.writes|] == Rows(c, s)
            && (c.check(w[|s.writes|][k].value.fields).Some? <==>
                Verdict(c, s, k).None? && c.check(Row(c, s, k).fields).Some?)
  {
    var j := SomeLeastRefused(c, s, 0);
    SaveReportsFirstRefusal(c, s, j);
  }

  /**
   The error of a save whose checks all pass: a constraint error exactly when the store reports a
   violation, and any other error of the store as it is.
   */
  lemma {:induction false} ConstraintMeansViolation(c: Config, s: State)
    requires Valid(c, s) && |c.hooks| > 0 && AllPassOn(c) && Distinct(s.cur) && LeastRefused(c, s, |c.hooks|)
    requires Save(c, s).0.Err?
    ensures var error, outage := Save(c, s).0.error, c.outage(|s.writes|);
            && (outage.None? ==> InsertAll(c.rules, s.table, Batched(Rows(c, s))).Err? && error.Constraint?)
            && (outage.Some? && outage.value.Violation? ==> error.Constraint?)
            && (outage.Some? && !outage.value.Violation? ==> error == outage.value)
  {
    SaveReportsFirstRefusal(c, s, |c.hooks|);
    RefusalsAreViolations(c.rules, s.table, Batched(Rows(c, s)));
  }
}
