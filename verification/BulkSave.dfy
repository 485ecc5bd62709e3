/**
 `CreateBulk.Save` on objects: builders that point to mutation objects, and the two slices
 of nodes and specs filled in place. Every method is proved equal to its counterpart in
 `BulkChain`, whose runs the other modules reason about.
 */
module BulkSave {
  import opened Prelude
  import opened Store
  import opened BulkChain
  import opened BulkSafety

  class Mutation {
    var fields: Fields
    var id: Option<int>
    var done: bool

    constructor (fields: Fields, id: Option<int>)
      ensures this.fields == fields && this.id == id && !done
    {
      this.fields, this.id, this.done := fields, id, false;
    }

    function View(): Mut
      reads this
    {
      Mut(fields, id, done)
    }
  }

  class Builder {
    var mutation: Mutation
    const hooks: seq<Hook>

    constructor (fields: Fields, id: Option<int>, hooks: seq<Hook>)
      ensures fresh(mutation) && mutation.View() == Mut(fields, id, false) && this.hooks == hooks
    {
      mutation := new Mutation(fields, id);
      this.hooks := hooks;
    }
  }

  /** One run of `Save`: the builders, the database and the slices the closures share. */
  class Run {
    /** The error an earlier call of the client left behind. */
    const err: Option<Error>
    const builders: seq<Builder>
    const check: Fields -> Option<Error>
    const defaults: Defaults
    const rules: Rules
    const outage: nat -> Option<Error>
    const specs: array<Option<Spec>>
    const nodes: array<Option<Node>>
    var table: Table
    /** The batches sent to the database so far. */
    var writes: seq<seq<Option<Spec>>>

    /** Every mutation object seen so far, and the place of each builder's one in it. */
    ghost var pool: seq<Mutation>
    ghost var cur: seq<nat>
    ghost var trace: seq<Event>

    ghost function Repr(): set<object>
      reads this
    {
      {this, specs, nodes} + (set b | b in builders) + (set m | m in pool)
    }

    ghost predicate OK()
      reads this, Repr()
    {
      && specs.Length == nodes.Length == |builders| == |cur|
      && (forall j, k :: 0 <= j < k < |builders| ==> builders[j] != builders[k])
      && (forall j, k :: 0 <= j < k < |pool| ==> pool[j] != pool[k])
      && (forall k :: 0 <= k < |cur| ==> cur[k] < |pool| && builders[k].mutation == pool[cur[k]])
    }

    ghost function Fixed(): Config
    {
      Config(check, seq(|builders|, k requires 0 <= k < |builders| => builders[k].hooks), rules, outage)
    }

    ghost function View(): (s: State)
      reads this, Repr()
      requires OK()
      ensures Valid(Fixed(), s)
    {
      State(Muts(pool), cur, nodes[..], specs[..], table, writes, trace)
    }

    static ghost function Muts(pool: seq<Mutation>): (r: seq<Mut>)
      reads pool
      ensures |r| == |pool| && forall k :: 0 <= k < |pool| ==> r[k] == pool[k].View()
    {
      seq(|pool|, k requires 0 <= k < |pool| reads pool => pool[k].View())
    }

    constructor (err: Option<Error>, builders: seq<Builder>, check: Fields -> Option<Error>, defaults: Defaults,
                 rules: Rules, outage: nat -> Option<Error>, table: Table)
      requires forall j, k :: 0 <= j < k < |builders| ==> builders[j] != builders[k]
      requires forall j, k :: 0 <= j < k < |builders| ==> builders[j].mutation != builders[k].mutation
      ensures OK() && this.err == err && this.builders == builders && this.check == check && this.defaults == defaults
      ensures this.rules == rules && this.outage == outage
      ensures fresh(specs) && fresh(nodes)
      ensures |pool| == |builders| && forall k :: 0 <= k < |builders| ==> pool[k] == builders[k].mutation
      ensures View() == State(Muts(seq(|builders|, k requires 0 <= k < |builders| reads builders => builders[k].mutation)),
                              seq(|builders|, k => k),
                              seq(|builders|, _ => None), seq(|builders|, _ => None), table, [], [])
    {
      this.err, this.builders, this.check, this.defaults := err, builders, check, defaults;
      this.rules, this.outage, this.table := rules, outage, table;
      specs := new Option<Spec>[|builders|](_ => None);
      nodes := new Option<Node>[|builders|](_ => None);
      pool := seq(|builders|, k requires 0 <= k < |builders| reads builders => builders[k].mutation);
      cur := seq(|builders|, k => k);
      writes, trace := [], [];
      new;
      assert specs[..] == seq(|builders|, _ => None);
      assert nodes[..] == seq(|builders|, _ => None);
    }

    /** The loop that fills in the defaults of every builder before the chain starts. */
    method ApplyDefaults()
      requires OK()
      modifies set m | m in pool
      ensures OK()
      ensures View() == old(View()).(pool := WithDefaults(defaults, old(View().pool), cur))
    {
      ghost var start := View().pool;
      ghost var before := View();
      for i := 0 to |builders|
        invariant OK()
        invariant WithDefaults(defaults, View().pool, cur[i..]) == WithDefaults(defaults, start, cur)
        invariant View() == before.(pool := View().pool)
      {
        ghost var now := View().pool;
        builders[i].mutation.fields := defaults(builders[i].mutation.fields);
        assert View().pool == now[cur[i] := now[cur[i]].(fields := defaults(now[cur[i]].fields))];
        assert cur[i..][1..] == cur[i + 1..];
      }
    }

    ghost method Record(e: Event)
      requires OK()
      modifies this`trace
      ensures OK() && View() == Log(old(View()), e)
    {
      trace := trace + [e];
    }

    /** A hook's edit, in place or on a new mutation object. */
    method HandOn(m: Mutation, ghost ref: nat, move: Move) returns (m1: Mutation, ghost ref1: nat)
      requires OK() && ref < |pool| && pool[ref] == m && move.Call?
      modifies this`pool, m
      ensures OK() && ref1 < |pool| && pool[ref1] == m1 && old(pool) <= pool
      ensures fresh(Repr() - old(Repr()))
      ensures (View(), ref1) == Handed(old(View()), ref, move)
    {
      ghost var before := View();
      if move.replace {
        m1 := new Mutation(move.fields, move.id);
        ref1 := |pool|;
        pool := pool + [m1];
        assert View().pool == before.pool + [Mut(move.fields, move.id, false)];
      } else {
        m.fields, m.id := move.fields, move.id;
        m1, ref1 := m, ref;
        assert View().pool == before.pool[ref := before.pool[ref].(fields := move.fields, id := move.id)];
      }
    }

    /** `builder.mutation = mutation; nodes[i], specs[i] = builder.createSpec()`. */
    method FillSlot(i: nat, m: Mutation, ghost ref: nat)
      requires OK() && i < |builders| && ref < |pool| && pool[ref] == m
      modifies this`cur, this`trace, builders[i], specs, nodes
      ensures OK() && View() == Filled(i, ref, old(View()))
    {
      ghost var before := View();
      builders[i].mutation := m;
      cur := cur[i := ref];
      nodes[i] := Some(Node(if m.id.Some? then m.id.value else 0, m.fields));
      specs[i] := Some(Spec(m.id, m.fields));
      Record(Fill(i));
      assert nodes[..] == before.nodes[i := Some(Node(if m.id.Some? then m.id.value else 0, m.fields))];
      assert specs[..] == before.specs[i := Some(Spec(m.id, m.fields))];
    }

    /** The ids the database assigned, written back into the specs. */
    method KeepIds(ids: seq<int>)
      requires OK() && |ids| == specs.Length
      modifies specs
      ensures OK() && View() == old(View()).(specs := View().specs)
      ensures |specs[..]| == |old(specs[..])|
      ensures forall k :: 0 <= k < specs.Length ==>
                specs[k] == Some(Spec(Some(ids[k]), Batched(old(specs[..]))[k].fields))
    {
      var batch := Batched(specs[..]);
      for k := 0 to specs.Length
        invariant forall j :: 0 <= j < k ==> specs[j] == Some(Spec(Some(ids[j]), batch[j].fields))
      {
        specs[k] := Some(Spec(Some(ids[k]), batch[k].fields));
      }
    }

    /** The single batch insert; on success the assigned ids end up in the specs. */
    method BatchCreate() returns (e: Option<Error>)
      requires OK()
      modifies this`table, this`writes, this`trace, specs
      ensures OK() && (e, View()) == WriteBatch(Fixed(), old(View()))
    {
      ghost var before := View();
      e := outage(|writes|);
      writes := writes + [specs[..]];
      Record(Write);
      if e.Some? {
        e := Some(Wrap(e.value));
        assert View().pool == before.pool;
      } else {
        match InsertAll(rules, table, Batched(specs[..]))
        case Err(refused) =>
          e := Some(Wrap(refused));
          assert View().pool == before.pool;
        case Ok(stored) =>
          table := stored.table;
          KeepIds(stored.ids);
          assert View().specs == WriteBatch(Fixed(), before).1.specs;
          assert View().pool == before.pool;
      }
    }

    /** What a body does after its inner call succeeded: ids into node and mutation, `done`. */
    method Finish(i: nat, m: Mutation, ghost ref: nat) returns (o: Outcome)
      requires OK() && i < |builders| && ref < |pool| && pool[ref] == m
      modifies m, nodes
      ensures OK() && (o, View()) == Finished(i, ref, old(View()))
    {
      ghost var before := View();
      var node := if nodes[i].Some? then nodes[i].value else Node(0, map[]);
      if specs[i].Some? && specs[i].value.id.Some? && node.id == 0 {
        node := node.(id := specs[i].value.id.value);
      }
      nodes[i] := Some(node);
      m.id, m.done := Some(node.id), true;
      o := Saved(node);
      assert nodes[..] == before.nodes[i := Some(node)];
      assert View().pool == before.pool[ref := before.pool[ref].(id := Some(node.id), done := true)];
    }

    /** `mutators[i].Mutate`, entered at hook h. */
    method Mutate(i: nat, h: nat, m: Mutation, ghost ref: nat) returns (o: Outcome)
      requires OK() && i < |builders| && h <= |builders[i].hooks| && ref < |pool| && pool[ref] == m
      modifies Repr()
      ensures OK() && fresh(Repr() - old(Repr())) && old(pool) <= pool
      ensures (o, View()) == BulkChain.Mutate(Fixed(), i, h, ref, old(View()))
      decreases |builders| - i, |builders[i].hooks| - h, 2, 0
    {
      if h < |builders[i].hooks| {
        Record(Enter(i, h));
        o := RunHook(i, h, m, ref, []);
        Record(Exit(i, h));
      } else {
        o := Body(i, m, ref);
      }
    }

    method RunHook(i: nat, h: nat, m: Mutation, ghost ref: nat, past: seq<Outcome>) returns (o: Outcome)
      requires OK() && i < |builders| && h < |builders[i].hooks| && ref < |pool| && pool[ref] == m
      requires |past| <= builders[i].hooks[h].calls
      modifies Repr()
      ensures OK() && fresh(Repr() - old(Repr())) && old(pool) <= pool
      ensures (o, View()) == BulkChain.RunHook(Fixed(), i, h, ref, past, old(View()))
      decreases |builders| - i, |builders[i].hooks| - h, 1, builders[i].hooks[h].calls - |past|
    {
      var hook := builders[i].hooks[h];
      if |past| == hook.calls {
        return hook.last(past);
      }
      var move := hook.decide(m.View(), past);
      if move.Answer? {
        return move.outcome;
      }
      var answer := CallNext(i, h, m, ref, move);
      o := RunHook(i, h, m, ref, past + [answer]);
    }

    /** One call a hook makes to the mutator it wraps. */
    method CallNext(i: nat, h: nat, m: Mutation, ghost ref: nat, move: Move) returns (answer: Outcome)
      requires OK() && i < |builders| && h < |builders[i].hooks| && ref < |pool| && pool[ref] == m
      requires move.Call?
      modifies Repr()
      ensures OK() && fresh(Repr() - old(Repr())) && old(pool) <= pool
      ensures var (s1, ref1) := Handed(old(View()), ref, move);
              (answer, View()) == BulkChain.Mutate(Fixed(), i, h + 1, ref1, s1)
      decreases |builders| - i, |builders[i].hooks| - h, 0, 0
    {
      var m1, ref1 := HandOn(m, ref, move);
      answer := Mutate(i, h + 1, m1, ref1);
    }

    /** The innermost mutator of builder i. */
    method Body(i: nat, m: Mutation, ghost ref: nat) returns (o: Outcome)
      requires OK() && i < |builders| && ref < |pool| && pool[ref] == m
      modifies Repr()
      ensures OK() && fresh(Repr() - old(Repr())) && old(pool) <= pool
      ensures (o, View()) == BulkChain.Body(Fixed(), i, ref, old(View()))
      decreases |builders| - i, 0, 0, 1
    {
      var refused := check(builders[i].mutation.fields);
      if refused.Some? {
        return Failed(refused.value);
      }
      FillSlot(i, m, ref);
      var e := Inner(i);
      if e.Some? {
        return Failed(e.value);
      }
      o := Finish(i, m, ref);
    }

    /** The call inside a body: the next builder's mutator, or the batch insert in the last one. */
    method Inner(i: nat) returns (e: Option<Error>)
      requires OK() && i < |builders|
      modifies Repr()
      ensures OK() && fresh(Repr() - old(Repr())) && old(pool) <= pool
      ensures (e, View()) == BulkChain.Inner(Fixed(), i, old(View()))
      decreases |builders| - i, 0, 0, 0
    {
      if i < |builders| - 1 {
        var o := Mutate(i + 1, 0, builders[i + 1].mutation, cur[i + 1]);
        e := if o.Failed? then Some(o.error) else None;
      } else {
        e := BatchCreate();
      }
    }

    /** `CreateBulk.Save`. */
    method Save() returns (r: Result<seq<Option<Node>>, Error>)
      requires OK()
      modifies Repr()
      ensures OK() && fresh(Repr() - old(Repr()))
      ensures err.Some? ==> r == Err(err.value) && View() == old(View())
      ensures err.None? ==>
                (r, View()) == BulkSafety.Save(Fixed(), old(View()).(pool := WithDefaults(defaults, old(View().pool), old(cur))))
    {
      if err.Some? {
        return Err(err.value);
      }
      ApplyDefaults();
      if |builders| == 0 {
        return Ok(nodes[..]);
      }
      var o := Mutate(0, 0, builders[0].mutation, cur[0]);
      r := if o.Failed? then Err(o.error) else Ok(nodes[..]);
    }
  }
}
