/**
 `CreateBulk.Save` as a chain of continuations, on values.

 Builder i's mutator is a tower of hooks around a body; the body of builder i calls
 the tower of builder i + 1 from inside its own frame, and the last body performs the
 single batch insert. `Mutate`, `RunHook` and `Body` are that chain with the closures
 made explicit: a frame is a pair (i, h) of builder and hook number.
 */
module BulkChain {
  import opened Prelude
  import opened Store

  /** A mutation object: the fields set so far, its id and whether it was saved. */
  datatype Mut = Mut(fields: Fields, id: Option<int>, done: bool)

  /** The node a builder returns. */
  datatype Node = Node(id: int, fields: Fields)

  datatype Outcome = Saved(node: Node) | Failed(error: Error)

  /**
   What a hook does next: call the mutator it wraps, after editing the mutation it was
   given or putting another one in its place, or answer on its own.
   */
  datatype Move =
    | Call(fields: Fields, id: Option<int>, replace: bool)
    | Answer(outcome: Outcome)

  /**
   Any hook that calls its next at most `calls` times: `decide` sees the mutation and the
   answers of the calls so far, `last` gives the answer once the calls are used up.
   */
  datatype Hook = Hook(calls: nat, decide: (Mut, seq<Outcome>) -> Move, last: seq<Outcome> -> Outcome)

  datatype Event = Enter(i: nat, h: nat) | Exit(i: nat, h: nat) | Fill(i: nat) | Write

  /** The parts that do not change during a save. */
  datatype Config = Config(
    check: Fields -> Option<Error>,
    hooks: seq<seq<Hook>>,
    rules: Rules,
    outage: nat -> Option<Error>)

  /**
   Everything a save reads and writes. `pool` holds the mutation objects, `cur[i]` is the one
   builder i points to, `nodes` and `specs` are the two slices filled slot by slot.
   */
  datatype State = State(
    pool: seq<Mut>,
    cur: seq<nat>,
    nodes: seq<Option<Node>>,
    specs: seq<Option<Spec>>,
    table: Table,
    writes: seq<seq<Option<Spec>>>,
    trace: seq<Event>)

  ghost predicate Valid(c: Config, s: State) {
    && |s.cur| == |c.hooks|
    && |s.nodes| == |c.hooks|
    && |s.specs| == |c.hooks|
    && forall k :: 0 <= k < |s.cur| ==> s.cur[k] < |s.pool|
  }

  function Log(s: State, e: Event): State {
    s.(trace := s.trace + [e])
  }

  /** The mutation a hook hands on: the same object edited, or a new one. */
  function Handed(s: State, ref: nat, m: Move): (r: (State, nat))
    requires ref < |s.pool| && m.Call?
    ensures r.1 < |r.0.pool| && |s.pool| <= |r.0.pool|
  {
    if m.replace then
      (s.(pool := s.pool + [Mut(m.fields, m.id, false)]), |s.pool|)
    else
      (s.(pool := s.pool[ref := s.pool[ref].(fields := m.fields, id := m.id)]), ref)
  }

  /** `builder.mutation = mutation` and `createSpec`. */
  function Filled(i: nat, ref: nat, s: State): State
    requires ref < |s.pool| && i < |s.cur| && i < |s.nodes| && i < |s.specs|
  {
    var m := s.pool[ref];
    var id := if m.id.Some? then m.id.value else 0;
    Log(s.(cur := s.cur[i := ref],
           nodes := s.nodes[i := Some(Node(id, m.fields))],
           specs := s.specs[i := Some(Spec(m.id, m.fields))]), Fill(i))
  }

  /** The specs of the batch; a slot nobody filled stands for an empty insert. */
  function Batched(specs: seq<Option<Spec>>): (r: seq<Spec>)
    ensures |r| == |specs|
    ensures forall k :: 0 <= k < |specs| && specs[k].Some? ==> r[k] == specs[k].value
  {
    seq(|specs|, k requires 0 <= k < |specs| => if specs[k].Some? then specs[k].value else Spec(None, map[]))
  }

  /** The batch insert, which also stores the assigned ids in the specs. */
  function WriteBatch(c: Config, s: State): (r: (Option<Error>, State))
    requires Valid(c, s)
    ensures Valid(c, r.1) && r.1.pool == s.pool && r.1.cur == s.cur
  {
    var s1 := Log(s.(writes := s.writes + [s.specs]), Write);
    var outage := c.outage(|s.writes|);
    if outage.Some? then
      (Some(Wrap(outage.value)), s1)
    else
      match InsertAll(c.rules, s.table, Batched(s.specs))
      case Err(e) => (Some(Wrap(e)), s1)
      case Ok(batch) =>
        (None, s1.(table := batch.table,
                   specs := seq(|s.specs|, k requires 0 <= k < |s.specs| =>
                                  Some(Spec(Some(batch.ids[k]), Batched(s.specs)[k].fields)))))
  }

  /** The id the node ends with: the assigned one only when the node has none. */
  function SettledId(spec: Option<Spec>, node: Node): int {
    if spec.Some? && spec.value.id.Some? && node.id == 0 then spec.value.id.value else node.id
  }

  /** What follows a successful inner call: `mutation.id`, the node's id, `mutation.done`. */
  function Finished(i: nat, ref: nat, s: State): (r: (Outcome, State))
    requires ref < |s.pool| && i < |s.nodes| && i < |s.specs|
    ensures |r.1.pool| == |s.pool|
  {
    var node := if s.nodes[i].Some? then s.nodes[i].value else Node(0, map[]);
    var settled := node.(id := SettledId(s.specs[i], node));
    (Saved(settled),
     s.(nodes := s.nodes[i := Some(settled)],
        pool := s.pool[ref := s.pool[ref].(id := Some(settled.id), done := true)]))
  }

  /** `mutators[i].Mutate`, from hook h inwards, on the mutation object `ref`. */
  function Mutate(c: Config, i: nat, h: nat, ref: nat, s: State): (r: (Outcome, State))
    requires i < |c.hooks| && h <= |c.hooks[i]| && Valid(c, s) && ref < |s.pool|
    ensures Valid(c, r.1) && |s.pool| <= |r.1.pool|
    decreases |c.hooks| - i, |c.hooks[i]| - h, 2, 0
  {
    if h < |c.hooks[i]| then
      var (o, s1) := RunHook(c, i, h, ref, [], Log(s, Enter(i, h)));
      (o, Log(s1, Exit(i, h)))
    else
      Body(c, i, ref, s)
  }

  /** Hook h of builder i, after it already got the answers `past` from its next. */
  function RunHook(c: Config, i: nat, h: nat, ref: nat, past: seq<Outcome>, s: State): (r: (Outcome, State))
    requires i < |c.hooks| && h < |c.hooks[i]| && Valid(c, s) && ref < |s.pool|
    requires |past| <= c.hooks[i][h].calls
    ensures Valid(c, r.1) && |s.pool| <= |r.1.pool|
    decreases |c.hooks| - i, |c.hooks[i]| - h, 1, c.hooks[i][h].calls - |past|
  {
    var hook := c.hooks[i][h];
    if |past| == hook.calls then
      (hook.last(past), s)
    else
      match hook.decide(s.pool[ref], past)
      case Answer(o) => (o, s)
      case Call(fields, id, replace) =>
        var (s1, ref1) := Handed(s, ref, Call(fields, id, replace));
        var (o, s2) := Mutate(c, i, h + 1, ref1, s1);
        RunHook(c, i, h, ref, past + [o], s2)
  }

  /** The innermost mutator of builder i. The check reads the builder's mutation, not `ref`. */
  function Body(c: Config, i: nat, ref: nat, s: State): (r: (Outcome, State))
    requires i < |c.hooks| && Valid(c, s) && ref < |s.pool|
    ensures Valid(c, r.1) && |s.pool| <= |r.1.pool|
    decreases |c.hooks| - i, 0, 0, 1
  {
    match c.check(s.pool[s.cur[i]].fields)
    case Some(e) => (Failed(e), s)
    case None =>
      var (e, s1) := Inner(c, i, Filled(i, ref, s));
      if e.Some? then (Failed(e.value), s1) else Finished(i, ref, s1)
  }

  /** What a body calls: the next builder's mutator, or the batch insert in the last one. */
  function Inner(c: Config, i: nat, s: State): (r: (Option<Error>, State))
    requires i < |c.hooks| && Valid(c, s)
    ensures Valid(c, r.1) && |s.pool| <= |r.1.pool|
    decreases |c.hooks| - i, 0, 0, 0
  {
    if i < |c.hooks| - 1 then
      var (o, s1) := Mutate(c, i + 1, 0, s.cur[i + 1], s);
      (if o.Failed? then Some(o.error) else None, s1)
    else
      WriteBatch(c, s)
  }
}
