/**
 What holds of every bulk save, whatever its hooks do: the hooks of builder i stay open
 while builder i + 1 runs, and no batch with a missing slot is ever written.
 */
module BulkNesting {
  import opened Prelude
  import opened Store
  import opened BulkChain

  // ----- nesting -----

  /** A hook frame: builder and hook number. */
  type Frame = (nat, nat)

  /** Every hook of the builders before i, then the first h hooks of builder i, outermost first. */
  ghost function Tower(c: Config, i: nat, h: nat): seq<Frame>
    requires i < |c.hooks| && h <= |c.hooks[i]|
    decreases i, h
  {
    if h > 0 then Tower(c, i, h - 1) + [(i, h - 1)]
    else if i > 0 then Tower(c, i - 1, |c.hooks[i - 1]|)
    else []
  }

  /** The frames open after an event; none when an exit does not close the innermost frame. */
  ghost function After(stack: seq<Frame>, e: Event): Option<seq<Frame>> {
    match e
    case Enter(i, h) => Some(stack + [(i, h)])
    case Exit(i, h) =>
      if stack != [] && stack[|stack| - 1] == (i, h) then Some(stack[..|stack| - 1]) else None
    case Fill(_) => Some(stack)
    case Write => Some(stack)
  }

  /** The frames open after a whole trace. */
  ghost function Open(trace: seq<Event>): Option<seq<Frame>> {
    if trace == [] then
      Some([])
    else
      match Open(trace[..|trace| - 1])
      case None => None
      case Some(stack) => After(stack, trace[|trace| - 1])
  }

  /** The frames that must be open when an event happens. */
  ghost predicate Placed(c: Config, e: Event, stack: seq<Frame>) {
    match e
    case Enter(i, h) => i < |c.hooks| && h < |c.hooks[i]| && stack == Tower(c, i, h)
    case Exit(i, h) => i < |c.hooks| && h < |c.hooks[i]| && stack == Tower(c, i, h + 1)
    case Fill(i) => i < |c.hooks| && stack == Tower(c, i, |c.hooks[i]|)
    case Write => |c.hooks| > 0 && stack == Tower(c, |c.hooks| - 1, |c.hooks[|c.hooks| - 1]|)
  }

  /** Every event of the trace happens with exactly the frames open that its place demands. */
  ghost predicate Nested(c: Config, trace: seq<Event>) {
    trace == [] ||
    var before := trace[..|trace| - 1];
    Nested(c, before) && Open(before).Some? && Placed(c, trace[|trace| - 1], Open(before).value)
  }

  /** The same, position by position. */
  lemma {:induction false} NestedAt(c: Config, trace: seq<Event>, k: nat)
    requires Nested(c, trace) && k < |trace|
    ensures Open(trace[..k]).Some? && Placed(c, trace[k], Open(trace[..k]).value)
    decreases |trace|
  {
    if k < |trace| - 1 {
      NestedAt(c, trace[..|trace| - 1], k);
      assert trace[..|trace| - 1][..k] == trace[..k];
    }
  }

  ghost predicate At(c: Config, s: State, i: nat, h: nat)
    requires i < |c.hooks| && h <= |c.hooks[i]|
  {
    Nested(c, s.trace) && Open(s.trace) == Some(Tower(c, i, h))
  }

  lemma {:induction false} Step(c: Config, s: State, i: nat, h: nat, e: Event, i1: nat, h1: nat)
    requires i < |c.hooks| && h <= |c.hooks[i]| && i1 < |c.hooks| && h1 <= |c.hooks[i1]|
    requires At(c, s, i, h) && Placed(c, e, Tower(c, i, h))
    requires After(Tower(c, i, h), e) == Some(Tower(c, i1, h1))
    ensures At(c, Log(s, e), i1, h1)
  {}

  lemma {:induction false} MutateNests(c: Config, i: nat, h: nat, ref: nat, s: State)
    requires i < |c.hooks| && h <= |c.hooks[i]| && Valid(c, s) && ref < |s.pool|
    requires At(c, s, i, h)
    ensures At(c, Mutate(c, i, h, ref, s).1, i, h)
    decreases |c.hooks| - i, |c.hooks[i]| - h, 2, 0
  {
    if h < |c.hooks[i]| {
      assert Tower(c, i, h + 1) == Tower(c, i, h) + [(i, h)];
      Step(c, s, i, h, Enter(i, h), i, h + 1);
      var s0 := Log(s, Enter(i, h));
      HookNests(c, i, h, ref, [], s0);
      var s1 := RunHook(c, i, h, ref, [], s0).1;
      Step(c, s1, i, h + 1, Exit(i, h), i, h);
    } else {
      BodyNests(c, i, ref, s);
    }
  }

  lemma {:induction false} HookNests(c: Config, i: nat, h: nat, ref: nat, past: seq<Outcome>, s: State)
    requires i < |c.hooks| && h < |c.hooks[i]| && Valid(c, s) && ref < |s.pool|
    requires |past| <= c.hooks[i][h].calls
    requires At(c, s, i, h + 1)
    ensures At(c, RunHook(c, i, h, ref, past, s).1, i, h + 1)
    decreases |c.hooks| - i, |c.hooks[i]| - h, 1, c.hooks[i][h].calls - |past|
  {
    var hook := c.hooks[i][h];
    if |past| < hook.calls && hook.decide(s.pool[ref], past).Call? {
      var (s1, ref1) := Handed(s, ref, hook.decide(s.pool[ref], past));
      MutateNests(c, i, h + 1, ref1, s1);
      var (o, s2) := Mutate(c, i, h + 1, ref1, s1);
      HookNests(c, i, h, ref, past + [o], s2);
    }
  }

  lemma {:induction false} BodyNests(c: Config, i: nat, ref: nat, s: State)
    requires i < |c.hooks| && Valid(c, s) && ref < |s.pool|
    requires At(c, s, i, |c.hooks[i]|)
    ensures At(c, Body(c, i, ref, s).1, i, |c.hooks[i]|)
    decreases |c.hooks| - i, 0, 0, 0
  {
    if c.check(s.pool[s.cur[i]].fields).None? {
      Step(c, s, i, |c.hooks[i]|, Fill(i), i, |c.hooks[i]|);
      var s1 := Filled(i, ref, s);
      if i < |c.hooks| - 1 {
        MutateNests(c, i + 1, 0, s1.cur[i + 1], s1);
      } else {
        Step(c, s1, i, |c.hooks[i]|, Write, i, |c.hooks[i]|);
      }
    }
  }

  // ----- complete batches -----

  /** A batch with no empty slot. */
  ghost predicate Complete(w: seq<Option<Spec>>) {
    forall k :: 0 <= k < |w| ==> w[k].Some?
  }

  /**
   What the frames from builder i on may do to the slots before i: nothing, except that a
   batch insert stores ids in the specs. Every batch they write carries those slots.
   */
  ghost predicate Within(c: Config, i: nat, s: State, t: State)
    requires i <= |c.hooks| && Valid(c, s) && Valid(c, t)
  {
    && |s.pool| <= |t.pool|
    && t.cur[..i] == s.cur[..i]
    && t.nodes[..i] == s.nodes[..i]
    && s.writes <= t.writes
    && (Complete(s.specs[..i]) ==>
          && SameRows(t.specs[..i], s.specs[..i])
          && forall k :: |s.writes| <= k < |t.writes| ==>
               |t.writes[k]| == |c.hooks| && Complete(t.writes[k]) && SameRows(t.writes[k][..i], s.specs[..i]))
  }

  /** Equal up to the ids the store assigned. */
  ghost predicate SameRows(a: seq<Option<Spec>>, b: seq<Option<Spec>>) {
    |a| == |b| && forall k :: 0 <= k < |a| ==> a[k].Some? && b[k].Some? && a[k].value.fields == b[k].value.fields
  }

  lemma {:induction false} WithinTrans(c: Config, i: nat, s: State, t: State, u: State)
    requires i <= |c.hooks| && Valid(c, s) && Valid(c, t) && Valid(c, u)
    requires Within(c, i, s, t) && Within(c, i, t, u)
    ensures Within(c, i, s, u)
  {}

  lemma {:induction false} MutateWithin(c: Config, i: nat, h: nat, ref: nat, s: State)
    requires i < |c.hooks| && h <= |c.hooks[i]| && Valid(c, s) && ref < |s.pool|
    ensures Within(c, i, s, Mutate(c, i, h, ref, s).1)
    decreases |c.hooks| - i, |c.hooks[i]| - h, 2, 0
  {
    if h < |c.hooks[i]| {
      HookWithin(c, i, h, ref, [], Log(s, Enter(i, h)));
    } else {
      BodyWithin(c, i, ref, s);
    }
  }

  lemma {:induction false} HookWithin(c: Config, i: nat, h: nat, ref: nat, past: seq<Outcome>, s: State)
    requires i < |c.hooks| && h < |c.hooks[i]| && Valid(c, s) && ref < |s.pool|
    requires |past| <= c.hooks[i][h].calls
    ensures Within(c, i, s, RunHook(c, i, h, ref, past, s).1)
    decreases |c.hooks| - i, |c.hooks[i]| - h, 1, c.hooks[i][h].calls - |past|
  {
    var hook := c.hooks[i][h];
    if |past| < hook.calls && hook.decide(s.pool[ref], past).Call? {
      var (s1, ref1) := Handed(s, ref, hook.decide(s.pool[ref], past));
      MutateWithin(c, i, h + 1, ref1, s1);
      var (o, s2) := Mutate(c, i, h + 1, ref1, s1);
      HookWithin(c, i, h, ref, past + [o], s2);
      assert Within(c, i, s, s2);
      WithinTrans(c, i, s, s2, RunHook(c, i, h, ref, past + [o], s2).1);
    }
  }

  lemma {:induction false} WriteWithin(c: Config, s: State)
    requires |c.hooks| > 0 && Valid(c, s)
    ensures Within(c, |c.hooks|, s, WriteBatch(c, s).1)
  {}

  /** A frame of builder i fills slot i only, so the slots before it are as the inner frames left them. */
  lemma {:induction false} Narrow(c: Config, i: nat, s: State, s1: State, s2: State, t: State)
    requires i < |c.hooks| && Valid(c, s) && Valid(c, s1) && Valid(c, s2) && Valid(c, t)
    requires s1.specs[..i] == s.specs[..i] && s1.specs[i].Some?
    requires s1.nodes[..i] == s.nodes[..i] && s1.cur[..i] == s.cur[..i]
    requires s1.writes == s.writes && |s1.pool| == |s.pool|
    requires Within(c, i + 1, s1, s2)
    requires t.specs == s2.specs && t.writes == s2.writes && t.cur == s2.cur
    requires t.nodes[..i] == s2.nodes[..i] && |t.pool| == |s2.pool|
    ensures Within(c, i, s, t)
  {}

  lemma {:induction false} BodyWithin(c: Config, i: nat, ref: nat, s: State)
    requires i < |c.hooks| && Valid(c, s) && ref < |s.pool|
    ensures Within(c, i, s, Body(c, i, ref, s).1)
    decreases |c.hooks| - i, 0, 0, 1
  {
    if c.check(s.pool[s.cur[i]].fields).None? {
      var s1 := Filled(i, ref, s);
      InnerWithin(c, i, s1);
      Narrow(c, i, s, s1, Inner(c, i, s1).1, Body(c, i, ref, s).1);
    }
  }

  lemma {:induction false} InnerWithin(c: Config, i: nat, s: State)
    requires i < |c.hooks| && Valid(c, s)
    ensures Within(c, i + 1, s, Inner(c, i, s).1)
    decreases |c.hooks| - i, 0, 0, 0
  {
    if i < |c.hooks| - 1 {
      MutateWithin(c, i + 1, 0, s.cur[i + 1], s);
    } else {
      WriteWithin(c, s);
    }
  }
}
