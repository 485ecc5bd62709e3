/**
 Query objects: builders that change their state in place, clones of them, and the terminal
 calls with the loops that load edges. `View` is the plan a query object stands for.
 */
module QueryBuilder {
  import opened Prelude
  import opened Schema
  import opened QueryPlan

  class QueryContext {
    var limit: Option<int>
    var offset: Option<int>
    var unique: Option<bool>
    var fields: seq<Column>

    constructor ()
      ensures View() == Context(None, None, None, [])
    {
      limit, offset, unique, fields := None, None, None, [];
    }

    function View(): Context
      reads this
    {
      Context(limit, offset, unique, fields)
    }

    method Clone() returns (c: QueryContext)
      ensures fresh(c) && c.View() == View()
    {
      c := new QueryContext();
      c.limit, c.offset, c.unique, c.fields := limit, offset, unique, fields;
    }
  }

  datatype Edge = ToWorkspace | ToOther

  function Target(t: Table, e: Edge): Table {
    match e
    case ToWorkspace => Workspaces
    case ToOther => if t.Broadcasts? then Recipients else if t.Recipients? then Broadcasts else Workspaces
  }

  /** A call on a query builder; `With` attaches a new nested query configured by `ops`. */
  datatype Op =
    | Where(ps: seq<Predicate>)
    | Limit(n: int)
    | Offset(n: int)
    | Unique(b: bool)
    | Order(terms: seq<OrderTerm>)
    | Select(cs: seq<Column>)
    | With(edge: Edge, ops: seq<Op>)
    | Inside(edge: Edge, op: Op)

  function Fresh(t: Table): Plan {
    Plan(t, Context(None, None, None, []), [], [], false, None, None)
  }

  function Nested(p: Plan, e: Edge): Option<Plan> {
    match e
    case ToWorkspace => p.workspace
    case ToOther => p.other
  }

  function Attached(p: Plan, e: Edge, n: Plan): Plan {
    match e
    case ToWorkspace => p.(workspace := Some(n))
    case ToOther => p.(other := Some(n))
  }

  /** What a call does to the plan. A call inside a missing nested query has nothing to act on. */
  function Apply(p: Plan, op: Op): Plan
    decreases op
  {
    match op
    case Where(ps) => p.(predicates := p.predicates + ps)
    case Limit(n) => p.(ctx := p.ctx.(limit := Some(n)))
    case Offset(n) => p.(ctx := p.ctx.(offset := Some(n)))
    case Unique(b) => p.(ctx := p.ctx.(unique := Some(b)))
    case Order(terms) => p.(order := p.order + terms)
    case Select(cs) => p.(ctx := p.ctx.(fields := p.ctx.fields + cs))
    case With(e, ops) => Attached(p, e, ApplyAll(Fresh(Target(p.table, e)), ops))
    case Inside(e, inner) =>
      if Nested(p, e).None? then p else Attached(p, e, Apply(Nested(p, e).value, inner))
  }

  function ApplyAll(p: Plan, ops: seq<Op>): Plan
    decreases ops
  {
    if ops == [] then p else ApplyAll(Apply(p, ops[0]), ops[1..])
  }

  class Query {
    const table: Table
    const traversal: bool
    const ctx: QueryContext
    var predicates: seq<Predicate>
    var order: seq<OrderTerm>
    var workspace: Query?
    var other: Query?
    ghost var Repr: set<object>

    ghost predicate Valid()
      reads this, Repr
      decreases Repr
      ensures Valid() ==> this in Repr && ctx in Repr
    {
      && this in Repr && ctx in Repr
      && (workspace != null ==>
            workspace in Repr && workspace.Repr <= Repr && this !in workspace.Repr && ctx !in workspace.Repr
            && workspace.Valid())
      && (other != null ==>
            other in Repr && other.Repr <= Repr && this !in other.Repr && ctx !in other.Repr && other.Valid())
      && (workspace != null && other != null ==> workspace.Repr !! other.Repr)
    }

    function View(): Plan
      requires Valid()
      reads this, Repr
      decreases Repr
    {
      Plan(table, ctx.View(), predicates, order, traversal,
           if workspace == null then None else Some(workspace.View()),
           if other == null then None else Some(other.View()))
    }

    constructor (table: Table)
      ensures Valid() && fresh(Repr) && View() == Fresh(table)
    {
      this.table, traversal := table, false;
      var c := new QueryContext();
      ctx := c;
      predicates, order, workspace, other := [], [], null, null;
      Repr := {this, c};
    }

    constructor Copy(table: Table, traversal: bool, ctx: QueryContext, predicates: seq<Predicate>, order: seq<OrderTerm>)
      ensures Valid() && fresh(Repr - {ctx})
      ensures View() == Plan(table, ctx.View(), predicates, order, traversal, None, None)
    {
      this.table, this.traversal, this.ctx := table, traversal, ctx;
      this.predicates, this.order, workspace, other := predicates, order, null, null;
      Repr := {this, ctx};
    }

    /** `Clone`: a query with the same plan that shares no object with this one. */
    method Clone() returns (c: Query)
      requires Valid()
      ensures c.Valid() && fresh(c.Repr) && c.View() == View()
      decreases Repr, 1
    {
      ghost var plan := View();
      c := CloneOwn();
      CloneEdges(c);
      assert View() == plan;
    }

    method CloneEdges(c: Query)
      requires Valid() && c.Valid() && c.Repr !! Repr
      modifies c
      ensures c.Valid() && fresh(c.Repr - old(c.Repr))
      ensures c.View() == old(c.View()).(
                workspace := if workspace == null then old(c.View()).workspace else Some(workspace.View()),
                other := if other == null then old(c.View()).other else Some(other.View()))
      decreases Repr, 0, 1
    {
      CloneNested(workspace, c, ToWorkspace);
      CloneNested(other, c, ToOther);
    }

    /** The clone before its nested queries. */
    method CloneOwn() returns (c: Query)
      requires Valid()
      ensures c.Valid() && fresh(c.Repr) && c.View() == View().(workspace := None, other := None)
    {
      var context := ctx.Clone();
      c := new Query.Copy(table, traversal, context, predicates, order);
    }

    /** Cloning a missing nested query leaves the clone without one. */
    method CloneNested(n: Query?, c: Query, e: Edge)
      requires n != null ==> n.Valid() && n.Repr < Repr && n.Repr !! c.Repr
      requires c.Valid()
      modifies c
      ensures c.Valid() && fresh(c.Repr - old(c.Repr))
      ensures c.View() == if n == null then old(c.View()) else Attached(old(c.View()), e, n.View())
      decreases Repr, 0, 0
    {
      if n != null {
        var m := n.Clone();
        c.Attach(e, m);
      }
    }

    /** Calls that change the fields of this object or of its context. */
    method SetOwn(op: Op)
      requires Valid() && !op.With? && !op.Inside?
      modifies this`predicates, this`order, ctx
      ensures Valid() && Repr == old(Repr) && View() == Apply(old(View()), op)
    {
      match op
      case Where(ps) => predicates := predicates + ps;
      case Limit(n) => ctx.limit := Some(n);
      case Offset(n) => ctx.offset := Some(n);
      case Unique(b) => ctx.unique := Some(b);
      case Order(terms) => order := order + terms;
      case Select(cs) => ctx.fields := ctx.fields + cs;
    }

    /** What `loadRecipients` does to a nested query that selects fields. */
    method AppendForeignKey()
      requires Valid()
      modifies ctx
      ensures Valid() && Repr == old(Repr)
      ensures View() == var p := old(View());
                        p.(ctx := p.ctx.(fields := if p.ctx.fields == [] then [] else AddOnce(p.ctx.fields, BroadcastId)))
    {
      if |ctx.fields| > 0 {
        ctx.fields := AddOnce(ctx.fields, BroadcastId);
      }
    }

    /** `WithWorkspace`, `WithRecipients`, `WithBroadcast`: the nested query replaces an earlier one. */
    method Attach(e: Edge, n: Query)
      requires Valid() && n.Valid() && n.Repr !! Repr
      modifies this
      ensures Valid() && Repr == old(Repr) + n.Repr
      ensures View() == Attached(old(View()), e, n.View())
    {
      if e.ToWorkspace? {
        workspace := n;
      } else {
        other := n;
      }
      Repr := Repr + n.Repr;
    }

    /** Any builder call. */
    method Do(op: Op)
      requires Valid()
      modifies Repr
      ensures Valid() && fresh(Repr - old(Repr)) && View() == Apply(old(View()), op)
      decreases op, 0
    {
      match op
      case With(e, ops) =>
        AttachNew(e, ops);
      case Inside(e, inner) =>
        if e.ToWorkspace? {
          DoInWorkspace(inner);
        } else {
          DoInOther(inner);
        }
      case _ =>
        SetOwn(op);
    }

    /** A new nested query, configured by the caller's options, then attached. */
    method AttachNew(e: Edge, ops: seq<Op>)
      requires Valid()
      modifies this
      ensures Valid() && fresh(Repr - old(Repr)) && View() == Apply(old(View()), With(e, ops))
      decreases ops, 1
    {
      var n := new Query(Target(table, e));
      n.DoAll(ops);
      Attach(e, n);
    }

    method DoAll(ops: seq<Op>)
      requires Valid()
      modifies Repr
      ensures Valid() && fresh(Repr - old(Repr)) && View() == ApplyAll(old(View()), ops)
      decreases ops, 0
    {
      if ops != [] {
        Do(ops[0]);
        DoAll(ops[1..]);
      }
    }

    /** A call on a nested query through a pointer the caller kept. */
    method DoInWorkspace(op: Op)
      requires Valid()
      modifies Repr
      ensures Valid() && fresh(Repr - old(Repr)) && View() == Apply(old(View()), Inside(ToWorkspace, op))
      decreases op, 1
    {
      if workspace != null {
        workspace.Do(op);
        Repr := Repr + workspace.Repr;
      }
    }

    method DoInOther(op: Op)
      requires Valid()
      modifies Repr
      ensures Valid() && fresh(Repr - old(Repr)) && View() == Apply(old(View()), Inside(ToOther, op))
      decreases op, 1
    {
      if other != null {
        other.Do(op);
        Repr := Repr + other.Repr;
      }
    }
  }
}
