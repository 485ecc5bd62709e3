/** The terminal calls on query objects, and what a clone is protected from. */
module QueryTerminals {
  import opened Prelude
  import opened Schema
  import opened QueryPlan
  import opened EagerPlan
  import B = QueryBuilder
  import W = QueryWindows
  import L = EagerLoader

  method First(q: B.Query, db: Db) returns (r: Result<Tree, QueryError>)
    requires q.Valid()
    modifies q.Repr
    ensures q.Valid() && q.Repr == old(q.Repr)
    ensures r == W.First(db, old(q.View()))
    ensures q.View() == After(db, W.Limited(old(q.View()), 1))
  {
    q.SetOwn(B.Limit(1));
    var nodes := L.All(q, db);
    if nodes.Err? { return Err(nodes.error); }
    r := if |nodes.value| == 0 then Err(NotFound) else Ok(nodes.value[0]);
  }

  method Only(q: B.Query, db: Db) returns (r: Result<Tree, QueryError>)
    requires q.Valid()
    modifies q.Repr
    ensures q.Valid() && q.Repr == old(q.Repr)
    ensures r == W.Only(db, old(q.View()))
    ensures q.View() == After(db, W.Limited(old(q.View()), 2))
  {
    q.SetOwn(B.Limit(2));
    var nodes := L.All(q, db);
    if nodes.Err? { return Err(nodes.error); }
    match |nodes.value|
    case 1 => r := Ok(nodes.value[0]);
    case 0 => r := Err(NotFound);
    case _ => r := Err(NotSingular);
  }

  /** `IDs`: the row scan itself is the query's own `Scan`. */
  method IDs(q: B.Query, db: Db) returns (r: Result<seq<int>, QueryError>)
    requires q.Valid()
    modifies q.Repr
    ensures q.Valid() && q.Repr == old(q.Repr)
    ensures r == W.IDs(db, old(q.View())) && q.View() == W.SelectingId(old(q.View()))
    ensures var p, ctx := old(q.View()), q.View().ctx;
            && q.View() == p.(ctx := ctx) && ctx == p.ctx.(fields := p.ctx.fields + [Id], unique := ctx.unique)
            && ctx.unique == if p.traversal && p.ctx.unique.None? then Some(true) else p.ctx.unique
  {
    if q.ctx.unique == None && q.traversal {
      q.SetOwn(B.Unique(true));
    }
    q.SetOwn(B.Select([Id]));
    r := W.ScanIds(db, q.View());
  }

  method FirstID(q: B.Query, db: Db) returns (r: Result<int, QueryError>)
    requires q.Valid()
    modifies q.Repr
    ensures q.Valid() && q.Repr == old(q.Repr)
    ensures r == W.FirstID(db, old(q.View())) && q.View() == W.SelectingId(W.Limited(old(q.View()), 1))
  {
    q.SetOwn(B.Limit(1));
    var ids := IDs(q, db);
    if ids.Err? { return Err(ids.error); }
    r := if |ids.value| == 0 then Err(NotFound) else Ok(ids.value[0]);
  }

  method OnlyID(q: B.Query, db: Db) returns (r: Result<int, QueryError>)
    requires q.Valid()
    modifies q.Repr
    ensures q.Valid() && q.Repr == old(q.Repr)
    ensures r == W.OnlyID(db, old(q.View())) && q.View() == W.SelectingId(W.Limited(old(q.View()), 2))
  {
    q.SetOwn(B.Limit(2));
    var ids := IDs(q, db);
    if ids.Err? { return Err(ids.error); }
    match |ids.value|
    case 1 => r := Ok(ids.value[0]);
    case 0 => r := Err(NotFound);
    case _ => r := Err(NotSingular);
  }

  method Exist(q: B.Query, db: Db) returns (r: Result<bool, QueryError>)
    requires q.Valid()
    modifies q.Repr
    ensures q.Valid() && q.Repr == old(q.Repr)
    ensures r == W.Exist(db, old(q.View())) && q.View() == W.SelectingId(W.Limited(old(q.View()), 1))
  {
    var id := FirstID(q, db);
    r := if id == Err(NotFound) then Ok(false) else if id.Err? then Err(id.error) else Ok(true);
  }

  // ----- isolation -----

  /** Anything a caller does with a query object. */
  datatype Use = Build(op: B.Op) | RunAll | RunFirst | RunOnly | RunIDs | RunFirstID | RunOnlyID | RunExist

  /** The plan left behind. */
  function Used(db: Db, p: Plan, u: Use): Plan {
    match u
    case Build(op) => B.Apply(p, op)
    case RunAll => After(db, p)
    case RunFirst => After(db, W.Limited(p, 1))
    case RunOnly => After(db, W.Limited(p, 2))
    case RunIDs => W.SelectingId(p)
    case RunFirstID => W.SelectingId(W.Limited(p, 1))
    case RunOnlyID => W.SelectingId(W.Limited(p, 2))
    case RunExist => W.SelectingId(W.Limited(p, 1))
  }

  function UsedAll(db: Db, p: Plan, us: seq<Use>): Plan
    decreases |us|
  {
    if us == [] then p else UsedAll(db, Used(db, p, us[0]), us[1..])
  }

  method DoUse(q: B.Query, db: Db, u: Use)
    requires q.Valid()
    modifies q.Repr
    ensures q.Valid() && fresh(q.Repr - old(q.Repr)) && q.View() == Used(db, old(q.View()), u)
  {
    match u
    case Build(op) => q.Do(op);
    case RunAll => var _ := L.All(q, db);
    case RunFirst => var _ := First(q, db);
    case RunOnly => var _ := Only(q, db);
    case RunIDs => var _ := IDs(q, db);
    case RunFirstID => var _ := FirstID(q, db);
    case RunOnlyID => var _ := OnlyID(q, db);
    case RunExist => var _ := Exist(q, db);
  }

  method DoUses(q: B.Query, db: Db, us: seq<Use>)
    requires q.Valid()
    modifies q.Repr
    ensures q.Valid() && fresh(q.Repr - old(q.Repr)) && q.View() == UsedAll(db, old(q.View()), us)
    decreases |us|
  {
    if us != [] {
      DoUse(q, db, us[0]);
      DoUses(q, db, us[1..]);
    }
  }

  /**
   Clones are isolated: after `Clone`, whatever is done with the query and whatever else is
   done with its clone, builder calls on nested queries and terminal calls with the filters
   they leave behind included, each stands for the plan its own uses give it, and running the
   clone returns what that plan returns.
   */
  method CloneThenDiverge(q: B.Query, db: Db, us: seq<Use>, cloneUs: seq<Use>)
    returns (c: B.Query, r: Result<seq<Tree>, QueryError>)
    requires q.Valid()
    modifies q.Repr
    ensures q.Valid() && c.Valid() && q.Repr !! c.Repr
    ensures q.View() == UsedAll(db, old(q.View()), us)
    ensures r == EagerPlan.All(db, UsedAll(db, old(q.View()), cloneUs))
  {
    c := q.Clone();
    DoUses(q, db, us);
    DoUses(c, db, cloneUs);
    r := L.All(c, db);
  }
}
