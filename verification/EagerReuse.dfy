/** Eager loading under column projection, and running the same query object again. */
module EagerReuse {
  import opened Prelude
  import opened Schema
  import opened QueryPlan
  import opened EagerPlan
  import opened EagerJoin
  import opened EagerTheorems

  // ----- projection -----

  /** The same query without a selection of fields. */
  function Unprojected(p: Plan): Plan {
    p.(ctx := p.ctx.(fields := []))
  }

  /** The same edges; the nodes may show different columns. */
  ghost predicate SameEdges(a: seq<Tree>, b: seq<Tree>) {
    |a| == |b| && forall k :: 0 <= k < |a| ==> a[k] == b[k].(node := a[k].node)
  }

  ghost predicate SameField(a: seq<Tree>, b: seq<Tree>, c: Column) {
    |a| == |b| && forall k :: 0 <= k < |a| ==> IntField(a[k].node, c) == IntField(b[k].node, c)
  }

  lemma {:induction false} ProjectionKeepsRows(db: Db, p: Plan)
    requires Sound(db)
    ensures Rows(db, p) == Rows(db, Unprojected(p))
  {
    var q := Unprojected(p);
    CandidatesDistinct(db, SpecStatement(SpecOf(p)));
    SpecSelectsId(p);
    SpecSelectsId(q);
    DedupKeepsIds(Base(db, p), SpecOf(p).columns);
    DedupKeepsIds(Base(db, p), SpecOf(q).columns);
  }

  lemma {:induction false} KeysOfField(a: seq<Tree>, b: seq<Tree>, c: Column)
    requires SameField(a, b, c)
    ensures Keys(a, c) == Keys(b, c)
    decreases |a|
  {
    if a != [] {
      KeysOfField(a[..|a| - 1], b[..|b| - 1], c);
    }
  }

  /** Two equally long loads give the same edges, or fail alike. */
  ghost predicate Alike(a: Result<seq<Tree>, QueryError>, b: Result<seq<Tree>, QueryError>) {
    if a.Ok? && b.Ok? then SameEdges(a.value, b.value) else a.Err? && b.Err? && a.error == b.error
  }

  lemma {:induction false} LookedAlike(a: Tree, b: Tree, fk: Column, slot: Slot, es: seq<Tree>)
    requires a == b.(node := a.node) && IntField(a.node, fk) == IntField(b.node, fk)
    ensures Looked(a, fk, slot, es) == Looked(b, fk, slot, es).(node := a.node)
    ensures Looked(a, fk, slot, es).node == a.node
  {}

  lemma {:induction false} JoinedAlike(a: seq<Tree>, b: seq<Tree>, k: nat, es: seq<Tree>)
    requires SameEdges(a, b) && k < |a|
    requires forall j :: 0 <= j < |a| ==> a[j].node.id == b[j].node.id
    ensures Joined(a, k, es) == Joined(b, k, es).(node := a[k].node)
    ensures Joined(a, k, es).node == a[k].node
  {}

  lemma {:induction false} LoadOneAlike(db: Db, n: Plan, a: seq<Tree>, b: seq<Tree>, fk: Column, slot: Slot)
    requires Sound(db) && TypedDb(db) && SameEdges(a, b) && SameField(a, b, fk) && a != []
    ensures Alike(LoadOne(db, n, a, fk, slot), LoadOne(db, n, b, fk, slot))
  {
    KeysOfField(a, b, fk);
    ToOneIsLookup(db, n, a, fk, slot);
    ToOneIsLookup(db, n, b, fk, slot);
    var es := All(db, Restricted(n, Id, Keys(a, fk)));
    if es.Ok? {
      var ra, rb := LoadOne(db, n, a, fk, slot).value, LoadOne(db, n, b, fk, slot).value;
      forall k | 0 <= k < |a| ensures ra[k] == rb[k].(node := ra[k].node) {
        LookedAlike(a[k], b[k], fk, slot, es.value);
      }
    }
  }

  lemma {:induction false} LoadManyAlike(db: Db, n: Plan, a: seq<Tree>, b: seq<Tree>)
    requires Sound(db) && TypedDb(db) && SameEdges(a, b) && n.table.Recipients?
    requires forall k :: 0 <= k < |a| ==> a[k].node.id == b[k].node.id
    ensures Alike(LoadMany(db, n, a), LoadMany(db, n, b))
  {
    assert Ids(a) == Ids(b);
    ToManyIsFilter(db, n, a);
    ToManyIsFilter(db, n, b);
    var es := All(db, ForChildren(n, Ids(a)));
    if es.Ok? {
      var ra, rb := LoadMany(db, n, a).value, LoadMany(db, n, b).value;
      forall k | 0 <= k < |a| ensures ra[k] == rb[k].(node := ra[k].node) {
        JoinedAlike(a, b, k, es.value);
      }
    }
  }

  lemma {:induction false} BareAgree(db: Db, p: Plan)
    requires Sound(db) && TypedDb(db) && Fetch(db, p).Ok? && Fetch(db, Unprojected(p)).Ok?
    ensures var a := Bare(p, Fetch(db, p).value);
            var b := Bare(Unprojected(p), Fetch(db, Unprojected(p)).value);
            && SameEdges(a, b)
            && (forall k :: 0 <= k < |a| ==> a[k].node.id == b[k].node.id)
            && (p.workspace.Some? && !p.table.Workspaces? ==> SameField(a, b, WorkspaceId))
            && (p.table.Recipients? && p.other.Some? ==> SameField(a, b, BroadcastId))
  {
    var q := Unprojected(p);
    var a, b := Bare(p, Fetch(db, p).value), Bare(q, Fetch(db, q).value);
    ProjectionKeepsRows(db, p);
    RowsTyped(db, p);
    SpecSelectsId(p);
    SpecSelectsId(q);
    RequestedKeysSelected(p);
    RequestedKeysSelected(q);
    var rows := Rows(db, p).value;
    forall k | 0 <= k < |a|
      ensures a[k].node.id == b[k].node.id
      ensures p.workspace.Some? && !p.table.Workspaces? ==> IntField(a[k].node, WorkspaceId) == IntField(b[k].node, WorkspaceId)
      ensures p.table.Recipients? && p.other.Some? ==> IntField(a[k].node, BroadcastId) == IntField(b[k].node, BroadcastId)
    {
      DecodedId(p.table, SpecOf(p).columns, rows[k]);
      DecodedId(p.table, SpecOf(q).columns, rows[k]);
      if p.workspace.Some? && !p.table.Workspaces? {
        DecodedKeys(p.table, SpecOf(p).columns, rows[k], WorkspaceId);
        DecodedKeys(p.table, SpecOf(q).columns, rows[k], WorkspaceId);
      }
      if p.table.Recipients? && p.other.Some? {
        DecodedKeys(p.table, SpecOf(p).columns, rows[k], BroadcastId);
        DecodedKeys(p.table, SpecOf(q).columns, rows[k], BroadcastId);
      }
    }
  }

  /**
   Projection does not change edges: for any selection of valid fields, with or without the
   id and the foreign keys, the query returns the same number of nodes with the same edges,
   or the same error, as with all columns selected.
   */
  lemma {:induction false} ProjectionKeepsEdges(db: Db, p: Plan)
    requires Sound(db) && TypedDb(db) && FirstInvalid(AllColumns(p.table), p.ctx.fields).None?
    requires p.table.Broadcasts? && p.other.Some? ==> p.other.value.table.Recipients?
    ensures Alike(All(db, p), All(db, Unprojected(p)))
  {
    var q := Unprojected(p);
    ProjectionKeepsRows(db, p);
    if Fetch(db, p).Ok? && Fetch(db, p).value != [] {
      BareAgree(db, p);
      var a, b := Bare(p, Fetch(db, p).value), Bare(q, Fetch(db, q).value);
      if p.workspace.Some? && !p.table.Workspaces? {
        LoadOneAlike(db, p.workspace.value, a, b, WorkspaceId, WorkspaceSlot);
      }
      var wa, wb := WorkspaceEdge(db, p, a), WorkspaceEdge(db, q, b);
      if wa.Ok? && wb.Ok? {
        WorkspaceEdgeKeepsNodes(db, p, a);
        WorkspaceEdgeKeepsNodes(db, q, b);
        OtherAlike(db, p, a, b, wa.value, wb.value);
      }
    }
  }

  lemma {:induction false} OtherAlike(db: Db, p: Plan, a: seq<Tree>, b: seq<Tree>, wa: seq<Tree>, wb: seq<Tree>)
    requires Sound(db) && TypedDb(db) && a != [] && SameEdges(wa, wb) && SameNodes(wa, a) && SameNodes(wb, b)
    requires |a| == |b| && forall k :: 0 <= k < |a| ==> a[k].node.id == b[k].node.id
    requires p.table.Recipients? && p.other.Some? ==> SameField(a, b, BroadcastId)
    requires p.table.Broadcasts? && p.other.Some? ==> p.other.value.table.Recipients?
    ensures Alike(OtherEdge(db, p, wa), OtherEdge(db, Unprojected(p), wb))
  {
    if p.other.Some? {
      match p.table
      case Broadcasts =>
        LoadManyAlike(db, p.other.value, wa, wb);
      case Recipients =>
        assert SameField(wa, wb, BroadcastId);
        LoadOneAlike(db, p.other.value, wa, wb, BroadcastId, BroadcastSlot);
      case Workspaces =>
    }
  }

  // ----- running a query again -----

  /** Running a query changes its nested queries only. */
  lemma {:induction false} AfterKeepsOwnParts(db: Db, p: Plan)
    ensures var a := After(db, p);
            a.table == p.table && a.ctx == p.ctx && a.predicates == p.predicates && a.order == p.order
  {}

  /** The nested query has one more predicate, a key filter, and the same window and fields. */
  ghost predicate Filtered(n: Option<Plan>, c: Column, keys: seq<int>, after: Option<Plan>) {
    n.Some? ==> after.Some? && after.value.ctx == n.value.ctx
                && after.value.predicates == n.value.predicates + [KeyIn(c, keys)]
  }

  /** The nested query of recipients also selects their foreign key, if it selects anything. */
  ghost predicate FilteredChildren(n: Option<Plan>, ids: seq<int>, after: Option<Plan>) {
    n.Some? ==> after.Some? && (n.value.ctx.fields != [] ==> BroadcastId in after.value.ctx.fields)
                && after.value.predicates == n.value.predicates + [KeyIn(BroadcastId, ids)]
  }

  /** A run leaves its filters behind: each nested query keeps the keys of the nodes it was loaded for. */
  lemma {:induction false} RunLeavesFilters(db: Db, p: Plan)
    requires All(db, p).Ok? && All(db, p).value != [] && !p.table.Workspaces?
    ensures var trees, a := All(db, p).value, After(db, p);
            && Filtered(p.workspace, Id, Keys(trees, WorkspaceId), a.workspace)
            && (p.table.Recipients? ==> Filtered(p.other, Id, Keys(trees, BroadcastId), a.other))
            && (p.table.Broadcasts? ==> FilteredChildren(p.other, Ids(trees), a.other))
  {
    AllKeepsNodes(db, p);
    var bare := Bare(p, Fetch(db, p).value);
    var before := WorkspaceEdge(db, p, bare).value;
    WorkspaceEdgeKeepsNodes(db, p, bare);
    KeysOfNodes(bare, All(db, p).value, WorkspaceId);
    KeysOfNodes(before, All(db, p).value, BroadcastId);
    assert Ids(before) == Ids(All(db, p).value);
    WorkspaceLeavesFilter(db, p, bare);
    OtherLeavesFilter(db, p, before);
  }

  lemma {:induction false} WorkspaceLeavesFilter(db: Db, p: Plan, trees: seq<Tree>)
    requires !p.table.Workspaces?
    ensures Filtered(p.workspace, Id, Keys(trees, WorkspaceId), AfterWorkspace(db, p, trees))
  {}

  lemma {:induction false} OtherLeavesFilter(db: Db, p: Plan, trees: seq<Tree>)
    ensures p.table.Recipients? ==> Filtered(p.other, Id, Keys(trees, BroadcastId), AfterOther(db, p, trees))
    ensures p.table.Broadcasts? ==> FilteredChildren(p.other, Ids(trees), AfterOther(db, p, trees))
  {
    if p.other.Some? {
      AfterKeepsOwnParts(db, Restricted(p.other.value, Id, Keys(trees, BroadcastId)));
      AfterKeepsOwnParts(db, ForChildren(p.other.value, Ids(trees)));
    }
  }

  /**
   The nested query keeps the key filter of every earlier run. Run again after any change of
   the outer query and of the database, a broadcasts query gives a broadcast its recipients
   only if the broadcast was also among the results of the first run; otherwise its list is
   empty.
   */
  lemma {:induction false} SecondRunSeesOldParentsOnly(db: Db, p: Plan, db2: Db, p2: Plan, k: nat, id: int)
    requires Sound(db2) && TypedDb(db2)
    requires p.table.Broadcasts? && p.other.Some? && p.other.value.table.Recipients? && Windowless(p.other.value)
    requires All(db, p).Ok? && All(db, p).value != []
    requires p2.table.Broadcasts? && p2.other == After(db, p).other
    requires All(db2, p2).Ok? && k < |All(db2, p2).value|
    ensures RecipientsOrErr(All(db2, p2).value[k]).Ok?
    ensures var parent := All(db2, p2).value[k].node.id;
            Lists(RecipientsOrErr(All(db2, p2).value[k]).value, id) <==>
            (exists r :: Child(db2, p.other.value, parent, r) && r.id == id) && parent in Ids(All(db, p).value)
  {
    var n := p.other.value;
    AllKeepsNodes(db, p);
    var bare := Bare(p, Fetch(db, p).value);
    var trees := WorkspaceEdge(db, p, bare).value;
    WorkspaceEdgeKeepsNodes(db, p, bare);
    var old1 := Ids(trees);
    assert old1 == Ids(All(db, p).value);
    AfterKeepsOwnParts(db, ForChildren(n, old1));
    var n2 := p2.other.value;
    assert n2.predicates == n.predicates + [KeyIn(BroadcastId, old1)];
    RecipientsAreChildren(db2, p2, k, id);
    var parent := All(db2, p2).value[k].node.id;
    forall r ensures Child(db2, n2, parent, r) <==> Child(db2, n, parent, r) && parent in old1 {
      HoldsAllPlus(n.predicates, KeyIn(BroadcastId, old1), r);
    }
  }
}
