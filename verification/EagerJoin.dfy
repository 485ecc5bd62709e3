/** The loaders against the simple meaning of an edge: looking up one row, or filtering the other table. */
module EagerJoin {
  import opened Prelude
  import opened Schema
  import opened QueryPlan
  import opened EagerPlan
  import RowCodec
  import RowCreate

  // ----- the assignment loops -----

  /** What a to-one edge ends with: the last neighbour whose id is the node's foreign key. */
  ghost function Looked(t: Tree, fk: Column, slot: Slot, es: seq<Tree>): Tree {
    var j := Holder(es, IntField(t.node, fk));
    if j.Some? then SetOne(t, slot, es[j.value]) else t
  }

  lemma {:induction false} LookedStep(t: Tree, fk: Column, slot: Slot, es: seq<Tree>)
    requires es != []
    ensures var before := Looked(t, fk, slot, es[..|es| - 1]);
            var last := es[|es| - 1];
            Looked(t, fk, slot, es) == if IntField(t.node, fk) == last.node.id then SetOne(before, slot, last) else before
  {}

  ghost predicate Keyed(es: seq<Tree>, keys: seq<int>) {
    forall j :: 0 <= j < |es| ==> es[j].node.id in keys
  }

  /** A to-one assignment fails exactly when a neighbour's id is not among the keys. */
  lemma {:induction false} OnesSucceed(trees: seq<Tree>, fk: Column, slot: Slot, es: seq<Tree>)
    ensures AssignOnes(trees, fk, slot, es).Ok? <==> Keyed(es, Keys(trees, fk))
    decreases |es|
  {
    if es != [] {
      var front, last := es[..|es| - 1], es[|es| - 1];
      OnesSucceed(trees, fk, slot, front);
      KeyedStep(es, Keys(trees, fk));
    }
  }

  lemma {:induction false} KeyedStep(es: seq<Tree>, keys: seq<int>)
    requires es != []
    ensures Keyed(es, keys) <==> Keyed(es[..|es| - 1], keys) && es[|es| - 1].node.id in keys
  {}

  lemma {:induction false} OnesAreLookups(trees: seq<Tree>, fk: Column, slot: Slot, es: seq<Tree>, k: nat)
    requires k < |trees| && AssignOnes(trees, fk, slot, es).Ok?
    ensures AssignOnes(trees, fk, slot, es).value[k] == Looked(trees[k], fk, slot, es)
    ensures AssignOnes(trees, fk, slot, es).value[k].node == trees[k].node
    decreases |es|
  {
    if es != [] {
      var front := es[..|es| - 1];
      OnesAreLookups(trees, fk, slot, front, k);
      LookedStep(trees[k], fk, slot, es);
    }
  }

  /** The neighbours with a given foreign key, in the order they were fetched. */
  function Children(es: seq<Tree>, id: int): (r: seq<Tree>)
    ensures forall e :: e in r <==> e in es && IntField(e.node, BroadcastId) == id
    ensures |r| <= |es|
  {
    if es == [] then []
    else
      var last := es[|es| - 1];
      Children(es[..|es| - 1], id) + (if IntField(last.node, BroadcastId) == id then [last] else [])
  }

  /** They are picked in the order they were fetched. */
  lemma {:induction false} ChildrenInOrder(es: seq<Tree>, id: int) returns (at: seq<nat>)
    ensures |at| == |Children(es, id)|
    ensures forall j :: 0 <= j < |at| ==> at[j] < |es| && Children(es, id)[j] == es[at[j]]
    ensures forall i, j :: 0 <= i < j < |at| ==> at[i] < at[j]
    decreases |es|
  {
    if es == [] {
      at := [];
    } else {
      at := ChildrenInOrder(es[..|es| - 1], id);
      if IntField(es[|es| - 1].node, BroadcastId) == id {
        at := at + [|es| - 1];
      }
    }
  }

  /** What a to-many edge ends with; of several nodes with one id only the last is given children. */
  ghost function Joined(trees: seq<Tree>, k: nat, es: seq<Tree>): Tree
    requires k < |trees|
  {
    trees[k].(recipients := Some(if Holder(trees, trees[k].node.id) == Some(k)
                                 then Children(es, trees[k].node.id) else []))
  }

  ghost predicate KnownParents(trees: seq<Tree>, es: seq<Tree>) {
    forall j :: 0 <= j < |es| ==> Holder(trees, IntField(es[j].node, BroadcastId)).Some?
  }

  /** A to-many assignment fails exactly when a neighbour's foreign key is no node's id. */
  lemma {:induction false} ManySucceed(trees: seq<Tree>, es: seq<Tree>)
    ensures AssignMany(Emptied(trees), es).Ok? <==> KnownParents(trees, es)
    decreases |es|
  {
    SameHolders(trees);
    if es != [] {
      var front := es[..|es| - 1];
      ManySucceed(trees, front);
      assert forall j :: 0 <= j < |front| ==> front[j] == es[j];
    }
  }

  lemma {:induction false} ManyAreFilters(trees: seq<Tree>, es: seq<Tree>, k: nat)
    requires k < |trees| && AssignMany(Emptied(trees), es).Ok?
    ensures AssignMany(Emptied(trees), es).value[k] == Joined(trees, k, es)
    decreases |es|
  {
    if es != [] {
      var front, last := es[..|es| - 1], es[|es| - 1];
      ManyAreFilters(trees, front, k);
      SameHolders(trees);
      var fk := IntField(last.node, BroadcastId);
      var ts := AssignMany(Emptied(trees), front).value;
      if Holder(trees, fk) == Some(k) {
        assert trees[k].node.id == fk;
        assert Children(es, fk) == Children(front, fk) + [last];
      } else if Holder(trees, trees[k].node.id) == Some(k) {
        assert fk != trees[k].node.id;
        var mine := Children(front, trees[k].node.id);
        assert Children(es, trees[k].node.id) == mine + [] == mine;
      }
    }
  }

  lemma {:induction false} SameHolders(trees: seq<Tree>)
    ensures forall id :: Holder(Emptied(trees), id) == Holder(trees, id)
    decreases |trees|
  {}

  // ----- conservation -----

  function Loaded(trees: seq<Tree>): nat {
    if trees == [] then 0
    else Loaded(trees[..|trees| - 1]) + (var r := trees[|trees| - 1].recipients; if r.Some? then |r.value| else 0)
  }

  lemma {:induction false} LoadedUpdate(trees: seq<Tree>, k: nat, e: Tree)
    requires k < |trees|
    ensures Loaded(trees[k := Append(trees[k], e)]) == Loaded(trees) + 1
    decreases |trees|
  {
    var longer := trees[k := Append(trees[k], e)];
    if k == |trees| - 1 {
      assert longer[..|trees| - 1] == trees[..|trees| - 1];
    } else {
      LoadedUpdate(trees[..|trees| - 1], k, e);
      assert longer[..|trees| - 1] == trees[..|trees| - 1][k := Append(trees[k], e)];
    }
  }

  lemma {:induction false} LoadedEmptied(trees: seq<Tree>)
    ensures Loaded(Emptied(trees)) == 0
    decreases |trees|
  {
    if trees != [] {
      LoadedEmptied(trees[..|trees| - 1]);
      assert Emptied(trees)[..|trees| - 1] == Emptied(trees[..|trees| - 1]);
    }
  }

  /** No neighbour is lost or given twice: the lists loaded have as many elements as were fetched. */
  lemma {:induction false} ManyConserves(trees: seq<Tree>, es: seq<Tree>)
    requires AssignMany(Emptied(trees), es).Ok?
    ensures Loaded(AssignMany(Emptied(trees), es).value) == |es|
    decreases |es|
  {
    if es == [] {
      LoadedEmptied(trees);
    } else {
      var front, last := es[..|es| - 1], es[|es| - 1];
      ManyConserves(trees, front);
      var ts := AssignMany(Emptied(trees), front).value;
      LoadedUpdate(ts, Holder(Emptied(trees), IntField(last.node, BroadcastId)).value, last);
    }
  }

  // ----- what the nested query can return -----

  /** The columns of every stored row have the types of their table. */
  ghost predicate TypedDb(db: Db) {
    && (forall r :: r in db.tables(Broadcasts) ==> RowCreate.Typed(RowCodec.Broadcast, r.fields))
    && (forall r :: r in db.tables(Recipients) ==> RowCreate.Typed(RowCodec.Recipient, r.fields))
  }

  ghost predicate TypedRow(t: Table, r: Row) {
    match t
    case Broadcasts => RowCreate.Typed(RowCodec.Broadcast, r.fields)
    case Recipients => RowCreate.Typed(RowCodec.Recipient, r.fields)
    case Workspaces => true
  }

  lemma {:induction false} DedupSubset(rows: seq<Row>, columns: seq<Column>)
    ensures forall r :: r in Dedup(rows, columns) ==> r in rows
  {
    if rows != [] {
      DedupSubset(rows[..|rows| - 1], columns);
    }
  }

  lemma {:induction false} WindowSubset<T>(offset: Option<int>, limit: Option<int>, xs: seq<T>)
    ensures Window(offset, limit, xs).Ok? ==> forall x :: x in Window(offset, limit, xs).value ==> x in xs
  {}

  /** Every row a statement returns is stored and satisfies its predicates. */
  lemma {:induction false} RunSelects(db: Db, s: Statement)
    requires Sound(db)
    ensures Run(db, s).Ok? ==>
              forall r :: r in Run(db, s).value ==> r in db.tables(s.table) && HoldsAll(s.predicates, r)
  {
    var rows := Candidates(db, s);
    var matching := Matching(s.predicates, db.tables(s.table));
    assert multiset(rows) == multiset(matching);
    forall r | r in rows ensures r in matching {
      assert r in multiset(rows);
    }
    DedupSubset(rows, s.columns);
    WindowSubset(s.offset, s.limit, if s.distinct then Dedup(rows, s.columns) else rows);
  }

  /** The rows of a query whose fields are valid. */
  function Rows(db: Db, p: Plan): Result<seq<Row>, QueryError> {
    Run(db, SpecStatement(SpecOf(p)))
  }

  /** A decoded node shows the id, and the integer column c when c is selected. */
  lemma {:induction false} DecodedKeys(t: Table, columns: seq<Column>, row: Row, c: Column)
    requires TypedRow(t, row) && Id in columns && c in columns && c != Id
    ensures DecodeRow(t, columns, row).id == row.id
    ensures IntField(DecodeRow(t, columns, row), c) == if Key(row, c).Some? then Key(row, c).value else 0
  {
    match t
    case Broadcasts => RowCreate.DecodeSelects(RowCodec.Broadcast, columns, row.id, row.fields);
    case Recipients => RowCreate.DecodeSelects(RowCodec.Recipient, columns, row.id, row.fields);
    case Workspaces =>
  }

  lemma {:induction false} SpecSelectsId(p: Plan)
    ensures Id in SpecOf(p).columns
  {}

  lemma {:induction false} IdIsAColumn(t: Table)
    ensures Id in AllColumns(t)
  {}

  lemma {:induction false} DecodedId(t: Table, columns: seq<Column>, row: Row)
    requires TypedRow(t, row) && Id in columns
    ensures DecodeRow(t, columns, row).id == row.id
  {
    match t
    case Broadcasts => RowCreate.DecodeSelects(RowCodec.Broadcast, columns, row.id, row.fields);
    case Recipients => RowCreate.DecodeSelects(RowCodec.Recipient, columns, row.id, row.fields);
    case Workspaces =>
  }

  lemma {:induction false} RowsTyped(db: Db, p: Plan)
    requires Sound(db) && TypedDb(db) && Rows(db, p).Ok?
    ensures forall k :: 0 <= k < |Rows(db, p).value| ==>
              && TypedRow(p.table, Rows(db, p).value[k])
              && Rows(db, p).value[k] in db.tables(p.table)
              && HoldsAll(p.predicates, Rows(db, p).value[k])
  {
    RunSelects(db, SpecStatement(SpecOf(p)));
  }

  /** Nodes fetched through a key filter on the id have their id among the keys. */
  lemma {:induction false} FetchedIdsAreKeys(db: Db, n: Plan, keys: seq<int>)
    requires Sound(db) && TypedDb(db) && Fetch(db, Restricted(n, Id, keys)).Ok?
    ensures forall k :: 0 <= k < |Fetch(db, Restricted(n, Id, keys)).value| ==>
              Fetch(db, Restricted(n, Id, keys)).value[k].id in keys
  {
    var p := Restricted(n, Id, keys);
    RowsTyped(db, p);
    SpecSelectsId(p);
    var rows := Rows(db, p).value;
    forall k | 0 <= k < |rows| ensures Fetch(db, p).value[k].id in keys {
      DecodedId(p.table, SpecOf(p).columns, rows[k]);
      assert Holds(p.predicates[|n.predicates|], rows[k]);
    }
  }

  /** The foreign key is always among the columns of a recipients query run for a parent. */
  lemma {:induction false} ChildrenSelectKey(n: Plan, ids: seq<int>)
    requires n.table.Recipients?
    ensures BroadcastId in SpecOf(ForChildren(n, ids)).columns
  {}

  lemma {:induction false} FetchedParentsAreKeys(db: Db, n: Plan, ids: seq<int>)
    requires Sound(db) && TypedDb(db) && n.table.Recipients? && Fetch(db, ForChildren(n, ids)).Ok?
    ensures forall k :: 0 <= k < |Fetch(db, ForChildren(n, ids)).value| ==>
              IntField(Fetch(db, ForChildren(n, ids)).value[k], BroadcastId) in ids
  {
    var p := ForChildren(n, ids);
    RowsTyped(db, p);
    SpecSelectsId(p);
    ChildrenSelectKey(n, ids);
    var rows := Rows(db, p).value;
    forall k | 0 <= k < |rows| ensures IntField(Fetch(db, p).value[k], BroadcastId) in ids {
      DecodedKeys(p.table, SpecOf(p).columns, rows[k], BroadcastId);
      assert Holds(p.predicates[|n.predicates|], rows[k]);
    }
  }

  // ----- loading keeps the nodes -----

  lemma {:induction false} LookedKeepsNodes(trees: seq<Tree>, fk: Column, slot: Slot, es: seq<Tree>)
    requires AssignOnes(trees, fk, slot, es).Ok?
    ensures forall k :: 0 <= k < |trees| ==> AssignOnes(trees, fk, slot, es).value[k].node == trees[k].node
  {
    forall k | 0 <= k < |trees| ensures AssignOnes(trees, fk, slot, es).value[k].node == trees[k].node {
      OnesAreLookups(trees, fk, slot, es, k);
    }
  }

  ghost predicate SameNodes(a: seq<Tree>, b: seq<Tree>) {
    |a| == |b| && forall k :: 0 <= k < |a| ==> a[k].node == b[k].node
  }

  lemma {:induction false} LoadOneKeepsNodes(db: Db, n: Plan, trees: seq<Tree>, fk: Column, slot: Slot)
    requires LoadOne(db, n, trees, fk, slot).Ok?
    ensures SameNodes(LoadOne(db, n, trees, fk, slot).value, trees)
  {
    if trees != [] {
      LookedKeepsNodes(trees, fk, slot, All(db, Restricted(n, Id, Keys(trees, fk))).value);
    }
  }

  lemma {:induction false} WorkspaceEdgeKeepsNodes(db: Db, p: Plan, trees: seq<Tree>)
    requires WorkspaceEdge(db, p, trees).Ok?
    ensures SameNodes(WorkspaceEdge(db, p, trees).value, trees)
  {
    if p.workspace.Some? && !p.table.Workspaces? {
      LoadOneKeepsNodes(db, p.workspace.value, trees, WorkspaceId, WorkspaceSlot);
    }
  }

  lemma {:induction false} OtherEdgeKeepsNodes(db: Db, p: Plan, trees: seq<Tree>)
    requires OtherEdge(db, p, trees).Ok?
    ensures SameNodes(OtherEdge(db, p, trees).value, trees)
  {
    if p.other.Some? {
      if p.table.Recipients? {
        LoadOneKeepsNodes(db, p.other.value, trees, BroadcastId, BroadcastSlot);
      }
    }
  }

  /** Eager loading adds edges to the nodes of the plain query and changes nothing else of them. */
  lemma {:induction false} AllKeepsNodes(db: Db, p: Plan)
    requires All(db, p).Ok?
    ensures Fetch(db, p).Ok? && SameNodes(All(db, p).value, Bare(p, Fetch(db, p).value))
  {
    var nodes := Fetch(db, p).value;
    if nodes != [] {
      WorkspaceEdgeKeepsNodes(db, p, Bare(p, nodes));
      OtherEdgeKeepsNodes(db, p, WorkspaceEdge(db, p, Bare(p, nodes)).value);
    }
  }

  // ----- no unexpected foreign key -----

  lemma {:induction false} IdsHeld(trees: seq<Tree>, id: int)
    requires id in Ids(trees)
    ensures Holder(trees, id).Some?
  {}

  /**
   The loaders never report an unexpected foreign key: whatever predicates, window, fields
   and edges the nested query has, a to-one load fails only as its nested query does, and
   gives every node the neighbour with its foreign key.
   */
  lemma {:induction false} ToOneIsLookup(db: Db, n: Plan, trees: seq<Tree>, fk: Column, slot: Slot)
    requires Sound(db) && TypedDb(db) && trees != []
    ensures var es := All(db, Restricted(n, Id, Keys(trees, fk)));
            if es.Err? then LoadOne(db, n, trees, fk, slot) == Err(es.error)
            else
              && LoadOne(db, n, trees, fk, slot).Ok?
              && forall k :: 0 <= k < |trees| ==>
                   LoadOne(db, n, trees, fk, slot).value[k] == Looked(trees[k], fk, slot, es.value)
  {
    var keys := Keys(trees, fk);
    var es := All(db, Restricted(n, Id, keys));
    if es.Ok? {
      AllKeepsNodes(db, Restricted(n, Id, keys));
      FetchedIdsAreKeys(db, n, keys);
      OnesSucceed(trees, fk, slot, es.value);
      forall k | 0 <= k < |trees|
        ensures LoadOne(db, n, trees, fk, slot).value[k] == Looked(trees[k], fk, slot, es.value)
      {
        OnesAreLookups(trees, fk, slot, es.value, k);
      }
    }
  }

  /** The same for a to-many load: every node gets its children, and the lists add up to what was fetched. */
  lemma {:induction false} ToManyIsFilter(db: Db, n: Plan, trees: seq<Tree>)
    requires Sound(db) && TypedDb(db) && n.table.Recipients?
    ensures var es := All(db, ForChildren(n, Ids(trees)));
            if es.Err? then LoadMany(db, n, trees) == Err(es.error)
            else
              && LoadMany(db, n, trees).Ok?
              && (forall k :: 0 <= k < |trees| ==> LoadMany(db, n, trees).value[k] == Joined(trees, k, es.value))
              && Loaded(LoadMany(db, n, trees).value) == |es.value|
  {
    var p := ForChildren(n, Ids(trees));
    var es := All(db, p);
    if es.Ok? {
      AllKeepsNodes(db, p);
      FetchedParentsAreKeys(db, n, Ids(trees));
      assert KnownParents(trees, es.value) by {
        forall j | 0 <= j < |es.value| ensures Holder(trees, IntField(es.value[j].node, BroadcastId)).Some? {
          assert es.value[j].node == Fetch(db, p).value[j];
          IdsHeld(trees, IntField(es.value[j].node, BroadcastId));
        }
      }
      ManySucceed(trees, es.value);
      forall k | 0 <= k < |trees| ensures LoadMany(db, n, trees).value[k] == Joined(trees, k, es.value) {
        ManyAreFilters(trees, es.value, k);
      }
      ManyConserves(trees, es.value);
    }
  }
}
