/** What eager loading means in terms of the stored rows. */
module EagerTheorems {
  import opened Prelude
  import opened Schema
  import opened QueryPlan
  import opened EagerPlan
  import opened EagerJoin
  import RowCodec
  import RowCreate

  // ----- queries without a window -----

  predicate Windowless(p: Plan) {
    OrZero(p.ctx.limit) == 0 && OrZero(p.ctx.offset) == 0
  }

  /** A query without a window fetches every stored row its predicates accept, and no other. */
  lemma {:induction false} WindowlessRows(db: Db, p: Plan)
    requires Sound(db) && Windowless(p)
    ensures Rows(db, p) == Ok(Base(db, p))
    ensures forall r :: r in Base(db, p) <==> r in db.tables(p.table) && HoldsAll(p.predicates, r)
    ensures DistinctIds(Base(db, p))
  {
    var rows := Base(db, p);
    var matching := Matching(p.predicates, db.tables(p.table));
    CandidatesDistinct(db, SpecStatement(SpecOf(p)));
    SpecSelectsId(p);
    DedupKeepsIds(rows, SpecOf(p).columns);
    assert multiset(rows) == multiset(matching);
    forall r ensures r in rows <==> r in matching {
      assert r in rows <==> r in multiset(rows);
      assert r in matching <==> r in multiset(matching);
    }
  }

  lemma {:induction false} HoldsAllPlus(ps: seq<Predicate>, p: Predicate, r: Row)
    ensures HoldsAll(ps + [p], r) <==> HoldsAll(ps, r) && Holds(p, r)
  {
    if HoldsAll(ps + [p], r) {
      assert Holds((ps + [p])[|ps|], r);
      forall k | 0 <= k < |ps| ensures Holds(ps[k], r) {
        assert Holds((ps + [p])[k], r);
      }
    }
  }

  // ----- the edge fields of a result -----

  /** The row behind the k-th result of a query. */
  ghost function RowAt(db: Db, p: Plan, k: nat): Row
    requires Rows(db, p).Ok? && k < |Rows(db, p).value|
  {
    Rows(db, p).value[k]
  }

  lemma {:induction false} ResultsAreRows(db: Db, p: Plan)
    requires Sound(db) && TypedDb(db) && All(db, p).Ok?
    ensures Rows(db, p).Ok? && |All(db, p).value| == |Rows(db, p).value|
    ensures forall k :: 0 <= k < |All(db, p).value| ==>
              && All(db, p).value[k].node == DecodeRow(p.table, SpecOf(p).columns, RowAt(db, p, k))
              && All(db, p).value[k].node.id == RowAt(db, p, k).id
              && RowAt(db, p, k) in db.tables(p.table) && HoldsAll(p.predicates, RowAt(db, p, k))
  {
    AllKeepsNodes(db, p);
    RowsTyped(db, p);
    SpecSelectsId(p);
    forall k | 0 <= k < |All(db, p).value|
      ensures All(db, p).value[k].node == DecodeRow(p.table, SpecOf(p).columns, RowAt(db, p, k))
      ensures All(db, p).value[k].node.id == RowAt(db, p, k).id
    {
      DecodedId(p.table, SpecOf(p).columns, RowAt(db, p, k));
    }
  }

  // ----- what a result shows -----

  /** The node has the row's id and, of the given columns, exactly the cells the row has. */
  ghost predicate ShowsRow(n: Node, row: Row, columns: seq<Column>) {
    && n.id == row.id
    && (forall c :: c in n.fields <==> c in row.fields && c in columns)
    && (forall c :: c in n.fields ==> n.fields[c] == row.fields[c])
  }

  lemma {:induction false} DecodedShowsRow(t: Table, columns: seq<Column>, row: Row)
    requires TypedRow(t, row) && Id in columns
    ensures ShowsRow(DecodeRow(t, columns, row), row, columns)
  {
    match t
    case Broadcasts => RowCreate.DecodeSelects(RowCodec.Broadcast, columns, row.id, row.fields);
    case Recipients => RowCreate.DecodeSelects(RowCodec.Recipient, columns, row.id, row.fields);
    case Workspaces =>
  }

  /** What the caller's selection and edges make a query read; nothing selected means every column. */
  predicate Reads(p: Plan, c: Column) {
    || p.ctx.fields == []
    || c == Id || c in p.ctx.fields
    || (c == WorkspaceId && p.workspace.Some?)
    || (c == BroadcastId && p.table.Recipients? && p.other.Some?)
  }

  lemma {:induction false} SelectedAreRead(all: seq<Column>, p: Plan, c: Column)
    ensures c in SpecColumns(all, p) <==> Reads(p, c) && (p.ctx.fields == [] ==> c in all)
  {}

  lemma {:induction false} TypedColumns(t: Table, row: Row, c: Column)
    requires TypedRow(t, row) && !t.Workspaces? && c in row.fields
    ensures c in AllColumns(t)
  {
    if t.Broadcasts? {
      RowCodec.KnownListed(RowCodec.Broadcast, c);
    } else {
      RowCodec.KnownListed(RowCodec.Recipient, c);
    }
  }

  /** The node has the row's id and exactly the cells the query reads. */
  ghost predicate ShowsRead(p: Plan, n: Node, row: Row) {
    && n.id == row.id
    && (forall c :: c in n.fields <==> c in row.fields && Reads(p, c))
    && (forall c :: c in n.fields ==> n.fields[c] == row.fields[c])
  }

  /** The same in a table whose decoder is modelled. */
  ghost predicate ShownAs(p: Plan, n: Node, row: Row) {
    p.table.Workspaces? || ShowsRead(p, n, row)
  }

  /**
   Every result is its row: it has the row's id and every cell the query reads, which without a
   selection is the whole row, and no other.
   */
  lemma {:induction false} ResultsShowRows(db: Db, p: Plan, k: nat)
    requires Sound(db) && TypedDb(db) && !p.table.Workspaces? && All(db, p).Ok? && k < |All(db, p).value|
    ensures Rows(db, p).Ok? && k < |Rows(db, p).value|
    ensures ShowsRead(p, All(db, p).value[k].node, RowAt(db, p, k))
  {
    ResultsAreRows(db, p);
    RowsTyped(db, p);
    RowIsRead(p, RowAt(db, p, k));
  }

  lemma {:induction false} RowIsRead(p: Plan, row: Row)
    requires TypedRow(p.table, row) && !p.table.Workspaces?
    ensures ShowsRead(p, DecodeRow(p.table, SpecOf(p).columns, row), row)
  {
    SpecSelectsId(p);
    DecodedShowsRow(p.table, SpecOf(p).columns, row);
    forall c | c in row.fields ensures c in SpecOf(p).columns <==> Reads(p, c) {
      SelectedAreRead(AllColumns(p.table), p, c);
      TypedColumns(p.table, row, c);
    }
  }

  /** What a window leaves of some rows. */
  ghost predicate Windowed(rows: seq<Row>, offset: int, limit: int, kept: seq<Row>) {
    && offset >= 0 && limit >= 0
    && (|rows| <= offset ==> kept == [])
    && (offset < |rows| ==> |kept| == if limit == 0 || |rows| - offset <= limit then |rows| - offset else limit)
    && forall k :: 0 <= k < |kept| ==> kept[k] == rows[offset + k]
  }

  lemma {:induction false} WindowTakes(ctx: Context, rows: seq<Row>)
    ensures match SpecWindow(ctx, rows)
            case Ok(kept) => Windowed(rows, OrZero(ctx.offset), OrZero(ctx.limit), kept)
            case Err(e) => e == BadWindow && (OrZero(ctx.offset) < 0 || OrZero(ctx.limit) < 0)
  {}

  lemma {:induction false} RowsTakeWindow(db: Db, p: Plan)
    requires Sound(db)
    ensures match Rows(db, p)
            case Ok(kept) => Windowed(Base(db, p), OrZero(p.ctx.offset), OrZero(p.ctx.limit), kept)
            case Err(e) => e == BadWindow && (OrZero(p.ctx.offset) < 0 || OrZero(p.ctx.limit) < 0)
  {
    CandidatesDistinct(db, SpecStatement(SpecOf(p)));
    SpecSelectsId(p);
    DedupKeepsIds(Base(db, p), SpecOf(p).columns);
    assert Rows(db, p) == SpecWindow(p.ctx, Base(db, p));
    WindowTakes(p.ctx, Base(db, p));
  }

  /** The results are the candidates in order, without those the offset skips, up to the limit. */
  lemma {:induction false} AllTakesWindow(db: Db, p: Plan)
    requires Sound(db) && TypedDb(db) && All(db, p).Ok?
    ensures Rows(db, p).Ok? && |Rows(db, p).value| == |All(db, p).value|
    ensures Windowed(Base(db, p), OrZero(p.ctx.offset), OrZero(p.ctx.limit), Rows(db, p).value)
  {
    ResultsAreRows(db, p);
    RowsTakeWindow(db, p);
  }

  /** A caller's predicates filter: results satisfy them, and without a window nothing else is left out. */
  lemma {:induction false} PredicatesFilter(db: Db, p: Plan, row: Row)
    requires Sound(db) && TypedDb(db) && All(db, p).Ok?
    requires forall i :: 0 <= i < |p.predicates| ==> p.predicates[i].Custom?
    ensures Rows(db, p).Ok? && |Rows(db, p).value| == |All(db, p).value|
    ensures row in Rows(db, p).value ==>
              row in db.tables(p.table) && forall i :: 0 <= i < |p.predicates| ==> p.predicates[i].holds(row)
    ensures Windowless(p) && row in db.tables(p.table) && (forall i :: 0 <= i < |p.predicates| ==> p.predicates[i].holds(row)) ==>
              row in Rows(db, p).value
  {
    ResultsAreRows(db, p);
    if row in Rows(db, p).value {
      var k :| 0 <= k < |Rows(db, p).value| && RowAt(db, p, k) == row;
      forall i | 0 <= i < |p.predicates| ensures p.predicates[i].holds(row) {
        assert Holds(p.predicates[i], row);
      }
    }
    if Windowless(p) { WindowlessRows(db, p); }
  }

  // ----- edges that were not asked for -----

  /** A result of a query without an edge has it not loaded. */
  lemma {:induction false} UnaskedEdgesAreNotLoaded(db: Db, p: Plan, k: nat)
    requires All(db, p).Ok? && k < |All(db, p).value|
    ensures p.workspace.None? ==> WorkspaceOrErr(All(db, p).value[k]) == Err(NotLoaded)
    ensures p.other.None? ==> BroadcastOrErr(All(db, p).value[k]) == Err(NotLoaded)
    ensures p.other.None? ==> RecipientsOrErr(All(db, p).value[k]) == Err(NotLoaded)
  {
    AllKeepsNodes(db, p);
    var bare := Bare(p, Fetch(db, p).value);
    WorkspaceEdgeOnly(db, p, bare);
    OtherEdgeOnly(db, p, WorkspaceEdge(db, p, bare).value, k);
  }

  /** Loading workspaces sets the workspace edge only. */
  lemma {:induction false} WorkspaceEdgeOnly(db: Db, p: Plan, trees: seq<Tree>)
    requires WorkspaceEdge(db, p, trees).Ok?
    ensures |WorkspaceEdge(db, p, trees).value| == |trees|
    ensures forall k :: 0 <= k < |trees| ==>
              WorkspaceEdge(db, p, trees).value[k] == trees[k].(workspace := WorkspaceEdge(db, p, trees).value[k].workspace)
  {
    if p.workspace.Some? && !p.table.Workspaces? && trees != [] {
      var keys := Keys(trees, WorkspaceId);
      var es := All(db, Restricted(p.workspace.value, Id, keys)).value;
      forall k | 0 <= k < |trees|
        ensures WorkspaceEdge(db, p, trees).value[k] ==
                trees[k].(workspace := WorkspaceEdge(db, p, trees).value[k].workspace)
      {
        OnesAreLookups(trees, WorkspaceId, WorkspaceSlot, es, k);
      }
    }
  }

  /** The foreign key a result shows is the one stored in its row. */
  lemma {:induction false} ShownKey(db: Db, p: Plan, k: nat, c: Column)
    requires Sound(db) && TypedDb(db) && All(db, p).Ok? && k < |All(db, p).value|
    requires c in SpecOf(p).columns && c != Id
    ensures Rows(db, p).Ok? && k < |Rows(db, p).value|
    ensures IntField(All(db, p).value[k].node, c) == OrZero(Key(RowAt(db, p, k), c))
  {
    ResultsAreRows(db, p);
    RowsTyped(db, p);
    SpecSelectsId(p);
    DecodedKeys(p.table, SpecOf(p).columns, RowAt(db, p, k), c);
  }

  /** A requested to-one edge has its foreign key among the selected columns, whatever fields were chosen. */
  lemma {:induction false} RequestedKeysSelected(p: Plan)
    ensures p.workspace.Some? && !p.table.Workspaces? ==> WorkspaceId in SpecOf(p).columns
    ensures p.table.Recipients? && p.other.Some? ==> BroadcastId in SpecOf(p).columns
  {}

  // ----- to-one edges -----

  /** A stored row the nested query accepts for this key. */
  ghost predicate Target(db: Db, n: Plan, fk: int, r: Row) {
    r in db.tables(n.table) && r.id == fk && HoldsAll(n.predicates, r)
  }

  lemma {:induction false} NeighbourIsTarget(db: Db, n: Plan, keys: seq<int>, j: nat) returns (r: Row)
    requires Sound(db) && TypedDb(db)
    requires All(db, Restricted(n, Id, keys)).Ok? && j < |All(db, Restricted(n, Id, keys)).value|
    ensures Target(db, n, All(db, Restricted(n, Id, keys)).value[j].node.id, r)
    ensures ShownAs(n, All(db, Restricted(n, Id, keys)).value[j].node, r)
  {
    var p := Restricted(n, Id, keys);
    ResultsAreRows(db, p);
    r := RowAt(db, p, j);
    if !n.table.Workspaces? {
      ResultsShowRows(db, p, j);
      assert forall c :: Reads(p, c) == Reads(n, c);
    }
    HoldsAllPlus(n.predicates, KeyIn(Id, keys), r);
  }

  lemma {:induction false} TargetIsNeighbour(db: Db, n: Plan, keys: seq<int>, r: Row) returns (j: nat)
    requires Sound(db) && TypedDb(db) && Windowless(n) && r.id in keys && Target(db, n, r.id, r)
    requires All(db, Restricted(n, Id, keys)).Ok?
    ensures j < |All(db, Restricted(n, Id, keys)).value|
    ensures All(db, Restricted(n, Id, keys)).value[j].node.id == r.id
  {
    var p := Restricted(n, Id, keys);
    HoldsAllPlus(n.predicates, KeyIn(Id, keys), r);
    WindowlessRows(db, p);
    assert r in Base(db, p);
    j :| 0 <= j < |Base(db, p)| && Base(db, p)[j] == r;
    ResultsAreRows(db, p);
  }

  /** A stored row the nested query accepts for this key, shown as the given node. */
  ghost predicate TargetShown(db: Db, n: Plan, fk: int, r: Row, node: Node) {
    Target(db, n, fk, r) && ShownAs(n, node, r)
  }

  lemma {:induction false} TargetIsHeld(db: Db, n: Plan, keys: seq<int>, fk: int, r: Row)
    requires Sound(db) && TypedDb(db) && Windowless(n) && fk in keys && Target(db, n, fk, r)
    requires All(db, Restricted(n, Id, keys)).Ok?
    ensures Holder(All(db, Restricted(n, Id, keys)).value, fk).Some?
  {
    var j := TargetIsNeighbour(db, n, keys, r);
  }

  /**
   To-one loading equals per-row lookup. When a recipients query asks for its broadcasts
   through a nested query without a window, the edge of every result is the stored broadcast
   whose id is the recipient's foreign key, if the nested query accepts it, and NotFound
   otherwise.
   */
  lemma {:induction false} BroadcastEdgeIsLookup(db: Db, p: Plan, k: nat)
    requires Sound(db) && TypedDb(db)
    requires p.table.Recipients? && p.other.Some? && Windowless(p.other.value)
    requires All(db, p).Ok? && k < |All(db, p).value|
    ensures Rows(db, p).Ok? && k < |Rows(db, p).value|
    ensures var fk := OrZero(Key(RowAt(db, p, k), BroadcastId));
            match BroadcastOrErr(All(db, p).value[k])
            case Ok(e) => exists r :: TargetShown(db, p.other.value, fk, r, e.node)
            case Err(err) => err == NotFound && forall r :: !Target(db, p.other.value, fk, r)
  {
    RequestedKeysSelected(p);
    ShownKey(db, p, k, BroadcastId);
    BroadcastEdgeIsLooked(db, p, k);
    var n := p.other.value;
    var trees := All(db, p).value;
    var fk := IntField(trees[k].node, BroadcastId);
    var keys := Keys(trees, BroadcastId);
    assert fk in keys;
    var j := Holder(All(db, Restricted(n, Id, keys)).value, fk);
    if j.Some? {
      var r := NeighbourIsTarget(db, n, keys, j.value);
      assert TargetShown(db, n, fk, r, BroadcastOrErr(trees[k]).value.node);
    } else {
      forall r ensures !Target(db, n, fk, r) {
        if Target(db, n, fk, r) {
          TargetIsHeld(db, n, keys, fk, r);
        }
      }
    }
  }

  lemma {:induction false} KeysOfNodes(a: seq<Tree>, b: seq<Tree>, fk: Column)
    requires SameNodes(a, b)
    ensures Keys(a, fk) == Keys(b, fk)
    decreases |a|
  {
    if a != [] {
      KeysOfNodes(a[..|a| - 1], b[..|b| - 1], fk);
    }
  }

  /** The broadcast edge of a result is what the nested query fetched under its foreign key. */
  lemma {:induction false} BroadcastEdgeIsLooked(db: Db, p: Plan, k: nat)
    requires Sound(db) && TypedDb(db) && p.table.Recipients? && p.other.Some?
    requires All(db, p).Ok? && k < |All(db, p).value|
    ensures var trees := All(db, p).value;
            var es := All(db, Restricted(p.other.value, Id, Keys(trees, BroadcastId)));
            && es.Ok?
            && BroadcastOrErr(trees[k]) ==
               match Holder(es.value, IntField(trees[k].node, BroadcastId))
               case Some(j) => Ok(es.value[j])
               case None => Err(NotFound)
  {
    AllKeepsNodes(db, p);
    var bare := Bare(p, Fetch(db, p).value);
    var before := WorkspaceEdge(db, p, bare).value;
    WorkspaceEdgeOnly(db, p, bare);
    ToOneIsLookup(db, p.other.value, before, BroadcastId, BroadcastSlot);
    KeysOfNodes(before, All(db, p).value, BroadcastId);
    assert All(db, p).value[k] == Looked(before[k], BroadcastId, BroadcastSlot,
                                         All(db, Restricted(p.other.value, Id, Keys(before, BroadcastId))).value);
  }

  lemma {:induction false} OtherEdgeOnly(db: Db, p: Plan, trees: seq<Tree>, k: nat)
    requires OtherEdge(db, p, trees).Ok? && k < |trees|
    ensures |OtherEdge(db, p, trees).value| == |trees|
    ensures var t := OtherEdge(db, p, trees).value[k];
            t == trees[k].(broadcast := t.broadcast, recipients := t.recipients)
  {
    if p.other.Some? && p.table.Recipients? && trees != [] {
      OnesAreLookups(trees, BroadcastId, BroadcastSlot, All(db, Restricted(p.other.value, Id, Keys(trees, BroadcastId))).value, k);
    } else if p.other.Some? && p.table.Broadcasts? {
      ManyAreFilters(trees, All(db, ForChildren(p.other.value, Ids(trees))).value, k);
    }
  }

  /** The workspace edge of a result, whatever its other edge: what the nested query fetched under its foreign key. */
  lemma {:induction false} WorkspaceEdgeIsLooked(db: Db, p: Plan, k: nat)
    requires Sound(db) && TypedDb(db) && !p.table.Workspaces? && p.workspace.Some?
    requires All(db, p).Ok? && k < |All(db, p).value|
    ensures var trees := All(db, p).value;
            var es := All(db, Restricted(p.workspace.value, Id, Keys(trees, WorkspaceId)));
            && es.Ok?
            && WorkspaceOrErr(trees[k]) ==
               match Holder(es.value, IntField(trees[k].node, WorkspaceId))
               case Some(j) => Ok(es.value[j])
               case None => Err(NotFound)
  {
    AllKeepsNodes(db, p);
    var bare := Bare(p, Fetch(db, p).value);
    var before := WorkspaceEdge(db, p, bare).value;
    ToOneIsLookup(db, p.workspace.value, bare, WorkspaceId, WorkspaceSlot);
    OtherEdgeOnly(db, p, before, k);
    KeysOfNodes(bare, All(db, p).value, WorkspaceId);
    assert before[k] == Looked(bare[k], WorkspaceId, WorkspaceSlot,
                               All(db, Restricted(p.workspace.value, Id, Keys(bare, WorkspaceId))).value);
  }

  // ----- to-many edges -----

  /** A stored recipient of the broadcast that the nested query accepts. */
  ghost predicate Child(db: Db, n: Plan, id: int, r: Row) {
    r in db.tables(n.table) && Key(r, BroadcastId) == Some(id) && HoldsAll(n.predicates, r)
  }

  lemma {:induction false} DistinctHolder(trees: seq<Tree>, k: nat)
    requires k < |trees| && forall i, j :: 0 <= i < j < |trees| ==> trees[i].node.id != trees[j].node.id
    ensures Holder(trees, trees[k].node.id) == Some(k)
  {}

  lemma {:induction false} ResultIdsDistinct(db: Db, p: Plan)
    requires Sound(db) && TypedDb(db) && All(db, p).Ok?
    ensures forall i, j :: 0 <= i < j < |All(db, p).value| ==> All(db, p).value[i].node.id != All(db, p).value[j].node.id
  {
    ResultsAreRows(db, p);
    RowsDistinct(db, p);
    var trees := All(db, p).value;
    forall i, j | 0 <= i < j < |trees| ensures trees[i].node.id != trees[j].node.id {
      assert RowAt(db, p, i).id != RowAt(db, p, j).id;
    }
  }

  lemma {:induction false} RowsDistinct(db: Db, p: Plan)
    requires Sound(db) && Rows(db, p).Ok?
    ensures DistinctIds(Rows(db, p).value)
  {
    CandidatesDistinct(db, SpecStatement(SpecOf(p)));
    SpecSelectsId(p);
    DedupKeepsIds(Base(db, p), SpecOf(p).columns);
  }

  /** The recipients list of the k-th broadcast is its part of what the nested query fetched for all of them. */
  lemma {:induction false} RecipientsEdge(db: Db, p: Plan, k: nat)
    requires Sound(db) && TypedDb(db)
    requires p.table.Broadcasts? && p.other.Some? && p.other.value.table.Recipients?
    requires All(db, p).Ok? && k < |All(db, p).value|
    ensures var trees := All(db, p).value;
            var es := All(db, ForChildren(p.other.value, Ids(trees)));
            && es.Ok?
            && RecipientsOrErr(trees[k]) == Ok(Children(es.value, trees[k].node.id))
            && Loaded(trees) == |es.value|
  {
    AllKeepsNodes(db, p);
    ResultIdsDistinct(db, p);
    var bare := Bare(p, Fetch(db, p).value);
    var before := WorkspaceEdge(db, p, bare).value;
    WorkspaceEdgeOnly(db, p, bare);
    ToManyIsFilter(db, p.other.value, before);
    var trees := All(db, p).value;
    assert Ids(before) == Ids(trees);
    forall i, j | 0 <= i < j < |before| ensures before[i].node.id != before[j].node.id {
      assert trees[i].node.id == before[i].node.id && trees[j].node.id == before[j].node.id;
    }
    DistinctHolder(before, k);
    assert trees[k] == Joined(before, k, All(db, ForChildren(p.other.value, Ids(before))).value);
  }

  lemma {:induction false} NeighbourIsChild(db: Db, n: Plan, ids: seq<int>, j: nat) returns (r: Row)
    requires Sound(db) && TypedDb(db) && n.table.Recipients?
    requires All(db, ForChildren(n, ids)).Ok? && j < |All(db, ForChildren(n, ids)).value|
    ensures var e := All(db, ForChildren(n, ids)).value[j];
            Child(db, n, IntField(e.node, BroadcastId), r) && r.id == e.node.id
  {
    var q := ForChildren(n, ids);
    ChildrenSelectKey(n, ids);
    ResultsAreRows(db, q);
    ShownKey(db, q, j, BroadcastId);
    r := RowAt(db, q, j);
    HoldsAllPlus(n.predicates, KeyIn(BroadcastId, ids), r);
  }

  lemma {:induction false} ChildIsNeighbour(db: Db, n: Plan, ids: seq<int>, id: int, r: Row) returns (j: nat)
    requires Sound(db) && TypedDb(db) && n.table.Recipients? && Windowless(n) && id in ids && Child(db, n, id, r)
    requires All(db, ForChildren(n, ids)).Ok?
    ensures j < |All(db, ForChildren(n, ids)).value|
    ensures var e := All(db, ForChildren(n, ids)).value[j];
            IntField(e.node, BroadcastId) == id && e.node.id == r.id
  {
    var q := ForChildren(n, ids);
    HoldsAllPlus(n.predicates, KeyIn(BroadcastId, ids), r);
    WindowlessRows(db, q);
    assert r in Base(db, q);
    j :| 0 <= j < |Base(db, q)| && Base(db, q)[j] == r;
    ChildrenSelectKey(n, ids);
    ResultsAreRows(db, q);
    ShownKey(db, q, j, BroadcastId);
  }

  /** Some tree of the list has this id. */
  ghost predicate Lists(es: seq<Tree>, id: int) {
    exists e :: e in es && e.node.id == id
  }

  /**
   To-many loading equals the nested-loop join: with a nested query without a window, an id
   is in the recipients of the k-th broadcast exactly when it belongs to a stored recipient
   of that broadcast which the nested query accepts.
   */
  lemma {:induction false} RecipientsAreChildren(db: Db, p: Plan, k: nat, id: int)
    requires Sound(db) && TypedDb(db)
    requires p.table.Broadcasts? && p.other.Some? && p.other.value.table.Recipients? && Windowless(p.other.value)
    requires All(db, p).Ok? && k < |All(db, p).value|
    ensures RecipientsOrErr(All(db, p).value[k]).Ok?
    ensures Lists(RecipientsOrErr(All(db, p).value[k]).value, id) <==>
            exists r :: Child(db, p.other.value, All(db, p).value[k].node.id, r) && r.id == id
  {
    RecipientsEdge(db, p, k);
    var trees := All(db, p).value;
    assert Ids(trees)[k] == trees[k].node.id;
    ListedIsChild(db, p.other.value, Ids(trees), trees[k].node.id, id);
    ChildIsListed(db, p.other.value, Ids(trees), trees[k].node.id, id);
  }

  lemma {:induction false} ListedIsChild(db: Db, n: Plan, ids: seq<int>, parent: int, id: int)
    requires Sound(db) && TypedDb(db) && n.table.Recipients? && All(db, ForChildren(n, ids)).Ok?
    ensures Lists(Children(All(db, ForChildren(n, ids)).value, parent), id) ==> exists r :: Child(db, n, parent, r) && r.id == id
  {
    var es := All(db, ForChildren(n, ids)).value;
    if e :| e in Children(es, parent) && e.node.id == id {
      var j :| 0 <= j < |es| && es[j] == e;
      var r := NeighbourIsChild(db, n, ids, j);
    }
  }

  lemma {:induction false} ChildIsListed(db: Db, n: Plan, ids: seq<int>, parent: int, id: int)
    requires Sound(db) && TypedDb(db) && n.table.Recipients? && Windowless(n) && parent in ids
    requires All(db, ForChildren(n, ids)).Ok?
    ensures (exists r :: Child(db, n, parent, r) && r.id == id) ==> Lists(Children(All(db, ForChildren(n, ids)).value, parent), id)
  {
    var es := All(db, ForChildren(n, ids)).value;
    if r :| Child(db, n, parent, r) && r.id == id {
      var j := ChildIsNeighbour(db, n, ids, parent, r);
      assert es[j] in Children(es, parent);
    }
  }

  // ----- failing loads -----

  /** The nested query an edge loader runs for these nodes. */
  ghost function ForWorkspace(p: Plan, trees: seq<Tree>): Plan
    requires p.workspace.Some?
  {
    Restricted(p.workspace.value, Id, Keys(trees, WorkspaceId))
  }

  ghost function ForOther(p: Plan, trees: seq<Tree>): Plan
    requires p.other.Some?
  {
    if p.table.Broadcasts? then ForChildren(p.other.value, Ids(trees))
    else Restricted(p.other.value, Id, Keys(trees, BroadcastId))
  }

  /**
   A query with rows fails exactly if the nested query of an edge it asks for does: with the
   error of the workspaces if theirs fails, whatever the other edge, else with that of the other.
   */
  lemma {:induction false} FailsAsFirstEdge(db: Db, p: Plan)
    requires Sound(db) && TypedDb(db) && !p.table.Workspaces?
    requires p.table.Broadcasts? && p.other.Some? ==> p.other.value.table.Recipients?
    requires Fetch(db, p).Ok? && Fetch(db, p).value != []
    ensures var bare := Bare(p, Fetch(db, p).value);
            if p.workspace.Some? && All(db, ForWorkspace(p, bare)).Err?
            then All(db, p) == Err(All(db, ForWorkspace(p, bare)).error)
            else if p.other.Some? && All(db, ForOther(p, bare)).Err?
            then All(db, p) == Err(All(db, ForOther(p, bare)).error)
            else All(db, p).Ok?
  {
    var bare := Bare(p, Fetch(db, p).value);
    if p.workspace.Some? {
      ToOneIsLookup(db, p.workspace.value, bare, WorkspaceId, WorkspaceSlot);
    }
    if WorkspaceEdge(db, p, bare).Ok? {
      var trees := WorkspaceEdge(db, p, bare).value;
      WorkspaceEdgeKeepsNodes(db, p, bare);
      if p.other.Some? {
        if p.table.Recipients? {
          KeysOfNodes(trees, bare, BroadcastId);
          ToOneIsLookup(db, p.other.value, trees, BroadcastId, BroadcastSlot);
        } else {
          assert Ids(trees) == Ids(bare);
          ToManyIsFilter(db, p.other.value, trees);
        }
      }
    }
  }

  // ----- the two directions -----

  /** Every stored recipient has its broadcast column, as the table demands. */
  ghost predicate KeysStored(db: Db) {
    forall r :: r in db.tables(Recipients) ==> Key(r, BroadcastId).Some?
  }

  /**
   The two directions of the edge are inverse. On one snapshot, whatever the two outer queries
   select and whatever predicates the windowless nested queries have: a recipient is in the
   loaded list of a broadcast, and its own nested query accepts the broadcast, exactly when
   loading the recipient's broadcast gives that broadcast, and the broadcast's nested query
   accepts the recipient.
   */
  lemma {:induction false} DirectionsAreInverse(db: Db, pb: Plan, k: nat, pr: Plan, j: nat)
    requires Sound(db) && TypedDb(db) && KeysStored(db)
    requires pb.table.Broadcasts? && pb.other.Some? && pb.other.value.table.Recipients? && Windowless(pb.other.value)
    requires pr.table.Recipients? && pr.other.Some? && pr.other.value.table.Broadcasts? && Windowless(pr.other.value)
    requires All(db, pb).Ok? && k < |All(db, pb).value|
    requires All(db, pr).Ok? && j < |All(db, pr).value|
    ensures Rows(db, pb).Ok? && k < |Rows(db, pb).value| && Rows(db, pr).Ok? && j < |Rows(db, pr).value|
    ensures var b, r := All(db, pb).value[k], All(db, pr).value[j];
            && RecipientsOrErr(b).Ok?
            && (Lists(RecipientsOrErr(b).value, r.node.id) && HoldsAll(pr.other.value.predicates, RowAt(db, pb, k)) <==>
                && BroadcastOrErr(r).Ok? && BroadcastOrErr(r).value.node.id == b.node.id
                && HoldsAll(pb.other.value.predicates, RowAt(db, pr, j)))
  {
    ListedByKey(db, pb, k, pr, j);
    FoundByKey(db, pb, k, pr, j);
  }

  /** A recipient is listed when its key is the broadcast's id and the nested query accepts it. */
  lemma {:induction false} ListedByKey(db: Db, pb: Plan, k: nat, pr: Plan, j: nat)
    requires Sound(db) && TypedDb(db)
    requires pb.table.Broadcasts? && pb.other.Some? && pb.other.value.table.Recipients? && Windowless(pb.other.value)
    requires pr.table.Recipients?
    requires All(db, pb).Ok? && k < |All(db, pb).value|
    requires All(db, pr).Ok? && j < |All(db, pr).value|
    ensures Rows(db, pr).Ok? && j < |Rows(db, pr).value|
    ensures RecipientsOrErr(All(db, pb).value[k]).Ok?
    ensures Lists(RecipientsOrErr(All(db, pb).value[k]).value, All(db, pr).value[j].node.id) <==>
            && Key(RowAt(db, pr, j), BroadcastId) == Some(All(db, pb).value[k].node.id)
            && HoldsAll(pb.other.value.predicates, RowAt(db, pr, j))
  {
    ResultsAreRows(db, pr);
    var row := RowAt(db, pr, j);
    RecipientsAreChildren(db, pb, k, row.id);
    OnlyRowWithId(db, Recipients, row);
    var parent, n := All(db, pb).value[k].node.id, pb.other.value;
    assert Key(row, BroadcastId) == Some(parent) && HoldsAll(n.predicates, row) ==> Child(db, n, parent, row);
  }

  /** A broadcast is found when it has the recipient's key as its id and the nested query accepts it. */
  lemma {:induction false} FoundByKey(db: Db, pb: Plan, k: nat, pr: Plan, j: nat)
    requires Sound(db) && TypedDb(db) && KeysStored(db)
    requires pb.table.Broadcasts?
    requires pr.table.Recipients? && pr.other.Some? && pr.other.value.table.Broadcasts? && Windowless(pr.other.value)
    requires All(db, pb).Ok? && k < |All(db, pb).value|
    requires All(db, pr).Ok? && j < |All(db, pr).value|
    ensures Rows(db, pb).Ok? && k < |Rows(db, pb).value| && Rows(db, pr).Ok? && j < |Rows(db, pr).value|
    ensures var r := All(db, pr).value[j];
            (BroadcastOrErr(r).Ok? && BroadcastOrErr(r).value.node.id == All(db, pb).value[k].node.id) <==>
            && Key(RowAt(db, pr, j), BroadcastId) == Some(All(db, pb).value[k].node.id)
            && HoldsAll(pr.other.value.predicates, RowAt(db, pb, k))
  {
    ResultsAreRows(db, pr);
    ResultsAreRows(db, pb);
    FoundId(db, pr, j);
    assert Key(RowAt(db, pr, j), BroadcastId).Some?;
    var fk, row, n := Key(RowAt(db, pr, j), BroadcastId).value, RowAt(db, pb, k), pr.other.value;
    if fk == row.id {
      if HoldsAll(n.predicates, row) {
        FoundIfTarget(db, pr, j, row);
      } else if BroadcastOrErr(All(db, pr).value[j]).Ok? {
        TargetOfFound(db, pr, j, row);
      }
    }
  }

  /** What is found under a key is the stored row with it, accepted by the nested query. */
  lemma {:induction false} TargetOfFound(db: Db, p: Plan, k: nat, row: Row)
    requires Sound(db) && TypedDb(db)
    requires p.table.Recipients? && p.other.Some? && p.other.value.table.Broadcasts? && Windowless(p.other.value)
    requires All(db, p).Ok? && k < |All(db, p).value| && BroadcastOrErr(All(db, p).value[k]).Ok?
    requires Rows(db, p).Ok? && k < |Rows(db, p).value|
    requires row in db.tables(Broadcasts) && row.id == OrZero(Key(RowAt(db, p, k), BroadcastId))
    ensures HoldsAll(p.other.value.predicates, row)
  {
    BroadcastEdgeIsLookup(db, p, k);
    OnlyRowWithId(db, Broadcasts, row);
  }

  lemma {:induction false} FoundId(db: Db, p: Plan, k: nat)
    requires Sound(db) && TypedDb(db)
    requires p.table.Recipients? && p.other.Some? && p.other.value.table.Broadcasts? && Windowless(p.other.value)
    requires All(db, p).Ok? && k < |All(db, p).value|
    ensures Rows(db, p).Ok? && k < |Rows(db, p).value|
    ensures var e := BroadcastOrErr(All(db, p).value[k]);
            e.Ok? ==> e.value.node.id == OrZero(Key(RowAt(db, p, k), BroadcastId))
  {
    BroadcastEdgeIsLookup(db, p, k);
    var e := BroadcastOrErr(All(db, p).value[k]);
    if e.Ok? {
      ShownTargetId(db, p.other.value, OrZero(Key(RowAt(db, p, k), BroadcastId)), e.value.node);
    }
  }

  lemma {:induction false} FoundIfTarget(db: Db, p: Plan, k: nat, r: Row)
    requires Sound(db) && TypedDb(db)
    requires p.table.Recipients? && p.other.Some? && Windowless(p.other.value)
    requires All(db, p).Ok? && k < |All(db, p).value|
    requires Rows(db, p).Ok? && k < |Rows(db, p).value|
    requires Target(db, p.other.value, OrZero(Key(RowAt(db, p, k), BroadcastId)), r)
    ensures BroadcastOrErr(All(db, p).value[k]).Ok?
  {
    BroadcastEdgeIsLookup(db, p, k);
  }

  lemma {:induction false} ShownTargetId(db: Db, n: Plan, fk: int, node: Node)
    requires TypedDb(db) && n.table.Broadcasts? && exists r :: TargetShown(db, n, fk, r, node)
    ensures node.id == fk
  {}

  lemma {:induction false} OnlyRowWithId(db: Db, t: Table, row: Row)
    requires Sound(db) && row in db.tables(t)
    ensures forall r :: r in db.tables(t) && r.id == row.id ==> r == row
  {}
}
