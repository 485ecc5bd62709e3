/**
 Running a query with its eager-loaded edges, on values: `sqlAll`, `loadWorkspace`,
 `loadBroadcast` and `loadRecipients`, and the query left behind.
 */
module EagerPlan {
  import opened Prelude
  import opened Schema
  import opened QueryPlan
  import RowCodec
  import RowCreate

  type Node = RowCodec.Node

  /** A returned entity with its `Edges`; `recipients` is None while the slice is nil. */
  datatype Tree = Tree(
    node: Node,
    loadedWorkspace: bool,
    loadedOther: bool,
    workspace: Option<Tree>,
    broadcast: Option<Tree>,
    recipients: Option<seq<Tree>>)

  datatype Slot = WorkspaceSlot | BroadcastSlot

  function AllColumns(t: Table): seq<Column> {
    match t
    case Broadcasts => RowCodec.Columns(RowCodec.Broadcast)
    case Recipients => RowCodec.Columns(RowCodec.Recipient)
    case Workspaces =>
      [Id, CreatedAt, UpdatedAt, Name, Other("slug"), Other("collect_key"), Other("ingest_key"),
       Other("require_confirmed_opt_in"), Other("postal_address"), Other("retention_days"),
       Other("second_factor_required_at"), Other("suspended_at"), Other("suspended_by"), Other("suspension_reason")]
  }

  /** The decoder of each table; for workspaces only its effect is stated. */
  function DecodeRow(t: Table, columns: seq<Column>, row: Row): Node {
    match t
    case Broadcasts => RowCreate.Decode(RowCodec.Broadcast, columns, row.id, row.fields)
    case Recipients => RowCreate.Decode(RowCodec.Recipient, columns, row.id, row.fields)
    case Workspaces => RowCodec.Node(if Id in columns then row.id else 0, RowCreate.Cut(row.fields, columns), map[])
  }

  /** A plain integer field of a node: zero when nothing was assigned. */
  function IntField(n: Node, c: Column): int {
    if c in n.fields && n.fields[c].IntV? then n.fields[c].i else 0
  }

  function FirstInvalid(all: seq<Column>, fields: seq<Column>): Option<Column> {
    if fields == [] then None
    else if fields[0] in all then FirstInvalid(all, fields[1..])
    else Some(fields[0])
  }

  function SpecOf(p: Plan): QuerySpec {
    Compile(AllColumns(p.table), p)
  }

  function Decoded(t: Table, columns: seq<Column>, rows: seq<Row>): (r: seq<Node>)
    ensures |r| == |rows| && forall k :: 0 <= k < |rows| ==> r[k] == DecodeRow(t, columns, rows[k])
  {
    seq(|rows|, k requires 0 <= k < |rows| => DecodeRow(t, columns, rows[k]))
  }

  /** `prepareQuery` and `QueryNodes`: the nodes without their edges. */
  function Fetch(db: Db, p: Plan): Result<seq<Node>, QueryError> {
    match FirstInvalid(AllColumns(p.table), p.ctx.fields)
    case Some(c) => Err(InvalidField(c))
    case None =>
      match Run(db, SpecStatement(SpecOf(p)))
      case Err(e) => Err(e)
      case Ok(rows) => Ok(Decoded(p.table, SpecOf(p).columns, rows))
  }

  // ----- keys -----

  /** The key list of a to-one loader: each foreign key once, in order of first appearance. */
  function Keys(trees: seq<Tree>, fk: Column): (r: seq<int>)
    ensures forall j, k :: 0 <= j < k < |r| ==> r[j] != r[k]
    ensures forall x :: x in r <==> exists k :: 0 <= k < |trees| && IntField(trees[k].node, fk) == x
  {
    if trees == [] then []
    else
      var last := trees[|trees| - 1];
      var before := Keys(trees[..|trees| - 1], fk);
      if IntField(last.node, fk) in before then before else before + [IntField(last.node, fk)]
  }

  function Ids(trees: seq<Tree>): (r: seq<int>)
    ensures |r| == |trees| && forall k :: 0 <= k < |trees| ==> r[k] == trees[k].node.id
  {
    seq(|trees|, k requires 0 <= k < |trees| => trees[k].node.id)
  }

  // ----- assigning neighbours -----

  function SetOne(t: Tree, slot: Slot, e: Tree): Tree {
    match slot
    case WorkspaceSlot => t.(workspace := Some(e))
    case BroadcastSlot => t.(broadcast := Some(e))
  }

  /** One neighbour handed to every node whose foreign key is its id. */
  function GiveOne(trees: seq<Tree>, fk: Column, slot: Slot, e: Tree): (r: seq<Tree>)
    ensures |r| == |trees|
    ensures forall k :: 0 <= k < |trees| ==>
              r[k] == if IntField(trees[k].node, fk) == e.node.id then SetOne(trees[k], slot, e) else trees[k]
  {
    seq(|trees|, k requires 0 <= k < |trees| =>
          if IntField(trees[k].node, fk) == e.node.id then SetOne(trees[k], slot, e) else trees[k])
  }

  /** The assignment loop of a to-one loader, over the neighbours in order. */
  function AssignOnes(trees: seq<Tree>, fk: Column, slot: Slot, es: seq<Tree>): (r: Result<seq<Tree>, QueryError>)
    ensures r.Ok? ==> |r.value| == |trees|
    decreases |es|
  {
    if es == [] then Ok(trees)
    else
      match AssignOnes(trees, fk, slot, es[..|es| - 1])
      case Err(err) => Err(err)
      case Ok(ts) =>
        var e := es[|es| - 1];
        if e.node.id in Keys(trees, fk) then Ok(GiveOne(ts, fk, slot, e)) else Err(UnexpectedKey(e.node.id))
  }

  /** The node the id map of a to-many loader holds for an id: the last one with it. */
  function Holder(trees: seq<Tree>, id: int): (r: Option<nat>)
    ensures r.Some? ==> r.value < |trees| && trees[r.value].node.id == id
    ensures forall k :: (if r.Some? then r.value + 1 else 0) <= k < |trees| ==> trees[k].node.id != id
  {
    if trees == [] then None
    else if trees[|trees| - 1].node.id == id then Some(|trees| - 1)
    else Holder(trees[..|trees| - 1], id)
  }

  function Append(t: Tree, e: Tree): Tree {
    t.(recipients := Some((if t.recipients.Some? then t.recipients.value else []) + [e]))
  }

  function Emptied(trees: seq<Tree>): (r: seq<Tree>)
    ensures |r| == |trees| && forall k :: 0 <= k < |trees| ==> r[k] == trees[k].(recipients := Some([]))
  {
    seq(|trees|, k requires 0 <= k < |trees| => trees[k].(recipients := Some([])))
  }

  /** The assignment loop of `loadRecipients`, after every node got an empty list. */
  function AssignMany(trees: seq<Tree>, es: seq<Tree>): (r: Result<seq<Tree>, QueryError>)
    ensures r.Ok? ==> |r.value| == |trees|
    ensures r.Ok? ==> forall k :: 0 <= k < |trees| ==> r.value[k].node == trees[k].node
    decreases |es|
  {
    if es == [] then Ok(trees)
    else
      match AssignMany(trees, es[..|es| - 1])
      case Err(err) => Err(err)
      case Ok(ts) =>
        var e := es[|es| - 1];
        var fk := IntField(e.node, BroadcastId);
        match Holder(trees, fk)
        case None => Err(UnexpectedKey(fk))
        case Some(k) => Ok(ts[k := Append(ts[k], e)])
  }

  // ----- nested queries -----

  /** Nesting depth. */
  function Depth(p: Plan): (d: nat)
    ensures p.workspace.Some? ==> Depth(p.workspace.value) < d
    ensures p.other.Some? ==> Depth(p.other.value) < d
  {
    var w := if p.workspace.Some? then Depth(p.workspace.value) else 0;
    var o := if p.other.Some? then Depth(p.other.value) else 0;
    1 + if w < o then o else w
  }

  function Restricted(n: Plan, c: Column, keys: seq<int>): (r: Plan)
    ensures Depth(r) == Depth(n)
  {
    n.(predicates := n.predicates + [KeyIn(c, keys)])
  }

  /** What `loadRecipients` does to the nested query: the foreign key is always selected. */
  function ForChildren(n: Plan, ids: seq<int>): (r: Plan)
    ensures Depth(r) == Depth(n)
  {
    var fields := if n.ctx.fields == [] then [] else AddOnce(n.ctx.fields, BroadcastId);
    Restricted(n.(ctx := n.ctx.(fields := fields)), BroadcastId, ids)
  }

  function Bare(p: Plan, nodes: seq<Node>): (r: seq<Tree>)
    ensures |r| == |nodes|
    ensures forall k :: 0 <= k < |nodes| ==>
              r[k] == Tree(nodes[k], p.workspace.Some?, p.other.Some?, None, None, None)
  {
    seq(|nodes|, k requires 0 <= k < |nodes| => Tree(nodes[k], p.workspace.Some?, p.other.Some?, None, None, None))
  }

  /** `All`: the nodes of the query with the edges it asks for. Workspaces have no edges here. */
  function All(db: Db, p: Plan): Result<seq<Tree>, QueryError>
    decreases Depth(p), 3
  {
    match Fetch(db, p)
    case Err(e) => Err(e)
    case Ok(nodes) =>
      if nodes == [] then Ok([])
      else
        match WorkspaceEdge(db, p, Bare(p, nodes))
        case Err(e) => Err(e)
        case Ok(trees) => OtherEdge(db, p, trees)
  }

  function WorkspaceEdge(db: Db, p: Plan, trees: seq<Tree>): Result<seq<Tree>, QueryError>
    decreases Depth(p), 2
  {
    if p.workspace.Some? && !p.table.Workspaces? then
      LoadOne(db, p.workspace.value, trees, WorkspaceId, WorkspaceSlot)
    else
      Ok(trees)
  }

  function OtherEdge(db: Db, p: Plan, trees: seq<Tree>): Result<seq<Tree>, QueryError>
    decreases Depth(p), 2
  {
    if p.other.None? then Ok(trees)
    else
      match p.table
      case Broadcasts => LoadMany(db, p.other.value, trees)
      case Recipients => LoadOne(db, p.other.value, trees, BroadcastId, BroadcastSlot)
      case Workspaces => Ok(trees)
  }

  function LoadOne(db: Db, n: Plan, trees: seq<Tree>, fk: Column, slot: Slot): Result<seq<Tree>, QueryError>
    decreases Depth(n), 4
  {
    if trees == [] then Ok(trees)
    else
      match All(db, Restricted(n, Id, Keys(trees, fk)))
      case Err(e) => Err(e)
      case Ok(es) => AssignOnes(trees, fk, slot, es)
  }

  function LoadMany(db: Db, n: Plan, trees: seq<Tree>): Result<seq<Tree>, QueryError>
    decreases Depth(n), 4
  {
    match All(db, ForChildren(n, Ids(trees)))
    case Err(e) => Err(e)
    case Ok(es) => AssignMany(Emptied(trees), es)
  }

  /** The query after `All`: the nested queries keep the key filters they were given. */
  function After(db: Db, p: Plan): Plan
    decreases Depth(p), 3
  {
    match Fetch(db, p)
    case Err(_) => p
    case Ok(nodes) =>
      if nodes == [] then p
      else
        var trees := Bare(p, nodes);
        var p1 := p.(workspace := AfterWorkspace(db, p, trees));
        match WorkspaceEdge(db, p, trees)
        case Err(_) => p1
        case Ok(ts) => p1.(other := AfterOther(db, p, ts))
  }

  function AfterWorkspace(db: Db, p: Plan, trees: seq<Tree>): Option<Plan>
    decreases Depth(p), 2
  {
    if p.workspace.None? || p.table.Workspaces? then p.workspace
    else Some(After(db, Restricted(p.workspace.value, Id, Keys(trees, WorkspaceId))))
  }

  function AfterOther(db: Db, p: Plan, trees: seq<Tree>): Option<Plan>
    decreases Depth(p), 2
  {
    if p.other.None? || p.table.Workspaces? then p.other
    else if p.table.Broadcasts? then Some(After(db, ForChildren(p.other.value, Ids(trees))))
    else Some(After(db, Restricted(p.other.value, Id, Keys(trees, BroadcastId))))
  }

  // ----- reading edges -----

  function WorkspaceOrErr(t: Tree): Result<Tree, QueryError> {
    if t.workspace.Some? then Ok(t.workspace.value)
    else if t.loadedWorkspace then Err(NotFound)
    else Err(NotLoaded)
  }

  function BroadcastOrErr(t: Tree): Result<Tree, QueryError> {
    if t.broadcast.Some? then Ok(t.broadcast.value)
    else if t.loadedOther then Err(NotFound)
    else Err(NotLoaded)
  }

  /** A nil list is returned as the empty one it behaves like. */
  function RecipientsOrErr(t: Tree): Result<seq<Tree>, QueryError> {
    if t.loadedOther then Ok(if t.recipients.Some? then t.recipients.value else [])
    else Err(NotLoaded)
  }
}
