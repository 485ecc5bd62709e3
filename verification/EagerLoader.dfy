/**
 `sqlAll` and the edge loaders on objects: nodes are assigned in place through the id maps
 the loaders build, and the nested queries are narrowed before they run. Every method is
 proved equal to its counterpart in `EagerPlan`.
 */
module EagerLoader {
  import opened Prelude
  import opened Schema
  import opened QueryPlan
  import opened EagerPlan
  import B = QueryBuilder

  /** A node whose edges are being assigned. */
  class Item {
    const node: Node
    const loadedWorkspace: bool
    const loadedOther: bool
    var workspace: Option<Tree>
    var broadcast: Option<Tree>
    var recipients: Option<seq<Tree>>

    constructor (node: Node, loadedWorkspace: bool, loadedOther: bool)
      ensures View() == Tree(node, loadedWorkspace, loadedOther, None, None, None)
    {
      this.node, this.loadedWorkspace, this.loadedOther := node, loadedWorkspace, loadedOther;
      workspace, broadcast, recipients := None, None, None;
    }

    function View(): Tree
      reads this
    {
      Tree(node, loadedWorkspace, loadedOther, workspace, broadcast, recipients)
    }

    /** The assign callbacks of the to-one edges. */
    method SetEdge(slot: Slot, e: Tree)
      modifies this
      ensures View() == SetOne(old(View()), slot, e)
    {
      match slot
      case WorkspaceSlot => workspace := Some(e);
      case BroadcastSlot => broadcast := Some(e);
    }
  }

  function Trees(items: seq<Item>): (r: seq<Tree>)
    reads items
    ensures |r| == |items| && forall k :: 0 <= k < |items| ==> r[k] == items[k].View()
  {
    seq(|items|, k requires 0 <= k < |items| reads items => items[k].View())
  }

  ghost predicate Distinct(items: seq<Item>) {
    forall j, k :: 0 <= j < k < |items| ==> items[j] != items[k]
  }

  // ----- grouping by foreign key -----

  function KeyOf(x: Item, fk: Column): int {
    IntField(x.node, fk)
  }

  /** The foreign keys of the first n items, each once, in order of first appearance. */
  function KeyList(items: seq<Item>, n: nat, fk: Column): (r: seq<int>)
    requires n <= |items|
    ensures r == [] <==> n == 0
  {
    if n == 0 then []
    else
      var before := KeyList(items, n - 1, fk);
      var key := KeyOf(items[n - 1], fk);
      if key in before then before else before + [key]
  }

  /** The trees are of these items, whatever edges they have by now. */
  ghost predicate OfItems(trees: seq<Tree>, items: seq<Item>) {
    |trees| == |items| && forall k :: 0 <= k < |items| ==> trees[k].node == items[k].node
  }

  lemma {:induction false} KeyListIsKeys(items: seq<Item>, trees: seq<Tree>, n: nat, fk: Column)
    requires OfItems(trees, items) && n <= |items|
    ensures KeyList(items, n, fk) == Keys(trees[..n], fk)
  {
    if n > 0 {
      KeyListIsKeys(items, trees, n - 1, fk);
      assert trees[..n][..n - 1] == trees[..n - 1];
    }
  }

  /** Those of the first n items that have a foreign key, in order. */
  function Group(items: seq<Item>, n: nat, fk: Column, id: int): seq<Item>
    requires n <= |items|
  {
    if n == 0 then []
    else if KeyOf(items[n - 1], fk) == id then Group(items, n - 1, fk, id) + [items[n - 1]]
    else Group(items, n - 1, fk, id)
  }

  /** The id map of a to-one loader: it partitions the items by foreign key and keeps their order. */
  ghost predicate Groups(items: seq<Item>, n: nat, fk: Column, ids: seq<int>, groups: map<int, seq<Item>>)
    requires n <= |items|
  {
    forall id :: GroupOf(items, n, fk, ids, groups, id)
  }

  ghost predicate GroupOf(items: seq<Item>, n: nat, fk: Column, ids: seq<int>, groups: map<int, seq<Item>>, id: int)
    requires n <= |items|
  {
    && (id in groups <==> id in ids)
    && Group(items, n, fk, id) == if id in groups then groups[id] else []
  }

  lemma {:induction false} GroupsExtend(items: seq<Item>, n: nat, fk: Column, ids: seq<int>, groups: map<int, seq<Item>>)
    requires n < |items| && Groups(items, n, fk, ids, groups) && ids == KeyList(items, n, fk)
    ensures var key := KeyOf(items[n], fk);
            var ids' := if key in groups then ids else ids + [key];
            && Groups(items, n + 1, fk, ids', groups[key := (if key in groups then groups[key] else []) + [items[n]]])
            && ids' == KeyList(items, n + 1, fk)
  {
    var key := KeyOf(items[n], fk);
    assert GroupOf(items, n, fk, ids, groups, key);
    var ids' := if key in ids then ids else ids + [key];
    var groups' := groups[key := (if key in groups then groups[key] else []) + [items[n]]];
    var m := n + 1;
    forall id: int ensures GroupOf(items, m, fk, ids', groups', id) {
      assert GroupOf(items, n, fk, ids, groups, id);
    }
  }

  /** The first loop of `loadBroadcast` and `loadWorkspace`: the key list and the id map. */
  method GroupByKey(items: seq<Item>, fk: Column) returns (ids: seq<int>, groups: map<int, seq<Item>>)
    ensures ids == KeyList(items, |items|, fk)
    ensures Groups(items, |items|, fk, ids, groups)
  {
    ids, groups := [], map[];
    for i := 0 to |items|
      invariant ids == KeyList(items, i, fk)
      invariant Groups(items, i, fk, ids, groups)
    {
      var key := KeyOf(items[i], fk);
      GroupsExtend(items, i, fk, ids, groups);
      ids, groups := PutInGroup(ids, groups, key, items[i]);
    }
  }

  method PutInGroup(ids: seq<int>, groups: map<int, seq<Item>>, key: int, x: Item)
    returns (ids': seq<int>, groups': map<int, seq<Item>>)
    ensures ids' == if key in groups then ids else ids + [key]
    ensures groups' == groups[key := (if key in groups then groups[key] else []) + [x]]
  {
    ids', groups' := ids, groups;
    if key !in groups' {
      ids' := ids' + [key];
      groups' := groups'[key := []];
    }
    groups' := groups'[key := groups'[key] + [x]];
  }

  lemma {:induction false} GroupMembers(items: seq<Item>, n: nat, fk: Column, id: int, k: nat)
    requires k < n <= |items|
    ensures KeyOf(items[k], fk) == id ==> items[k] in Group(items, n, fk, id)
  {
    if k < n - 1 {
      GroupMembers(items, n - 1, fk, id, k);
    }
  }

  lemma {:induction false} GroupOnly(items: seq<Item>, n: nat, fk: Column, id: int)
    requires n <= |items|
    ensures forall x :: x in Group(items, n, fk, id) ==> x in items && KeyOf(x, fk) == id
  {
    if n > 0 {
      GroupOnly(items, n - 1, fk, id);
    }
  }

  // ----- the to-one assignment loop -----

  /** A loader that updates items in place did what its value form says. */
  ghost predicate Outcome(expected: Result<seq<Tree>, QueryError>, err: Option<QueryError>, trees: seq<Tree>) {
    match expected
    case Ok(ts) => err == None && trees == ts
    case Err(e) => err == Some(e)
  }

  /** The inner loop: one neighbour is assigned to every item of its group. */
  method GiveToGroup(items: seq<Item>, fk: Column, slot: Slot, group: seq<Item>, e: Tree)
    requires group == Group(items, |items|, fk, e.node.id)
    modifies items
    ensures Trees(items) == GiveOne(old(Trees(items)), fk, slot, e)
  {
    GroupOnly(items, |items|, fk, e.node.id);
    for i := 0 to |group|
      invariant forall x :: x in items ==>
                  x.View() == if x in group[..i] then SetOne(old(x.View()), slot, e) else old(x.View())
    {
      assert group[i] in items;
      group[i].SetEdge(slot, e);
    }
    assert group[..|group|] == group;
    forall k | 0 <= k < |items|
      ensures items[k].View() == GiveOne(old(Trees(items)), fk, slot, e)[k]
    {
      GroupMembers(items, |items|, fk, e.node.id, k);
    }
  }

  /** One turn of the assignment loop, on values. */
  lemma {:induction false} OneMore(start: seq<Tree>, fk: Column, slot: Slot, es: seq<Tree>, j: nat, ts: seq<Tree>)
    requires j < |es| && AssignOnes(start, fk, slot, es[..j]) == Ok(ts)
    ensures if es[j].node.id in Keys(start, fk)
            then AssignOnes(start, fk, slot, es[..j + 1]) == Ok(GiveOne(ts, fk, slot, es[j]))
            else AssignOnes(start, fk, slot, es) == Err(UnexpectedKey(es[j].node.id))
  {
    assert es[..j + 1][..j] == es[..j];
    if es[j].node.id !in Keys(start, fk) {
      OnesFailureStays(start, fk, slot, es, j + 1);
    }
  }

  lemma {:induction false} OnesFailureStays(trees: seq<Tree>, fk: Column, slot: Slot, es: seq<Tree>, j: nat)
    requires j <= |es| && AssignOnes(trees, fk, slot, es[..j]).Err?
    ensures AssignOnes(trees, fk, slot, es) == AssignOnes(trees, fk, slot, es[..j])
    decreases |es|
  {
    if j < |es| {
      assert es[..|es| - 1][..j] == es[..j];
      OnesFailureStays(trees, fk, slot, es[..|es| - 1], j);
    } else {
      assert es[..j] == es;
    }
  }

  /** One turn: the neighbour goes to its group, or has a key nobody asked for. */
  method AssignTurn(items: seq<Item>, fk: Column, slot: Slot, ids: seq<int>, groups: map<int, seq<Item>>,
                    es: seq<Tree>, j: nat, ghost start: seq<Tree>)
    returns (err: Option<QueryError>)
    requires Groups(items, |items|, fk, ids, groups) && ids == Keys(start, fk)
    requires j < |es| && AssignOnes(start, fk, slot, es[..j]) == Ok(Trees(items))
    modifies items
    ensures err.None? ==> AssignOnes(start, fk, slot, es[..j + 1]) == Ok(Trees(items))
    ensures err.Some? ==> AssignOnes(start, fk, slot, es) == Err(err.value)
  {
    OneMore(start, fk, slot, es, j, Trees(items));
    assert GroupOf(items, |items|, fk, ids, groups, es[j].node.id);
    if es[j].node.id !in groups {
      return Some(UnexpectedKey(es[j].node.id));
    }
    GiveToGroup(items, fk, slot, groups[es[j].node.id], es[j]);
    err := None;
  }

  /** The assignment loop of `loadBroadcast` and `loadWorkspace`. */
  method AssignToGroups(items: seq<Item>, fk: Column, slot: Slot, ids: seq<int>, groups: map<int, seq<Item>>, es: seq<Tree>)
    returns (err: Option<QueryError>)
    requires Groups(items, |items|, fk, ids, groups) && ids == Keys(Trees(items), fk)
    modifies items
    ensures Outcome(AssignOnes(old(Trees(items)), fk, slot, es), err, Trees(items))
  {
    ghost var start := Trees(items);
    for j := 0 to |es|
      invariant AssignOnes(start, fk, slot, es[..j]) == Ok(Trees(items))
    {
      err := AssignTurn(items, fk, slot, ids, groups, es, j, start);
      if err.Some? { return; }
    }
    assert es[..|es|] == es;
    err := None;
  }

  // ----- the to-many loops -----

  /** The position of the last of the first n items with an id. */
  function Last(items: seq<Item>, n: nat, id: int): (r: Option<nat>)
    requires n <= |items|
    ensures r.Some? ==> r.value < n
  {
    if n == 0 then None
    else if items[n - 1].node.id == id then Some(n - 1)
    else Last(items, n - 1, id)
  }

  lemma {:induction false} LastIsHolder(items: seq<Item>, trees: seq<Tree>, n: nat, id: int)
    requires OfItems(trees, items) && n <= |items|
    ensures Last(items, n, id) == Holder(trees[..n], id)
  {
    if n > 0 {
      LastIsHolder(items, trees, n - 1, id);
      assert trees[..n][..n - 1] == trees[..n - 1];
    }
  }

  /** The id map of `loadRecipients`: each id leads to the last item with it. */
  ghost predicate Holders(items: seq<Item>, n: nat, holders: map<int, Item>)
    requires n <= |items|
  {
    forall id :: HolderOf(items, n, holders, id)
  }

  ghost predicate HolderOf(items: seq<Item>, n: nat, holders: map<int, Item>, id: int)
    requires n <= |items|
  {
    match Last(items, n, id)
    case None => id !in holders
    case Some(k) => id in holders && holders[id] == items[k]
  }

  lemma {:induction false} HoldersExtend(items: seq<Item>, n: nat, holders: map<int, Item>)
    requires n < |items| && Holders(items, n, holders)
    ensures Holders(items, n + 1, holders[items[n].node.id := items[n]])
  {
    var m := n + 1;
    var holders' := holders[items[n].node.id := items[n]];
    forall id: int ensures HolderOf(items, m, holders', id) {
      assert HolderOf(items, n, holders, id);
    }
  }

  /** The first loop of `loadRecipients`: the ids, the id map, and an empty list for every item. */
  method IndexAndEmpty(items: seq<Item>) returns (ids: seq<int>, holders: map<int, Item>)
    requires Distinct(items)
    modifies items
    ensures ids == Ids(Trees(items)) && Holders(items, |items|, holders)
    ensures Trees(items) == Emptied(old(Trees(items)))
  {
    ids, holders := [], map[];
    for i := 0 to |items|
      invariant |ids| == i && forall k :: 0 <= k < i ==> ids[k] == items[k].node.id
      invariant Holders(items, i, holders)
      invariant forall k :: 0 <= k < i ==> items[k].View() == old(items[k].View()).(recipients := Some([]))
      invariant forall k :: i <= k < |items| ==> items[k].View() == old(items[k].View())
    {
      ids := ids + [items[i].node.id];
      HoldersExtend(items, i, holders);
      holders := holders[items[i].node.id := items[i]];
      items[i].recipients := Some([]);
    }
  }

  lemma {:induction false} ManyMore(start: seq<Tree>, es: seq<Tree>, j: nat, ts: seq<Tree>)
    requires j < |es| && AssignMany(start, es[..j]) == Ok(ts)
    ensures match Holder(start, IntField(es[j].node, BroadcastId))
            case Some(k) => AssignMany(start, es[..j + 1]) == Ok(ts[k := Append(ts[k], es[j])])
            case None => AssignMany(start, es) == Err(UnexpectedKey(IntField(es[j].node, BroadcastId)))
  {
    assert es[..j + 1][..j] == es[..j];
    if Holder(start, IntField(es[j].node, BroadcastId)).None? {
      ManyFailureStays(start, es, j + 1);
    }
  }

  lemma {:induction false} ManyFailureStays(trees: seq<Tree>, es: seq<Tree>, j: nat)
    requires j <= |es| && AssignMany(trees, es[..j]).Err?
    ensures AssignMany(trees, es) == AssignMany(trees, es[..j])
    decreases |es|
  {
    if j < |es| {
      assert es[..|es| - 1][..j] == es[..j];
      ManyFailureStays(trees, es[..|es| - 1], j);
    } else {
      assert es[..j] == es;
    }
  }

  /** One child is appended to the list of its holder; every other item keeps its edges. */
  method AppendTo(items: seq<Item>, ghost k: nat, x: Item, e: Tree)
    requires Distinct(items) && k < |items| && x == items[k]
    modifies x
    ensures Trees(items) == old(Trees(items))[k := Append(old(Trees(items))[k], e)]
  {
    x.recipients := Some((if x.recipients.Some? then x.recipients.value else []) + [e]);
  }

  /** The assignment loop of `loadRecipients`. */
  method AppendToHolders(items: seq<Item>, holders: map<int, Item>, es: seq<Tree>) returns (err: Option<QueryError>)
    requires Distinct(items) && Holders(items, |items|, holders)
    modifies items
    ensures Outcome(AssignMany(old(Trees(items)), es), err, Trees(items))
  {
    ghost var start := Trees(items);
    for j := 0 to |es|
      invariant AssignMany(start, es[..j]) == Ok(Trees(items))
    {
      ManyMore(start, es, j, Trees(items));
      var fk := IntField(es[j].node, BroadcastId);
      LastIsHolder(items, start, |items|, fk);
      assert start[..|items|] == start;
      assert HolderOf(items, |items|, holders, fk);
      if fk !in holders {
        return Some(UnexpectedKey(fk));
      }
      AppendTo(items, Last(items, |items|, fk).value, holders[fk], es[j]);
    }
    assert es[..|es|] == es;
    err := None;
  }

  // ----- running a query -----

  /** The receivers of the scanned rows. */
  method NewItems(nodes: seq<Node>, workspace: bool, other: bool) returns (items: seq<Item>)
    ensures Distinct(items) && fresh(items)
    ensures |items| == |nodes|
    ensures forall k :: 0 <= k < |nodes| ==> items[k].View() == Tree(nodes[k], workspace, other, None, None, None)
  {
    items := [];
    for i := 0 to |nodes|
      invariant |items| == i && Distinct(items) && fresh(items)
      invariant forall k :: 0 <= k < i ==> items[k].View() == Tree(nodes[k], workspace, other, None, None, None)
    {
      var x := new Item(nodes[i], workspace, other);
      items := items + [x];
    }
  }

  ghost predicate Apart(items: seq<Item>, footprint: set<object>) {
    forall k :: 0 <= k < |items| ==> items[k] !in footprint
  }

  /** `sqlAll`: the nodes of a query with the edges it asks for. */
  method All(q: B.Query, db: Db) returns (r: Result<seq<Tree>, QueryError>)
    requires q.Valid()
    modifies q.Repr
    ensures q.Valid() && q.Repr == old(q.Repr)
    ensures r == EagerPlan.All(db, old(q.View()))
    ensures q.View() == After(db, old(q.View()))
    decreases q.Repr, 2
  {
    match Fetch(db, q.View())
    case Err(e) => r := Err(e);
    case Ok(nodes) =>
      if nodes == [] { return Ok([]); }
      ghost var p := q.View();
      var items := NewItems(nodes, q.workspace != null, q.other != null);
      assert Trees(items) == Bare(p, nodes);
      var err := LoadWorkspace(q, db, items);
      if err.Some? { return Err(err.value); }
      ghost var ts := Trees(items);
      OtherSeesOwnEdge(db, p, q.View(), ts);
      err := LoadOther(q, db, items);
      r := if err.Some? then Err(err.value) else Ok(Trees(items));
  }

  /** The second edge does not depend on what the first one left in its nested query. */
  lemma {:induction false} OtherSeesOwnEdge(db: Db, p: Plan, p1: Plan, ts: seq<Tree>)
    requires p1 == p.(workspace := p1.workspace)
    ensures OtherEdge(db, p1, ts) == OtherEdge(db, p, ts) && AfterOther(db, p1, ts) == AfterOther(db, p, ts)
  {}

  method LoadWorkspace(q: B.Query, db: Db, items: seq<Item>) returns (err: Option<QueryError>)
    requires q.Valid() && Distinct(items) && Apart(items, q.Repr) && items != []
    modifies q.Repr, items
    ensures q.Valid() && q.Repr == old(q.Repr)
    ensures Outcome(WorkspaceEdge(db, old(q.View()), old(Trees(items))), err, Trees(items))
    ensures q.View() == old(q.View()).(workspace := AfterWorkspace(db, old(q.View()), old(Trees(items))))
    decreases q.Repr, 1
  {
    err := None;
    if q.workspace != null && !q.table.Workspaces? {
      OneIsWorkspace(db, q.View(), Trees(items));
      err := RunWorkspaceEdge(q, db, items);
    }
  }

  method LoadOther(q: B.Query, db: Db, items: seq<Item>) returns (err: Option<QueryError>)
    requires q.Valid() && Distinct(items) && Apart(items, q.Repr) && items != []
    modifies q.Repr, items
    ensures q.Valid() && q.Repr == old(q.Repr)
    ensures Outcome(OtherEdge(db, old(q.View()), old(Trees(items))), err, Trees(items))
    ensures q.View() == old(q.View()).(other := AfterOther(db, old(q.View()), old(Trees(items))))
    decreases q.Repr, 1
  {
    err := None;
    if q.other != null && q.table.Broadcasts? {
      ManyIsOther(db, q.View(), Trees(items));
      err := RunRecipientsEdge(q, db, items);
    } else if q.other != null && q.table.Recipients? {
      OneIsOther(db, q.View(), Trees(items));
      err := RunBroadcastEdge(q, db, items);
    }
  }

  lemma {:induction false} OneIsWorkspace(db: Db, p: Plan, ts: seq<Tree>)
    requires !p.table.Workspaces? && p.workspace.Some?
    ensures WorkspaceEdge(db, p, ts) == EagerPlan.LoadOne(db, p.workspace.value, ts, WorkspaceId, WorkspaceSlot)
    ensures AfterWorkspace(db, p, ts) == Some(After(db, Restricted(p.workspace.value, Id, Keys(ts, WorkspaceId))))
  {}

  lemma {:induction false} OneIsOther(db: Db, p: Plan, ts: seq<Tree>)
    requires p.table.Recipients? && p.other.Some?
    ensures OtherEdge(db, p, ts) == EagerPlan.LoadOne(db, p.other.value, ts, BroadcastId, BroadcastSlot)
    ensures AfterOther(db, p, ts) == Some(After(db, Restricted(p.other.value, Id, Keys(ts, BroadcastId))))
  {}

  lemma {:induction false} ManyIsOther(db: Db, p: Plan, ts: seq<Tree>)
    requires p.table.Broadcasts? && p.other.Some?
    ensures OtherEdge(db, p, ts) == EagerPlan.LoadMany(db, p.other.value, ts)
    ensures AfterOther(db, p, ts) == Some(After(db, ForChildren(p.other.value, Ids(ts))))
  {}

  method RunWorkspaceEdge(q: B.Query, db: Db, items: seq<Item>) returns (err: Option<QueryError>)
    requires q.Valid() && Distinct(items) && Apart(items, q.Repr) && items != [] && q.workspace != null
    modifies q.Repr, items
    ensures q.Valid() && q.Repr == old(q.Repr)
    ensures Outcome(EagerPlan.LoadOne(db, old(q.View()).workspace.value, old(Trees(items)), WorkspaceId, WorkspaceSlot), err, Trees(items))
    ensures q.View() == old(q.View()).(
                        workspace := Some(After(db, Restricted(old(q.View()).workspace.value, Id, Keys(old(Trees(items)), WorkspaceId)))))
    decreases q.Repr, 0
  {
    err := LoadOne(q.workspace, db, items, WorkspaceId, WorkspaceSlot);
  }

  method RunBroadcastEdge(q: B.Query, db: Db, items: seq<Item>) returns (err: Option<QueryError>)
    requires q.Valid() && Distinct(items) && Apart(items, q.Repr) && items != [] && q.other != null
    modifies q.Repr, items
    ensures q.Valid() && q.Repr == old(q.Repr)
    ensures Outcome(EagerPlan.LoadOne(db, old(q.View()).other.value, old(Trees(items)), BroadcastId, BroadcastSlot), err, Trees(items))
    ensures q.View() == old(q.View()).(
                        other := Some(After(db, Restricted(old(q.View()).other.value, Id, Keys(old(Trees(items)), BroadcastId)))))
    decreases q.Repr, 0
  {
    err := LoadOne(q.other, db, items, BroadcastId, BroadcastSlot);
  }

  method RunRecipientsEdge(q: B.Query, db: Db, items: seq<Item>) returns (err: Option<QueryError>)
    requires q.Valid() && Distinct(items) && Apart(items, q.Repr) && items != [] && q.other != null
    modifies q.Repr, items
    ensures q.Valid() && q.Repr == old(q.Repr)
    ensures Outcome(EagerPlan.LoadMany(db, old(q.View()).other.value, old(Trees(items))), err, Trees(items))
    ensures q.View() == old(q.View()).(
                        other := Some(After(db, ForChildren(old(q.View()).other.value, Ids(old(Trees(items)))))))
    decreases q.Repr, 0
  {
    err := LoadMany(q.other, db, items);
  }

  /** `loadWorkspace` and `loadBroadcast`. */
  method LoadOne(n: B.Query, db: Db, items: seq<Item>, fk: Column, slot: Slot) returns (err: Option<QueryError>)
    requires n.Valid() && Apart(items, n.Repr)
    modifies n.Repr, items
    ensures n.Valid() && n.Repr == old(n.Repr)
    ensures Outcome(EagerPlan.LoadOne(db, old(n.View()), old(Trees(items)), fk, slot), err, Trees(items))
    ensures n.View() == if items == [] then old(n.View())
                        else After(db, Restricted(old(n.View()), Id, Keys(old(Trees(items)), fk)))
    decreases n.Repr, 5
  {
    var ids, groups := KeysAndGroups(items, fk);
    OneUnfolds(db, n.View(), Trees(items), fk, slot);
    if |ids| == 0 { return None; }
    err := LoadKeys(n, db, items, fk, slot, ids, groups);
  }

  /** The rest of the loader: the neighbours with these keys, assigned to their groups. */
  method LoadKeys(n: B.Query, db: Db, items: seq<Item>, fk: Column, slot: Slot, ids: seq<int>, groups: map<int, seq<Item>>)
    returns (err: Option<QueryError>)
    requires n.Valid() && Apart(items, n.Repr)
    requires Groups(items, |items|, fk, ids, groups) && ids == Keys(Trees(items), fk)
    modifies n.Repr, items
    ensures n.Valid() && n.Repr == old(n.Repr)
    ensures match EagerPlan.All(db, Restricted(old(n.View()), Id, ids))
            case Ok(es) => Outcome(AssignOnes(old(Trees(items)), fk, slot, es), err, Trees(items))
            case Err(e) => err == Some(e)
    ensures n.View() == After(db, Restricted(old(n.View()), Id, ids))
    decreases n.Repr, 4
  {
    var es := Narrowed(n, db, Id, ids, items);
    if es.Err? { return Some(es.error); }
    err := AssignToGroups(items, fk, slot, ids, groups, es.value);
  }

  lemma {:induction false} OneUnfolds(db: Db, n: Plan, ts: seq<Tree>, fk: Column, slot: Slot)
    ensures var es := EagerPlan.All(db, Restricted(n, Id, Keys(ts, fk)));
            EagerPlan.LoadOne(db, n, ts, fk, slot)
            == if ts == [] then Ok(ts) else if es.Err? then Err(es.error) else AssignOnes(ts, fk, slot, es.value)
  {}

  method KeysAndGroups(items: seq<Item>, fk: Column) returns (ids: seq<int>, groups: map<int, seq<Item>>)
    ensures ids == Keys(Trees(items), fk) && (ids == [] <==> items == [])
    ensures Groups(items, |items|, fk, ids, groups)
  {
    ids, groups := GroupByKey(items, fk);
    KeyListIsKeys(items, Trees(items), |items|, fk);
    assert Trees(items)[..|items|] == Trees(items);
  }

  /** `query.Where` with the keys, then `query.All`. */
  method Narrowed(n: B.Query, db: Db, c: Column, ids: seq<int>, ghost items: seq<Item>)
    returns (es: Result<seq<Tree>, QueryError>)
    requires n.Valid() && Apart(items, n.Repr)
    modifies n.Repr
    ensures n.Valid() && n.Repr == old(n.Repr) && Trees(items) == old(Trees(items))
    ensures es == EagerPlan.All(db, Restricted(old(n.View()), c, ids))
    ensures n.View() == After(db, Restricted(old(n.View()), c, ids))
    decreases n.Repr, 3
  {
    n.SetOwn(B.Where([KeyIn(c, ids)]));
    es := All(n, db);
  }

  /** `loadRecipients`. */
  method LoadMany(n: B.Query, db: Db, items: seq<Item>) returns (err: Option<QueryError>)
    requires n.Valid() && Distinct(items) && Apart(items, n.Repr)
    modifies n.Repr, items
    ensures n.Valid() && n.Repr == old(n.Repr)
    ensures Outcome(EagerPlan.LoadMany(db, old(n.View()), old(Trees(items))), err, Trees(items))
    ensures n.View() == After(db, ForChildren(old(n.View()), Ids(old(Trees(items)))))
    decreases n.Repr, 5
  {
    ghost var start := Trees(items);
    var ids, holders := IndexAndEmpty(items);
    assert Ids(Trees(items)) == Ids(start);
    ManyUnfolds(db, n.View(), start);
    var es := NarrowedToChildren(n, db, ids, items);
    if es.Err? { return Some(es.error); }
    err := AppendToHolders(items, holders, es.value);
  }

  lemma {:induction false} ManyUnfolds(db: Db, n: Plan, ts: seq<Tree>)
    ensures var es := EagerPlan.All(db, ForChildren(n, Ids(ts)));
            EagerPlan.LoadMany(db, n, ts) == if es.Err? then Err(es.error) else AssignMany(Emptied(ts), es.value)
  {}

  method NarrowedToChildren(n: B.Query, db: Db, ids: seq<int>, ghost items: seq<Item>)
    returns (es: Result<seq<Tree>, QueryError>)
    requires n.Valid() && Apart(items, n.Repr)
    modifies n.Repr
    ensures n.Valid() && n.Repr == old(n.Repr) && Trees(items) == old(Trees(items))
    ensures es == EagerPlan.All(db, ForChildren(old(n.View()), ids))
    ensures n.View() == After(db, ForChildren(old(n.View()), ids))
    decreases n.Repr, 3
  {
    n.AppendForeignKey();
    n.SetOwn(B.Where([KeyIn(BroadcastId, ids)]));
    es := All(n, db);
  }
}
