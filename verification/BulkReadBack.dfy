/** A bulk save followed by a read: the rows stored are the nodes returned. */
module BulkReadBack {
  import opened Prelude
  import opened Store
  import opened BulkChain
  import opened BulkSafety
  import RowCodec
  import RowCreate

  /**
   After a bulk save with honest hooks that edit in place, every returned node is stored
   under its id, the row needs no column default, and decoding it gives the node again.
   */
  lemma {:induction false} SavedRowsReadBack(e: RowCodec.Entity, valid: RowCreate.Validators, c: Config, s: State, k: nat, clock: int)
    requires k < |c.hooks| && Valid(c, s) && AllHonest(c) && InPlace(c)
    requires forall m :: c.check(m) == RowCreate.Check(e, valid, m)
    requires Save(c, s).0.Ok?
    requires Save(c, s).0.value[k].Some? && RowCreate.Typed(e, Save(c, s).0.value[k].value.fields)
    ensures var (r, t) := Save(c, s);
            var node := r.value[k].value;
            && node.id !in s.table.rows
            && node.id in t.table.rows && t.table.rows[node.id] == node.fields
            && RowCreate.StoredRow(e, node.fields, clock) == Some(node.fields)
            && RowCreate.Decode(e, RowCodec.Columns(e), node.id, t.table.rows[node.id])
               == RowCodec.Node(node.id, node.fields, map[])
  {
    SaveIsAllOrNothing(c, s);
    SaveWritesCheckedRows(c, s);
    var (r, t) := Save(c, s);
    var w := t.writes[|s.writes|];
    BatchRows(c.rules, s.table, Batched(w));
    var node := r.value[k].value;
    assert Passing(c, w);
    assert RowCreate.Check(e, valid, node.fields) == c.check(w[k].value.fields) == None;
    RowCreate.CheckedIsStoredAsGiven(e, valid, node.fields, clock);
    RowCreate.ReadsBack(e, node.fields, node.id, RowCodec.Columns(e));
  }
}
