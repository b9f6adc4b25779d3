/**
  witness_copy_node_records: the witness server's own table becomes a copy of the primary's.
 */
module WitnessCopy {
  import opened NodeTable
  import opened Database

  function Restricted(t: Table, ids: seq<int>): Table { map k | k in t && k in ids :: t[k] }

  // The result of the query for all records, in the order of node ids.
  predicate Listed(t: Table, ids: seq<int>) {
    && (forall k :: k in t ==> k in ids) && (forall k :: k in ids ==> k in t)
    && (forall i, j :: 0 <= i < j < |ids| ==> ids[i] < ids[j])
  }

  // How far a copy got.
  datatype Progress = Progress(begun: bool, emptied: bool, queried: bool, complete: bool, committed: bool)

  /**
    The result says nothing about the copy: whenever the existing records could be deleted, it is
    true. The witness then holds the primary's rows exactly if the rows could be read, every one
    could be inserted and the transaction could be committed; if only reading failed, it holds
    nothing.
   */
  method CopyNodeRecords(primary: Connection, target: Connection, ids: seq<int>)
    returns (ok: bool, ghost p: Progress)
    requires primary != target && primary.Valid() && !primary.inTransaction
    requires target.Valid() && !target.inTransaction
    requires Listed(primary.nodes, ids)
    modifies primary`aborted, primary`faults, target
    ensures primary.Valid() && primary.nodes == old(primary.nodes)
    ensures target.Valid() && !target.inTransaction
    ensures ok <==> p.emptied
    ensures p.begun <==> target.lostBegins == old(target.lostBegins)
    ensures !ok && p.begun ==> target.nodes == old(target.nodes)
    ensures ok && p.begun && !(p.complete && p.committed) ==> target.nodes == old(target.nodes)
    ensures ok && p.begun && p.complete && p.committed && !p.queried ==> target.nodes == map[]
    ensures ok && p.begun && p.complete && p.committed && p.queried && Attached(primary.nodes) ==>
              target.nodes == primary.nodes
    ensures primary.faults == old(primary.faults) && target.faults == old(target.faults) && Attached(primary.nodes) ==>
              ok && target.nodes == primary.nodes
  {
    p := Progress(true, false, false, false, false);
    var begun := target.Begin();
    p := p.(begun := begun);
    var deferred := target.DeferConstraints();
    if !deferred {
      target.Rollback();
      return false, p;
    }
    var truncated := target.Store(map[]);
    if !truncated {
      target.Rollback();
      return false, p;
    }
    p := p.(emptied := true);
    var queried := primary.Execute(true);
    p := p.(queried := queried);
    if queried { InsertAll(primary, target, ids); }
    p := p.(complete := !target.aborted);
    if queried { AllRestricted(primary.nodes, ids); }
    var committed := target.Commit();
    p := p.(committed := committed);
    ok := true;
  }

  method InsertAll(primary: Connection, target: Connection, ids: seq<int>)
    requires primary != target && !primary.inTransaction && PositiveIds(primary.nodes)
    requires target.Valid() && Listed(primary.nodes, ids) && target.View() == map[]
    modifies target`nodes, target`work, target`aborted, target`faults
    ensures target.Valid()
    ensures target.inTransaction ==> target.nodes == old(target.nodes)
    ensures target.inTransaction && !target.aborted && Attached(primary.nodes) ==>
              target.work == Restricted(primary.nodes, ids)
    ensures target.faults >= old(target.faults)
    ensures (target.faults == old(target.faults) && !old(target.aborted) && target.inTransaction && target.deferred
             && Attached(primary.nodes)) ==> !target.aborted
  {
    var i := 0;
    while i < |ids|
      invariant 0 <= i <= |ids| && target.Valid()
      invariant target.inTransaction ==> target.nodes == old(target.nodes)
      invariant target.inTransaction && !target.aborted && Attached(primary.nodes) ==>
                  target.work == Restricted(primary.nodes, ids[..i])
      invariant target.faults >= old(target.faults)
      invariant (target.faults == old(target.faults) && !old(target.aborted) && target.inTransaction && target.deferred
                 && Attached(primary.nodes)) ==> !target.aborted
    {
      assert ids[i] in ids;
      var row := primary.nodes[ids[i]];
      ghost var before := target.View();
      var _, u := target.SaveRecord(true, ids[i], row);
      if Attached(primary.nodes) {
        assert row.(upstream := u) == row;
        NextRestricted(primary.nodes, ids, i);
      }
      i := i + 1;
    }
    assert ids[..i] == ids;
  }

  lemma NextRestricted(t: Table, ids: seq<int>, i: nat)
    requires i < |ids| && ids[i] in t
    ensures Restricted(t, ids[..i])[ids[i] := t[ids[i]]] == Restricted(t, ids[..i + 1])
  {
    assert ids[..i + 1] == ids[..i] + [ids[i]];
  }

  lemma AllRestricted(t: Table, ids: seq<int>)
    requires Listed(t, ids)
    ensures Restricted(t, ids) == t
  {
    assert forall k :: k in t <==> k in Restricted(t, ids);
  }
}
