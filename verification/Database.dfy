/**
  A connection to the database that holds repmgr.nodes. Any statement may fail; a failed statement
  aborts the transaction it is in, and the rest of that transaction fails with it.
 */
module Database {
  import opened NodeTable

  const NODE_NOT_FOUND := -1     // also UNKNOWN_NODE_ID and NO_UPSTREAM_NODE

  datatype Lookup = Found(id: int, row: Row) | NotFound | Error

  class Connection {
    var nodes: Table             // committed
    var work: Table              // as the open transaction sees it
    var inTransaction: bool
    var aborted: bool
    var deferred: bool           // SET CONSTRAINTS ALL DEFERRED, for one transaction
    ghost var faults: nat        // how many statements have failed for reasons outside the database
    ghost var lostBegins: nat    // how many of them were BEGIN

    ghost predicate Valid()
      reads this
    {
      && ForeignKeys(nodes) && PositiveIds(nodes)
      && (inTransaction ==> PositiveIds(work) && (deferred || ForeignKeys(work)))
      && (aborted || deferred ==> inTransaction)
    }

    function View(): Table
      reads this
    {
      if inTransaction then work else nodes
    }

    constructor (nodes: Table)
      requires ForeignKeys(nodes) && PositiveIds(nodes)
      ensures Valid() && !inTransaction && this.nodes == nodes
    {
      this.nodes, this.work := nodes, nodes;
      this.inTransaction, this.aborted, this.deferred, this.faults, this.lostBegins := false, false, false, 0, 0;
    }

    // Whether the environment lets a statement through.
    method Works() returns (ok: bool)
      modifies this`faults
      ensures faults == if ok then old(faults) else old(faults) + 1
    {
      ok := *;
      if !ok { faults := faults + 1; }
    }

    // begin_transaction
    method Begin() returns (ok: bool)
      requires Valid() && !inTransaction
      modifies this
      ensures Valid() && nodes == old(nodes) && inTransaction == ok && !aborted && !deferred
      ensures ok ==> work == nodes
      ensures faults >= old(faults) && (faults == old(faults) ==> ok)
      ensures lostBegins == if ok then old(lostBegins) else old(lostBegins) + 1
    {
      ok := Works();
      if !ok { lostBegins := lostBegins + 1; }
      aborted := false;
      if ok { inTransaction, work := true, nodes; }
    }

    // commit_transaction: committing an aborted transaction rolls it back and is no error.
    method Commit() returns (ok: bool)
      requires Valid()
      modifies this
      ensures Valid() && !inTransaction && !aborted && lostBegins == old(lostBegins)
      ensures old(aborted) || !ok || !old(inTransaction) ==> nodes == old(nodes)
      ensures ok && old(inTransaction && !aborted) ==> nodes == old(work)
      ensures faults >= old(faults)
      ensures faults == old(faults) && (old(inTransaction && !aborted) ==> ForeignKeys(old(work))) ==> ok
    {
      ok := Works();
      if ok && inTransaction && !aborted {
        ok := ForeignKeys(work);
        if ok { nodes := work; }
      }
      inTransaction, aborted, deferred := false, false, false;
    }

    // rollback_transaction
    method Rollback()
      requires Valid()
      modifies this
      ensures Valid() && !inTransaction && !aborted && nodes == old(nodes)
      ensures faults == old(faults) && lostBegins == old(lostBegins)
    {
      inTransaction, aborted, deferred := false, false, false;
    }

    method DeferConstraints() returns (ok: bool)
      requires Valid()
      modifies this`aborted, this`deferred, this`faults
      ensures faults >= old(faults) && (faults == old(faults) && !old(aborted) ==> ok)
      ensures Valid() && (ok && inTransaction ==> deferred && !aborted)
      ensures !inTransaction ==> !deferred
    {
      ok := Execute(true);
      if ok && inTransaction { deferred := true; }
    }

    // Whether the next statement succeeds, given that the table accepts it.
    method Execute(legal: bool) returns (ok: bool)
      requires Valid()
      modifies this`aborted, this`faults
      ensures Valid()
      ensures ok ==> legal && !aborted && !old(aborted)
      ensures !ok && inTransaction ==> aborted
      ensures faults >= old(faults) && (faults == old(faults) && legal && !old(aborted) ==> ok)
    {
      ok := Works();
      ok := ok && legal && !aborted;
      if !ok && inTransaction { aborted := true; }
    }

    // A statement that writes; t is the table after it.
    method Store(t: Table) returns (ok: bool)
      requires Valid()
      modifies this`nodes, this`work, this`aborted, this`faults
      ensures Valid()
      ensures faults >= old(faults)
      ensures faults == old(faults) && !old(aborted) && (deferred || ForeignKeys(t)) && PositiveIds(t) ==> ok
      ensures ok ==> View() == t && (deferred || ForeignKeys(t)) && !aborted && !old(aborted)
      ensures !ok ==> View() == old(View()) && (inTransaction ==> aborted)
      ensures inTransaction ==> nodes == old(nodes)
    {
      ok := Execute((deferred || ForeignKeys(t)) && PositiveIds(t));
      if ok {
        if inTransaction { work := t; } else { nodes := t; }
      }
    }

    // get_primary_node_id: -1 as well if the query fails.
    method PrimaryNodeId() returns (id: int, ghost queried: bool)
      requires Valid()
      modifies this`aborted, this`faults
      ensures Valid()
      ensures faults >= old(faults) && (faults == old(faults) && !old(aborted) ==> queried)
      ensures !queried ==> id == NODE_NOT_FOUND && (inTransaction ==> aborted)
      ensures queried ==> !aborted && !old(aborted)
      ensures queried ==> if ActivePrimaries(View()) == {} then id == NODE_NOT_FOUND else id in ActivePrimaries(View())
    {
      var ok := Execute(true);
      queried := ok;
      id := NODE_NOT_FOUND;
      if ok {
        if k :| k in View() && ActivePrimary(View()[k]) {
          id := k;
          assert k in ActivePrimaries(View());
        } else {
          NoPrimaries(View());
        }
      }
    }

    // get_node_record
    method NodeRecord(id: int) returns (r: Lookup)
      requires Valid()
      modifies this`aborted, this`faults
      ensures faults >= old(faults) && (faults == old(faults) && !old(aborted) ==> !r.Error?)
      ensures Valid() && (r.Error? ==> inTransaction ==> aborted) && (!r.Error? ==> !aborted && !old(aborted))
      ensures r.Found? ==> r.id == id && id in View() && r.row == View()[id]
      ensures r.NotFound? ==> id !in View()
    {
      var ok := Execute(true);
      if !ok { return Error; }
      r := if id in View() then Found(id, View()[id]) else NotFound;
    }

    // get_node_record_by_name: the first of possibly several rows.
    method NodeRecordByName(name: string) returns (r: Lookup)
      requires Valid()
      modifies this`aborted, this`faults
      ensures faults >= old(faults) && (faults == old(faults) && !old(aborted) ==> !r.Error?)
      ensures Valid()
      ensures r.Found? ==> r.id in View() && r.row == View()[r.id] && r.row.name == name
      ensures r.NotFound? ==> forall id :: id in View() ==> View()[id].name != name
    {
      var ok := Execute(true);
      if !ok { return Error; }
      if k :| k in View() && View()[k].name == name {
        r := Found(k, View()[k]);
      } else {
        r := NotFound;
      }
    }

    // get_downstream_node_records: how many there are, none if the query fails.
    method DownstreamCount(id: int) returns (n: nat)
      requires Valid()
      modifies this`aborted, this`faults
      ensures Valid() && faults >= old(faults)
      ensures faults == old(faults) && !old(aborted) ==> (n == 0 <==> NoDownstream(View(), id))
      ensures n > 0 ==> !NoDownstream(View(), id)
    {
      var ok := Execute(true);
      if !ok { return 0; }
      var s := set k | k in View() && View()[k].upstream == Node(id);
      n := |s|;
      if k :| k in View() && View()[k].upstream == Node(id) {
        assert k in s;
      } else {
        assert forall k :: k !in s;
        assert s == {};
      }
    }

    // _create_update_node_record: the upstream of a standby without one is the active primary.
    method SaveRecord(create: bool, id: int, row: Row) returns (ok: bool, ghost upstream: Upstream)
      requires Valid() && id > 0
      modifies this`nodes, this`work, this`aborted, this`faults
      ensures Valid()
      ensures !(row.upstream == NoUpstream && row.kind == Standby) ==> upstream == row.upstream
      ensures row.kind == Standby ==> upstream.Node?
      ensures (faults == old(faults) && !old(aborted) && row.upstream == NoUpstream && row.kind == Standby) ==>
                if ActivePrimaries(old(View())) == {} then upstream == Node(NODE_NOT_FOUND)
                else upstream.id in ActivePrimaries(old(View()))
      ensures ok && !old(aborted) && !aborted ==>
                && (create ==> id !in old(View()))
                && (deferred || ForeignKeys(View()))
                && View() == if create || id in old(View()) then old(View())[id := row.(upstream := upstream)]
                             else old(View())
      ensures ok ==> !aborted && !old(aborted)
      ensures !ok ==> View() == old(View()) && (inTransaction ==> aborted)
      ensures inTransaction ==> nodes == old(nodes)
      ensures faults >= old(faults)
      ensures (faults == old(faults) && !old(aborted) && (create ==> id !in old(View()))
               && (deferred || ForeignKeys(old(View())[id := row.(upstream := upstream)]))) ==> ok
    {
      var stored := row;
      if row.upstream == NoUpstream && row.kind == Standby {
        var primary, _ := PrimaryNodeId();
        stored := row.(upstream := Node(primary));
      }
      upstream := stored.upstream;
      if create {
        if id in View() {
          ok := Execute(false);
        } else {
          ok := Store(View()[id := stored]);
        }
      } else {
        ok := Store(if id in View() then View()[id := stored] else View());
      }
    }

    // delete_node_record
    method DeleteRecord(id: int) returns (ok: bool)
      requires Valid()
      modifies this`nodes, this`work, this`aborted, this`faults
      ensures Valid()
      ensures ok ==> View() == Without(old(View()), id) && (deferred || ForeignKeys(View()))
      ensures !ok ==> View() == old(View())
      ensures inTransaction ==> nodes == old(nodes)
      ensures faults >= old(faults)
      ensures faults == old(faults) && !old(aborted) && ForeignKeys(Without(old(View()), id)) ==> ok
    {
      ok := Store(Without(View(), id));
    }

    // update_node_record_set_primary; begin_transaction's result is not looked at. done counts the
    // updates that went through.
    method SetPrimary(id: int) returns (ok: bool, ghost begun: bool, ghost done: nat)
      requires Valid() && !inTransaction
      modifies this
      ensures Valid() && !inTransaction
      ensures begun <==> lostBegins == old(lostBegins)
      ensures ok ==> nodes == Apply(old(nodes), Promote(id))
      ensures !ok && begun ==> nodes == old(nodes)
      ensures !ok && !begun ==>
                nodes == if done == 0 then old(nodes)
                         else if done == 1 then Deactivated(old(nodes), id)
                         else Apply(old(nodes), Promote(id))
      ensures faults >= old(faults) && (faults == old(faults) ==> ok)
    {
      begun := Begin();
      done := 0;
      PromoteKeepsKeys(nodes, id);
      ok := Store(Deactivated(View(), id));
      if !ok {
        Rollback();
        return;
      }
      done := 1;
      ok := Store(Activated(View(), id));
      if !ok {
        Rollback();
        return;
      }
      done := 2;
      ok := Commit();
    }

    // update_node_record_status with type standby
    method SetStandby(id: int, upstream: int) returns (ok: bool)
      requires Valid()
      modifies this`nodes, this`work, this`aborted, this`faults
      ensures Valid()
      ensures ok ==> View() == Following(old(View()), id, upstream) && (deferred || ForeignKeys(View()))
      ensures !ok ==> View() == old(View())
      ensures inTransaction ==> nodes == old(nodes)
      ensures faults >= old(faults)
      ensures faults == old(faults) && !old(aborted) && ForeignKeys(Following(old(View()), id, upstream)) ==> ok
    {
      ok := Store(Following(View(), id, upstream));
    }
  }

  lemma NoPrimaries(t: Table)
    requires forall k :: k in t ==> !ActivePrimary(t[k])
    ensures ActivePrimaries(t) == {}
  {
    assert forall k :: k !in ActivePrimaries(t);
  }

  lemma PromoteKeepsKeys(t: Table, id: int)
    ensures Deactivated(t, id).Keys == t.Keys && Activated(Deactivated(t, id), id).Keys == t.Keys
    ensures ForeignKeys(t) ==> ForeignKeys(Deactivated(t, id)) && ForeignKeys(Activated(Deactivated(t, id), id))
  {
    var d := Deactivated(t, id);
    if ForeignKeys(t) {
      forall k | k in d ensures Refers(d, d[k]) { assert Refers(t, t[k]); }
      var p := Activated(d, id);
      forall k | k in p ensures Refers(p, p[k]) { assert Refers(d, d[k]); }
    }
  }
}
