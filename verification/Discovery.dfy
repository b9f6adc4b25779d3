/**
  _get_primary_connection: the search for the running primary among the registered nodes.
 */
module Discovery {
  import opened NodeTable
  import opened Database
  import opened Recovery

  // The state of a server.
  datatype Server = Down | InRecovery | Serving

  function ServerOf(servers: map<int, Server>, id: int): Server { if id in servers then servers[id] else Down }

  // A connection attempt to a node and a query for its recovery type.
  datatype Contact = Contact(id: int, connected: bool, answer: RecoveryType)

  // The node was up, but the connection or the query failed.
  predicate Silent(servers: map<int, Server>, c: Contact) {
    ServerOf(servers, c.id) != Down && c.answer == RecUnknown
  }

  // The servers, and the history of all contacts with them.
  class Network {
    var servers: map<int, Server>
    var told: set<int>              // the nodes that have been told to leave recovery
    ghost var contacts: seq<Contact>

    constructor (servers: map<int, Server>)
      ensures this.servers == servers && told == {} && contacts == []
    {
      this.servers, this.told, this.contacts := servers, {}, [];
    }

    // Connection and query may fail although the server is up.
    method Ask(id: int) returns (connected: bool, r: RecoveryType)
      modifies this`contacts
      ensures contacts == old(contacts) + [Contact(id, connected, r)]
      ensures connected ==> ServerOf(servers, id) != Down
      ensures r == RecPrimary ==> connected && ServerOf(servers, id) == Serving
      ensures r == RecStandby ==> connected && ServerOf(servers, id) == InRecovery
    {
      connected, r := false, RecUnknown;
      if ServerOf(servers, id) != Down {
        connected := *;
        var known: bool := *;
        if connected && known { r := if servers[id] == Serving then RecPrimary else RecStandby; }
      }
      contacts := contacts + [Contact(id, connected, r)];
    }

    // pg_promote() or the promote command: whether it could be executed is up to the environment.
    method Tell(id: int, works: bool)
      modifies this`told
      ensures told == if works then old(told) + {id} else old(told)
    {
      if works { told := told + {id}; }
    }

    // Time passes: a server that has been told to leave recovery may do so.
    method Elapse(id: int)
      modifies this`servers
      ensures servers == old(servers) || servers == old(servers)[id := Serving]
      ensures id !in told || ServerOf(old(servers), id) != InRecovery ==> servers == old(servers)
    {
      var leaves: bool := *;
      if leaves && id in told && ServerOf(servers, id) == InRecovery { servers := servers[id := Serving]; }
    }
  }

  predicate Candidate(r: Row) { r.active && r.kind != Witness }

  function TypePriority(r: Row): int { if r.kind == Primary then 1 else 2 }

  // ORDER BY type_priority, priority, node_id
  predicate Before(t: Table, a: int, b: int)
    requires a in t && b in t
  {
    var pa, pb := TypePriority(t[a]), TypePriority(t[b]);
    || pa < pb
    || (pa == pb && t[a].priority < t[b].priority)
    || (pa == pb && t[a].priority == t[b].priority && a < b)
  }

  // The rows that the query returns, if it does not fail.
  ghost predicate QueryOrder(t: Table, ids: seq<int>) {
    && (forall k :: k in ids <==> k in t && Candidate(t[k]))
    && (forall i, j :: 0 <= i < j < |ids| ==> Before(t, ids[i], ids[j]))
  }

  // A node that the search is for: active, no witness, reachable and out of recovery.
  predicate Running(t: Table, servers: map<int, Server>, id: int) {
    id in t && Candidate(t[id]) && ServerOf(servers, id) == Serving
  }

  predicate OneRunning(t: Table, servers: map<int, Server>) {
    forall a, b :: a in t && b in t && Running(t, servers, a) && Running(t, servers, b) ==> a == b
  }

  // What a search has heard: whether the query for the nodes succeeded, and whom it has contacted.
  datatype Hearing = Hearing(queried: bool, contacts: seq<Contact>)

  // A running node is not heard if the query fails or if it gives no answer.
  predicate Heard(h: Hearing, id: int) {
    h.queried && forall i :: 0 <= i < |h.contacts| && h.contacts[i].id == id ==> h.contacts[i].answer != RecUnknown
  }

  predicate AllHeard(t: Table, servers: map<int, Server>, h: Hearing) {
    forall k :: k in t && Running(t, servers, k) ==> Heard(h, k)
  }

  predicate NoneHeard(t: Table, servers: map<int, Server>, h: Hearing) {
    forall k :: k in t && Running(t, servers, k) ==> !Heard(h, k)
  }

  // The first running primary that is heard.
  predicate FirstHeard(t: Table, servers: map<int, Server>, h: Hearing, id: int) {
    && Running(t, servers, id) && Heard(h, id)
    && forall k :: k in t && Running(t, servers, k) && Heard(h, k) ==> k == id || Before(t, id, k)
  }

  /**
    The search contacts the nodes in the order of the query until one says that it is out of recovery.
    It finds the first running primary that answers, and none if and only if none is heard: because
    there is none, because the ones there are do not answer, or because the query for the nodes fails.
   */
  method FindPrimary(db: Connection, net: Network, ids: seq<int>) returns (id: int, ghost h: Hearing)
    requires db.Valid() && !db.inTransaction && QueryOrder(db.nodes, ids)
    modifies db`aborted, db`faults, net`contacts
    ensures db.Valid() && db.faults >= old(db.faults)
    ensures net.contacts == old(net.contacts) + h.contacts
    ensures if h.queried then |h.contacts| <= |ids| else h.contacts == [] && db.faults > old(db.faults)
    ensures forall i :: 0 <= i < |h.contacts| ==> h.contacts[i].id == ids[i]
    ensures id == NODE_NOT_FOUND <==> NoneHeard(db.nodes, net.servers, h)
    ensures id != NODE_NOT_FOUND ==> FirstHeard(db.nodes, net.servers, h, id)
  {
    id, h := NODE_NOT_FOUND, Hearing(false, []);
    var ok := db.Execute(true);
    if !ok { return; }
    h := Hearing(true, []);
    var i := 0;
    while i < |ids|
      invariant 0 <= i == |h.contacts| <= |ids| && h.queried && db.Valid() && db.faults >= old(db.faults)
      invariant net.contacts == old(net.contacts) + h.contacts
      invariant forall j :: 0 <= j < i ==>
                  && h.contacts[j].id == ids[j]
                  && (Running(db.nodes, net.servers, ids[j]) ==> h.contacts[j].answer == RecUnknown)
    {
      assert ids[i] in ids;
      var connected, r := net.Ask(ids[i]);
      h := h.(contacts := h.contacts + [Contact(ids[i], connected, r)]);
      if r == RecPrimary {
        FoundFirst(db.nodes, net.servers, ids, i, h);
        return ids[i], h;
      }
      i := i + 1;
    }
    forall k | Running(db.nodes, net.servers, k) ensures !Heard(h, k) { assert k in ids; }
  }

  lemma FoundFirst(t: Table, servers: map<int, Server>, ids: seq<int>, i: nat, h: Hearing)
    requires QueryOrder(t, ids) && PositiveIds(t) && i < |ids| && |h.contacts| == i + 1 && h.queried
    requires forall j :: 0 <= j <= i ==> h.contacts[j].id == ids[j]
    requires forall j :: 0 <= j < i ==> Running(t, servers, ids[j]) ==> h.contacts[j].answer == RecUnknown
    requires h.contacts[i].answer == RecPrimary && ServerOf(servers, ids[i]) == Serving
    ensures FirstHeard(t, servers, h, ids[i]) && ids[i] != NODE_NOT_FOUND
  {
    assert ids[i] in ids;
    forall j | 0 <= j < i ensures ids[j] != ids[i] { assert Before(t, ids[j], ids[i]); }
    forall k | Running(t, servers, k) && Heard(h, k) ensures k == ids[i] || Before(t, ids[i], k) {
      assert k in ids;
      var j :| 0 <= j < |ids| && ids[j] == k;
      assert j >= i;
    }
  }

  /** A registered primary that runs and answers is found before any other node. */
  lemma RegisteredPrimaryComesFirst(t: Table, servers: map<int, Server>, h: Hearing, primary: int, id: int)
    requires OnePrimary(t) && primary in ActivePrimaries(t) && Running(t, servers, primary) && Heard(h, primary)
    requires FirstHeard(t, servers, h, id)
    ensures id == primary
  {
  }

  /** Of two nodes that are not registered as primary, the one with the lower priority number is found. */
  lemma LowerPriorityComesFirst(t: Table, servers: map<int, Server>, h: Hearing, a: int, b: int, id: int)
    requires Running(t, servers, a) && Heard(h, a) && Running(t, servers, b) && Heard(h, b)
    requires t[a].kind != Primary && t[b].kind != Primary && t[a].priority < t[b].priority
    requires FirstHeard(t, servers, h, id)
    ensures id != b
  {
  }
}
