/**
  standby promote, and the change of metadata that standby follow and node rejoin make.
 */
module Promotion {
  import opened NodeTable
  import opened Database
  import opened Registration
  import opened Discovery
  import opened ShutdownReport
  import opened Recovery

  // Answers of the environment to standby promote.
  datatype PromoteWorld = PromoteWorld(
    replicationInfo: bool,       // get_replication_info succeeds
    streaming: bool,             // and says that streamed WAL is being received
    paused: PauseQuery,          // the query for paused replay
    pausedWithPending: PauseQuery,   // the same with WAL pending, which is asked when streaming
    commandOk: bool              // pg_promote() or the promote command could be executed
  )

  predicate ReplayBlocks(w: PromoteWorld) { (if w.streaming then w.pausedWithPending else w.paused) == Says(true) }

  // Nothing speaks against a promotion, given what the search for a primary has heard.
  predicate MayPromote(t: Table, servers: map<int, Server>, id: int, w: PromoteWorld, h: Hearing) {
    ServerOf(servers, id) == InRecovery && w.replicationInfo && !ReplayBlocks(w) && NoneHeard(t, servers, h)
  }

  function Answers(cs: seq<Contact>): seq<RecoveryType> { seq(|cs|, i requires 0 <= i < |cs| => cs[i].answer) }

  predicate AllWith(cs: seq<Contact>, id: int) { forall i :: 0 <= i < |cs| ==> cs[i].id == id }

  // The history of a promotion: what the local server answered, the search for a primary, whether
  // this node was told to leave recovery, and the polls from then on. begun: the transaction could
  // be started.
  datatype Trace = Trace(local: RecoveryType, heard: Hearing, ordered: bool, polls: seq<Contact>, begun: bool)

  // The loop of _do_standby_promote_internal that waits for the promotion.
  method WaitForPromotion(net: Network, id: int, timeout: int, interval: int)
    returns (success: bool, recovery: RecoveryType, ghost polls: seq<Contact>)
    requires ServerOf(net.servers, id) == InRecovery && interval > 0
    modifies net`servers, net`contacts
    ensures net.servers == old(net.servers) || net.servers == old(net.servers)[id := Serving]
    ensures success ==> net.servers == old(net.servers)[id := Serving]
    ensures net.contacts == old(net.contacts) + polls && AllWith(polls, id)
    ensures Polled(Answers(polls), timeout, interval, success) && recovery == LastAnswer(Answers(polls))
  {
    recovery, success, polls := RecUnknown, false, [];
    var i := 0;
    while i < timeout
      invariant net.servers == old(net.servers) || net.servers == old(net.servers)[id := Serving]
      invariant i == |polls| * interval && (polls != [] ==> (|polls| - 1) * interval < timeout)
      invariant net.contacts == old(net.contacts) + polls && AllWith(polls, id)
      invariant RecPrimary !in Answers(polls) && recovery == LastAnswer(Answers(polls))
      decreases timeout - i
    {
      net.Elapse(id);
      ghost var before := polls;
      var connected;
      connected, recovery := net.Ask(id);
      polls := polls + [Contact(id, connected, recovery)];
      assert Answers(polls) == Answers(before) + [recovery];
      if recovery == RecPrimary { return true, recovery, polls; }
      i := i + interval;
    }
  }

  // _do_standby_promote_internal
  method PromoteInternal(db: Connection, net: Network, id: int, timeout: int, interval: int, commandOk: bool)
    returns (exit: Exit, ghost ordered: bool, ghost polls: seq<Contact>, ghost begun: bool)
    requires db.Valid() && !db.inTransaction && ServerOf(net.servers, id) == InRecovery && interval > 0
    modifies db, net
    ensures db.Valid() && !db.inTransaction && db.faults >= old(db.faults)
    ensures net.contacts == old(net.contacts) + polls && AllWith(polls, id)
    ensures net.told == old(net.told) + if ordered then {id} else {}
    ensures ordered ==> id in old(db.nodes) && commandOk
    ensures db.faults == old(db.faults) ==> (ordered <==> id in old(db.nodes) && commandOk)
    ensures if ordered then Polled(Answers(polls), timeout, interval, RecPrimary in Answers(polls))
            else polls == [] && net.servers == old(net.servers)
    ensures net.servers == old(net.servers) || net.servers == old(net.servers)[id := Serving]
    ensures RecPrimary in Answers(polls) ==> net.servers == old(net.servers)[id := Serving]
    ensures exit == Success ==> RecPrimary in Answers(polls) && db.nodes == Apply(old(db.nodes), Promote(id))
    ensures db.faults == old(db.faults) && RecPrimary in Answers(polls) ==> exit == Success
    ensures RecPrimary !in Answers(polls) ==> begun && db.nodes == old(db.nodes)
    ensures !ordered ==> exit in {BadConfig, PromotionFail}
    ensures db.faults == old(db.faults) && !ordered ==>
              exit == if id in old(db.nodes) then PromotionFail else BadConfig
    ensures ordered && RecPrimary !in Answers(polls) ==>
              exit == if LastAnswer(Answers(polls)) == RecStandby then PromotionFail else DbConn
    ensures RecPrimary in Answers(polls) && exit != Success ==> exit == DbQuery
    ensures exit != Success && begun ==> db.nodes == old(db.nodes)
    ensures db.nodes in {old(db.nodes), Deactivated(old(db.nodes), id), Apply(old(db.nodes), Promote(id))}
    ensures begun <==> db.lostBegins == old(db.lostBegins)
  {
    ordered, polls, begun := false, [], true;
    var record := db.NodeRecord(id);
    if !record.Found? { return BadConfig, ordered, polls, begun; }
    net.Tell(id, commandOk);
    if !commandOk { return PromotionFail, ordered, polls, begun; }
    ordered := true;
    var success, recovery;
    success, recovery, polls := WaitForPromotion(net, id, timeout, interval);
    PolledIff(Answers(polls), timeout, interval, success);
    if !success {
      return if recovery == RecStandby then PromotionFail else DbConn, ordered, polls, begun;
    }
    ghost var done;
    var ok;
    ok, begun, done := db.SetPrimary(id);
    exit := if ok then Success else DbQuery;
  }

  /**
    do_standby_promote. When no statement fails, it succeeds exactly when nothing spoke against the
    promotion, the node could be told to leave recovery, and a poll found that it has. However it
    ends, at most one active registered node is reachable and out of recovery afterwards if that was
    so before, provided that the search for a primary heard every running one; and if this node has
    left recovery, exactly then. A search whose query fails, or to which a running primary does not
    answer, lets the promotion go ahead.
   */
  method StandbyPromote(db: Connection, net: Network, c: Config, ids: seq<int>, dryRun: bool,
                        timeout: int, interval: int, w: PromoteWorld)
    returns (exit: Exit, ghost t: Trace)
    requires db.Valid() && !db.inTransaction && QueryOrder(db.nodes, ids)
    requires interval > 0
    modifies db, net
    ensures db.Valid() && !db.inTransaction && db.faults >= old(db.faults)
    ensures exists connected ::
              net.contacts == old(net.contacts) + [Contact(c.nodeId, connected, t.local)] + t.heard.contacts + t.polls
    ensures net.told == old(net.told) + if t.ordered then {c.nodeId} else {}
    ensures t.ordered ==> !dryRun && MayPromote(old(db.nodes), old(net.servers), c.nodeId, w, t.heard)
                          && c.nodeId in old(db.nodes) && w.commandOk
    ensures db.faults == old(db.faults) && !dryRun && t.local == RecStandby ==>
              (t.ordered <==> MayPromote(old(db.nodes), old(net.servers), c.nodeId, w, t.heard)
                              && c.nodeId in old(db.nodes) && w.commandOk)
    ensures if t.ordered then AllWith(t.polls, c.nodeId)
                              && Polled(Answers(t.polls), timeout, interval, RecPrimary in Answers(t.polls))
            else t.polls == []
    ensures db.faults == old(db.faults) && !dryRun ==>
              (exit == Success <==> t.ordered && RecPrimary in Answers(t.polls))
    ensures t.local != RecStandby ==> exit == if t.local == RecPrimary then PromotionFail else DbConn
    ensures t.ordered && RecPrimary !in Answers(t.polls) ==>
              exit == if LastAnswer(Answers(t.polls)) == RecStandby then PromotionFail else DbConn
    ensures dryRun ==>
              (exit == Success <==>
               t.local == RecStandby && MayPromote(old(db.nodes), old(net.servers), c.nodeId, w, t.heard))
    ensures OneRunning(old(db.nodes), old(net.servers)) && AllHeard(old(db.nodes), old(net.servers), t.heard) ==>
              OneRunning(db.nodes, net.servers)
    ensures net.servers != old(net.servers) && c.nodeId in old(db.nodes) && Candidate(old(db.nodes)[c.nodeId]) ==>
              (OneRunning(old(db.nodes), net.servers) <==> AllHeard(old(db.nodes), old(net.servers), t.heard))
    ensures !t.ordered ==> net.servers == old(net.servers) && db.nodes == old(db.nodes)
    ensures exit == Success && !dryRun ==>
              && t.ordered && RecPrimary in Answers(t.polls) && net.servers == old(net.servers)[c.nodeId := Serving]
              && db.nodes == Apply(old(db.nodes), Promote(c.nodeId)) && c.nodeId in db.nodes
              && ActivePrimaries(db.nodes) == {c.nodeId} && db.nodes[c.nodeId].upstream == NoUpstream
              && (AllHeard(old(db.nodes), old(net.servers), t.heard) ==>
                    forall k :: Running(db.nodes, net.servers, k) <==> k == c.nodeId)
    ensures (exit != Success || dryRun) && t.begun ==> db.nodes == old(db.nodes)
    ensures t.begun <==> db.lostBegins == old(db.lostBegins)
  {
    exit, t := PromotionFail, Trace(RecUnknown, Hearing(true, []), false, [], true);
    var connected, recovery := net.Ask(c.nodeId);
    t := t.(local := recovery);
    if !connected { return DbConn, t; }
    if recovery != RecStandby { return if recovery == RecPrimary then PromotionFail else DbConn, t; }
    if !w.replicationInfo { return PromotionFail, t; }
    var paused := IsReplayPaused(if w.streaming then w.pausedWithPending else w.paused);
    if paused { return PromotionFail, t; }
    var existing, h := FindPrimary(db, net, ids);
    t := t.(heard := h);
    if existing != NODE_NOT_FOUND { return PromotionFail, t; }
    if dryRun { return Success, t; }
    ghost var ordered, polls, begun;
    exit, ordered, polls, begun := PromoteInternal(db, net, c.nodeId, timeout, interval, w.commandOk);
    t := t.(ordered := ordered, polls := polls, begun := begun);
    PromotedPrimaries(old(db.nodes), c.nodeId);
    ServingTwice(old(db.nodes), old(net.servers), net.servers, c.nodeId, h);
    OnlyPromotedRuns(old(db.nodes), db.nodes, old(net.servers), c.nodeId, h);
  }

  // Nothing has been heard, and this node may have left recovery.
  lemma ServingTwice(t: Table, before: map<int, Server>, after: map<int, Server>, id: int, h: Hearing)
    requires NoneHeard(t, before, h)
    requires ServerOf(before, id) == InRecovery && (after == before || after == before[id := Serving])
    ensures AllHeard(t, before, h) ==> forall k :: Running(t, after, k) ==> k == id
    ensures after != before && id in t && Candidate(t[id]) ==> (OneRunning(t, after) <==> AllHeard(t, before, h))
  {
    assert forall k :: k != id ==> Running(t, after, k) == Running(t, before, k);
    assert !Running(t, before, id);
    if after != before && id in t && Candidate(t[id]) { assert Running(t, after, id); }
  }

  lemma OnlyPromotedRuns(t: Table, p: Table, before: map<int, Server>, id: int, h: Hearing)
    requires NoneHeard(t, before, h)
    requires p in {t, Deactivated(t, id), Apply(t, Promote(id))}
    ensures var after := before[id := Serving];
            AllHeard(t, before, h) ==>
              && (forall k :: Running(p, after, k) ==> k == id)
              && (p == Apply(t, Promote(id)) && id in t ==> Running(p, after, id))
  {
    PromotedPrimaries(t, id);
    var after := before[id := Serving];
    assert p.Keys == t.Keys;
    assert forall k :: k in t && k != id ==> p[k] == t[k] || !p[k].active;
    assert forall k :: k != id && Running(p, after, k) ==> Running(t, before, k);
  }

  // Node 1 is the active primary; node 2 as given.
  function PrimaryAnd(second: Row): Table { map[1 := Row(Primary, NoUpstream, "a", "", 100, true), 2 := second] }

  /**
    A running primary that is not heard, because the query for the nodes fails or because it does
    not answer: the standby is told to leave recovery, and then two nodes serve.
   */
  lemma UnheardPrimary(h: Hearing, w: PromoteWorld)
    requires !Heard(h, 1) && w.replicationInfo && !ReplayBlocks(w)
    ensures var t := PrimaryAnd(Row(Standby, Node(1), "b", "", 100, true));
            var servers := map[1 := Serving, 2 := InRecovery];
            && Consistent(t) && OneRunning(t, servers) && !AllHeard(t, servers, h)
            && MayPromote(t, servers, 2, w, h)
            && !OneRunning(t, servers[2 := Serving])
  {
    var t := PrimaryAnd(Row(Standby, Node(1), "b", "", 100, true));
    var servers := map[1 := Serving, 2 := InRecovery];
    assert Running(t, servers, 1) && !Running(t, servers, 2);
    assert Running(t, servers[2 := Serving], 1) && Running(t, servers[2 := Serving], 2);
  }

  // ---- follow and rejoin ----

  // Answers of the environment to do_standby_follow_internal.
  datatype FollowWorld = FollowWorld(slotOk: bool, recoveryFileOk: bool, restartOk: bool)

  // do_standby_follow_internal
  method FollowInternal(db: Connection, c: Config, upstream: int, w: FollowWorld)
    returns (ok: bool, ghost writes: seq<Write>)
    requires db.Valid() && !db.inTransaction
    modifies db
    ensures db.Valid() && !db.inTransaction
    ensures Run(old(db.nodes), writes) && db.nodes == After(old(db.nodes), writes)
    ensures writes == One(ok, Follow(c.nodeId, upstream))
    ensures ok ==> w.slotOk && w.recoveryFileOk && w.restartOk
    ensures ok ==> c.nodeId in old(db.nodes) && c.nodeId in db.nodes && upstream in db.nodes
                   && db.nodes[c.nodeId] ==
                      old(db.nodes)[c.nodeId].(kind := Standby, upstream := Node(upstream), active := true)
                   && ActivePrimaries(db.nodes) == ActivePrimaries(old(db.nodes)) - {c.nodeId}
    ensures db.faults >= old(db.faults)
    ensures db.faults == old(db.faults) ==>
              (ok <==> c.nodeId in old(db.nodes) && upstream in old(db.nodes)
                       && w.slotOk && w.recoveryFileOk && w.restartOk)
  {
    ok, writes := false, [];
    var record := db.NodeRecord(c.nodeId);
    if !record.Found? || !w.slotOk || !w.recoveryFileOk || !w.restartOk { return; }
    if upstream in db.nodes { FollowingIsLegal(db.nodes, c.nodeId, upstream); }
    ok := db.SetStandby(c.nodeId, upstream);
    if ok {
      writes := [Follow(c.nodeId, upstream)];
      OneWrite(old(db.nodes), Follow(c.nodeId, upstream));
      assert Refers(db.nodes, db.nodes[c.nodeId]);
      FollowerIsNoPrimary(old(db.nodes), c.nodeId, upstream);
    }
  }

  lemma FollowingIsLegal(t: Table, id: int, upstream: int)
    requires ForeignKeys(t) && upstream in t
    ensures ForeignKeys(Following(t, id, upstream))
  {
    var p := Following(t, id, upstream);
    assert p.Keys == t.Keys;
    forall k | k in p ensures Refers(p, p[k]) { assert Refers(t, t[k]); }
  }

  lemma FollowerIsNoPrimary(t: Table, id: int, upstream: int)
    ensures ActivePrimaries(Following(t, id, upstream)) == ActivePrimaries(t) - {id}
  {
  }

  // The first checks of do_node_rejoin. A node that is still shutting down is reported as an error
  // but not turned away.
  predicate MayRejoin(ping: Ping, state: DbState) {
    ping == PingNoResponse && (state == DbShutdowned || state == DbShutdownedInRecovery || state == DbShutdowning)
  }

  // The registered primary, and everything about it and this node that a rejoin depends on.
  predicate RejoinWorks(t: Table, id: int, primary: int, dryRun: bool, servers: map<int, Server>,
                        canFollow: bool, rewindOk: bool, w: FollowWorld) {
    && primary in ActivePrimaries(t) && ServerOf(servers, primary) == Serving && canFollow && rewindOk
    && (dryRun || (id in t && w.slotOk && w.recoveryFileOk && w.restartOk))
  }

  /**
    do_node_rejoin: the node becomes an active standby of the registered primary, which has been
    reached and is out of recovery. When the primary answers and no statement fails, it does so
    exactly when the node may rejoin, which includes one that is still shutting down.
   */
  method NodeRejoin(db: Connection, net: Network, c: Config, dryRun: bool, ping: Ping, state: DbState,
                    canFollow: bool, rewindOk: bool, w: FollowWorld)
    returns (ok: bool, ghost writes: seq<Write>, ghost primary: int, ghost asked: seq<Contact>)
    requires db.Valid() && !db.inTransaction
    modifies db, net`contacts
    ensures db.Valid() && !db.inTransaction
    ensures net.contacts == old(net.contacts) + asked && |asked| <= 1 && AllWith(asked, primary)
    ensures Run(old(db.nodes), writes) && db.nodes == After(old(db.nodes), writes)
    ensures writes == One(ok && !dryRun, Follow(c.nodeId, primary))
    ensures ok ==> MayRejoin(ping, state)
                   && RejoinWorks(old(db.nodes), c.nodeId, primary, dryRun, net.servers, canFollow, rewindOk, w)
    ensures db.faults == old(db.faults) && MayRejoin(ping, state) && ActivePrimaries(old(db.nodes)) != {} ==>
              primary in ActivePrimaries(old(db.nodes)) && |asked| == 1
    ensures db.faults == old(db.faults) && (asked == [] || !Silent(net.servers, asked[0])) ==>
              (ok <==> MayRejoin(ping, state)
                       && RejoinWorks(old(db.nodes), c.nodeId, primary, dryRun, net.servers, canFollow, rewindOk, w))
    ensures ok && !dryRun && c.nodeId != primary ==> primary in ActivePrimaries(db.nodes)
  {
    hide ActivePrimaries;
    ok, writes, primary, asked := false, [], NODE_NOT_FOUND, [];
    PositiveIdsOnly(db.nodes);
    if ping == PingNoAttempt || ping == PingOk || ping == PingReject { return; }
    if state != DbShutdowned && state != DbShutdownedInRecovery {
      if state != DbShutdowning { return; }
    }
    var id, _ := db.PrimaryNodeId();
    primary := id;
    if id == NODE_NOT_FOUND { return; }
    RegisteredIsThere(db.nodes);
    var record := db.NodeRecord(id);
    if !record.Found? { return; }
    assert id in db.nodes && db.nodes == old(db.nodes);
    var connected, r := net.Ask(id);
    asked := [Contact(id, connected, r)];
    if r != RecPrimary || !canFollow || !rewindOk { return; }
    if dryRun { return true, [], id, asked; }
    ok, writes := FollowInternal(db, c, id, w);
  }

  /**
    What gets past the first checks without having been shut down is exactly a node that is still
    shutting down.
   */
  lemma OnlyShuttingDownSlipsThrough(ping: Ping, state: DbState)
    ensures MayRejoin(ping, state) && !CleanState(state) <==> ping == PingNoResponse && state == DbShutdowning
  {
  }

  /** A node that is still shutting down rejoins a running primary. */
  lemma ShuttingDownRejoins(w: FollowWorld)
    requires w.slotOk && w.recoveryFileOk && w.restartOk
    ensures var t := PrimaryAnd(Row(Primary, NoUpstream, "b", "", 100, false));
            && Consistent(t) && !CleanState(DbShutdowning) && MayRejoin(PingNoResponse, DbShutdowning)
            && RejoinWorks(t, 2, 1, false, map[1 := Serving], true, true, w)
  {
    var t := PrimaryAnd(Row(Primary, NoUpstream, "b", "", 100, false));
    assert ActivePrimary(t[1]) && !ActivePrimary(t[2]);
  }
}
