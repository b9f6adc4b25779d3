/**
  The commands that register and unregister nodes. Each reports the writes it has committed to
  repmgr.nodes; connections, pings and replication queries are answers of the environment.
 */
module Registration {
  import opened NodeTable
  import opened Database
  import opened Recovery

  datatype Exit = Success | BadConfig | DbConn | DbQuery | PromotionFail

  datatype Config = Config(nodeId: int, name: string, conninfo: string, priority: int)

  // init_node_record with the type and upstream that the commands fill in.
  function Record(c: Config, kind: Kind, upstream: Upstream): Row {
    Row(kind, upstream, c.name, c.conninfo, c.priority, true)
  }

  function UpstreamOf(id: int): Upstream { if id == NODE_NOT_FOUND then NoUpstream else Node(id) }

  function One(committed: bool, w: Write): seq<Write> { if committed then [w] else [] }

  lemma OneWrite(t: Table, w: Write)
    requires Allowed(t, w)
    ensures Run(t, [w]) && After(t, [w]) == Apply(t, w)
  {
    assert After(Apply(t, w), []) == Apply(t, w);
    assert Run(Apply(t, w), []);
  }

  lemma AfterOne(t: Table, w: Write)
    ensures After(t, [w]) == Apply(t, w)
  {
    assert After(Apply(t, w), []) == Apply(t, w);
  }

  lemma NoWrites(t: Table)
    ensures Run(t, []) && After(t, []) == t
  {
  }

  // ---- primary register ----

  lemma RowIsLegal(t: Table, id: int, row: Row)
    requires ForeignKeys(t) && (row.upstream.Node? ==> row.upstream.id in t || row.upstream.id == id)
    ensures ForeignKeys(t[id := row])
  {
    var p := t[id := row];
    forall k | k in p ensures Refers(p, p[k]) {
      if k != id { assert Refers(t, t[k]); }
    }
  }

  lemma OnlyThisPrimary(t: Table, primary: int, id: int)
    requires OnePrimary(t)
    requires if ActivePrimaries(t) == {} then primary == NODE_NOT_FOUND else primary in ActivePrimaries(t)
    requires primary == NODE_NOT_FOUND || primary == id
    requires PositiveIds(t)
    ensures ActivePrimaries(t) <= {id}
  {
    forall k | k in t && ActivePrimary(t[k]) ensures k == id { assert k in ActivePrimaries(t); }
  }

  // No other node is known to be the primary, and an existing row may be overwritten.
  predicate MayRegisterPrimary(t: Table, id: int, force: bool, discovered: int) {
    discovered in {NODE_NOT_FOUND, id} && ActivePrimaries(t) <= {id} && (id in t ==> force)
  }

  // The checks before the transaction.
  method CheckServer(c: Config, dryRun: bool, recovery: RecoveryType, extension: bool, discovered: int)
    returns (exit: Exit)
    ensures exit == Success <==>
            recovery == RecPrimary && extension && (dryRun || discovered in {NODE_NOT_FOUND, c.nodeId})
    ensures recovery == RecUnknown ==> exit == DbConn
    ensures exit != Success && recovery != RecUnknown ==> exit == BadConfig
  {
    if recovery != RecPrimary { return if recovery == RecStandby then BadConfig else DbConn; }
    if !extension { return BadConfig; }
    if dryRun { return Success; }
    if discovered != NODE_NOT_FOUND && discovered != c.nodeId { return BadConfig; }
    exit := Success;
  }

  // The rest of the transaction, once no other primary has been found in it.
  method SavePrimary(db: Connection, c: Config, force: bool) returns (exit: Exit, committed: bool)
    requires db.Valid() && c.nodeId > 0 && (db.inTransaction ==> db.work == db.nodes)
    modifies db
    ensures db.Valid() && !db.inTransaction && db.lostBegins == old(db.lostBegins) && db.faults >= old(db.faults)
    ensures exit == Success ==> !old(db.aborted)
    ensures exit != Success ==> committed
    ensures old(db.inTransaction) ==>
              db.nodes == if exit == Success && committed
                          then old(db.nodes)[c.nodeId := Record(c, Primary, NoUpstream)] else old(db.nodes)
    ensures exit == Success && c.nodeId in old(db.View()) ==> force
    ensures db.faults == old(db.faults) && !old(db.aborted) ==>
              committed && (exit == Success <==> (c.nodeId in old(db.View()) ==> force))
  {
    committed := true;
    RowIsLegal(db.nodes, c.nodeId, Record(c, Primary, NoUpstream));
    var record := db.NodeRecord(c.nodeId);
    if record.Found? && !force {
      db.Rollback();
      return BadConfig, committed;
    }
    var saved, _ := db.SaveRecord(!record.Found?, c.nodeId, Record(c, Primary, NoUpstream));
    if !saved {
      db.Rollback();
      return DbQuery, committed;
    }
    committed := db.Commit();
    exit := Success;
  }

  /**
    do_primary_register; discovered is the node that the search for a running primary has found, -1
    if none. As long as the transaction could be started, the command commits a primary row only if
    no other node is registered as active primary, whatever queries fail; and when none fails, it
    registers exactly when it may.
   */
  method PrimaryRegister(db: Connection, c: Config, force: bool, dryRun: bool,
                         recovery: RecoveryType, extension: bool, discovered: int)
    returns (exit: Exit, ghost writes: seq<Write>, ghost begun: bool, ghost committed: bool)
    requires db.Valid() && !db.inTransaction && c.nodeId > 0
    modifies db
    ensures db.Valid() && !db.inTransaction
    ensures begun ==> db.nodes == After(old(db.nodes), writes)
    ensures begun && OnePrimary(old(db.nodes)) ==> Run(old(db.nodes), writes)
    ensures begun ==> writes == One(exit == Success && !dryRun && committed,
                                    RegisterPrimary(c.nodeId, Record(c, Primary, NoUpstream)))
    ensures begun <==> db.lostBegins == old(db.lostBegins)
    ensures begun && committed && exit == Success && !dryRun ==>
              && c.nodeId in db.nodes
              && db.nodes[c.nodeId] == Row(kind := Primary, upstream := NoUpstream, name := c.name,
                                           conninfo := c.conninfo, priority := c.priority, active := true)
    ensures begun && exit == Success && !dryRun ==>
              recovery == RecPrimary && discovered in {NODE_NOT_FOUND, c.nodeId}
              && (c.nodeId in old(db.nodes) ==> force)
    ensures db.faults == old(db.faults) && OnePrimary(old(db.nodes)) ==>
              && begun && committed
              && (exit == Success <==>
                  recovery == RecPrimary && extension
                  && (dryRun || MayRegisterPrimary(old(db.nodes), c.nodeId, force, discovered)))
  {
    hide ActivePrimaries, ForeignKeys, OnePrimary, Allowed, Run, After, Consistent;
    NoWrites(db.nodes);
    writes, begun, committed := [], true, true;
    exit := CheckServer(c, dryRun, recovery, extension, discovered);
    if exit != Success || dryRun { return; }
    begun := db.Begin();
    ghost var queried;
    var primary;
    primary, queried := db.PrimaryNodeId();
    if primary != NODE_NOT_FOUND && primary != c.nodeId {
      assert begun && queried ==> primary in ActivePrimaries(old(db.nodes));
      db.Rollback();
      return BadConfig, [], begun, true;
    }
    if begun && queried && OnePrimary(old(db.nodes)) { OnlyThisPrimary(old(db.nodes), primary, c.nodeId); }
    exit, committed := SavePrimary(db, c, force);
    if exit != Success { return exit, [], begun, true; }
    ghost var w := RegisterPrimary(c.nodeId, Record(c, Primary, NoUpstream));
    writes := One(committed, w);
    if begun {
      assert queried;
      AfterOne(old(db.nodes), w);
      if OnePrimary(old(db.nodes)) { OneWrite(old(db.nodes), w); }
    }
  }

  // ---- primary unregister ----

  // What do_primary_unregister asks of the node whose row it removes.
  predicate MayUnregisterPrimary(t: Table, id: int, force: bool, reachable: bool, recovery: RecoveryType) {
    && id in t && t[id].kind != Witness
    && NoDownstream(t, id)
    && (t[id].active ==> force)
    && (!reachable ==> t[id].kind == Primary)
    && (reachable && recovery == RecStandby ==> t[id].kind == Primary && force)
    && (reachable && recovery == RecPrimary ==> !ActivePrimary(t[id]))
  }

  lemma NotReferredTo(t: Table, id: int)
    requires ForeignKeys(t) && NoDownstream(t, id)
    ensures ForeignKeys(Without(t, id))
  {
    forall k | k in Without(t, id) ensures Refers(Without(t, id), Without(t, id)[k]) { assert Refers(t, t[k]); }
  }

  // The row that is to be removed: the registered primary's without --node-id (-1).
  method FindSubject(db: Connection, c: Config, target: int, primaryReachable: bool)
    returns (exit: Exit, subject: Lookup)
    requires db.Valid() && !db.inTransaction
    modifies db`aborted, db`faults
    ensures db.Valid() && db.faults >= old(db.faults)
    ensures exit == Success ==> subject.Found? && subject.id in db.nodes && subject.row == db.nodes[subject.id]
    ensures exit == Success ==>
              if target == NODE_NOT_FOUND then subject.id in ActivePrimaries(db.nodes) else subject.id == target
    ensures db.faults == old(db.faults) ==>
              (exit == Success <==> c.nodeId in db.nodes && ActivePrimaries(db.nodes) != {} && primaryReachable
                                    && (target == NODE_NOT_FOUND || target in db.nodes))
  {
    hide ActivePrimaries;
    subject := NotFound;
    var local := db.NodeRecord(c.nodeId);
    if !local.Found? { return BadConfig, subject; }
    var primary, _ := db.PrimaryNodeId();
    if primary == NODE_NOT_FOUND || !primaryReachable {
      PositiveIdsOnly(db.nodes);
      return DbConn, subject;
    }
    var registered, _ := db.PrimaryNodeId();
    if registered == NODE_NOT_FOUND {
      PositiveIdsOnly(db.nodes);
      return BadConfig, subject;
    }
    RegisteredIsThere(db.nodes);
    subject := db.NodeRecord(registered);
    if !subject.Found? { return BadConfig, subject; }
    if target == c.nodeId {
      subject := local;
    } else if target != NODE_NOT_FOUND {
      subject := db.NodeRecord(target);
      if !subject.Found? { return BadConfig, subject; }
    }
    exit := Success;
  }

  lemma PositiveIdsOnly(t: Table)
    requires PositiveIds(t)
    ensures NODE_NOT_FOUND !in ActivePrimaries(t)
  {
  }

  lemma RegisteredIsThere(t: Table)
    ensures forall id :: id in ActivePrimaries(t) ==> id in t
    ensures ActivePrimaries(t) == {} ==> forall id :: id !in ActivePrimaries(t)
  {
  }

  // The checks on that row and on its node.
  method CheckSubject(db: Connection, id: int, row: Row, force: bool, reachable: bool, recovery: RecoveryType)
    returns (exit: Exit)
    requires db.Valid() && !db.inTransaction && id in db.nodes && row == db.nodes[id]
    modifies db`aborted, db`faults
    ensures db.Valid() && db.faults >= old(db.faults) && exit in {Success, BadConfig}
    ensures exit == Success && OnePrimary(db.nodes) ==> !(reachable && recovery == RecPrimary && ActivePrimary(row))
    ensures db.faults == old(db.faults) && OnePrimary(db.nodes) && ActivePrimaries(db.nodes) != {} ==>
              (exit == Success <==> MayUnregisterPrimary(db.nodes, id, force, reachable, recovery))
  {
    if row.kind == Witness { return BadConfig; }
    var downstream := db.DownstreamCount(id);
    if downstream > 0 { return BadConfig; }
    if !reachable {
      if row.kind != Primary { return BadConfig; }
    } else if recovery == RecStandby {
      if row.kind != Primary || !force { return BadConfig; }
    } else if recovery == RecPrimary {
      var current, _ := db.PrimaryNodeId();
      IsThePrimary(db.nodes, id);
      if current == NODE_NOT_FOUND || current == id { return BadConfig; }
    }
    if row.active && !force { return BadConfig; }
    exit := Success;
  }

  lemma IsThePrimary(t: Table, id: int)
    requires PositiveIds(t)
    ensures NODE_NOT_FOUND !in ActivePrimaries(t)
    ensures id in t ==> (ActivePrimary(t[id]) <==> id in ActivePrimaries(t))
    ensures OnePrimary(t) && id in ActivePrimaries(t) ==> forall k :: k in ActivePrimaries(t) ==> k == id
  {
  }

  /**
    do_primary_unregister; target is the node given with --node-id, -1 for none. A node that can be
    reached, is not in recovery and is the registered active primary keeps its row, even with
    --force; and when no query fails, the row is removed exactly when it may be.
   */
  method PrimaryUnregister(db: Connection, c: Config, target: int, force: bool, dryRun: bool,
                           primaryReachable: bool, targetReachable: bool, targetRecovery: RecoveryType)
    returns (exit: Exit, ghost writes: seq<Write>, ghost removed: int)
    requires db.Valid() && !db.inTransaction
    modifies db
    ensures db.Valid() && !db.inTransaction
    ensures Run(old(db.nodes), writes) && db.nodes == After(old(db.nodes), writes)
    ensures writes == One(exit == Success && !dryRun, Remove(removed))
    ensures target != NODE_NOT_FOUND ==> removed == target
    ensures target == NODE_NOT_FOUND && exit == Success ==> removed in ActivePrimaries(old(db.nodes))
    ensures OnePrimary(old(db.nodes)) && exit == Success ==>
              && removed in old(db.nodes)
              && !(targetReachable && targetRecovery == RecPrimary && ActivePrimary(old(db.nodes)[removed]))
    ensures db.faults == old(db.faults) && OnePrimary(old(db.nodes)) ==>
              (exit == Success <==>
               && c.nodeId in old(db.nodes) && ActivePrimaries(old(db.nodes)) != {} && primaryReachable
               && MayUnregisterPrimary(old(db.nodes), removed, force, targetReachable, targetRecovery))
  {
    hide ActivePrimaries;
    writes, removed := [], target;
    var subject;
    exit, subject := FindSubject(db, c, target, primaryReachable);
    if exit != Success {
      PositiveIdsOnly(db.nodes);
      assert NODE_NOT_FOUND !in db.nodes;
      return;
    }
    removed := subject.id;
    exit := CheckSubject(db, subject.id, subject.row, force, targetReachable, targetRecovery);
    if exit != Success || dryRun { return; }
    if NoDownstream(db.nodes, removed) { NotReferredTo(db.nodes, removed); }
    var deleted := db.DeleteRecord(subject.id);
    if !deleted { return DbQuery, [], removed; }
    writes := [Remove(removed)];
    OneWrite(old(db.nodes), Remove(removed));
  }

  // ---- standby register ----

  datatype StandbyOptions = StandbyOptions(force: bool, dryRun: bool, upstreamId: int, connectionParams: bool)

  // Answers of the environment to standby register.
  datatype StandbyWorld = StandbyWorld(
    localReachable: bool,             // after waiting up to --wait-start seconds
    localRecovery: RecoveryType,
    discovered: int,                  // the running primary that the search found, -1 if none was heard
    givenPrimaryReachable: bool,      // the primary given by connection parameters
    versionsMatch: bool,
    upstreamReachable: bool,
    attachedToUpstream: bool,
    attachedToPrimary: bool,
    placeholderConninfo: string
  )

  function Placeholder(w: StandbyWorld): Row {
    Row(Standby, NoUpstream, "", w.placeholderConninfo, 100, false)
  }

  // What an upstream must be without --force, apart from the record that is looked at.
  predicate WithoutForce(t: Table, c: Config, o: StandbyOptions, w: StandbyWorld) {
    o.upstreamId != c.nodeId && o.upstreamId in t && w.upstreamReachable && w.attachedToUpstream
  }

  // With --force it must be registered, or there must be a primary to put a placeholder below.
  predicate WithForce(t: Table, c: Config, o: StandbyOptions) {
    o.upstreamId != c.nodeId && (o.upstreamId in t || ActivePrimaries(t) != {})
  }

  lemma PlaceholderIsLegal(t: Table, id: int, row: Row)
    requires ForeignKeys(t) && PositiveIds(t) && id !in t
    ensures forall u :: u in t ==> ForeignKeys(t[id := row.(upstream := Node(u))])
    ensures id != NODE_NOT_FOUND ==> !ForeignKeys(t[id := row.(upstream := Node(NODE_NOT_FOUND))])
    ensures ActivePrimaries(t) != {} ==> forall u :: u in ActivePrimaries(t) ==> u in t
  {
    forall u | u in t ensures ForeignKeys(t[id := row.(upstream := Node(u))]) {
      RowIsLegal(t, id, row.(upstream := Node(u)));
    }
    if id != NODE_NOT_FOUND {
      var p := t[id := row.(upstream := Node(NODE_NOT_FOUND))];
      assert id in p && !Refers(p, p[id]);
    }
  }

  /**
    The part of do_standby_register that deals with --upstream-node-id; recordActive is the active
    flag of the record that was looked up last. The active flag of the upstream has no part in it.
   */
  method CheckUpstream(db: Connection, c: Config, o: StandbyOptions, w: StandbyWorld, recordActive: bool)
    returns (ok: bool, ghost writes: seq<Write>)
    requires db.Valid() && !db.inTransaction && o.upstreamId > 0
    modifies db
    ensures db.Valid() && !db.inTransaction
    ensures Run(old(db.nodes), writes) && db.nodes == After(old(db.nodes), writes)
    ensures db.faults >= old(db.faults)
    ensures ok ==> o.upstreamId != c.nodeId
    ensures ok && !o.force ==> WithoutForce(old(db.nodes), c, o, w) && recordActive
    ensures db.faults == old(db.faults) && !o.force ==> (ok <==> WithoutForce(old(db.nodes), c, o, w) && recordActive)
    ensures db.faults == old(db.faults) && o.force ==> (ok <==> WithForce(old(db.nodes), c, o))
    ensures db.faults == old(db.faults) && ok ==> o.upstreamId in db.nodes
    ensures ok ==> (c.nodeId in db.nodes <==> c.nodeId in old(db.nodes))
    ensures writes == [] ||
            (o.force && o.upstreamId !in old(db.nodes)
             && exists u :: writes == [Save(o.upstreamId, Placeholder(w).(upstream := Node(u)))])
  {
    ok, writes := false, [];
    if o.upstreamId == c.nodeId { return; }
    var upstream := db.NodeRecord(o.upstreamId);
    if !upstream.Found? {
      if !o.force { return; }
      if o.upstreamId !in db.nodes { PlaceholderIsLegal(db.nodes, o.upstreamId, Placeholder(w)); }
      var created, u := db.SaveRecord(true, o.upstreamId, Placeholder(w));
      if created {
        writes := [Save(o.upstreamId, Placeholder(w).(upstream := u))];
        OneWrite(old(db.nodes), Save(o.upstreamId, Placeholder(w).(upstream := u)));
      } else {
        upstream := db.NodeRecord(o.upstreamId);
        if !upstream.Found? { return; }
      }
    } else if !recordActive {
      if !o.force { return; }
    } else if !w.upstreamReachable || !w.attachedToUpstream {
      if !o.force { return; }
    }
    ok := true;
  }

  // The local node runs as a standby, and its primary has been found.
  predicate RunningStandby(w: StandbyWorld) {
    w.localReachable && w.localRecovery == RecStandby && w.discovered != NODE_NOT_FOUND && w.versionsMatch
  }

  predicate NameIsFree(t: Table, c: Config) {
    forall k :: k in t && t[k].name == c.name && t[k].active ==> k == c.nodeId
  }

  predicate NameIsUnused(t: Table, c: Config) { forall k :: k in t ==> t[k].name != c.name }

  // The connections that are needed.
  predicate CanConnect(o: StandbyOptions, w: StandbyWorld) {
    if w.localReachable then RunningStandby(w) else o.force && o.connectionParams && w.givenPrimaryReachable
  }

  // The name belongs to other nodes, which are all active.
  predicate NameIsTaken(t: Table, c: Config) {
    !NameIsUnused(t, c) && forall k :: k in t && t[k].name == c.name ==> t[k].active && k != c.nodeId
  }

  /**
    A node that has been registered under a new name takes it: standby register then fails for every
    other node of that name.
   */
  lemma RegisteredNameIsTaken(t: Table, c: Config, kind: Kind, upstream: Upstream, other: Config)
    requires NameIsUnused(Without(t, c.nodeId), c)
    requires other.name == c.name && other.nodeId != c.nodeId
    ensures NameIsTaken(t[c.nodeId := Record(c, kind, upstream)], other)
  {
    var p := t[c.nodeId := Record(c, kind, upstream)];
    assert p[c.nodeId].name == c.name;
    assert forall k :: k in p && k != c.nodeId ==> k in Without(t, c.nodeId) && p[k] == Without(t, c.nodeId)[k];
  }

  // When a standby is registered without --upstream-node-id, if no other active node has its name.
  predicate MayRegister(t: Table, c: Config, o: StandbyOptions, w: StandbyWorld) {
    && CanConnect(o, w)
    && (o.force || (c.nodeId !in t && w.attachedToPrimary))
    && (o.dryRun
        || if w.localReachable then w.discovered in t || w.discovered == c.nodeId else ActivePrimaries(t) != {})
  }

  // When it is registered below a given upstream without --force.
  predicate MayRegisterBelow(t: Table, c: Config, o: StandbyOptions, w: StandbyWorld) {
    RunningStandby(w) && c.nodeId !in t && NameIsUnused(t, c) && WithoutForce(t, c, o, w)
  }

  /** Whether the upstream is active makes no difference. */
  lemma UpstreamActivityIsIgnored(t: Table, c: Config, o: StandbyOptions, w: StandbyWorld, active: bool)
    requires o.upstreamId in t
    ensures var p := t[o.upstreamId := t[o.upstreamId].(active := active)];
            MayRegisterBelow(p, c, o, w) <==> MayRegisterBelow(t, c, o, w)
  {
    var p := t[o.upstreamId := t[o.upstreamId].(active := active)];
    assert p.Keys == t.Keys;
    assert forall k :: k in t ==> p[k].name == t[k].name;
  }

  // An active primary and an inactive standby of the given name below it.
  function InactiveStandby(name: string): Table {
    map[1 := Row(Primary, NoUpstream, "a", "", 100, true), 2 := Row(Standby, Node(1), name, "", 100, false)]
  }

  /** A standby is registered below an inactive upstream without --force. */
  lemma InactiveUpstreamIsAccepted(c: Config, o: StandbyOptions, w: StandbyWorld)
    requires c.nodeId == 3 && c.name == "c" && !o.force && o.upstreamId == 2
    requires RunningStandby(w) && w.upstreamReachable && w.attachedToUpstream
    ensures var t := InactiveStandby("b");
            Consistent(t) && !t[o.upstreamId].active && MayRegisterBelow(t, c, o, w)
  {
    var t := InactiveStandby("b");
    assert t[1].name[0] == 'a' && t[2].name[0] == 'b' && c.name[0] == 'c';
  }

  // The first part of do_standby_register: connections to the local node and to the primary.
  method CheckConnections(o: StandbyOptions, w: StandbyWorld) returns (exit: Exit)
    ensures exit == Success <==> CanConnect(o, w)
  {
    if !w.localReachable {
      if !o.force || !o.connectionParams { return BadConfig; }
    } else if w.localRecovery != RecStandby {
      return if w.localRecovery == RecPrimary then BadConfig else DbConn;
    }
    if w.localReachable {
      if w.discovered == NODE_NOT_FOUND { return BadConfig; }
    } else if !w.givenPrimaryReachable {
      return BadConfig;
    }
    if w.localReachable && !w.versionsMatch { return BadConfig; }
    exit := Success;
  }

  // The second part: the rows with this node's name and id.
  method LookUpStandby(db: Connection, c: Config, force: bool)
    returns (exit: Exit, record: Lookup, recordActive: bool)
    requires db.Valid() && !db.inTransaction
    modifies db`aborted, db`faults
    ensures db.Valid() && db.faults >= old(db.faults)
    ensures exit == Success && record.Found? ==> force && c.nodeId in db.nodes
    ensures exit == Success && record.NotFound? ==> c.nodeId !in db.nodes
    ensures db.faults == old(db.faults) && NameIsFree(db.nodes, c) ==>
              (exit == Success <==> force || c.nodeId !in db.nodes)
    ensures db.faults == old(db.faults) && !force ==>
              (exit == Success && recordActive <==> c.nodeId !in db.nodes && NameIsUnused(db.nodes, c))
    ensures db.faults == old(db.faults) && exit == Success ==> !record.Error?
    ensures db.faults == old(db.faults) && NameIsTaken(db.nodes, c) ==> exit != Success
  {
    recordActive, record := true, NotFound;
    var named := db.NodeRecordByName(c.name);
    if named.Found? {
      if named.row.active && named.id != c.nodeId { return BadConfig, record, true; }
      recordActive := named.row.active;
    }
    record := db.NodeRecord(c.nodeId);
    if record.Found? {
      if !force { return BadConfig, record, true; }
      recordActive := record.row.active;
    }
    exit := Success;
  }

  /**
    do_standby_register, without --wait-sync: when no statement fails, exactly when it succeeds.
   */
  method StandbyRegister(db: Connection, c: Config, o: StandbyOptions, w: StandbyWorld)
    returns (exit: Exit, ghost writes: seq<Write>)
    requires db.Valid() && !db.inTransaction && c.nodeId > 0 && (o.upstreamId > 0 || o.upstreamId == NODE_NOT_FOUND)
    requires w.discovered > 0 || w.discovered == NODE_NOT_FOUND
    modifies db
    ensures db.Valid() && !db.inTransaction
    ensures Run(old(db.nodes), writes) && db.nodes == After(old(db.nodes), writes)
    ensures forall x :: x in writes ==> x.Save? && x.row.kind == Standby && (x.id == c.nodeId || !x.row.active)
    ensures exit == Success && !o.dryRun ==>
              && c.nodeId in db.nodes
              && (exists u :: db.nodes[c.nodeId] == Row(kind := Standby, upstream := Node(u), name := c.name,
                                                        conninfo := c.conninfo, priority := c.priority, active := true)
                              && u in db.nodes && (o.upstreamId > 0 ==> u == o.upstreamId))
              && (c.nodeId in old(db.nodes) ==> o.force)
    ensures db.faults == old(db.faults) && NameIsTaken(old(db.nodes), c) ==> exit != Success && writes == []
    ensures exit == Success && !o.force && o.upstreamId > 0 ==> WithoutForce(old(db.nodes), c, o, w)
    ensures db.faults == old(db.faults) && o.upstreamId > 0 && !o.force ==>
              (exit == Success <==> MayRegisterBelow(old(db.nodes), c, o, w))
    ensures db.faults == old(db.faults) && o.upstreamId > 0 && o.force && NameIsFree(old(db.nodes), c) ==>
              (exit == Success <==> CanConnect(o, w) && WithForce(old(db.nodes), c, o))
    ensures db.faults == old(db.faults) && o.upstreamId == NODE_NOT_FOUND && NameIsFree(old(db.nodes), c) ==>
              (exit == Success <==> MayRegister(old(db.nodes), c, o, w))
  {
    writes := [];
    exit := CheckConnections(o, w);
    if exit != Success { return; }
    var primaryId := if w.localReachable then w.discovered else NODE_NOT_FOUND;
    var record, recordActive;
    exit, record, recordActive := LookUpStandby(db, c, o.force);
    if exit != Success { return; }
    if o.upstreamId != NODE_NOT_FOUND {
      var ok;
      ok, writes := CheckUpstream(db, c, o, w, recordActive);
      if !ok { return BadConfig, writes; }
    }
    var upstreamId := if o.upstreamId == NODE_NOT_FOUND then primaryId else o.upstreamId;
    var attached := true;
    if o.upstreamId == NODE_NOT_FOUND && w.localReachable && !record.Found? && !w.attachedToPrimary && !o.force {
      if !o.dryRun { return BadConfig, writes; }
      attached := false;
    }
    if o.dryRun { return if attached then Success else BadConfig, writes; }
    var saved;
    ghost var stored;
    saved, stored := SaveStandby(db, c, !record.Found?, upstreamId);
    if !saved { return BadConfig, writes; }
    RunSnoc(old(db.nodes), writes, Save(c.nodeId, stored));
    exit, writes := Success, writes + [Save(c.nodeId, stored)];
  }

  // The row of the standby itself; without an upstream (-1) it goes below the active primary.
  method SaveStandby(db: Connection, c: Config, create: bool, upstreamId: int) returns (saved: bool, ghost stored: Row)
    requires db.Valid() && !db.inTransaction && c.nodeId > 0 && (upstreamId > 0 || upstreamId == NODE_NOT_FOUND)
    modifies db
    ensures db.Valid() && !db.inTransaction && db.faults >= old(db.faults)
    ensures !saved ==> db.nodes == old(db.nodes)
    ensures saved && create ==> c.nodeId !in old(db.nodes)
    ensures create || c.nodeId in old(db.nodes) ==> saved ==>
              && db.nodes == old(db.nodes)[c.nodeId := stored] && Allowed(old(db.nodes), Save(c.nodeId, stored))
              && stored.upstream.Node? && stored == Record(c, Standby, stored.upstream) && Refers(db.nodes, stored)
              && (upstreamId > 0 ==> stored.upstream == Node(upstreamId))
    ensures db.faults == old(db.faults) && create == (c.nodeId !in old(db.nodes)) ==>
              (saved <==> if upstreamId > 0 then upstreamId in old(db.nodes) || upstreamId == c.nodeId
                          else ActivePrimaries(old(db.nodes)) != {})
  {
    var row := Record(c, Standby, UpstreamOf(upstreamId));
    ghost var before := db.nodes;
    RegisteredIsThere(before);
    hide ActivePrimaries;
    ghost var u;
    saved, u := db.SaveRecord(create, c.nodeId, row);
    stored := row.(upstream := u);
    assert stored == Record(c, Standby, u);
    if u.Node? && (u.id in before || u.id == c.nodeId) { RowIsLegal(before, c.nodeId, stored); }
    if saved && (create || c.nodeId in before) { assert c.nodeId in db.nodes && db.nodes[c.nodeId] == stored; }
  }

  lemma {:induction false} RunSnoc(t: Table, ws: seq<Write>, w: Write)
    requires Run(t, ws) && Allowed(After(t, ws), w)
    ensures Run(t, ws + [w]) && After(t, ws + [w]) == Apply(After(t, ws), w)
    decreases |ws|
  {
    if ws == [] {
      assert ws + [w] == [w];
      OneWrite(t, w);
    } else {
      assert (ws + [w])[1..] == ws[1..] + [w];
      RunSnoc(Apply(t, ws[0]), ws[1..], w);
    }
  }

  // ---- standby and witness unregister ----

  // do_standby_unregister and do_witness_unregister, which differ in the type they look for and in
  // --dry-run, which only the latter knows.
  method Unregister(db: Connection, kind: Kind, target: int, dryRun: bool, primaryReachable: bool)
    returns (exit: Exit, ghost writes: seq<Write>)
    requires db.Valid() && !db.inTransaction && (kind == Standby || kind == Witness)
    modifies db
    ensures db.Valid() && !db.inTransaction
    ensures Run(old(db.nodes), writes) && db.nodes == After(old(db.nodes), writes)
    ensures writes == One(exit == Success && !(dryRun && kind == Witness), Remove(target))
    ensures writes != [] ==> target in old(db.nodes) && old(db.nodes)[target].kind == kind
    ensures db.faults == old(db.faults) ==>
              (exit == Success <==>
               primaryReachable && target in old(db.nodes) && old(db.nodes)[target].kind == kind
               && ((dryRun && kind == Witness) || ForeignKeys(Without(old(db.nodes), target))))
    ensures ActivePrimaries(db.nodes) == ActivePrimaries(old(db.nodes))
  {
    writes := [];
    if !primaryReachable { return BadConfig, []; }
    var record := db.NodeRecord(target);
    if !record.Found? || record.row.kind != kind { return BadConfig, []; }
    if dryRun && kind == Witness { return Success, []; }
    var deleted := db.DeleteRecord(target);
    if !deleted { return BadConfig, []; }
    exit, writes := Success, [Remove(target)];
    OneWrite(old(db.nodes), Remove(target));
    assert ActivePrimaries(Without(old(db.nodes), target)) == ActivePrimaries(old(db.nodes));
  }

  // ---- witness register ----

  lemma NotAPrimary(t: Table, id: int, row: Row)
    requires id in t ==> !ActivePrimary(t[id])
    requires !ActivePrimary(row)
    ensures ActivePrimaries(t[id := row]) == ActivePrimaries(t)
  {
  }

  datatype WitnessWorld = WitnessWorld(
    witnessReachable: bool, witnessRecovery: RecoveryType, witnessIsBdr: bool,
    primaryReachable: bool, primaryRecovery: RecoveryType, reconnects: bool, primaryIsBdr: bool, extension: bool,
    witnessRecords: int              // rows in the witness's own table, -1 if they cannot be read
  )

  // Witness and primary can be reached and used, and the witness's own table may be overwritten.
  predicate ReadyWitness(w: WitnessWorld, force: bool, dryRun: bool) {
    && w.witnessReachable && w.witnessRecovery != RecStandby && !w.witnessIsBdr
    && w.primaryReachable && w.primaryRecovery != RecStandby && w.reconnects && !w.primaryIsBdr
    && (w.extension || dryRun)
    && w.witnessRecords >= 0 && (w.witnessRecords > 0 ==> force)
  }

  predicate MayRegisterWitness(t: Table, c: Config, force: bool) {
    NameIsFree(t, c) && (c.nodeId in t ==> t[c.nodeId].kind == Witness && force)
  }

  // The first part of do_witness_register: both servers, and the registered primary.
  method FindWitnessPrimary(db: Connection, dryRun: bool, w: WitnessWorld) returns (exit: Exit, primary: int)
    requires db.Valid() && !db.inTransaction
    modifies db`aborted, db`faults
    ensures db.Valid() && db.faults >= old(db.faults)
    ensures exit == Success ==>
              && primary in db.nodes
              && w.witnessReachable && w.witnessRecovery != RecStandby && !w.witnessIsBdr
              && w.primaryReachable && w.primaryRecovery != RecStandby && w.reconnects && !w.primaryIsBdr
              && (dryRun || w.extension)
    ensures db.faults == old(db.faults) && ActivePrimaries(db.nodes) != {} ==>
              (exit == Success <==>
               && w.witnessReachable && w.witnessRecovery != RecStandby && !w.witnessIsBdr
               && w.primaryReachable && w.primaryRecovery != RecStandby && w.reconnects && !w.primaryIsBdr
               && (dryRun || w.extension))
  {
    primary := NODE_NOT_FOUND;
    if !w.witnessReachable || w.witnessRecovery == RecStandby || w.witnessIsBdr { return BadConfig, primary; }
    if !w.primaryReachable || w.primaryRecovery == RecStandby { return BadConfig, primary; }
    var id, _ := db.PrimaryNodeId();
    if id == NODE_NOT_FOUND {
      PositiveIdsOnly(db.nodes);
      return BadConfig, primary;
    }
    var record := db.NodeRecord(id);
    if !record.Found? || !w.reconnects || w.primaryIsBdr { return BadConfig, primary; }
    if !dryRun && !w.extension { return BadConfig, primary; }
    exit, primary := Success, id;
  }

  /**
    do_witness_register up to the copy of the records. Whether the row is updated or created is
    decided by whether the name is registered, not by whether the node is: so when no statement
    fails, the command succeeds without registering an unregistered node exactly when another row has
    its name, and fails for a registered node under a new name.
   */
  method WitnessRegister(db: Connection, c: Config, force: bool, dryRun: bool, w: WitnessWorld)
    returns (exit: Exit, ghost writes: seq<Write>, ghost found: Lookup, ghost named: Lookup)
    requires db.Valid() && !db.inTransaction && c.nodeId > 0
    modifies db
    ensures db.Valid() && !db.inTransaction
    ensures Run(old(db.nodes), writes) && db.nodes == After(old(db.nodes), writes)
    ensures exit == Success && !dryRun ==>
              && (c.nodeId in db.nodes <==> c.nodeId in old(db.nodes) || !named.Found?)
              && (c.nodeId in old(db.nodes) ==> named.Found?)
              && (c.nodeId in old(db.nodes) && !found.Error? ==> force && old(db.nodes)[c.nodeId].kind == Witness)
              && (c.nodeId in db.nodes ==>
                    exists u :: u in old(db.nodes) && db.nodes[c.nodeId] ==
                                Row(kind := Witness, upstream := Node(u), name := c.name, conninfo := c.conninfo,
                                    priority := 0, active := true))
              && (c.nodeId !in db.nodes ==> writes == [] && !named.row.active)
    ensures exit != Success || dryRun ==> writes == []
    ensures named.Found? ==>
              named.id in old(db.nodes) && named.row == old(db.nodes)[named.id] && named.row.name == c.name
    ensures !found.Error? ==> ActivePrimaries(db.nodes) == ActivePrimaries(old(db.nodes))
    ensures db.faults == old(db.faults) && exit == Success ==> (named.Found? <==> !NameIsUnused(old(db.nodes), c))
    ensures db.faults == old(db.faults) && exit == Success && !dryRun ==>
              (c.nodeId in db.nodes <==> c.nodeId in old(db.nodes) || NameIsUnused(old(db.nodes), c))
    ensures exit == Success ==> ReadyWitness(w, force, dryRun)
    ensures db.faults == old(db.faults) && ActivePrimaries(old(db.nodes)) != {} && NameIsFree(old(db.nodes), c) ==>
              (exit == Success <==>
               && ReadyWitness(w, force, dryRun) && MayRegisterWitness(old(db.nodes), c, force)
               && (dryRun || c.nodeId !in old(db.nodes) || !NameIsUnused(old(db.nodes), c)))
  {
    writes, found, named := [], NotFound, NotFound;
    var primary;
    exit, primary := FindWitnessPrimary(db, dryRun, w);
    if exit != Success { return; }
    var record := db.NodeRecord(c.nodeId);
    found := record;
    if record.Found? && (record.row.kind != Witness || !force) { return BadConfig, [], found, named; }
    var byName := db.NodeRecordByName(c.name);
    named := byName;
    assert db.View() == db.nodes;
    if byName.Found? && byName.row.active && byName.id != c.nodeId { return BadConfig, [], found, named; }
    if w.witnessRecords < 0 || (w.witnessRecords > 0 && !force) { return BadConfig, [], found, named; }
    if dryRun { return Success, [], found, named; }
    var row := Record(c.(priority := 0), Witness, Node(primary));
    RowIsLegal(db.nodes, c.nodeId, row);
    var saved, u := db.SaveRecord(!byName.Found?, c.nodeId, row);
    if !saved { return BadConfig, [], found, named; }
    exit := Success;
    if c.nodeId in db.nodes {
      assert row.(upstream := u) == row;
      writes := [Save(c.nodeId, row)];
      OneWrite(old(db.nodes), Save(c.nodeId, row));
      if !found.Error? { NotAPrimary(old(db.nodes), c.nodeId, row); }
    }
  }

  /**
    With an inactive node of the same name, an unregistered witness meets all conditions, and its
    registration succeeds without a row.
   */
  lemma WitnessIsNotRegistered(c: Config, force: bool)
    requires c.nodeId == 3 && c.name == "w"
    ensures var t := InactiveStandby(c.name);
            && ForeignKeys(t) && ActivePrimaries(t) != {} && MayRegisterWitness(t, c, force)
            && c.nodeId !in t && !NameIsUnused(t, c)
  {
    var t := InactiveStandby(c.name);
    assert 1 in ActivePrimaries(t) && t[2].name == c.name;
    assert t[1].name[0] == 'a' && c.name[0] == 'w';
  }
}
