/**
  standby switchover: stop the primary, make sure that it is down and that this standby has received
  all of its WAL, promote this standby. The servers run by themselves between the steps of the
  command, and pings, remote commands and queries may fail or mislead at any time.
 */
module Switchover {
  import opened ShutdownReport
  import opened RepmgrdPause
  import opened Recovery

  // The primary that is to be demoted. Rejoined: running again, in recovery.
  datatype Primary = Serving | CleanlyDown(checkpoint: nat) | Crashed | Rejoined

  // What the command asks for, with the answers.
  datatype Event =
    | StopRequested
    | Pinged(answer: Ping)
    | Reported(arrived: bool, status: NodeStatus, checkpoint: nat)   // what the other node has printed
    | Received(answered: bool, lsn: nat)
    | LookedUp(found: bool)                                          // the record of the local node
    | PromotionRequested(ok: bool)
    | Asked(recovery: RecoveryType)
    | Updated(ok: bool)                                              // the table, to the new primary
    | RejoinRequested(ok: bool)

  class Servers {
    var primary: Primary
    var walEnd: nat                // end of the WAL that the primary has written
    var dataEnd: nat               // the same without the record of a shutdown checkpoint
    var received: nat              // how much of it the standby has received
    var told: bool                 // the standby has been told to leave recovery
    var promoted: bool             // the standby has left recovery

    // History: all requests and answers, what was the case when the standby left recovery, and
    // whether both servers have ever been serving at the same time.
    ghost var log: seq<Event>
    ghost var over: Primary
    ghost var receivedThen: nat
    ghost var twoPrimaries: bool

    ghost predicate Valid()
      reads this
    {
      && received <= walEnd < TWO32 * TWO32 && dataEnd <= walEnd
      && (primary.CleanlyDown? ==> primary.checkpoint == dataEnd && dataEnd != INVALID_LSN)
      && (primary == Serving && promoted ==> twoPrimaries)
    }

    lemma LastCheckpoint()
      requires Valid() && primary.CleanlyDown?
      ensures primary.checkpoint == dataEnd
    {
    }

    // Before the command.
    ghost predicate Initial()
      reads this
    {
      Valid() && !promoted && !twoPrimaries
    }

    constructor (walEnd: nat, received: nat)
      requires received <= walEnd < TWO32 * TWO32
      ensures Initial() && primary == Serving
    {
      this.primary, this.walEnd, this.dataEnd, this.received := Serving, walEnd, walEnd, received;
      this.told, this.promoted := false, false;
      this.log, this.over, this.receivedThen, this.twoPrimaries := [], Serving, 0, false;
    }

    // Time passes. A serving primary writes WAL, and may shut down or crash; a crashed one may come
    // back; a cleanly stopped one stays down. The checkpoint of a shutdown is where its record
    // begins, which is the last that is written. The standby receives WAL.
    method Elapse()
      requires Valid()
      modifies this`primary, this`walEnd, this`dataEnd, this`received, this`twoPrimaries
      ensures Valid() && received >= old(received)
      ensures old(primary.CleanlyDown? || primary.Rejoined?) ==>
                primary == old(primary) && dataEnd == old(dataEnd) && walEnd == old(walEnd)
      ensures !promoted || old(primary.CleanlyDown? || primary.Rejoined?) ==> twoPrimaries == old(twoPrimaries)
    {
      if primary == Serving {
        var end: nat :| walEnd <= end < TWO32 * TWO32;
        walEnd, dataEnd := end, end;
        var what: int := *;
        if what == 1 && walEnd != INVALID_LSN {
          primary := CleanlyDown(walEnd);
          var last: nat :| walEnd <= last < TWO32 * TWO32;
          walEnd := last;
        } else if what == 2 {
          primary := Crashed;
        }
      } else if primary == Crashed {
        var back: bool := *;
        if back { primary := Serving; }
      }
      var now: nat :| received <= now <= walEnd;
      received := now;
      if primary == Serving && promoted { twoPrimaries := true; }
    }

    // "repmgr node service --action=stop" on the primary's host. The result is not looked at.
    method RequestStop()
      requires Valid()
      modifies this`log
      ensures Valid() && log == old(log) + [StopRequested]
    {
      log := log + [StopRequested];
    }

    // PQping of the primary, which may mislead.
    method PingPrimary() returns (answer: Ping)
      requires Valid()
      modifies this`log
      ensures Valid() && log == old(log) + [Pinged(answer)]
    {
      answer := *;
      log := log + [Pinged(answer)];
    }

    // "repmgr node status --is-shutdown-cleanly" on the primary's host. The control file says that
    // the server is shut down only if it is, with the checkpoint of that shutdown.
    method RemoteStatus() returns (ok: bool, output: string, ghost status: NodeStatus, ghost checkpoint: nat)
      requires Valid()
      modifies this`log
      ensures Valid() && log == old(log) + [Reported(ok, status, checkpoint)]
      ensures ok ==> output == Line(status, checkpoint) && checkpoint < TWO32 * TWO32
      ensures ok && status == Down ==> primary == CleanlyDown(checkpoint) && checkpoint != INVALID_LSN
    {
      hide Line;
      ok := *;
      output, status, checkpoint := "", Unknown, 0;
      if ok {
        var file: DbState := *;
        if CleanState(file) && !primary.CleanlyDown? { file := DbInProduction; }
        var dir: bool := *;
        var ping: Ping := *;
        var location: nat :| location < TWO32 * TWO32;
        if primary.CleanlyDown? { location := primary.checkpoint; }
        var s;
        output, s := PrintReport(NodeState(dir, ping, file, location));
        status, checkpoint := s, location;
      }
      log := log + [Reported(ok, status, checkpoint)];
    }

    // get_replication_info on this node: on failure what was known before stays.
    method ReceivedLsn(known: nat) returns (lsn: nat, ghost answered: bool)
      requires Valid() && known <= received
      modifies this`log
      ensures Valid() && lsn <= received
      ensures log == old(log) + [Received(answered, lsn)] && (answered || lsn == known)
    {
      var ok: bool := *;
      lsn, answered := known, ok;
      if ok { lsn :| lsn <= received; }
      log := log + [Received(answered, lsn)];
    }

    // The record of the local node.
    method LookUp() returns (found: bool)
      requires Valid()
      modifies this`log
      ensures Valid() && log == old(log) + [LookedUp(found)]
    {
      found := *;
      log := log + [LookedUp(found)];
    }

    // pg_promote() or the promote command.
    method Promote() returns (ok: bool)
      requires Valid()
      modifies this`told, this`log
      ensures Valid() && told == (old(told) || ok) && log == old(log) + [PromotionRequested(ok)]
    {
      ok := *;
      told := told || ok;
      log := log + [PromotionRequested(ok)];
    }

    // The standby leaves recovery at some time after it has been told to.
    method MayLeaveRecovery()
      requires Valid()
      modifies this`promoted, this`over, this`receivedThen, this`twoPrimaries
      ensures Valid()
      ensures promoted == old(promoted) ==>
                over == old(over) && receivedThen == old(receivedThen) && twoPrimaries == old(twoPrimaries)
      ensures promoted != old(promoted) ==>
                told && promoted && over == primary && receivedThen == received
                && (primary != Serving ==> twoPrimaries == old(twoPrimaries))
    {
      var leaves: bool := *;
      if leaves && told && !promoted {
        promoted, over, receivedThen := true, primary, received;
        if primary == Serving { twoPrimaries := true; }
      }
    }

    // The query for the recovery type of the local node, which may fail.
    method AskRecovery() returns (r: RecoveryType)
      requires Valid()
      modifies this`log
      ensures Valid() && log == old(log) + [Asked(r)]
      ensures r == RecPrimary ==> promoted
      ensures r == RecStandby ==> !promoted
    {
      var answered: bool := *;
      r := if !answered then RecUnknown else if promoted then RecPrimary else RecStandby;
      log := log + [Asked(r)];
    }

    // update_node_record_set_primary
    method UpdateRecord() returns (ok: bool)
      requires Valid()
      modifies this`log
      ensures Valid() && log == old(log) + [Updated(ok)]
    {
      ok := *;
      log := log + [Updated(ok)];
    }

    // "repmgr node rejoin" on the primary's host: starts it in recovery, if it is down.
    method Rejoin() returns (ok: bool)
      requires Valid()
      modifies this`primary, this`log
      ensures Valid() && log == old(log) + [RejoinRequested(ok)]
    {
      ok := *;
      if ok && (primary.CleanlyDown? || primary == Crashed) { primary := Rejoined; }
      log := log + [RejoinRequested(ok)];
    }
  }

  datatype ConnectionCheck = CheckFails | ConnOk | ConnBad

  // What the checks before the switchover find.
  datatype Checks = Checks(
    recordFound: bool, streaming: bool, inRecovery: bool,
    primaryReachable: bool, primaryRecordFound: bool,
    upstreamId: int, primaryId: int,     // as registered; the primary as found by the search
    attached: bool,                      // listed in the primary's pg_stat_replication
    replayPause: PauseQuery,
    noBackup: bool,
    canRewind: bool, ssh: bool, remoteRepmgr: bool, dataDirectory: bool,
    siblingsReachable: bool, enoughWalSenders: bool, connection: ConnectionCheck,
    archiving: bool, lagAcceptable: bool, enoughSlots: bool,
    localConnection: bool,               // after the shutdown, reconnecting if necessary
    primaryComesBack: bool               // reachable again in the end
  )

  datatype Options = Options(
    force: bool, alwaysPromote: bool, dryRun: bool, forceRewind: bool, siblingsFollow: bool, noPause: bool,
    shutdownCheckTimeout: int, walReceiveCheckTimeout: int, promoteTimeout: int, promoteInterval: int
  )

  datatype Exit = Success | SwitchoverFail | SwitchoverIncomplete | BadConfig | DbConn | DbQuery | PromotionFail

  // A standby in recovery, attached to the node that was found as primary, by its record and by the
  // primary's own account, and not known to have WAL replay paused.
  predicate AttachedStandby(c: Checks) {
    && c.recordFound && c.streaming && c.inRecovery
    && c.primaryReachable && c.primaryRecordFound
    && c.upstreamId == c.primaryId && c.attached
    && c.replayPause != Says(true)
    && c.noBackup
  }

  // What --force passes over.
  predicate NoReasonForForce(c: Checks, o: Options) {
    && (o.siblingsFollow ==> c.siblingsReachable)
    && (c.enoughWalSenders || o.dryRun) && c.archiving && c.lagAcceptable && (c.enoughSlots || o.dryRun)
  }

  predicate ChecksPass(c: Checks, o: Options) {
    && AttachedStandby(c)
    && (o.forceRewind ==> c.canRewind) && c.ssh && c.remoteRepmgr && c.dataDirectory
    && c.connection != ConnBad
    && (o.force || NoReasonForForce(c, o))
  }

  method CheckFirst(c: Checks, o: Options) returns (exit: Exit)
    ensures exit != SwitchoverIncomplete
    ensures exit == Success <==> ChecksPass(c, o)
  {
    if !c.recordFound { return DbQuery; }
    if !c.streaming { return BadConfig; }
    if !c.inRecovery { return SwitchoverFail; }
    if !c.primaryReachable { return DbConn; }
    if !c.primaryRecordFound { return DbQuery; }
    if c.upstreamId != c.primaryId { return BadConfig; }
    if !c.attached { return BadConfig; }
    var paused := IsReplayPaused(c.replayPause);
    if paused { return SwitchoverFail; }
    if !c.noBackup { return SwitchoverFail; }
    if o.forceRewind && !c.canRewind { return BadConfig; }
    if !c.ssh || !c.remoteRepmgr || !c.dataDirectory { return BadConfig; }
    if o.siblingsFollow && !c.siblingsReachable && !o.force { return BadConfig; }
    if !c.enoughWalSenders && !o.force && !o.dryRun { return BadConfig; }
    if c.connection == ConnBad { return BadConfig; }
    if !c.archiving && !o.force { return SwitchoverFail; }
    if !c.lagAcceptable && !o.force { return SwitchoverFail; }
    if !c.enoughSlots && !o.force && !o.dryRun { return BadConfig; }
    return Success;
  }

  // ---- Waiting for the primary to stop ----

  datatype Stop = Confirmed(lsn: nat) | Unclean | NotConfirmed

  function LsnOf(stop: Stop): nat { if stop.Confirmed? then stop.lsn else INVALID_LSN }

  predicate Unanswered(e: Event) { e.Pinged? && (e.answer == PingNoResponse || e.answer == PingNoAttempt) }

  predicate SaysClean(e: Event) { e.Reported? && e.arrived && e.status == Down && e.checkpoint != INVALID_LSN }

  predicate SaysUnclean(e: Event) { e.Reported? && e.arrived && e.status == UncleanShutdown }

  predicate Decides(e: Event) { SaysClean(e) || SaysUnclean(e) }

  predicate Undecided(es: seq<Event>) { forall i :: 0 <= i < |es| ==> !Decides(es[i]) }

  predicate UndecidedUpTo(es: seq<Event>, e: Event) {
    es != [] && es[|es| - 1] == e && Undecided(es[..|es| - 1])
  }

  function Pings(es: seq<Event>): nat {
    if es == [] then 0 else Pings(es[..|es| - 1]) + if es[|es| - 1].Pinged? then 1 else 0
  }

  // Answered pings, and unanswered ones each with a report.
  predicate PingsAndReports(es: seq<Event>) {
    var n := |es|;
    || n == 0
    || (es[n - 1].Pinged? && !Unanswered(es[n - 1]) && PingsAndReports(es[..n - 1]))
    || (es[n - 1].Reported? && n > 1 && Unanswered(es[n - 2]) && PingsAndReports(es[..n - 2]))
  }

  function AtLeastZero(n: int): nat { if n < 0 then 0 else n }

  /**
    What has happened when the wait for the primary to stop ends. The stop is confirmed by the first
    report that says so. It is not confirmed after all the pings that there is time for, with no
    report that decides anything; or after a report of an unclean shutdown, which counts as stopped
    with --force alone.
   */
  predicate Waited(es: seq<Event>, timeout: int, force: bool, stop: Stop) {
    && PingsAndReports(es) && Pings(es) <= AtLeastZero(timeout)
    && match stop
       case Confirmed(lsn) => UndecidedUpTo(es, Reported(true, Down, lsn)) && lsn != INVALID_LSN
       case Unclean => force && EndsUnclean(es)
       case NotConfirmed => (Undecided(es) && Pings(es) == AtLeastZero(timeout)) || (!force && EndsUnclean(es))
  }

  predicate EndsUnclean(es: seq<Event>) {
    es != [] && SaysUnclean(es[|es| - 1]) && Undecided(es[..|es| - 1])
  }

  lemma OnePing(es: seq<Event>, p: Ping)
    ensures Pings(es + [Pinged(p)]) == Pings(es) + 1
    ensures PingsAndReports(es) && !Unanswered(Pinged(p)) ==> PingsAndReports(es + [Pinged(p)])
  {
    assert (es + [Pinged(p)])[..|es|] == es;
  }

  lemma OneReport(es: seq<Event>, p: Ping, r: Event)
    requires r.Reported?
    ensures Pings(es + [Pinged(p), r]) == Pings(es) + 1
    ensures PingsAndReports(es) && Unanswered(Pinged(p)) ==> PingsAndReports(es + [Pinged(p), r])
    ensures (es + [Pinged(p), r])[..|es| + 1] == es + [Pinged(p)]
  {
    var twice := es + [Pinged(p), r];
    assert twice[..|es| + 1] == es + [Pinged(p)] && twice[..|es|] == es;
    OnePing(es, p);
  }

  /**
    The loop that waits for the primary to stop. However pings and remote commands behave, a
    confirmed stop is a clean one, with the checkpoint at which the server stopped.
   */
  method AwaitShutdown(w: Servers, timeout: int, force: bool) returns (stop: Stop, ghost es: seq<Event>)
    requires w.Initial()
    modifies w`primary, w`walEnd, w`dataEnd, w`received, w`twoPrimaries, w`log
    ensures w.Initial()
    ensures w.log == old(w.log) + es && Waited(es, timeout, force, stop)
    ensures stop.Confirmed? ==> w.primary == CleanlyDown(stop.lsn) && stop.lsn != INVALID_LSN
    ensures stop == Unclean ==> force
  {
    hide ParseStatus, Line, PingsAndReports, Pings, Servers.Valid;
    var lsn := INVALID_LSN;
    es := [];
    NoPings();
    for i := 0 to AtLeastZero(timeout)
      invariant w.Initial() && lsn == INVALID_LSN
      invariant w.log == old(w.log) + es && PingsAndReports(es) && Undecided(es) && Pings(es) == i
    {
      w.Elapse();
      ghost var before := es;
      var ping := w.PingPrimary();
      es := es + [Pinged(ping)];
      OnePing(before, ping);
      if ping == PingNoResponse || ping == PingNoAttempt {
        var ok, output, status, checkpoint := w.RemoteStatus();
        es := before + [Pinged(ping), Reported(ok, status, checkpoint)];
        OneReport(before, ping, Reported(ok, status, checkpoint));
        if ok {
          ReportReadsBack(status, checkpoint, lsn);
          var p := ParseNodeStatus(output, lsn);
          lsn := p.lsn;
          if p.status == Down && lsn != INVALID_LSN { return Confirmed(lsn), es; }
          if p.status == UncleanShutdown { return if force then Unclean else NotConfirmed, es; }
        }
      }
    }
    return NotConfirmed, es;
  }

  lemma NoPings()
    ensures PingsAndReports([]) && Pings([]) == 0
  {
  }

  // ---- Waiting for the WAL ----

  // What the local node is known to have received: the last answer.
  function LastReceived(es: seq<Event>): nat {
    if es == [] then INVALID_LSN
    else
      var e := es[|es| - 1];
      if e.Received? && e.answered then e.lsn else LastReceived(es[..|es| - 1])
  }

  /**
    Only the last of the answers, if any, reaches the checkpoint; if none does, there was no time for
    another.
   */
  predicate Awaited(es: seq<Event>, lsn: nat, timeout: int) {
    && (forall i :: 0 <= i < |es| ==> es[i].Received?)
    && (forall i :: 0 <= i < |es| ==> LastReceived(es[..i]) < lsn || i == 0)
    && |es| <= AtLeastZero(timeout)
    && (|es| < AtLeastZero(timeout) ==> es != [] && LastReceived(es) >= lsn)
  }

  lemma OneAnswer(es: seq<Event>, answered: bool, x: nat)
    ensures LastReceived(es + [Received(answered, x)]) == if answered then x else LastReceived(es)
  {
    assert (es + [Received(answered, x)])[..|es|] == es;
  }

  /**
    The loop that waits for the standby to have received the primary's last checkpoint. Without a
    single attempt nothing counts as received.
   */
  method AwaitWal(w: Servers, lsn: nat, timeout: int) returns (received: nat, ghost es: seq<Event>)
    requires w.Initial()
    modifies w`primary, w`walEnd, w`dataEnd, w`received, w`twoPrimaries, w`log
    ensures w.Initial() && received <= w.received
    ensures w.log == old(w.log) + es && Awaited(es, lsn, timeout) && received == LastReceived(es)
    ensures timeout <= 0 ==> received == INVALID_LSN
    ensures old(w.primary.CleanlyDown?) ==> w.primary == old(w.primary)
  {
    hide LastReceived, Servers.Valid;
    received, es := INVALID_LSN, [];
    NothingReceived();
    for i := 0 to AtLeastZero(timeout)
      invariant w.Initial() && received <= w.received && (i == 0 ==> received == INVALID_LSN)
      invariant w.log == old(w.log) + es && |es| == i && received == LastReceived(es) && (received < lsn || i == 0)
      invariant forall j :: 0 <= j < |es| ==> es[j].Received? && (LastReceived(es[..j]) < lsn || j == 0)
      invariant old(w.primary.CleanlyDown?) ==> w.primary == old(w.primary)
    {
      w.Elapse();
      ghost var before := es;
      ghost var answered;
      received, answered := w.ReceivedLsn(received);
      es := before + [Received(answered, received)];
      OneAnswer(before, answered, received);
      assert forall j :: 0 <= j < i ==> es[..j] == before[..j];
      assert es[..i] == before;
      if received >= lsn { return; }
    }
  }

  lemma NothingReceived()
    ensures LastReceived([]) == INVALID_LSN
  {
  }

  // ---- The promotion ----

  // How far a promotion got.
  datatype Promotion =
    | NotTried
    | NoRecord
    | NotOrdered
    | StillInRecovery(polls: seq<RecoveryType>)
    | LeftRecovery(polls: seq<RecoveryType>, updated: bool)

  function AskedFor(polls: seq<RecoveryType>): seq<Event> {
    seq(|polls|, i requires 0 <= i < |polls| => Asked(polls[i]))
  }

  function PromotionEvents(p: Promotion): seq<Event> {
    match p
    case NotTried => []
    case NoRecord => [LookedUp(false)]
    case NotOrdered => [LookedUp(true), PromotionRequested(false)]
    case StillInRecovery(polls) => [LookedUp(true), PromotionRequested(true)] + AskedFor(polls)
    case LeftRecovery(polls, updated) =>
      [LookedUp(true), PromotionRequested(true)] + AskedFor(polls) + [Updated(updated)]
  }

  predicate Promotes(p: Promotion, timeout: int, interval: int) {
    match p
    case NotTried => false
    case NoRecord => true
    case NotOrdered => true
    case StillInRecovery(polls) => Polled(polls, timeout, interval, false)
    case LeftRecovery(polls, updated) => Polled(polls, timeout, interval, true)
  }

  predicate Works(p: Promotion) { p.LeftRecovery? && p.updated }

  /**
    _do_standby_promote_internal, as far as the servers are concerned. It may fail after the standby
    has left recovery.
   */
  method PromoteLocal(w: Servers, timeout: int, interval: int) returns (exit: Exit, ghost p: Promotion)
    requires w.Initial() && interval > 0
    modifies w
    ensures w.Valid() && exit != SwitchoverIncomplete
    ensures w.log == old(w.log) + PromotionEvents(p) && Promotes(p, timeout, interval)
    ensures exit == match p
                    case NotTried => Success
                    case NoRecord => BadConfig
                    case NotOrdered => PromotionFail
                    case StillInRecovery(polls) => if LastAnswer(polls) == RecStandby then PromotionFail else DbConn
                    case LeftRecovery(polls, updated) => if updated then Success else DbQuery
    ensures (exit == Success <==> Works(p)) && (exit == Success ==> w.promoted)
    ensures old(w.primary.CleanlyDown?) ==>
              w.primary == old(w.primary) && !w.twoPrimaries
              && (w.promoted ==> w.over == w.primary && old(w.received) <= w.receivedThen <= w.walEnd)
  {
    hide Servers.Valid, AskedFor, Polled;
    ghost var before := w.log;
    var found := w.LookUp();
    if !found { return BadConfig, NoRecord; }
    var ok := w.Promote();
    if !ok { return PromotionFail, NotOrdered; }
    var success, polls := AwaitPromotion(w, timeout, interval);
    AppendEvents(before, polls);
    if !success {
      return if LastAnswer(polls) == RecStandby then PromotionFail else DbConn, StillInRecovery(polls);
    }
    var updated := w.UpdateRecord();
    return if updated then Success else DbQuery, LeftRecovery(polls, updated);
  }

  lemma AppendEvents(es: seq<Event>, polls: seq<RecoveryType>)
    ensures var more := es + [LookedUp(true)] + [PromotionRequested(true)] + AskedFor(polls);
            && more == es + PromotionEvents(StillInRecovery(polls))
            && forall updated :: more + [Updated(updated)] == es + PromotionEvents(LeftRecovery(polls, updated))
  {
  }

  method AwaitPromotion(w: Servers, timeout: int, interval: int) returns (success: bool, polls: seq<RecoveryType>)
    requires w.Initial() && interval > 0
    modifies w
    ensures w.Valid() && (success ==> w.promoted)
    ensures w.log == old(w.log) + AskedFor(polls) && Polled(polls, timeout, interval, success)
    ensures old(w.primary.CleanlyDown?) ==>
              w.primary == old(w.primary) && !w.twoPrimaries
              && (w.promoted ==> w.over == w.primary && old(w.received) <= w.receivedThen <= w.walEnd)
  {
    hide Servers.Valid;
    polls := [];
    var i := 0;
    while i < timeout
      invariant w.Valid() && w.received >= old(w.received)
      invariant i == |polls| * interval && (polls != [] ==> (|polls| - 1) * interval < timeout)
      invariant RecPrimary !in polls && w.log == old(w.log) + AskedFor(polls)
      invariant old(w.primary.CleanlyDown?) ==>
                  w.primary == old(w.primary) && !w.twoPrimaries
                  && (w.promoted ==> w.over == w.primary && old(w.received) <= w.receivedThen <= w.walEnd)
      decreases timeout - i
    {
      w.Elapse();
      w.MayLeaveRecovery();
      var r := w.AskRecovery();
      assert AskedFor(polls + [r]) == AskedFor(polls) + [Asked(r)];
      polls := polls + [r];
      if r == RecPrimary { return true, polls; }
      i := i + interval;
    }
    success := false;
  }

  // ---- The whole switchover ----

  predicate Completed(exit: Exit, o: Options) { exit in {Success, SwitchoverIncomplete} && !o.dryRun }

  // What has happened from the request to stop the primary on.
  datatype Trace = Trace(stop: Stop, waits: seq<Event>, replies: seq<Event>, promotion: Promotion)

  function History(t: Trace): seq<Event> {
    [StopRequested] + t.waits + t.replies + PromotionEvents(t.promotion)
  }

  predicate Stopped(t: Trace, c: Checks) { t.stop != NotConfirmed && c.localConnection }

  // The standby is known to have received everything up to the shutdown checkpoint.
  predicate UpToDate(t: Trace) { LastReceived(t.replies) >= LsnOf(t.stop) }

  predicate GoesOn(t: Trace, c: Checks, o: Options) { Stopped(t, c) && (UpToDate(t) || o.alwaysPromote) }

  // The switchover goes from one phase to the next as far as the answers let it, and no further.
  predicate RunsAs(t: Trace, c: Checks, o: Options) {
    && Waited(t.waits, o.shutdownCheckTimeout, o.force, t.stop)
    && (if Stopped(t, c) then Awaited(t.replies, LsnOf(t.stop), o.walReceiveCheckTimeout) else t.replies == [])
    && (if GoesOn(t, c, o) then Promotes(t.promotion, o.promoteTimeout, o.promoteInterval) else t.promotion == NotTried)
  }

  // The answers let it complete.
  predicate Completes(t: Trace, c: Checks, o: Options) {
    Stopped(t, c) && Works(t.promotion) && (UpToDate(t) || (o.alwaysPromote && o.forceRewind))
  }

  // The primary is to be stopped.
  predicate Starts(c: Checks, o: Options, s: Scan) { ChecksPass(c, o) && MayPause(o, s) && !o.dryRun }

  // All nodes could be connected to, unless that does not matter.
  predicate MayPause(o: Options, s: Scan) {
    o.noPause || o.force || forall i :: 0 <= i < |s.infos| ==> s.infos[i].pgRunning
  }

  /**
    do_standby_switchover. It completes exactly when the checks pass, every node can be connected to,
    the primary is reported to have stopped, the standby has received its WAL, and the promotion
    works; --force, --always-promote and --force-rewind pass over some of this as stated. Then the
    old primary has been asked to rejoin.
    Without --force, however the servers, pings, remote commands and queries behave:
    - the standby is promoted only if it was attached to the primary, replay was not known to be
      paused, and the primary had been confirmed to be cleanly down;
    - the two servers are never both serving;
    - unless --always-promote is given, the standby is promoted only when it has received all WAL up
      to the shutdown checkpoint.
    With --force the same holds whenever the primary was confirmed to be cleanly down, and otherwise
    the standby is promoted only after a report of an unclean shutdown.
    A switchover that completes leaves every repmgrd as it was, if every node was reachable and
    every call went through. One that is given up after the daemons were paused leaves them paused.
   */
  method Switchover(w: Servers, d: Daemons, c: Checks, o: Options)
    returns (exit: Exit, ghost s: Scan, ghost t: Trace, ghost rejoined: seq<Event>)
    requires w.Initial() && d.Valid() && o.promoteInterval > 0
    modifies w, d, d.flags
    ensures w.Valid()
    // when it completes
    ensures Completed(exit, o) <==> Starts(c, o, s) && Completes(t, c, o)
    ensures Completed(exit, o) ==> (exit == Success <==> c.primaryComesBack)
    ensures Starts(c, o, s) && !GoesOn(t, c, o) ==>
              exit == if Stopped(t, c) || t.stop == NotConfirmed then SwitchoverFail else DbConn
    ensures o.dryRun ==> (exit == Success <==> ChecksPass(c, o) && MayPause(o, s))
    ensures d.contacts == old(d.contacts) + if ChecksPass(c, o) && !o.noPause then Reached(s.infos) else []
    ensures ChecksPass(c, o) && !o.noPause ==> |s.infos| == |d.nodes| && d.Accurate(s, old(d.flags[..]))
    ensures w.log == old(w.log) + if Starts(c, o, s) then History(t) + rejoined else []
    ensures Starts(c, o, s) ==> RunsAs(t, c, o)
    ensures if Completed(exit, o) then exists ok :: rejoined == [RejoinRequested(ok)] else rejoined == []
    // what it keeps
    ensures w.promoted ==> Starts(c, o, s) && (t.stop.Confirmed? || (t.stop == Unclean && o.force))
    ensures !o.force || t.stop.Confirmed? ==> !w.twoPrimaries
    ensures w.promoted && t.stop.Confirmed? ==> w.over == CleanlyDown(t.stop.lsn) && t.stop.lsn != INVALID_LSN
    ensures w.promoted && t.stop.Confirmed? && !o.alwaysPromote ==>
              t.stop.lsn == w.dataEnd <= w.receivedThen <= w.walEnd && o.walReceiveCheckTimeout > 0
    ensures Completed(exit, o) ==> w.promoted
    // the daemons
    ensures o.dryRun || o.noPause ==> d.flags[..] == old(d.flags[..])
    ensures Completed(exit, o) && !o.noPause && d.failures == old(d.failures) ==>
              && (!o.force ==> d.flags[..] == old(d.flags[..]))
              && forall i :: 0 <= i < |d.nodes| ==>
                   (d.flags[i] == old(d.flags[i]) <==>
                    !(old(d.flags[i]) && !s.infos[i].pgRunning && s.runningCount > 0))
    ensures Starts(c, o, s) && !Completed(exit, o) && !o.noPause && d.failures == old(d.failures) ==>
              forall i :: 0 <= i < |d.nodes| ==> d.flags[i] == (old(d.flags[i]) || s.infos[i].running)
  {
    hide AttachedStandby, NoReasonForForce, ChecksPass, Servers.Valid, Daemons.Accurate, RunsAs, History;
    hide Stopped, UpToDate, GoesOn, Completes;
    t, rejoined, s := Trace(NotConfirmed, [], [], NotTried), [], Scan([], 0, 0);
    exit := CheckFirst(c, o);
    if exit != Success { return; }
    var goOn, scan := PauseDaemons(d, o);
    s := scan;
    if !goOn { return SwitchoverFail, s, t, rejoined; }
    if o.dryRun { return Success, s, t, rejoined; }
    ghost var during := d.flags[..];
    exit, t, rejoined := SwapRoles(w, c, o);
    if exit != Success { return; }
    if !o.noPause {
      var errors := d.UnpauseAll(scan);
      if d.failures == old(d.failures) { Restored(d, s, old(d.flags[..]), during, d.flags[..], o.force); }
    }
    exit := if c.primaryComesBack then Success else SwitchoverIncomplete;
  }

  // Pausing the daemons, unless some node cannot be reached and --force is not given.
  method PauseDaemons(d: Daemons, o: Options) returns (goOn: bool, s: Scan)
    requires d.Valid()
    modifies d, d.flags
    ensures d.failures >= old(d.failures) && (goOn <==> MayPause(o, s))
    ensures d.contacts == old(d.contacts) + Reached(s.infos)
    ensures o.noPause || o.dryRun || !goOn ==> d.flags[..] == old(d.flags[..])
    ensures if o.noPause then s.infos == [] else d.Accurate(s, old(d.flags[..]))
    ensures goOn && !o.noPause && !o.dryRun && d.failures == old(d.failures) ==>
              forall i :: 0 <= i < |d.nodes| ==> d.flags[i] == (old(d.flags[i]) || s.infos[i].running)
  {
    goOn, s := true, Scan([], 0, 0);
    if !o.noPause {
      s := d.ScanNodes();
      if s.unreachableCount > 0 && !o.force { return false, s; }
      d.PauseAll(s, o.dryRun);
    }
  }

  // From the shutdown of the primary to its rejoining.
  method SwapRoles(w: Servers, c: Checks, o: Options)
    returns (exit: Exit, ghost t: Trace, ghost rejoined: seq<Event>)
    requires w.Initial() && o.promoteInterval > 0
    modifies w
    ensures w.Valid() && exit != SwitchoverIncomplete
    ensures w.log == old(w.log) + (History(t) + rejoined) && RunsAs(t, c, o)
    ensures exit == Success <==> Completes(t, c, o)
    ensures !GoesOn(t, c, o) ==> exit == if Stopped(t, c) || t.stop == NotConfirmed then SwitchoverFail else DbConn
    ensures if exit == Success then exists ok :: rejoined == [RejoinRequested(ok)] else rejoined == []
    ensures exit == Success ==> w.promoted
    ensures w.promoted ==> t.stop.Confirmed? || (t.stop == Unclean && o.force)
    ensures !o.force || t.stop.Confirmed? ==> !w.twoPrimaries
    ensures w.promoted && t.stop.Confirmed? ==> w.over == CleanlyDown(t.stop.lsn) && t.stop.lsn != INVALID_LSN
    ensures w.promoted && t.stop.Confirmed? && !o.alwaysPromote ==>
              t.stop.lsn == w.dataEnd <= w.receivedThen <= w.walEnd && o.walReceiveCheckTimeout > 0
  {
    hide RunsAs, History, Stopped, UpToDate, Works, Servers.Valid;
    rejoined := [];
    var behind;
    exit, t, behind := StopAndPromote(w, c, o);
    assert History(t) + [] == History(t);
    if exit != Success { return; }
    if behind && !o.forceRewind { return SwitchoverFail, t, rejoined; }
    ghost var before := old(w.log);
    var ok := w.Rejoin();
    rejoined := [RejoinRequested(ok)];
    assert before + History(t) + rejoined == before + (History(t) + rejoined);
  }

  // The critical part: from the shutdown of the primary to the promotion.
  method StopAndPromote(w: Servers, c: Checks, o: Options) returns (exit: Exit, ghost t: Trace, behind: bool)
    requires w.Initial() && o.promoteInterval > 0
    modifies w
    ensures w.Valid() && exit != SwitchoverIncomplete
    ensures w.log == old(w.log) + History(t) && RunsAs(t, c, o)
    ensures exit == Success <==> GoesOn(t, c, o) && Works(t.promotion)
    ensures !GoesOn(t, c, o) ==> exit == if Stopped(t, c) || t.stop == NotConfirmed then SwitchoverFail else DbConn
    ensures exit == Success ==> w.promoted && (behind <==> !UpToDate(t))
    ensures w.promoted ==> t.stop.Confirmed? || (t.stop == Unclean && o.force)
    ensures !o.force || t.stop.Confirmed? ==> !w.twoPrimaries
    ensures w.promoted && t.stop.Confirmed? ==> w.over == CleanlyDown(t.stop.lsn) && t.stop.lsn != INVALID_LSN
    ensures w.promoted && t.stop.Confirmed? && !o.alwaysPromote ==>
              t.stop.lsn == w.dataEnd <= w.receivedThen <= w.walEnd && o.walReceiveCheckTimeout > 0
  {
    hide Waited, Awaited, Promotes, LastReceived, PromotionEvents, Works, Servers.Valid, History;
    behind := false;
    ghost var before := w.log;
    w.RequestStop();
    ghost var waits, replies, p;
    var stop;
    stop, waits := AwaitShutdown(w, o.shutdownCheckTimeout, o.force);
    t := Trace(stop, waits, [], NotTried);
    AppendHistory(before, t);
    if stop == NotConfirmed { return SwitchoverFail, t, false; }
    if !c.localConnection { return DbConn, t, false; }
    var lsn := if stop.Confirmed? then stop.lsn else INVALID_LSN;
    var received;
    received, replies := AwaitWal(w, lsn, o.walReceiveCheckTimeout);
    t := t.(replies := replies);
    AppendHistory(before, t);
    behind := received < lsn;
    if behind && !o.alwaysPromote { return SwitchoverFail, t, behind; }
    exit, p := PromoteLocal(w, o.promoteTimeout, o.promoteInterval);
    t := t.(promotion := p);
    AppendHistory(before, t);
    if w.primary.CleanlyDown? { w.LastCheckpoint(); }
  }

  // ---- The answers decide ----

  predicate OfWait(e: Event) { e.Pinged? || e.Reported? }

  lemma {:induction false} OnlyOfWait(es: seq<Event>)
    requires PingsAndReports(es)
    ensures forall i :: 0 <= i < |es| ==> OfWait(es[i])
  {
    if es != [] { OnlyOfWait(if es[|es| - 1].Pinged? then es[..|es| - 1] else es[..|es| - 2]); }
  }

  // A sequence is cut in one way only into a first part with f and a rest that begins without.
  lemma OneCut(f: Event -> bool, a: seq<Event>, b: seq<Event>, a': seq<Event>, b': seq<Event>)
    requires a + b == a' + b'
    requires (forall i :: 0 <= i < |a| ==> f(a[i])) && (forall i :: 0 <= i < |a'| ==> f(a'[i]))
    requires (b == [] || !f(b[0])) && (b' == [] || !f(b'[0]))
    ensures a == a' && b == b'
  {
    var s := a + b;
    assert forall i :: 0 <= i < |a| ==> s[i] == a[i];
    assert forall i :: 0 <= i < |a'| ==> s[i] == a'[i];
    assert b != [] ==> s[|a|] == b[0];
    assert b' != [] ==> s[|a'|] == b'[0];
    assert |a| == |a'|;
    assert a == s[..|a|] && a' == s[..|a'|] && b == s[|a|..] && b' == s[|a'|..];
  }

  lemma SameAnswers(p: seq<RecoveryType>, q: seq<RecoveryType>)
    requires AskedFor(p) == AskedFor(q)
    ensures p == q
  {
    assert |p| == |AskedFor(p)|;
    forall i | 0 <= i < |p| ensures p[i] == q[i] { assert AskedFor(p)[i] == AskedFor(q)[i]; }
  }

  lemma SamePromotion(p: Promotion, q: Promotion)
    requires PromotionEvents(p) == PromotionEvents(q)
    ensures p == q
  {
    var es, fs := PromotionEvents(p), PromotionEvents(q);
    hide AskedFor;
    assert es == [] <==> p.NotTried?;
    assert fs == [] <==> q.NotTried?;
    assert es != [] ==> es[0].found == !p.NoRecord? && fs[0].found == !q.NoRecord?;
    assert |es| > 1 ==> es[1].ok == !p.NotOrdered? && fs[1].ok == !q.NotOrdered?;
    if (p.StillInRecovery? || p.LeftRecovery?) && (q.StillInRecovery? || q.LeftRecovery?) {
      var a, b := AskedFor(p.polls), if p.LeftRecovery? then [Updated(p.updated)] else [];
      var a', b' := AskedFor(q.polls), if q.LeftRecovery? then [Updated(q.updated)] else [];
      assert es[2..] == a + b && fs[2..] == a' + b';
      AllAsked(p.polls);
      AllAsked(q.polls);
      OneCut((e: Event) => e.Asked?, a, b, a', b');
      SameAnswers(p.polls, q.polls);
    }
  }

  lemma AllAsked(polls: seq<RecoveryType>)
    ensures forall i :: 0 <= i < |AskedFor(polls)| ==> AskedFor(polls)[i].Asked?
  {
  }

  // The end of the wait is decided by the answers.
  lemma SameStop(es: seq<Event>, timeout: int, force: bool, a: Stop, b: Stop)
    requires Waited(es, timeout, force, a) && Waited(es, timeout, force, b)
    ensures a == b
  {
    hide PingsAndReports, Pings;
  }

  /**
    The command has no choice: how far a switchover gets, and whether it completes, follows from the
    requests and answers.
   */
  lemma AnswersDecide(t: Trace, u: Trace, c: Checks, o: Options)
    requires RunsAs(t, c, o) && RunsAs(u, c, o) && History(t) == History(u)
    ensures t == u
  {
    hide Waited, PromotionEvents, Promotes, LastReceived, History;
    WaitsAndReplies(t, c, o);
    WaitsAndReplies(u, c, o);
    SamePhases(t, u);
    SamePromotion(t.promotion, u.promotion);
    SameStop(t.waits, o.shutdownCheckTimeout, o.force, t.stop, u.stop);
  }

  // Each phase asks for something of its own.
  predicate Phases(t: Trace) {
    var es := PromotionEvents(t.promotion);
    && (forall i :: 0 <= i < |t.waits| ==> OfWait(t.waits[i]))
    && (forall i :: 0 <= i < |t.replies| ==> t.replies[i].Received?)
    && (es == [] || es[0].LookedUp?)
  }

  lemma SamePhases(t: Trace, u: Trace)
    requires Phases(t) && Phases(u) && History(t) == History(u)
    ensures t.waits == u.waits && t.replies == u.replies
    ensures PromotionEvents(t.promotion) == PromotionEvents(u.promotion)
  {
    hide PromotionEvents;
    var es, fs := PromotionEvents(t.promotion), PromotionEvents(u.promotion);
    var p, q := t.replies + es, u.replies + fs;
    assert History(t) == [StopRequested] + (t.waits + p) && History(u) == [StopRequested] + (u.waits + q);
    assert t.waits + p == History(t)[1..] && u.waits + q == History(u)[1..];
    hide History;
    OneCut((e: Event) => OfWait(e), t.waits, p, u.waits, q);
    OneCut((e: Event) => e.Received?, t.replies, es, u.replies, fs);
  }

  lemma WaitsAndReplies(t: Trace, c: Checks, o: Options)
    requires RunsAs(t, c, o)
    ensures Phases(t)
  {
    OnlyOfWait(t.waits);
    hide PingsAndReports, Pings, AskedFor, LastReceived;
  }

  lemma AppendHistory(es: seq<Event>, t: Trace)
    ensures es + [StopRequested] + t.waits + t.replies + PromotionEvents(t.promotion) == es + History(t)
    ensures t.promotion == NotTried ==> es + [StopRequested] + t.waits + t.replies == es + History(t)
    ensures t.promotion == NotTried && t.replies == [] ==> es + [StopRequested] + t.waits == es + History(t)
  {
    assert es + [StopRequested] + t.waits + t.replies + PromotionEvents(t.promotion)
        == es + ([StopRequested] + t.waits + t.replies + PromotionEvents(t.promotion));
  }

  lemma Restored(d: Daemons, s: Scan, before: seq<bool>, during: seq<bool>, after: seq<bool>, force: bool)
    requires d.Valid() && d.Accurate(s, before) && |during| == |after| == |d.nodes|
    requires forall j :: 0 <= j < |d.nodes| ==> during[j] == (before[j] || s.infos[j].running)
    requires if s.runningCount == 0 then after == during
             else forall j :: 0 <= j < |d.nodes| ==> after[j] == (during[j] && s.infos[j].paused)
    requires s.unreachableCount > 0 ==> force
    ensures forall i :: 0 <= i < |d.nodes| ==>
              (after[i] == before[i] <==> !(before[i] && !s.infos[i].pgRunning && s.runningCount > 0))
    ensures !force ==> after == before
  {
    forall i | 0 <= i < |d.nodes|
      ensures after[i] == before[i] <==> !(before[i] && !s.infos[i].pgRunning && s.runningCount > 0)
    {
      d.FlagsRestored(s, before, during, after, i);
    }
  }
}
