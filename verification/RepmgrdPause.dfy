/**
  The part of standby switchover that pauses the repmgrd daemons and unpauses them at the end.
 */
module RepmgrdPause {

  // An entry of repmgrd_info.
  datatype Info = Info(nodeId: int, pgRunning: bool, running: bool, paused: bool)

  // What the scan has found out.
  datatype Scan = Scan(infos: seq<Info>, runningCount: nat, unreachableCount: nat)

  function Running(infos: seq<Info>): nat {
    if infos == [] then 0 else (if infos[0].running then 1 else 0) + Running(infos[1..])
  }

  lemma {:induction false} RunningSnoc(infos: seq<Info>, x: Info)
    ensures Running(infos + [x]) == Running(infos) + if x.running then 1 else 0
  {
    if infos == [] {
      assert infos + [x] == [x];
    } else {
      assert (infos + [x])[1..] == infos[1..] + [x];
      RunningSnoc(infos[1..], x);
    }
  }

  // Which nodes could be connected to.
  function Reached(infos: seq<Info>): seq<bool> { seq(|infos|, i requires 0 <= i < |infos| => infos[i].pgRunning) }

  class Daemons {
    const nodes: seq<int>            // the registered nodes, in the order of the query
    const running: seq<bool>         // whether repmgrd is running on each of them
    const flags: array<bool>         // whether it is paused
    ghost var contacts: seq<bool>    // the history of connection attempts by the scan
    ghost var failures: nat          // how many calls to pause or unpause have failed

    ghost predicate Valid() { |running| == |nodes| == flags.Length }

    constructor (nodes: seq<int>, running: seq<bool>, paused: seq<bool>)
      requires |nodes| == |running| == |paused|
      ensures Valid() && this.nodes == nodes && this.running == running && flags[..] == paused && fresh(flags)
    {
      this.nodes, this.running := nodes, running;
      flags := new bool[|paused|](i requires 0 <= i < |paused| => paused[i]);
      contacts, failures := [], 0;
    }

    // A node may or may not be reachable.
    method Connect() returns (ok: bool)
      modifies this`contacts
      ensures contacts == old(contacts) + [ok]
    {
      ok := *;
      contacts := contacts + [ok];
    }

    // repmgrd_pause
    method Pause(i: nat, pause: bool) returns (ok: bool)
      requires Valid() && i < |nodes|
      modifies flags, this`failures
      ensures failures == if ok then old(failures) else old(failures) + 1
      ensures flags[..] == if ok then old(flags[..])[i := pause] else old(flags[..])
    {
      ok := *;
      if ok { flags[i] := pause; } else { failures := failures + 1; }
    }

    // Whether the entries say what was the case at the time of the scan.
    ghost predicate Accurate(s: Scan, before: seq<bool>) {
      && |s.infos| == |nodes| == |running| == |before|
      && s.runningCount == Running(s.infos)
      && (forall i :: 0 <= i < |nodes| ==>
            s.infos[i] == if s.infos[i].pgRunning then Info(nodes[i], true, running[i], before[i])
                          else Info(nodes[i], false, false, false))
      && (s.unreachableCount == 0 <==> forall i :: 0 <= i < |nodes| ==> s.infos[i].pgRunning)
    }

    // The scan over the node list.
    method ScanNodes() returns (s: Scan)
      requires Valid()
      modifies this`contacts
      ensures Accurate(s, flags[..]) && contacts == old(contacts) + Reached(s.infos)
    {
      var infos: seq<Info> := [];
      var count, unreachable := 0, 0;
      var i := 0;
      while i < |nodes|
        invariant 0 <= i <= |nodes| && |infos| == i && count == Running(infos)
        invariant forall j :: 0 <= j < i ==>
                    infos[j] == if infos[j].pgRunning then Info(nodes[j], true, running[j], flags[j])
                                else Info(nodes[j], false, false, false)
        invariant unreachable == 0 <==> forall j :: 0 <= j < i ==> infos[j].pgRunning
        invariant contacts == old(contacts) + Reached(infos)
      {
        var info := Info(nodes[i], true, false, false);
        var reachable := Connect();
        if !reachable {
          info := info.(pgRunning := false);
          unreachable := unreachable + 1;
        } else {
          info := info.(running := running[i], paused := flags[i]);
          if info.running { count := count + 1; }
        }
        RunningSnoc(infos, info);
        assert Reached(infos + [info]) == Reached(infos) + [reachable];
        infos := infos + [info];
        i := i + 1;
      }
      s := Scan(infos, count, unreachable);
    }

    // Pause every daemon that runs and is not paused; the result of the call is not looked at.
    method PauseAll(s: Scan, dryRun: bool)
      requires Valid() && Accurate(s, flags[..])
      modifies flags, this`failures
      ensures failures >= old(failures) && (dryRun ==> failures == old(failures))
      ensures forall i :: 0 <= i < |nodes| ==> flags[i] == old(flags[i]) || (!dryRun && s.infos[i].running && flags[i])
      ensures failures == old(failures) && !dryRun ==>
                forall i :: 0 <= i < |nodes| ==> flags[i] == (old(flags[i]) || s.infos[i].running)
    {
      if s.runningCount == 0 {
        forall i | 0 <= i < |nodes| ensures !s.infos[i].running { NoneRuns(s.infos, i); }
        return;
      }
      var i := 0;
      while i < |nodes|
        invariant 0 <= i <= |nodes| && failures >= old(failures) && (dryRun ==> failures == old(failures))
        invariant forall j :: i <= j < |nodes| ==> flags[..][j] == old(flags[j])
        invariant forall j :: 0 <= j < i ==>
                    flags[..][j] == old(flags[j]) || (!dryRun && s.infos[j].running && flags[..][j])
        invariant failures == old(failures) && !dryRun ==>
                    forall j :: 0 <= j < i ==> flags[..][j] == (old(flags[j]) || s.infos[j].running)
      {
        if s.infos[i].pgRunning && s.infos[i].running && !s.infos[i].paused && !dryRun {
          var _ := Pause(i, true);
        }
        i := i + 1;
      }
    }

    // At the end: unpause every daemon that was not found paused.
    method UnpauseAll(s: Scan) returns (errors: nat)
      requires Valid() && |s.infos| == |nodes|
      modifies flags, this`failures
      ensures failures == old(failures) + errors
      ensures s.runningCount == 0 ==> flags[..] == old(flags[..]) && errors == 0
      ensures errors == 0 && s.runningCount > 0 ==>
                forall i :: 0 <= i < |nodes| ==> flags[i] == (old(flags[i]) && s.infos[i].paused)
      ensures forall i :: 0 <= i < |nodes| ==> flags[i] ==> old(flags[i])
    {
      errors := 0;
      if s.runningCount > 0 {
        var i := 0;
        while i < |nodes|
          invariant 0 <= i <= |nodes| && failures == old(failures) + errors
          invariant forall j :: i <= j < |nodes| ==> flags[..][j] == old(flags[j])
          invariant forall j :: 0 <= j < i ==> flags[..][j] ==> old(flags[j])
          invariant errors == 0 ==> forall j :: 0 <= j < i ==> flags[..][j] == (old(flags[j]) && s.infos[j].paused)
        {
          if !s.infos[i].paused {
            var ok := Pause(i, false);
            if !ok { errors := errors + 1; }
          }
          i := i + 1;
        }
      }
    }

    /**
      What pausing and unpausing come to when every call succeeds: a flag is as it was before,
      except for a daemon that was paused on a node that could not be reached by the scan. Such a
      daemon is unpaused, if repmgrd runs anywhere; the command only goes on with --force then.
     */
    lemma FlagsRestored(s: Scan, before: seq<bool>, during: seq<bool>, after: seq<bool>, i: nat)
      requires Accurate(s, before) && i < |nodes| && |during| == |after| == |nodes|
      requires forall j :: 0 <= j < |nodes| ==> during[j] == (before[j] || s.infos[j].running)
      requires if s.runningCount == 0 then after == during
               else forall j :: 0 <= j < |nodes| ==> after[j] == (during[j] && s.infos[j].paused)
      ensures after[i] == before[i] <==> !(before[i] && !s.infos[i].pgRunning && s.runningCount > 0)
    {
      if s.runningCount == 0 { NoneRuns(s.infos, i); }
    }
  }

  lemma {:induction false} NoneRuns(infos: seq<Info>, i: nat)
    requires i < |infos| && Running(infos) == 0
    ensures !infos[i].running
  {
    if i > 0 { NoneRuns(infos[1..], i - 1); }
  }
}
