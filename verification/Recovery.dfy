/**
  The recovery state of a server, as the commands ask for it.
 */
module Recovery {

  datatype RecoveryType = RecStandby | RecPrimary | RecUnknown

  // What comes of the query for paused replay: with or without the condition that WAL is pending.
  datatype PauseQuery = Says(paused: bool) | QueryFails

  // is_wal_replay_paused: a query that fails counts as not paused.
  method IsReplayPaused(q: PauseQuery) returns (paused: bool)
    ensures paused <==> q == Says(true)
  {
    paused := false;
    match q {
      case Says(answer) => paused := answer;
      case QueryFails =>
    }
  }

  /**
    The answers to the polls of a promotion, one for every interval until the timeout. It has
    succeeded when the last one says that the server has left recovery, and failed when none of them
    does and there is no time for another.
   */
  predicate Polled(polls: seq<RecoveryType>, timeout: int, interval: int, success: bool) {
    && (polls != [] ==> (|polls| - 1) * interval < timeout)
    && (forall i :: 0 <= i < |polls| ==> (polls[i] == RecPrimary <==> success && i == |polls| - 1))
    && (if success then polls != [] else |polls| * interval >= timeout)
  }

  // The exit of a failed promotion depends on the last answer alone.
  function LastAnswer(polls: seq<RecoveryType>): RecoveryType {
    if polls == [] then RecUnknown else polls[|polls| - 1]
  }

  /** A promotion succeeds exactly when some poll says that the server has left recovery. */
  lemma PolledIff(polls: seq<RecoveryType>, timeout: int, interval: int, success: bool)
    requires Polled(polls, timeout, interval, success)
    ensures success <==> RecPrimary in polls
  {
    if success { assert polls[|polls| - 1] == RecPrimary; }
  }
}
