/**
  cluster crosscheck: every node reports its own matrix of connection states, the reports fill a
  cube, and each entry of the display is the maximum over the reports.
 */
module Crosscheck {

  const UNKNOWN := -2
  const DOWN := -1
  const UP := 0

  predicate Distinct(ids: seq<int>) { forall i, j :: 0 <= i < j < |ids| ==> ids[i] != ids[j] }

  // One reading of a line of "cluster matrix --csv"; as many are made as there are pairs of nodes.
  // The ids of a line that cannot be parsed are whatever the variables held, and its status is -2.
  datatype Cell = Cell(matrixId: int, connectionId: int, status: int)

  // The output of the command; empty if the node cannot be reached.
  datatype Output = Inaccessible | Lines(entries: seq<Cell>)

  function LastStatus(entries: seq<Cell>, x: int, y: int): int {
    if entries == [] then UNKNOWN
    else
      var e := entries[|entries| - 1];
      if e.matrixId == x && e.connectionId == y then e.status else LastStatus(entries[..|entries| - 1], x, y)
  }

  function Reported(o: Output, x: int, y: int): int {
    if o.Inaccessible? then UNKNOWN else LastStatus(o.entries, x, y)
  }

  // matrix_set_node_status, on the matrix of cluster matrix
  method MatrixSet(ids: seq<int>, matrix: array2<int>, nodeId: int, connectionId: int, status: int)
    requires Distinct(ids) && matrix.Length0 == matrix.Length1 == |ids|
    modifies matrix
    ensures forall i, j :: 0 <= i < |ids| && 0 <= j < |ids| ==>
              matrix[i, j] == if ids[i] == nodeId && ids[j] == connectionId then status else old(matrix[i, j])
  {
    var i := 0;
    while i < |ids|
      invariant 0 <= i <= |ids| && forall k :: 0 <= k < i ==> ids[k] != nodeId
      invariant forall k, l :: 0 <= k < |ids| && 0 <= l < |ids| ==> matrix[k, l] == old(matrix[k, l])
    {
      if ids[i] == nodeId {
        var j := 0;
        while j < |ids|
          invariant 0 <= j <= |ids| && forall l :: 0 <= l < j ==> ids[l] != connectionId
          invariant forall k, l :: 0 <= k < |ids| && 0 <= l < |ids| ==> matrix[k, l] == old(matrix[k, l])
        {
          if ids[j] == connectionId {
            matrix[i, j] := status;
            return;
          }
          j := j + 1;
        }
        return;
      }
      i := i + 1;
    }
  }

  class Cube {
    const ids: seq<int>
    const status: array3<int>

    ghost predicate Valid() {
      Distinct(ids) && status.Length0 == status.Length1 == status.Length2 == |ids|
    }

    predicate InRange(h: int, i: int, j: int) { 0 <= h < |ids| && 0 <= i < |ids| && 0 <= j < |ids| }

    constructor (ids: seq<int>)
      requires Distinct(ids)
      ensures Valid() && this.ids == ids && fresh(status)
      ensures forall h, i, j :: InRange(h, i, j) ==> status[h, i, j] == UNKNOWN
    {
      this.ids := ids;
      status := new int[|ids|, |ids|, |ids|]((_, _, _) => UNKNOWN);
    }

    // The body of the outer loop of cube_set_node_status.
    method SetInLayer(h: nat, matrixId: int, connectionId: int, value: int)
      requires Valid() && h < |ids|
      modifies status
      ensures forall g, i, j :: InRange(g, i, j) ==>
                status[g, i, j] == if g == h && ids[i] == matrixId && ids[j] == connectionId then value
                                   else old(status[g, i, j])
    {
      var i := 0;
      while i < |ids|
        invariant 0 <= i <= |ids| && forall k :: 0 <= k < i ==> ids[k] != matrixId
        invariant forall g, k, l :: InRange(g, k, l) ==> status[g, k, l] == old(status[g, k, l])
      {
        if ids[i] == matrixId {
          var j := 0;
          while j < |ids|
            invariant 0 <= j <= |ids| && forall l :: 0 <= l < j ==> ids[l] != connectionId
            invariant forall g, k, l :: InRange(g, k, l) ==> status[g, k, l] == old(status[g, k, l])
          {
            if ids[j] == connectionId {
              status[h, i, j] := value;
              return;
            }
            j := j + 1;
          }
          return;
        }
        i := i + 1;
      }
    }

    // cube_set_node_status changes the one cell that the three ids stand for.
    method Set(executeId: int, matrixId: int, connectionId: int, value: int)
      requires Valid()
      modifies status
      ensures forall g, i, j :: InRange(g, i, j) ==>
                status[g, i, j] ==
                if ids[g] == executeId && ids[i] == matrixId && ids[j] == connectionId then value
                else old(status[g, i, j])
    {
      var h := 0;
      while h < |ids|
        invariant 0 <= h <= |ids|
        invariant forall g, i, j :: InRange(g, i, j) ==>
                    status[g, i, j] ==
                    if g < h && ids[g] == executeId && ids[i] == matrixId && ids[j] == connectionId then value
                    else old(status[g, i, j])
      {
        if ids[h] == executeId { SetInLayer(h, matrixId, connectionId, value); }
        h := h + 1;
      }
    }

    // The lines of one report.
    method FillLayer(h: nat, entries: seq<Cell>)
      requires Valid() && h < |ids|
      requires forall i, j :: InRange(h, i, j) ==> status[h, i, j] == UNKNOWN
      modifies status
      ensures forall g, i, j :: InRange(g, i, j) ==>
                status[g, i, j] == if g == h then LastStatus(entries, ids[i], ids[j]) else old(status[g, i, j])
    {
      var k := 0;
      while k < |entries|
        invariant 0 <= k <= |entries|
        invariant forall g, i, j :: InRange(g, i, j) ==>
                    status[g, i, j] == if g == h then LastStatus(entries[..k], ids[i], ids[j]) else old(status[g, i, j])
      {
        label before:
        var e := entries[k];
        Set(ids[h], e.matrixId, e.connectionId, e.status);
        assert entries[..k + 1][..k] == entries[..k];
        forall g, i, j | InRange(g, i, j)
          ensures status[g, i, j] ==
                  if g == h then LastStatus(entries[..k + 1], ids[i], ids[j]) else old(status[g, i, j])
        {
          assert g != h ==> ids[g] != ids[h];
        }
        k := k + 1;
      }
      assert entries[..k] == entries;
    }

    /**
      The loop of build_cluster_crosscheck over the nodes: remote is what each node answers, local
      what this node answers itself. After it, layer h holds what was used as the report of node h.
     */
    method Fill(localId: int, remote: seq<Output>, local: Output)
      requires Valid() && |remote| == |ids|
      requires forall h, i, j :: InRange(h, i, j) ==> status[h, i, j] == UNKNOWN
      modifies status
      ensures var used := Used(ids, localId, remote, local, 0, 0);
              && |used| == |ids|
              && forall h, i, j :: InRange(h, i, j) ==> status[h, i, j] == Reported(used[h], ids[i], ids[j])
    {
      hide LastStatus, Used;
      var i := 0;
      ghost var used := [];
      ghost var all := Used(ids, localId, remote, local, 0, 0);
      assert [] + all == all;
      var k := 0;
      while k < |ids|
        invariant 0 <= i <= k <= |ids| && |used| == k
        invariant used + Used(ids, localId, remote, local, k, i) == all
        invariant forall h, x, y :: InRange(h, x, y) ==>
                    status[h, x, y] == if h < k then Reported(used[h], ids[x], ids[y]) else UNKNOWN
      {
        var output := if ids[i] == localId then local else remote[k];
        NextUsed(ids, localId, remote, local, k, i, used);
        used := used + [output];
        if output.Inaccessible? {
          k := k + 1;
          continue;
        }
        FillLayer(k, output.entries);
        i := i + 1;
        k := k + 1;
      }
      NothingUsed(ids, localId, remote, local, i);
    }

    // The maximum of do_cluster_crosscheck.
    method Maximum(i: nat, j: nat) returns (max: int)
      requires Valid() && i < |ids| && j < |ids|
      ensures max >= UNKNOWN && forall h :: 0 <= h < |ids| ==> status[h, i, j] <= max
      ensures max == UNKNOWN || exists h :: 0 <= h < |ids| && status[h, i, j] == max
    {
      max := UNKNOWN;
      var h := 0;
      while h < |ids|
        invariant 0 <= h <= |ids| && max >= UNKNOWN
        invariant forall g :: 0 <= g < h ==> status[g, i, j] <= max
        invariant max == UNKNOWN || exists g :: 0 <= g < h && status[g, i, j] == max
      {
        if status[h, i, j] > max { max := status[h, i, j]; }
        h := h + 1;
      }
    }
  }

  // What is used as the report of each node from position k on. The index i, which decides where
  // the command is run, stays behind by the nodes that could not be reached.
  function Used(ids: seq<int>, localId: int, remote: seq<Output>, local: Output, k: nat, i: nat): (used: seq<Output>)
    requires i <= k <= |ids| == |remote|
    ensures |used| == |ids| - k
    decreases |ids| - k
  {
    if k == |ids| then []
    else
      var output := if ids[i] == localId then local else remote[k];
      [output] + Used(ids, localId, remote, local, k + 1, if output.Inaccessible? then i else i + 1)
  }

  lemma NextUsed(ids: seq<int>, localId: int, remote: seq<Output>, local: Output, k: nat, i: nat, used: seq<Output>)
    requires i <= k < |ids| == |remote|
    ensures var output := if ids[i] == localId then local else remote[k];
            used + Used(ids, localId, remote, local, k, i) ==
            (used + [output]) + Used(ids, localId, remote, local, k + 1, if output.Inaccessible? then i else i + 1)
  {
  }

  lemma NothingUsed(ids: seq<int>, localId: int, remote: seq<Output>, local: Output, i: nat)
    requires i <= |ids| == |remote|
    ensures Used(ids, localId, remote, local, |ids|, i) == []
  {
  }

  predicate WellFormed(o: Output) {
    o.Lines? ==> forall e :: e in o.entries ==> UNKNOWN <= e.status <= UP
  }

  lemma {:induction false} StatusInRange(entries: seq<Cell>, x: int, y: int)
    requires forall e :: e in entries ==> UNKNOWN <= e.status <= UP
    ensures UNKNOWN <= LastStatus(entries, x, y) <= UP
  {
    if entries != [] {
      var n := |entries| - 1;
      assert entries[n] in entries;
      StatusInRange(entries[..n], x, y);
    }
  }

  predicate SomeReports(reports: seq<Output>, x: int, y: int, status: int) {
    exists h :: 0 <= h < |reports| && Reported(reports[h], x, y) == status
  }

  // Up if some report says so, down if none says up and some says down, unknown otherwise.
  function Entry(reports: seq<Output>, x: int, y: int): int {
    if SomeReports(reports, x, y, UP) then UP else if SomeReports(reports, x, y, DOWN) then DOWN else UNKNOWN
  }

  /**
    Filling the cube from well-formed reports and displaying an entry: the one that the used reports
    make, and that of each node's own report while the index stays in step.
   */
  method Display(cube: Cube, localId: int, remote: seq<Output>, local: Output, i: nat, j: nat) returns (entry: int)
    requires cube.Valid() && |remote| == |cube.ids| && i < |cube.ids| && j < |cube.ids|
    requires forall h, x, y :: cube.InRange(h, x, y) ==> cube.status[h, x, y] == UNKNOWN
    requires WellFormed(local) && forall h :: 0 <= h < |remote| ==> WellFormed(remote[h])
    modifies cube.status
    ensures entry == Entry(Used(cube.ids, localId, remote, local, 0, 0), cube.ids[i], cube.ids[j])
    ensures forall here :: 0 <= here < |cube.ids| && cube.ids[here] == localId && local.Lines?
                           && StaysInStep(remote, here, 0) ==>
              entry == Entry(Own(cube.ids, here, remote, local), cube.ids[i], cube.ids[j])
  {
    hide LastStatus, Used;
    cube.Fill(localId, remote, local);
    entry := cube.Maximum(i, j);
    ghost var used := Used(cube.ids, localId, remote, local, 0, 0);
    UsedIsGiven(cube.ids, localId, remote, local, 0, 0);
    forall h | 0 <= h < |used| ensures UNKNOWN <= Reported(used[h], cube.ids[i], cube.ids[j]) <= UP {
      assert WellFormed(used[h]);
      if used[h].Lines? { StatusInRange(used[h].entries, cube.ids[i], cube.ids[j]); }
    }
    assert forall h :: 0 <= h < |used| ==> Reported(used[h], cube.ids[i], cube.ids[j]) == cube.status[h, i, j];
    assert entry == Entry(used, cube.ids[i], cube.ids[j]);
    hide Entry, Own, StaysInStep;
    forall here | 0 <= here < |cube.ids| && cube.ids[here] == localId && local.Lines? && StaysInStep(remote, here, 0)
      ensures entry == Entry(Own(cube.ids, here, remote, local), cube.ids[i], cube.ids[j])
    {
      DisplayIsOwn(cube.ids, here, remote, local, cube.ids[i], cube.ids[j]);
    }
  }

  lemma {:induction false} UsedIsGiven(ids: seq<int>, localId: int, remote: seq<Output>, local: Output, k: nat, i: nat)
    requires i <= k <= |ids| == |remote|
    ensures forall h :: 0 <= h < |ids| - k ==>
              var o := Used(ids, localId, remote, local, k, i)[h]; o == local || o == remote[k + h]
    decreases |ids| - k
  {
    if k < |ids| {
      var output := if ids[i] == localId then local else remote[k];
      UsedIsGiven(ids, localId, remote, local, k + 1, if output.Inaccessible? then i else i + 1);
    }
  }

  function Reachable(remote: seq<Output>, k: nat, m: nat): nat
    requires m <= |remote|
    decreases m - k
  {
    if k >= m then 0 else (if remote[k].Lines? then 1 else 0) + Reachable(remote, k + 1, m)
  }

  // The index i has passed this node: from now on every report is the node's own.
  lemma {:induction false} IndexIsPast(ids: seq<int>, here: nat, remote: seq<Output>, local: Output, k: nat, i: nat)
    requires Distinct(ids) && here < i <= k <= |ids| == |remote|
    ensures Used(ids, ids[here], remote, local, k, i) == remote[k..]
    decreases |ids| - k
  {
    if k < |ids| { IndexIsPast(ids, here, remote, local, k + 1, if remote[k].Inaccessible? then i else i + 1); }
  }

  // No other node reports just what this one does.
  predicate Distinguishable(remote: seq<Output>, here: nat, local: Output) {
    forall h :: 0 <= h < |remote| && h != here ==> remote[h] != local
  }

  // The index i lags behind and may still come to this node.
  lemma {:induction false} IndexIsBehind(ids: seq<int>, here: nat, remote: seq<Output>, local: Output, k: nat, i: nat)
    requires Distinct(ids) && i <= here && i < k < |ids| == |remote| && here < |ids|
    ensures i + Reachable(remote, k, |ids| - 1) < here ==> Used(ids, ids[here], remote, local, k, i) == remote[k..]
    ensures Distinguishable(remote, here, local) && Used(ids, ids[here], remote, local, k, i) == remote[k..] ==>
              i + Reachable(remote, k, |ids| - 1) < here
    decreases |ids| - k
  {
    var used := Used(ids, ids[here], remote, local, k, i);
    if i == here {
      assert used[0] == local && remote[k..][0] == remote[k];
    } else {
      var next := if remote[k].Inaccessible? then i else i + 1;
      var tail := Used(ids, ids[here], remote, local, k + 1, next);
      assert used == [remote[k]] + tail && remote[k..] == [remote[k]] + remote[k + 1..];
      SameTail(remote[k], tail, remote[k + 1..]);
      if k + 1 < |ids| { IndexIsBehind(ids, here, remote, local, k + 1, next); }
    }
  }

  // The condition for the index never to come to another node's turn at this one's place.
  predicate StaysInStep(remote: seq<Output>, here: nat, k: nat)
    requires k <= here < |remote|
  {
    Reachable(remote, k, here) == here - k || k + Reachable(remote, k, |remote| - 1) < here
  }

  // The index i has kept step so far.
  lemma {:induction false} IndexInStep(ids: seq<int>, here: nat, remote: seq<Output>, local: Output, k: nat)
    requires Distinct(ids) && k <= here < |ids| == |remote| && local.Lines?
    ensures StaysInStep(remote, here, k) ==>
              Used(ids, ids[here], remote, local, k, k)[here - k := remote[here]] == remote[k..]
    ensures Distinguishable(remote, here, local) &&
              Used(ids, ids[here], remote, local, k, k)[here - k := remote[here]] == remote[k..] ==>
              StaysInStep(remote, here, k)
    decreases here - k
  {
    hide Used, Distinct;
    if k == here {
      NodeItself(ids, here, remote, local);
    } else {
      ReachableFits(remote, k + 1, here);
      OneInStep(ids, here, remote, local, k);
      if remote[k].Inaccessible? {
        LocalHere(ids, here, remote, local, k + 1, k);
        var tail := Used(ids, ids[here], remote, local, k + 1, k);
        assert tail[here - (k + 1) := remote[here]] == tail;
        IndexIsBehind(ids, here, remote, local, k + 1, k);
      } else {
        IndexInStep(ids, here, remote, local, k + 1);
      }
    }
  }

  lemma NodeItself(ids: seq<int>, here: nat, remote: seq<Output>, local: Output)
    requires Distinct(ids) && here < |ids| == |remote| && local.Lines?
    ensures Used(ids, ids[here], remote, local, here, here)[0 := remote[here]] == remote[here..]
  {
    IndexIsPast(ids, here, remote, local, here + 1, here + 1);
    assert Used(ids, ids[here], remote, local, here, here) == [local] + remote[here + 1..];
    assert remote[here..] == [remote[here]] + remote[here + 1..];
  }

  lemma OneInStep(ids: seq<int>, here: nat, remote: seq<Output>, local: Output, k: nat)
    requires Distinct(ids) && k < here < |ids| == |remote|
    ensures var next := if remote[k].Inaccessible? then k else k + 1;
            Used(ids, ids[here], remote, local, k, k)[here - k := remote[here]] == remote[k..] <==>
            Used(ids, ids[here], remote, local, k + 1, next)[here - (k + 1) := remote[here]] == remote[k + 1..]
  {
    var tail := Used(ids, ids[here], remote, local, k + 1, if remote[k].Inaccessible? then k else k + 1);
    UsedInStep(ids, here, remote, local, k);
    hide Used, Distinct;
    ReplaceLater(remote[k], tail, here - (k + 1), remote[here]);
    assert remote[k..] == [remote[k]] + remote[k + 1..];
    SameTail(remote[k], tail[here - (k + 1) := remote[here]], remote[k + 1..]);
  }

  lemma UsedInStep(ids: seq<int>, here: nat, remote: seq<Output>, local: Output, k: nat)
    requires Distinct(ids) && k < here < |ids| == |remote|
    ensures var next := if remote[k].Inaccessible? then k else k + 1;
            Used(ids, ids[here], remote, local, k, k)
            == [remote[k]] + Used(ids, ids[here], remote, local, k + 1, next)
  {
  }

  lemma ReplaceLater(x: Output, a: seq<Output>, i: nat, y: Output)
    requires i < |a|
    ensures ([x] + a)[i + 1 := y] == [x] + a[i := y]
  {
  }

  lemma SameTail(x: Output, a: seq<Output>, b: seq<Output>)
    ensures [x] + a == [x] + b <==> a == b
  {
    assert ([x] + a)[1..] == a && ([x] + b)[1..] == b;
  }

  // A lagging index leaves this node's own report to the remote command.
  lemma {:induction false} LocalHere(ids: seq<int>, here: nat, remote: seq<Output>, local: Output, k: nat, i: nat)
    requires Distinct(ids) && i < k <= here < |ids| == |remote|
    ensures Used(ids, ids[here], remote, local, k, i)[here - k] == remote[here]
    decreases here - k
  {
    if k < here { LocalHere(ids, here, remote, local, k + 1, if remote[k].Inaccessible? then i else i + 1); }
  }

  lemma {:induction false} ReachableFits(remote: seq<Output>, k: nat, m: nat)
    requires k <= m <= |remote|
    ensures Reachable(remote, k, m) <= m - k
    decreases m - k
  {
    if k < m { ReachableFits(remote, k + 1, m); }
  }

  /**
    The local command is run for this node alone, and every other report is the node's own, exactly
    when every node listed before this one can be reached, or so few answer that the lagging index
    never comes to this node.
   */
  lemma ReportsAreOwnIff(ids: seq<int>, here: nat, remote: seq<Output>, local: Output)
    requires Distinct(ids) && here < |ids| == |remote| && local.Lines? && Distinguishable(remote, here, local)
    ensures Used(ids, ids[here], remote, local, 0, 0)[here := remote[here]] == remote <==> StaysInStep(remote, here, 0)
  {
    hide Used, Reachable, StaysInStep;
    IndexInStep(ids, here, remote, local, 0);
    assert remote[0..] == remote;
  }

  // Each node's own report: this node's from the command that is run for it.
  function Own(ids: seq<int>, here: nat, remote: seq<Output>, local: Output): seq<Output>
    requires here < |ids| == |remote|
  {
    remote[here := Used(ids, ids[here], remote, local, 0, 0)[here]]
  }

  /** Then the display is that of each node's own report; and this node's is one of its two answers. */
  lemma DisplayIsOwn(ids: seq<int>, here: nat, remote: seq<Output>, local: Output, x: int, y: int)
    requires Distinct(ids) && here < |ids| == |remote| && local.Lines? && StaysInStep(remote, here, 0)
    ensures Entry(Used(ids, ids[here], remote, local, 0, 0), x, y) == Entry(Own(ids, here, remote, local), x, y)
    ensures Own(ids, here, remote, local)[here] in {local, remote[here]}
  {
    hide Used, Reachable, StaysInStep, Entry;
    IndexInStep(ids, here, remote, local, 0);
    UsedIsGiven(ids, ids[here], remote, local, 0, 0);
    var used := Used(ids, ids[here], remote, local, 0, 0);
    assert remote[0..] == remote;
    assert used == used[here := remote[here]][here := used[here]];
  }

  /** The order of the reports makes no difference. */
  lemma OrderDoesNotMatter(a: seq<Output>, b: seq<Output>, x: int, y: int)
    requires multiset(a) == multiset(b)
    ensures Entry(a, x, y) == Entry(b, x, y)
  {
    hide Reported;
    hide SomeReports;
    forall status ensures SomeReports(a, x, y, status) == SomeReports(b, x, y, status) {
      if SomeReports(a, x, y, status) { SameReports(a, b, x, y, status); }
      if SomeReports(b, x, y, status) { SameReports(b, a, x, y, status); }
    }
  }

  lemma SameReports(a: seq<Output>, b: seq<Output>, x: int, y: int, status: int)
    requires multiset(a) == multiset(b) && SomeReports(a, x, y, status)
    ensures SomeReports(b, x, y, status)
  {
    hide Reported;
    var h :| 0 <= h < |a| && Reported(a[h], x, y) == status;
    assert a[h] in multiset(a);
    assert a[h] in multiset(b);
    assert a[h] in b;
  }

  /**
    So two runs whose nodes are listed in different orders display the same entry for two nodes, as
    long as the index stays in step in both and each node reports the same.
   */
  lemma DisplayIgnoresOrder(ids: seq<int>, here: nat, remote: seq<Output>, ids': seq<int>, here': nat,
                            remote': seq<Output>, local: Output, x: int, y: int)
    requires Distinct(ids) && here < |ids| == |remote| && local.Lines? && StaysInStep(remote, here, 0)
    requires Distinct(ids') && here' < |ids'| == |remote'| && StaysInStep(remote', here', 0)
    requires multiset(Own(ids, here, remote, local)) == multiset(Own(ids', here', remote', local))
    ensures Entry(Used(ids, ids[here], remote, local, 0, 0), x, y)
            == Entry(Used(ids', ids'[here'], remote', local, 0, 0), x, y)
  {
    hide Used, StaysInStep, Entry, Own;
    DisplayIsOwn(ids, here, remote, local, x, y);
    DisplayIsOwn(ids', here', remote', local, x, y);
    OrderDoesNotMatter(Own(ids, here, remote, local), Own(ids', here', remote', local), x, y);
  }

  /**
    With the first of three nodes out of reach, what is taken for the report of the third is the
    second one's own, on which the command runs.
   */
  lemma UnreachableNodeShiftsReports(local: Output, third: Output)
    requires local.Lines?
    ensures Used([1, 2, 3], 2, [Inaccessible, local, third], local, 0, 0) == [Inaccessible, local, local]
  {
    var ids, remote := [1, 2, 3], [Inaccessible, local, third];
    assert Used(ids, 2, remote, local, 3, 2) == [];
    assert Used(ids, 2, remote, local, 2, 1) == [local] + [];
    assert Used(ids, 2, remote, local, 1, 0) == [local] + Used(ids, 2, remote, local, 2, 1);
    assert Used(ids, 2, remote, local, 0, 0) == [Inaccessible] + Used(ids, 2, remote, local, 1, 0);
  }
}
