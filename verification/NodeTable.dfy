/**
  The table repmgr.nodes as a map from node id to row, and the writes that the commands commit to
  it. Every write keeps the table consistent, in particular with at most one active primary.
 */
module NodeTable {

  datatype Kind = Primary | Standby | Witness | Bdr

  // A nullable node id.
  datatype Upstream = NoUpstream | Node(id: int)

  datatype Row = Row(kind: Kind, upstream: Upstream, name: string, conninfo: string, priority: int, active: bool)

  type Table = map<int, Row>

  predicate ActivePrimary(r: Row) { r.kind == Primary && r.active }

  function ActivePrimaries(t: Table): set<int> { set id | id in t && ActivePrimary(t[id]) }

  // The foreign key of upstream_node_id.
  predicate Refers(t: Table, r: Row) { r.upstream.Node? ==> r.upstream.id in t }

  predicate ForeignKeys(t: Table) { forall id :: id in t ==> Refers(t, t[id]) }

  predicate NoDownstream(t: Table, id: int) { forall k :: k in t ==> t[k].upstream != Node(id) }

  predicate OnePrimary(t: Table) {
    forall a, b :: a in t && b in t && ActivePrimary(t[a]) && ActivePrimary(t[b]) ==> a == b
  }

  // Every node but a primary has an upstream.
  predicate Attached(t: Table) {
    forall id :: id in t && (t[id].kind == Standby || t[id].kind == Witness) ==> t[id].upstream.Node?
  }

  predicate PositiveIds(t: Table) { forall id :: id in t ==> id > 0 }

  predicate Consistent(t: Table) { ForeignKeys(t) && OnePrimary(t) && Attached(t) && PositiveIds(t) }

  // ---- Statements ----

  function Deactivated(t: Table, id: int): Table {
    map k | k in t :: if ActivePrimary(t[k]) && k != id then t[k].(active := false) else t[k]
  }

  function Activated(t: Table, id: int): Table {
    if id in t then t[id := t[id].(kind := Primary, upstream := NoUpstream, active := true)] else t
  }

  // update_node_record_status with type standby
  function Following(t: Table, id: int, upstream: int): Table {
    if id in t then t[id := t[id].(kind := Standby, upstream := Node(upstream), active := true)] else t
  }

  function Without(t: Table, id: int): Table { map k | k in t && k != id :: t[k] }

  // ---- Committed writes ----

  datatype Write =
    | RegisterPrimary(id: int, row: Row)
    | Save(id: int, row: Row)                 // insert or update of a row that is not a primary
    | Promote(id: int)                        // update_node_record_set_primary
    | Follow(id: int, upstream: int)
    | Remove(id: int)

  function Apply(t: Table, w: Write): Table {
    match w
    case RegisterPrimary(id, row) => t[id := row]
    case Save(id, row) => t[id := row]
    case Promote(id) => Activated(Deactivated(t, id), id)
    case Follow(id, upstream) => Following(t, id, upstream)
    case Remove(id) => Without(t, id)
  }

  // What a command has checked, in the same transaction or by a constraint of the table, before
  // it commits the write.
  predicate Allowed(t: Table, w: Write) {
    match w
    case RegisterPrimary(id, row) =>
      id > 0 && row.kind == Primary && row.upstream == NoUpstream && ActivePrimaries(t) <= {id}
    case Save(id, row) =>
      id > 0 && (row.kind == Standby || row.kind == Witness) && row.upstream.Node? && ForeignKeys(t[id := row])
    case Promote(id) => true
    case Follow(id, upstream) => ForeignKeys(Following(t, id, upstream))
    case Remove(id) => ForeignKeys(Without(t, id))
  }

  // ---- What every write keeps ----

  lemma PromotedPrimaries(t: Table, id: int)
    ensures ActivePrimaries(Apply(t, Promote(id))) == if id in t then {id} else {}
    ensures Apply(t, Promote(id)).Keys == t.Keys
    ensures id in t ==> Apply(t, Promote(id))[id] == t[id].(kind := Primary, upstream := NoUpstream, active := true)
    ensures forall k :: k in t && k != id ==>
              Apply(t, Promote(id))[k] == if ActivePrimary(t[k]) then t[k].(active := false) else t[k]
  {
    var d := Deactivated(t, id);
    assert d.Keys == t.Keys;
    assert forall k :: k in d ==> ActivePrimary(d[k]) ==> k == id;
    var p := Apply(t, Promote(id));
    assert p.Keys == t.Keys;
    assert forall k :: k in p && k != id ==> p[k] == d[k];
  }

  /**
    The first half of a promotion alone leaves the promoted node as active primary if it was one, and
    none otherwise.
   */
  lemma HalfPromotion(t: Table, id: int)
    ensures ActivePrimaries(Deactivated(t, id)) == ActivePrimaries(t) * {id}
  {
    var d := Deactivated(t, id);
    assert d.Keys == t.Keys;
    assert forall k :: k in ActivePrimaries(d) <==> k in ActivePrimaries(t) && k == id;
  }

  /** Every allowed write keeps the table consistent. */
  lemma WriteKeepsConsistent(t: Table, w: Write)
    requires Consistent(t) && Allowed(t, w)
    ensures Consistent(Apply(t, w))
  {
    hide ActivePrimaries;
    match w {
      case RegisterPrimary(id, row) => RegisterKeeps(t, id, row);
      case Save(id, row) => SaveKeeps(t, id, row);
      case Promote(id) => PromoteKeeps(t, id);
      case Follow(id, upstream) => FollowKeeps(t, id, upstream);
      case Remove(id) => RemoveKeeps(t, id);
    }
  }

  lemma RegisterKeeps(t: Table, id: int, row: Row)
    requires Consistent(t) && Allowed(t, RegisterPrimary(id, row))
    ensures Consistent(t[id := row])
  {
    var p := t[id := row];
    forall k | k in t && ActivePrimary(t[k]) ensures k == id { assert k in ActivePrimaries(t); }
    forall k | k in p ensures Refers(p, p[k]) {
      if k != id { assert Refers(t, t[k]); }
    }
  }

  lemma SaveKeeps(t: Table, id: int, row: Row)
    requires Consistent(t) && Allowed(t, Save(id, row))
    ensures Consistent(t[id := row])
  {
    var p := t[id := row];
    assert ActivePrimaries(p) <= ActivePrimaries(t);
  }

  lemma PromoteKeeps(t: Table, id: int)
    requires Consistent(t)
    ensures Consistent(Apply(t, Promote(id)))
  {
    var p := Apply(t, Promote(id));
    PromotedPrimaries(t, id);
    hide Apply, ActivePrimaries;
    forall k | k in p ensures Refers(p, p[k]) { assert Refers(t, t[k]); }
  }

  lemma FollowKeeps(t: Table, id: int, upstream: int)
    requires Consistent(t) && Allowed(t, Follow(id, upstream))
    ensures Consistent(Following(t, id, upstream))
  {
    assert ActivePrimaries(Following(t, id, upstream)) <= ActivePrimaries(t);
  }

  lemma RemoveKeeps(t: Table, id: int)
    requires Consistent(t) && Allowed(t, Remove(id))
    ensures Consistent(Without(t, id))
  {
    assert ActivePrimaries(Without(t, id)) <= ActivePrimaries(t);
  }

  /** The check of primary register is exactly what the table needs. */
  lemma RegisterKeepsOneIff(t: Table, id: int, row: Row)
    requires OnePrimary(t) && ActivePrimary(row)
    ensures OnePrimary(t[id := row]) <==> ActivePrimaries(t) <= {id}
  {
    var p := t[id := row];
    if OnePrimary(p) {
      forall k | k in t && ActivePrimary(t[k]) ensures k == id {
        assert k in p && ActivePrimary(p[k]);
        assert id in p && ActivePrimary(p[id]);
      }
    }
    if ActivePrimaries(t) <= {id} {
      forall k | k in t && ActivePrimary(t[k]) ensures k == id { assert k in ActivePrimaries(t); }
    }
  }

  // ---- Runs ----

  function After(t: Table, ws: seq<Write>): Table
    decreases |ws|
  {
    if ws == [] then t else After(Apply(t, ws[0]), ws[1..])
  }

  predicate Run(t: Table, ws: seq<Write>)
    decreases |ws|
  {
    ws == [] || (Allowed(t, ws[0]) && Run(Apply(t, ws[0]), ws[1..]))
  }

  /**
    However the commands of any number of sessions interleave their transactions, the table stays
    consistent: there is never more than one active primary.
   */
  lemma {:induction false} RunKeepsConsistent(t: Table, ws: seq<Write>)
    requires Consistent(t) && Run(t, ws)
    ensures Consistent(After(t, ws)) && |ActivePrimaries(After(t, ws))| <= 1
    decreases |ws|
  {
    if ws == [] {
      OnePrimaryCounts(t);
    } else {
      WriteKeepsConsistent(t, ws[0]);
      RunKeepsConsistent(Apply(t, ws[0]), ws[1..]);
    }
  }

  lemma OnePrimaryCounts(t: Table)
    requires OnePrimary(t)
    ensures |ActivePrimaries(t)| <= 1
  {
    var s := ActivePrimaries(t);
    if forall k :: k in t ==> !ActivePrimary(t[k]) {
      assert forall k :: k !in s;
      assert s == {};
    } else {
      var a :| a in t && ActivePrimary(t[a]);
      assert forall k :: k in s ==> k == a;
      assert a in s;
      assert s == {a};
    }
  }

  /**
    A run whose last write is a promotion ends with exactly the promoted node as active primary,
    without an upstream: exactly when that node is registered at that time.
   */
  lemma {:induction false} PromotionEndsRun(t: Table, ws: seq<Write>, id: int)
    requires Consistent(t) && Run(t, ws)
    ensures var before, after := After(t, ws), After(t, ws + [Promote(id)]);
            && (ActivePrimaries(after) == {id} <==> id in before)
            && (id in before ==> after[id].upstream == NoUpstream)
            && (id !in before ==> ActivePrimaries(after) == {})
    decreases |ws|
  {
    if ws == [] {
      assert ws + [Promote(id)] == [Promote(id)];
      assert After(t, [Promote(id)]) == After(Apply(t, Promote(id)), []);
      PromotedPrimaries(t, id);
    } else {
      assert (ws + [Promote(id)])[1..] == ws[1..] + [Promote(id)];
      WriteKeepsConsistent(t, ws[0]);
      PromotionEndsRun(Apply(t, ws[0]), ws[1..], id);
    }
  }

  // ---- A switchover ----

  // What a completed switchover commits: the promotion here, and the rejoin of the old primary.
  function SwitchoverWrites(candidate: int, primary: int): seq<Write> {
    [Promote(candidate), Follow(primary, candidate)]
  }

  // The table before one: the candidate is an active standby of the only active primary.
  predicate ReadyForSwitchover(t: Table, candidate: int, primary: int) {
    && candidate != primary && candidate in t && primary in t
    && ActivePrimaries(t) == {primary} && t[primary].upstream == NoUpstream
    && t[candidate].kind == Standby && t[candidate].active && t[candidate].upstream == Node(primary)
  }

  lemma AfterTwo(t: Table, a: Write, b: Write)
    ensures After(t, [a, b]) == Apply(Apply(t, a), b)
    ensures Run(t, [a, b]) <==> Allowed(t, a) && Allowed(Apply(t, a), b)
  {
    hide Apply, Allowed;
    assert [a, b][1..] == [b];
    assert [b][1..] == [];
    assert After(Apply(t, a), [b]) == After(Apply(Apply(t, a), b), []);
    assert Run(Apply(Apply(t, a), b), []);
  }

  function Swapped(t: Table, candidate: int, primary: int): Table
    requires candidate in t && primary in t
  {
    t[candidate := t[candidate].(kind := Primary, upstream := NoUpstream)]
     [primary := t[primary].(kind := Standby, upstream := Node(candidate))]
  }

  lemma SwappedTable(t: Table, candidate: int, primary: int)
    requires ReadyForSwitchover(t, candidate, primary)
    ensures Apply(Apply(t, Promote(candidate)), Follow(primary, candidate)) == Swapped(t, candidate, primary)
  {
    PromotedPrimaries(t, candidate);
    assert ActivePrimary(t[primary]) by { assert primary in ActivePrimaries(t); }
    forall k | k in t && k != primary ensures !ActivePrimary(t[k]) { assert k !in ActivePrimaries(t); }
    var p := Apply(t, Promote(candidate));
    hide ActivePrimaries;
    var after, swapped := Following(p, primary, candidate), Swapped(t, candidate, primary);
    assert after.Keys == swapped.Keys == t.Keys;
    assert forall k :: k in t ==> after[k] == swapped[k];
  }

  lemma SwappedKeepsForeignKeys(t: Table, a: int, b: int)
    requires ForeignKeys(t) && a in t && b in t
    ensures ForeignKeys(Swapped(t, a, b))
  {
    var p := Swapped(t, a, b);
    forall k | k in p ensures Refers(p, p[k]) { assert Refers(t, t[k]); }
  }

  /** A switchover swaps the roles of the two nodes, and touches no other row. */
  lemma SwitchoverSwapsRoles(t: Table, candidate: int, primary: int)
    requires ForeignKeys(t) && ReadyForSwitchover(t, candidate, primary)
    ensures Run(t, SwitchoverWrites(candidate, primary))
    ensures var after := After(t, SwitchoverWrites(candidate, primary));
            && ReadyForSwitchover(after, primary, candidate)
            && after == Swapped(t, candidate, primary)
  {
    AfterTwo(t, Promote(candidate), Follow(primary, candidate));
    SwappedTable(t, candidate, primary);
    SwappedKeepsForeignKeys(t, candidate, primary);
    var after := Swapped(t, candidate, primary);
    assert ActivePrimary(t[primary]) by { assert primary in ActivePrimaries(t); }
    forall k | k in t && k != primary ensures !ActivePrimary(t[k]) { assert k !in ActivePrimaries(t); }
    assert forall k :: k in ActivePrimaries(after) <==> k == candidate;
  }

  /** Switching over and back restores the table. */
  lemma SwitchoverAndBack(t: Table, candidate: int, primary: int)
    requires ForeignKeys(t) && ReadyForSwitchover(t, candidate, primary)
    ensures After(After(t, SwitchoverWrites(candidate, primary)), SwitchoverWrites(primary, candidate)) == t
  {
    hide ActivePrimaries;
    SwitchoverSwapsRoles(t, candidate, primary);
    var once := After(t, SwitchoverWrites(candidate, primary));
    SwappedKeepsForeignKeys(t, candidate, primary);
    SwitchoverSwapsRoles(once, primary, candidate);
    IsPrimary(t, primary);
    var twice := After(once, SwitchoverWrites(primary, candidate));
    hide After, SwitchoverWrites;
    assert twice.Keys == t.Keys;
    assert forall k :: k in t ==> twice[k] == t[k];
  }

  lemma IsPrimary(t: Table, primary: int)
    requires primary in ActivePrimaries(t)
    ensures primary in t && ActivePrimary(t[primary])
  {
  }

  /** Unregistering a node that has just been registered restores the table. */
  lemma RegisterThenUnregister(t: Table, id: int, row: Row)
    requires id !in t
    ensures Apply(Apply(t, Save(id, row)), Remove(id)) == t
    ensures ForeignKeys(t) && row.upstream != Node(id) ==> Allowed(t[id := row], Remove(id))
  {
    var back := Without(t[id := row], id);
    assert forall k :: k in back <==> k in t;
    assert back == t;
  }
}
