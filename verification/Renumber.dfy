/** change_cidr: every client is moved to the new pool, one UPDATE at a time, while the
    columns stay UNIQUE throughout. */
module Renumber {
  import opened Text
  import opened AddressPool

  /** The hosts a pool can hand out, in order. */
  function Allocatable(hosts: seq<nat>, reserved: set<nat>): (r: seq<nat>)
    ensures forall a :: a in r <==> a in hosts && a !in reserved
  {
    if hosts == [] then []
    else (if hosts[0] in reserved then [] else [hosts[0]]) + Allocatable(hosts[1..], reserved)
  }

  lemma {:induction false} AllocatableAscending(hosts: seq<nat>, reserved: set<nat>)
    requires Ascending(hosts)
    ensures Ascending(Allocatable(hosts, reserved))
  {
    if hosts != [] {
      AllocatableAscending(hosts[1..], reserved);
      var rest := Allocatable(hosts[1..], reserved);
      assert forall i :: 0 <= i < |rest| ==> rest[i] in hosts[1..];
      assert forall h :: h in hosts[1..] ==> hosts[0] < h;
      assert forall i :: 0 <= i < |rest| ==> hosts[0] < rest[i];
    }
  }

  /** With the first i allocatable hosts taken, the search finds the next one. */
  lemma {:induction false} NextIsIth(hosts: seq<nat>, reserved: set<nat>, i: nat)
    requires Ascending(hosts) && i <= |Allocatable(hosts, reserved)|
    ensures FirstFree(hosts, reserved, Allocatable(hosts, reserved)[..i])
         == if i < |Allocatable(hosts, reserved)| then Some(Allocatable(hosts, reserved)[i]) else None
  {
    var free := Allocatable(hosts, reserved);
    AllocatableAscending(hosts, reserved);
    FirstFreeIsSmallest(hosts, reserved, free[..i]);
    if i < |free| {
      NotBefore(free, i);
      var a := FirstFree(hosts, reserved, free[..i]).value;
      assert a in free;
      var k :| 0 <= k < |free| && free[k] == a;
      Placing(free, i, k);
    } else {
      assert free[..i] == free;
    }
  }

  lemma Placing(free: seq<nat>, i: nat, k: nat)
    requires Ascending(free) && i < |free| && k < |free|
    ensures k == i || free[k] in free[..i] || free[i] < free[k]
  {
    if k < i {
      assert free[..i][k] == free[k];
    }
  }

  lemma NotBefore(free: seq<nat>, i: nat)
    requires Ascending(free) && i < |free|
    ensures free[i] in free && free[i] !in free[..i]
  {
    assert forall m :: 0 <= m < i ==> free[m] < free[i];
  }

  /** How many hosts below `a` are not left out. */
  function HostsBelow(hosts: seq<nat>, leftOut: set<nat>, a: nat): nat {
    if hosts == [] then 0
    else HostsBelow(hosts[1..], leftOut, a) + if hosts[0] < a && hosts[0] !in leftOut then 1 else 0
  }

  lemma {:induction false} NoneBelow(hosts: seq<nat>, leftOut: set<nat>, a: nat)
    requires forall h :: h in hosts ==> a <= h
    ensures HostsBelow(hosts, leftOut, a) == 0
  {
    if hosts != [] {
      assert hosts[0] in hosts && forall h :: h in hosts[1..] ==> h in hosts;
      NoneBelow(hosts[1..], leftOut, a);
    }
  }

  lemma {:induction false} IthHasRank(hosts: seq<nat>, reserved: set<nat>, i: nat)
    requires Ascending(hosts) && i < |Allocatable(hosts, reserved)|
    ensures HostsBelow(hosts, reserved, Allocatable(hosts, reserved)[i]) == i
  {
    var free, rest := Allocatable(hosts, reserved), Allocatable(hosts[1..], reserved);
    if hosts[0] in reserved {
      assert free == rest;
      IthHasRank(hosts[1..], reserved, i);
    } else if i == 0 {
      assert forall h :: h in hosts ==> hosts[0] <= h;
      NoneBelow(hosts, reserved, hosts[0]);
    } else {
      assert free[i] == rest[i - 1];
      AllocatableAscending(hosts, reserved);
      assert free[0] < free[i];
      IthHasRank(hosts[1..], reserved, i - 1);
    }
  }

  /** The i-th allocatable host is the one with i of them below it. */
  lemma AllocatableByRank(hosts: seq<nat>, reserved: set<nat>, i: nat, a: nat)
    requires Ascending(hosts)
    ensures i < |Allocatable(hosts, reserved)| && Allocatable(hosts, reserved)[i] == a
            <==> a in hosts && a !in reserved && HostsBelow(hosts, reserved, a) == i
  {
    var free := Allocatable(hosts, reserved);
    if i < |free| {
      IthHasRank(hosts, reserved, i);
      assert free[i] in free;
    }
    if a in free {
      var k :| 0 <= k < |free| && free[k] == a;
      IthHasRank(hosts, reserved, k);
    }
  }

  /** What the request asks for: the pools' allocatable hosts; None stands for an empty IPv6
      CIDR, which leaves the column alone. */
  datatype Plan = Plan(free4: seq<nat>, free6: Option<seq<nat>>)

  predicate ValidPlan(plan: Plan) {
    Ascending(plan.free4) && (plan.free6.Some? ==> Ascending(plan.free6.value))
  }

  /** The plan has addresses for the first k clients. */
  predicate Fits(plan: Plan, k: nat) {
    k <= |plan.free4| && (plan.free6.Some? ==> k <= |plan.free6.value|)
  }

  function Moved(row: Row, plan: Plan, i: nat): Row
    requires Fits(plan, i + 1)
  {
    Row(row.id, Some(plan.free4[i]), if plan.free6.Some? then Some(plan.free6.value[i]) else row.v6)
  }

  /** The table with the first k rows moved. */
  function MovedPrefix(rows: seq<Row>, plan: Plan, k: nat): (r: seq<Row>)
    requires k <= |rows| && Fits(plan, k)
    ensures |r| == |rows|
  {
    seq(|rows|, i requires 0 <= i < |rows| => if i < k then Moved(rows[i], plan, i) else rows[i])
  }

  /** Client i still finds an address, and no later client holds it. */
  predicate StepClear(rows: seq<Row>, plan: Plan, i: nat)
    requires i < |rows|
  {
    && Fits(plan, i + 1)
    && (forall j :: i < j < |rows| ==> rows[j].v4 != Some(plan.free4[i]))
    && (plan.free6.Some? ==> forall j :: i < j < |rows| ==> rows[j].v6 != Some(plan.free6.value[i]))
  }

  predicate ClearUpTo(rows: seq<Row>, plan: Plan, k: nat)
    requires k <= |rows|
  {
    forall i: nat :: i < k ==> StepClear(rows, plan, i)
  }

  /** Exactly the condition under which no UPDATE of the whole renumbering is refused. */
  predicate Clear(rows: seq<Row>, plan: Plan) {
    ClearUpTo(rows, plan, |rows|)
  }

  /** UPDATE … WHERE id of row i, checked against every other row. */
  predicate UpdateRefused(rows: seq<Row>, i: nat, row: Row)
    requires i < |rows|
  {
    exists j: nat :: j < |rows| && j != i && Clash(rows[j], row)
  }

  lemma RefusedExactly(rows: seq<Row>, plan: Plan, i: nat, lastId: nat)
    requires ValidTable(rows, lastId) && ValidPlan(plan)
    requires i < |rows| && Fits(plan, i + 1)
    ensures UpdateRefused(MovedPrefix(rows, plan, i), i, Moved(rows[i], plan, i)) <==> !StepClear(rows, plan, i)
  {
    var now, row := MovedPrefix(rows, plan, i), Moved(rows[i], plan, i);
    forall j: nat | j < i ensures !Clash(now[j], row) {
      assert now[j] == Moved(rows[j], plan, j);
      assert plan.free4[j] < plan.free4[i];
      assert plan.free6.Some? ==> plan.free6.value[j] < plan.free6.value[i];
      assert plan.free6.None? ==> !Clash(rows[j], rows[i]);
    }
    forall j: nat | i < j < |rows|
      ensures Clash(now[j], row) <==>
                rows[j].v4 == Some(plan.free4[i]) || (plan.free6.Some? && rows[j].v6 == Some(plan.free6.value[i]))
    {
      assert now[j] == rows[j] && !Clash(rows[i], rows[j]);
    }
  }

  class Registry {
    var rows: seq<Row>
    ghost var lastId: nat

    constructor (rows: seq<Row>, ghost lastId: nat)
      ensures this.rows == rows && this.lastId == lastId
    {
      this.rows, this.lastId := rows, lastId;
    }

    method UpdateClient(i: nat, row: Row) returns (ok: bool)
      requires i < |rows|
      modifies `rows
      ensures ok <==> !UpdateRefused(old(rows), i, row)
      ensures rows == if ok then old(rows)[i := row] else old(rows)
    {
      ok := !UpdateRefused(rows, i, row);
      if ok {
        rows := rows[i := row];
      }
    }

    /** One iteration: pick the next addresses, remember them as used, write the row. */
    method MoveClient(
      ghost before: seq<Row>, ghost plan: Plan, i: nat, v4: Option<Net>, v6: V6Pool, used4: seq<nat>, used6: seq<nat>)
      returns (ok: bool, now4: seq<nat>, now6: seq<nat>)
      requires ValidTable(before, lastId) && ValidPools(v4, v6) && plan == PlanOf(v4, v6)
      requires i < |before| && UsedSoFar(plan, i, used4, used6) && rows == MovedPrefix(before, plan, i)
      modifies `rows
      ensures ok <==> StepClear(before, plan, i)
      ensures ok ==> UsedSoFar(plan, i + 1, now4, now6) && rows == MovedPrefix(before, plan, i + 1)
      ensures !ok ==> rows == old(rows)
    {
      now4, now6 := used4, used6;
      PlanValid(v4, v6);
      NextRowIsMoved(before[i], v4, v6, i, used4, used6);
      assert rows[i] == before[i];
      var row := NextRow(rows[i], v4, v6, used4, used6);
      if row.None? {
        return false, now4, now6;
      }
      UsedGrows(plan, before[i], i, used4, used6);
      now4 := used4 + [row.value.v4.value];
      if v6 != NoV6 {
        now6 := used6 + [row.value.v6.value];
      }
      RefusedExactly(before, plan, i, lastId);
      MovedOneMore(before, plan, i);
      ok := UpdateClient(i, row.value);
    }

    /** The loop of change_cidr over the clients in id order. */
    method MoveClients(v4: Option<Net>, v6: V6Pool) returns (ok: bool, done: nat)
      requires ValidTable(rows, lastId) && ValidPools(v4, v6)
      modifies `rows
      ensures done <= |old(rows)| && Fits(PlanOf(v4, v6), done)
      ensures ClearUpTo(old(rows), PlanOf(v4, v6), done)
      ensures rows == MovedPrefix(old(rows), PlanOf(v4, v6), done)
      ensures ok <==> done == |old(rows)|
      ensures !ok ==> !StepClear(old(rows), PlanOf(v4, v6), done)
    {
      ghost var plan := PlanOf(v4, v6);
      ghost var before := rows;
      var count := |rows|;
      var used4: seq<nat>, used6: seq<nat> := [], [];
      MovedNone(before, plan);
      done := 0;
      while done < count
        invariant done <= count == |before|
        invariant ClearUpTo(before, plan, done)
        invariant UsedSoFar(plan, done, used4, used6)
        invariant rows == MovedPrefix(before, plan, done)
      {
        ok, used4, used6 := MoveClient(before, plan, done, v4, v6, used4, used6);
        if !ok {
          return false, done;
        }
        done := done + 1;
      }
      ok := true;
    }

    /** change_cidr. It stops at the first client that cannot be moved; until then client i has
        received the i-th host of each pool besides the reserved ones. */
    method ChangeCidr(v4: Option<Net>, v6: V6Pool) returns (ok: bool, done: nat)
      requires ValidTable(rows, lastId) && ValidPools(v4, v6)
      modifies `rows
      ensures done <= |old(rows)| && FirstPlaced(old(rows), rows, v4, v6, done)
      ensures ok <==> done == |old(rows)|
      ensures forall i: nat :: i < done ==> Movable(old(rows), v4, v6, i)
      ensures !ok ==> !Movable(old(rows), v4, v6, done)
    {
      ghost var before := rows;
      ok, done := MoveClients(v4, v6);
      MovedArePlaced(before, v4, v6, done);
      ClearIsMovable(before, v4, v6);
    }
  }

  /** The pools' allocatable hosts; an unreadable CIDR has none. */
  function PlanOf(v4: Option<Net>, v6: V6Pool): Plan {
    Plan(if v4.Some? then Allocatable(v4.value.hosts, ReservedV4(v4.value)) else [],
         match v6
         case NoV6 => None
         case BadV6 => Some([])
         case V6Pool(net) => Some(Allocatable(net.hosts, ReservedV6(net))))
  }

  /** Host i of an IPv4 pool, counted from zero and without the server's own address. */
  predicate IthHost4(net: Net, i: nat, a: nat) {
    var server := (net.addr + 1) % 0x1_0000_0000;
    a in net.hosts && a != server && HostsBelow(net.hosts, {server}, a) == i
  }

  /** The same of an IPv6 pool, which also leaves out the network address. */
  predicate IthHost6(net: Net, i: nat, a: nat) {
    var server := (net.addr + 1) % 0x1_0000_0000_0000_0000_0000_0000_0000_0000;
    a in net.hosts && a != net.addr && a != server && HostsBelow(net.hosts, {net.addr, server}, a) == i
  }

  /** Client i after its move: the i-th host of each pool, and without an IPv6 pool the IPv6
      address it had. */
  predicate Placed(before: Row, after: Row, v4: Option<Net>, v6: V6Pool, i: nat) {
    && after.id == before.id
    && v4.Some? && after.v4.Some? && IthHost4(v4.value, i, after.v4.value)
    && match v6
       case NoV6 => after.v6 == before.v6
       case BadV6 => false
       case V6Pool(net) => after.v6.Some? && IthHost6(net, i, after.v6.value)
  }

  /** The plan's addresses are those hosts. */
  lemma PlanIsByRank(v4: Option<Net>, v6: V6Pool, i: nat, a: nat)
    requires ValidPools(v4, v6)
    ensures var free4 := PlanOf(v4, v6).free4;
            i < |free4| && free4[i] == a <==> v4.Some? && IthHost4(v4.value, i, a)
    ensures var free6 := PlanOf(v4, v6).free6;
            free6.Some? && i < |free6.value| && free6.value[i] == a <==> v6.V6Pool? && IthHost6(v6.net, i, a)
  {
    if v4.Some? {
      Host4IsByRank(v4.value, i, a);
    }
    if v6.V6Pool? {
      Host6IsByRank(v6.net, i, a);
    }
  }

  lemma Host4IsByRank(net: Net, i: nat, a: nat)
    requires ValidNet(net)
    ensures var free := Allocatable(net.hosts, ReservedV4(net)); i < |free| && free[i] == a <==> IthHost4(net, i, a)
  {
    AllocatableByRank(net.hosts, ReservedV4(net), i, a);
  }

  lemma Host6IsByRank(net: Net, i: nat, a: nat)
    requires ValidNet(net)
    ensures var free := Allocatable(net.hosts, ReservedV6(net)); i < |free| && free[i] == a <==> IthHost6(net, i, a)
  {
    AllocatableByRank(net.hosts, ReservedV6(net), i, a);
  }

  /** The first k clients are moved and the others are as they were. */
  predicate FirstPlaced(before: seq<Row>, after: seq<Row>, v4: Option<Net>, v6: V6Pool, k: nat) {
    && |after| == |before|
    && forall i: nat :: i < |after| ==> if i < k then Placed(before[i], after[i], v4, v6, i) else after[i] == before[i]
  }

  lemma MovedArePlaced(rows: seq<Row>, v4: Option<Net>, v6: V6Pool, k: nat)
    requires ValidPools(v4, v6) && k <= |rows| && Fits(PlanOf(v4, v6), k)
    ensures FirstPlaced(rows, MovedPrefix(rows, PlanOf(v4, v6), k), v4, v6, k)
  {
    var plan := PlanOf(v4, v6);
    forall i: nat | i < k ensures Placed(rows[i], MovedPrefix(rows, plan, k)[i], v4, v6, i) {
      PlanIsByRank(v4, v6, i, plan.free4[i]);
      if plan.free6.Some? {
        PlanIsByRank(v4, v6, i, plan.free6.value[i]);
      }
    }
  }

  /** Each pool has an i-th host that no client after the i-th holds. */
  ghost predicate Movable(rows: seq<Row>, v4: Option<Net>, v6: V6Pool, i: nat) {
    && v4.Some?
    && (exists a: nat :: IthHost4(v4.value, i, a) && forall j :: i < j < |rows| ==> rows[j].v4 != Some(a))
    && match v6
       case NoV6 => true
       case BadV6 => false
       case V6Pool(net) =>
         exists a: nat :: IthHost6(net, i, a) && forall j :: i < j < |rows| ==> rows[j].v6 != Some(a)
  }

  /** A client is clear exactly when it can be moved. */
  lemma StepClearIff(rows: seq<Row>, v4: Option<Net>, v6: V6Pool, i: nat)
    requires ValidPools(v4, v6) && i < |rows|
    ensures StepClear(rows, PlanOf(v4, v6), i) <==> Movable(rows, v4, v6, i)
  {
    var plan := PlanOf(v4, v6);
    forall a: nat
      ensures i < |plan.free4| && plan.free4[i] == a <==> v4.Some? && IthHost4(v4.value, i, a)
      ensures v6.V6Pool? ==> (i < |plan.free6.value| && plan.free6.value[i] == a <==> IthHost6(v6.net, i, a))
    {
      PlanIsByRank(v4, v6, i, a);
    }
    if i < |plan.free4| {
      assert IthHost4(v4.value, i, plan.free4[i]);
    }
    if v6.V6Pool? && i < |plan.free6.value| {
      assert IthHost6(v6.net, i, plan.free6.value[i]);
    }
  }

  lemma ClearIsMovable(rows: seq<Row>, v4: Option<Net>, v6: V6Pool)
    requires ValidPools(v4, v6)
    ensures forall i: nat :: i < |rows| ==> (StepClear(rows, PlanOf(v4, v6), i) <==> Movable(rows, v4, v6, i))
  {
    forall i: nat | i < |rows| ensures StepClear(rows, PlanOf(v4, v6), i) <==> Movable(rows, v4, v6, i) {
      StepClearIff(rows, v4, v6, i);
    }
  }

  predicate UsedSoFar(plan: Plan, k: nat, used4: seq<nat>, used6: seq<nat>) {
    && Fits(plan, k) && used4 == plan.free4[..k]
    && (plan.free6.Some? ==> used6 == plan.free6.value[..k])
  }

  lemma UsedGrows(plan: Plan, row: Row, k: nat, used4: seq<nat>, used6: seq<nat>)
    requires UsedSoFar(plan, k, used4, used6) && Fits(plan, k + 1)
    ensures var next := Moved(row, plan, k);
            UsedSoFar(plan, k + 1, used4 + [next.v4.value],
                      if plan.free6.Some? then used6 + [next.v6.value] else used6)
  {
  }

  lemma MovedOneMore(rows: seq<Row>, plan: Plan, k: nat)
    requires k < |rows| && Fits(plan, k + 1)
    ensures MovedPrefix(rows, plan, k)[k := Moved(rows[k], plan, k)] == MovedPrefix(rows, plan, k + 1)
  {
  }

  lemma MovedNone(rows: seq<Row>, plan: Plan)
    ensures MovedPrefix(rows, plan, 0) == rows && UsedSoFar(plan, 0, [], [])
  {
  }

  /** The addresses one iteration picks; None when a search fails. */
  method NextRow(row: Row, v4: Option<Net>, v6: V6Pool, used4: seq<nat>, used6: seq<nat>) returns (next: Option<Row>)
    ensures next == NextRowSpec(row, v4, v6, used4, used6)
  {
    if v4.None? {
      return None;
    }
    var a4 := NextAddress(v4.value.hosts, ReservedV4(v4.value), used4);
    if a4.None? || v6.BadV6? {
      return None;
    }
    var a6 := row.v6;
    if v6.V6Pool? {
      a6 := NextAddress(v6.net.hosts, ReservedV6(v6.net), used6);
      if a6.None? {
        return None;
      }
    }
    return Some(Row(row.id, a4, a6));
  }

  function NextRowSpec(row: Row, v4: Option<Net>, v6: V6Pool, used4: seq<nat>, used6: seq<nat>): Option<Row> {
    var a4 := if v4.Some? then FirstFree(v4.value.hosts, ReservedV4(v4.value), used4) else None;
    var a6 := match v6
              case NoV6 => row.v6
              case BadV6 => None
              case V6Pool(net) => FirstFree(net.hosts, ReservedV6(net), used6);
    if a4.None? || (v6 != NoV6 && a6.None?) then None else Some(Row(row.id, a4, a6))
  }

  lemma NextRowIsMoved(row: Row, v4: Option<Net>, v6: V6Pool, k: nat, used4: seq<nat>, used6: seq<nat>)
    requires ValidPools(v4, v6) && UsedSoFar(PlanOf(v4, v6), k, used4, used6)
    ensures NextRowSpec(row, v4, v6, used4, used6)
         == if Fits(PlanOf(v4, v6), k + 1) then Some(Moved(row, PlanOf(v4, v6), k)) else None
  {
    if v4.Some? {
      NextIsIth(v4.value.hosts, ReservedV4(v4.value), k);
    }
    if v6.V6Pool? {
      NextIsIth(v6.net.hosts, ReservedV6(v6.net), k);
    }
  }

  lemma PlanValid(v4: Option<Net>, v6: V6Pool)
    requires ValidPools(v4, v6)
    ensures ValidPlan(PlanOf(v4, v6))
  {
    if v4.Some? {
      AllocatableAscending(v4.value.hosts, ReservedV4(v4.value));
    }
    if v6.V6Pool? {
      AllocatableAscending(v6.net.hosts, ReservedV6(v6.net));
    }
  }

  // ---------------------------------------------------------------- when it is clear

  function Column4(rows: seq<Row>): seq<Option<nat>> {
    seq(|rows|, i requires 0 <= i < |rows| => rows[i].v4)
  }

  function Column6(rows: seq<Row>): seq<Option<nat>> {
    seq(|rows|, i requires 0 <= i < |rows| => rows[i].v6)
  }

  /** Every entry is an allocatable host and they ascend with the ids. */
  predicate AscendingMembers(col: seq<Option<nat>>, free: seq<nat>) {
    && (forall i :: 0 <= i < |col| ==> col[i].Some? && col[i].value in free)
    && (forall i, j :: 0 <= i < j < |col| ==> col[i].value < col[j].value)
  }

  predicate Disjoint(col: seq<Option<nat>>, free: seq<nat>) {
    forall i :: 0 <= i < |col| ==> col[i].None? || col[i].value !in free
  }

  /** Greedy renumbering never moves a client upwards: the i-th allocatable host is at most
      the i-th of any ascending selection of them. */
  lemma {:induction false} GreedyIsBelow(col: seq<Option<nat>>, free: seq<nat>, i: nat)
    requires Ascending(free) && AscendingMembers(col, free) && i < |col|
    ensures i < |free| && free[i] <= col[i].value
  {
    assert col[i].value in free;
    var k :| 0 <= k < |free| && free[k] == col[i].value;
    if i > 0 {
      GreedyIsBelow(col, free, i - 1);
      assert free[i - 1] <= col[i - 1].value < free[k];
    }
    assert k >= i;
  }

  predicate ColumnClear(col: seq<Option<nat>>, free: seq<nat>) {
    |col| <= |free| && forall i, j :: 0 <= i < j < |col| ==> col[j] != Some(free[i])
  }

  lemma AscendingColumnClear(col: seq<Option<nat>>, free: seq<nat>)
    requires Ascending(free) && AscendingMembers(col, free)
    ensures ColumnClear(col, free)
  {
    if col != [] {
      GreedyIsBelow(col, free, |col| - 1);
    }
    forall i, j | 0 <= i < j < |col| ensures col[j] != Some(free[i]) {
      GreedyIsBelow(col, free, i);
      assert free[i] <= col[i].value < col[j].value;
    }
  }

  lemma ClearByColumn(rows: seq<Row>, plan: Plan)
    ensures Clear(rows, plan) <==>
              ColumnClear(Column4(rows), plan.free4)
              && (plan.free6.Some? ==> ColumnClear(Column6(rows), plan.free6.value))
  {
    var c4, c6 := Column4(rows), Column6(rows);
    if Clear(rows, plan) {
      assert |rows| > 0 ==> StepClear(rows, plan, |rows| - 1);
      forall i, j | 0 <= i < j < |rows|
        ensures c4[j] != Some(plan.free4[i]) && (plan.free6.Some? ==> c6[j] != Some(plan.free6.value[i]))
      {
        assert StepClear(rows, plan, i);
      }
    }
    if ColumnClear(c4, plan.free4) && (plan.free6.Some? ==> ColumnClear(c6, plan.free6.value)) {
      forall i: nat | i < |rows| ensures StepClear(rows, plan, i) {
        forall j | i < j < |rows|
          ensures rows[j].v4 != Some(plan.free4[i]) && (plan.free6.Some? ==> rows[j].v6 != Some(plan.free6.value[i]))
        {
          assert c4[j] == rows[j].v4 && c6[j] == rows[j].v6;
        }
      }
    }
  }

  predicate ColumnFriendly(col: seq<Option<nat>>, free: seq<nat>) {
    AscendingMembers(col, free) || (Disjoint(col, free) && |col| <= |free|)
  }

  /** Renumbering goes through when, column by column, the old addresses are ascending members
      of the new pool or do not meet it (and it is large enough). */
  lemma FriendlyRostersAreClear(rows: seq<Row>, plan: Plan)
    requires ValidPlan(plan) && ColumnFriendly(Column4(rows), plan.free4)
    requires plan.free6.Some? ==> ColumnFriendly(Column6(rows), plan.free6.value)
    ensures Clear(rows, plan)
  {
    FriendlyColumn(Column4(rows), plan.free4);
    if plan.free6.Some? {
      FriendlyColumn(Column6(rows), plan.free6.value);
    }
    ClearByColumn(rows, plan);
  }

  lemma FriendlyColumn(col: seq<Option<nat>>, free: seq<nat>)
    requires Ascending(free) && ColumnFriendly(col, free)
    ensures ColumnClear(col, free)
  {
    if AscendingMembers(col, free) {
      AscendingColumnClear(col, free);
    } else {
      assert forall i :: 0 <= i < |free| ==> free[i] in free;
    }
  }

  /** Renumbering twice into the same pool is the same as once, and the second time is always
      clear. */
  lemma RenumberTwice(rows: seq<Row>, plan: Plan)
    requires ValidPlan(plan) && Clear(rows, plan)
    ensures Fits(plan, |rows|)
    ensures var once := MovedPrefix(rows, plan, |rows|);
            Clear(once, plan) && MovedPrefix(once, plan, |rows|) == once
  {
    ClearByColumn(rows, plan);
    assert |Column4(rows)| == |rows| == |Column6(rows)|;
    var once := MovedPrefix(rows, plan, |rows|);
    assert forall i :: 0 <= i < |rows| ==> Column4(once)[i] == Some(plan.free4[i]);
    assert plan.free6.Some? ==> forall i :: 0 <= i < |rows| ==> Column6(once)[i] == Some(plan.free6.value[i]);
    ClearByColumn(once, plan);
  }

  /** Two clients that hold the first two hosts in the wrong order cannot be renumbered: the
      very first UPDATE is refused and the table stays as it was. */
  lemma SwappedPairCollides(plan: Plan, a: nat, b: nat)
    requires ValidPlan(plan) && |plan.free4| >= 2 && plan.free6.None? && a < b
    ensures var rows := [Row(a, Some(plan.free4[1]), None), Row(b, Some(plan.free4[0]), None)];
            ValidTable(rows, b) && |rows| <= |plan.free4| && !StepClear(rows, plan, 0)
  {
    var rows := [Row(a, Some(plan.free4[1]), None), Row(b, Some(plan.free4[0]), None)];
    assert rows[1].v4 == Some(plan.free4[0]);
  }
}
