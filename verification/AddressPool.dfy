/** Address allocation: the first free host of a pool, the clients table with its UNIQUE
    columns, and what every run of creates, edits and deletes keeps. */
module AddressPool {
  import opened Text
  import opened Sets

  /** A parsed CIDR: the address it was written with and its hosts in ascending order. */
  datatype Net = Net(addr: nat, hosts: seq<nat>)

  const V4_SPACE: nat := 0x1_0000_0000
  const V6_SPACE: nat := 0x1_0000_0000_0000_0000_0000_0000_0000_0000

  predicate Ascending(s: seq<nat>) {
    forall i, j :: 0 <= i < j < |s| ==> s[i] < s[j]
  }

  predicate ValidNet(net: Net) {
    Ascending(net.hosts)
  }

  /** Hosts that are never handed out: the server's own address, and for IPv6 also the
      network address. The increment wraps as release arithmetic does. */
  function ReservedV4(net: Net): set<nat> {
    {(net.addr + 1) % V4_SPACE}
  }

  function ReservedV6(net: Net): set<nat> {
    {net.addr, (net.addr + 1) % V6_SPACE}
  }

  function FirstFree(hosts: seq<nat>, reserved: set<nat>, used: seq<nat>): Option<nat> {
    if hosts == [] then None
    else if hosts[0] !in reserved && hosts[0] !in used then Some(hosts[0])
    else FirstFree(hosts[1..], reserved, used)
  }

  /** next_ipv4 and next_ipv6: the search loop over hosts(). */
  method NextAddress(hosts: seq<nat>, reserved: set<nat>, used: seq<nat>) returns (r: Option<nat>)
    ensures r == FirstFree(hosts, reserved, used)
  {
    for i := 0 to |hosts|
      invariant FirstFree(hosts, reserved, used) == FirstFree(hosts[i..], reserved, used)
    {
      assert hosts[i..][1..] == hosts[i + 1..];
      if hosts[i] !in reserved && hosts[i] !in used {
        return Some(hosts[i]);
      }
    }
    return None;
  }

  /** The result is the smallest host that is neither reserved nor used, and there is no
      result only when there is no such host. */
  lemma {:induction false} FirstFreeIsSmallest(hosts: seq<nat>, reserved: set<nat>, used: seq<nat>)
    requires Ascending(hosts)
    ensures var r := FirstFree(hosts, reserved, used);
            && (r.None? <==> forall h :: h in hosts ==> h in reserved || h in used)
            && (r.Some? ==>
                  && r.value in hosts && r.value !in reserved && r.value !in used
                  && forall h :: h in hosts && h !in reserved && h !in used ==> r.value <= h)
  {
    if hosts != [] {
      FirstFreeIsSmallest(hosts[1..], reserved, used);
      assert forall h :: h in hosts <==> h == hosts[0] || h in hosts[1..];
      assert forall h :: h in hosts[1..] ==> hosts[0] < h;
    }
  }

  // ---------------------------------------------------------------- counting

  function Elements(s: seq<nat>): set<nat> {
    set x | x in s
  }

  lemma {:induction false} ElementsBound(s: seq<nat>)
    ensures |Elements(s)| <= |s|
  {
    if s != [] {
      ElementsBound(s[1..]);
      assert Elements(s) == {s[0]} + Elements(s[1..]);
    }
  }

  lemma {:induction false} ElementsDistinct(s: seq<nat>)
    requires Ascending(s)
    ensures |Elements(s)| == |s|
  {
    if s != [] {
      ElementsDistinct(s[1..]);
      assert Elements(s) == {s[0]} + Elements(s[1..]);
      assert s[0] !in s[1..];
    }
  }

  /** Pigeonhole: more hosts than reserved and used addresses leave one free. */
  lemma RoomySucceeds(hosts: seq<nat>, reserved: set<nat>, used: seq<nat>)
    requires Ascending(hosts) && |hosts| > |reserved| + |used|
    ensures FirstFree(hosts, reserved, used).Some?
  {
    FirstFreeIsSmallest(hosts, reserved, used);
    ElementsDistinct(hosts);
    ElementsBound(used);
    if Elements(hosts) <= reserved + Elements(used) {
      SubsetSize(Elements(hosts), reserved + Elements(used));
      assert false;
    }
  }

  // ---------------------------------------------------------------- the table

  datatype Row = Row(id: nat, v4: Option<nat>, v6: Option<nat>)

  /** Values of a column, NULLs left out. */
  function Used4(rows: seq<Row>): (u: seq<nat>)
    ensures |u| <= |rows|
    ensures forall a :: a in u <==> exists r :: r in rows && r.v4 == Some(a)
  {
    if rows == [] then []
    else
      var n := |rows| - 1;
      assert rows == rows[..n] + [rows[n]];
      Used4(rows[..n]) + if rows[n].v4.Some? then [rows[n].v4.value] else []
  }

  function Used6(rows: seq<Row>): (u: seq<nat>)
    ensures |u| <= |rows|
    ensures forall a :: a in u <==> exists r :: r in rows && r.v6 == Some(a)
  {
    if rows == [] then []
    else
      var n := |rows| - 1;
      assert rows == rows[..n] + [rows[n]];
      Used6(rows[..n]) + if rows[n].v6.Some? then [rows[n].v6.value] else []
  }

  /** NULLs never clash under UNIQUE. */
  predicate Clash(a: Row, b: Row) {
    (a.v4.Some? && a.v4 == b.v4) || (a.v6.Some? && a.v6 == b.v6)
  }

  /** Some row holds one of the addresses already. */
  predicate Taken(rows: seq<Row>, row: Row) {
    exists r :: r in rows && Clash(r, row)
  }

  /** Rows in id order with AUTOINCREMENT ids, and UNIQUE addresses. */
  predicate ValidTable(rows: seq<Row>, lastId: nat) {
    && (forall i, j :: 0 <= i < j < |rows| ==> rows[i].id < rows[j].id)
    && (forall i :: 0 <= i < |rows| ==> rows[i].id <= lastId)
    && (forall i, j :: 0 <= i < j < |rows| ==> !Clash(rows[i], rows[j]))
  }

  /** The IPv6 part of a create: off, an unreadable CIDR, or a pool. */
  datatype V6Pool = NoV6 | BadV6 | V6Pool(net: Net)

  predicate ValidPools(v4: Option<Net>, v6: V6Pool) {
    (v4.Some? ==> ValidNet(v4.value)) && (v6.V6Pool? ==> ValidNet(v6.net))
  }

  /** The row a create inserts; None is the error result. */
  function Allocated(rows: seq<Row>, lastId: nat, v4: Option<Net>, v6: V6Pool): Option<Row> {
    if v4.None? then None
    else
      var a4 := FirstFree(v4.value.hosts, ReservedV4(v4.value), Used4(rows));
      if a4.None? then None
      else match v6
        case NoV6 => Some(Row(lastId + 1, a4, None))
        case BadV6 => None
        case V6Pool(net) =>
          var a6 := FirstFree(net.hosts, ReservedV6(net), Used6(rows));
          if a6.None? then None else Some(Row(lastId + 1, a4, a6))
  }

  class ClientsTable {
    var rows: seq<Row>
    var lastId: nat

    constructor ()
      ensures rows == [] && lastId == 0
    {
      rows, lastId := [], 0;
    }

    /** INSERT, which the UNIQUE columns may refuse. */
    method Insert(v4: Option<nat>, v6: Option<nat>) returns (id: Option<nat>)
      modifies this
      ensures var row := Row(old(lastId) + 1, v4, v6);
              if Taken(old(rows), row)
              then id.None? && rows == old(rows) && lastId == old(lastId)
              else id == Some(row.id) && rows == old(rows) + [row] && lastId == row.id
    {
      var row := Row(lastId + 1, v4, v6);
      if Taken(rows, row) {
        return None;
      }
      rows := rows + [row];
      lastId := row.id;
      return Some(row.id);
    }

    /** create_client_alloc_ip: both addresses are chosen and inserted as one unit. The row is
        the allocated one and the insert is never refused; on any error nothing changes. */
    method CreateClientAllocIp(v4: Option<Net>, v6: V6Pool) returns (id: Option<nat>)
      requires ValidTable(rows, lastId) && ValidPools(v4, v6)
      modifies this
      ensures ValidTable(rows, lastId)
      ensures var row := Allocated(old(rows), old(lastId), v4, v6);
              if row.Some?
              then rows == old(rows) + [row.value] && lastId == row.value.id && id == Some(row.value.id)
              else rows == old(rows) && lastId == old(lastId) && id == None
    {
      var row := ChooseAddresses(rows, lastId, v4, v6);
      if row.None? {
        return None;
      }
      AllocatedFits(rows, lastId, v4, v6);
      id := Insert(row.value.v4, row.value.v6);
    }

    /** delete_client: exactly the row with the id goes, and an unknown id is an error. */
    method DeleteClient(id: nat) returns (ok: bool)
      requires ValidTable(rows, lastId)
      modifies `rows
      ensures ok <==> HasId(old(rows), id)
      ensures forall r :: r in rows <==> r in old(rows) && r.id != id
      ensures |rows| == |old(rows)| - if ok then 1 else 0
      ensures !ok ==> rows == old(rows)
      ensures ValidTable(rows, lastId) && rows == Deleted(old(rows), id)
    {
      DeletedRows(rows, id, lastId);
      DeletedCount(rows, id);
      if !HasId(rows, id) {
        DeletedFresh(rows, id);
      }
      var before := |rows|;
      rows := Deleted(rows, id);
      ok := |rows| != before;
    }
  }

  method CollectUsed(rows: seq<Row>) returns (used4: seq<nat>, used6: seq<nat>)
    ensures used4 == Used4(rows) && used6 == Used6(rows)
  {
    used4, used6 := [], [];
    for i := 0 to |rows|
      invariant used4 == Used4(rows[..i]) && used6 == Used6(rows[..i])
    {
      assert rows[..i + 1][..i] == rows[..i];
      if rows[i].v4.Some? {
        used4 := used4 + [rows[i].v4.value];
      }
      if rows[i].v6.Some? {
        used6 := used6 + [rows[i].v6.value];
      }
    }
    assert rows[..|rows|] == rows;
  }

  method ChooseAddresses(rows: seq<Row>, lastId: nat, v4: Option<Net>, v6: V6Pool) returns (row: Option<Row>)
    ensures row == Allocated(rows, lastId, v4, v6)
  {
    var used4, used6 := CollectUsed(rows);
    if v4.None? {
      return None;
    }
    var a4 := NextAddress(v4.value.hosts, ReservedV4(v4.value), used4);
    if a4.None? || v6.BadV6? {
      return None;
    }
    var a6: Option<nat> := None;
    if v6.V6Pool? {
      a6 := NextAddress(v6.net.hosts, ReservedV6(v6.net), used6);
      if a6.None? {
        return None;
      }
    }
    return Some(Row(lastId + 1, a4, a6));
  }

  function Deleted(rows: seq<Row>, id: nat): seq<Row> {
    if rows == [] then []
    else Deleted(rows[..|rows| - 1], id) + if rows[|rows| - 1].id == id then [] else [rows[|rows| - 1]]
  }

  predicate HasId(rows: seq<Row>, id: nat) {
    exists i :: 0 <= i < |rows| && rows[i].id == id
  }

  lemma AppendKeepsValid(rows: seq<Row>, lastId: nat, row: Row)
    requires ValidTable(rows, lastId)
    requires forall r :: r in rows ==> r.id < row.id && !Clash(r, row)
    ensures ValidTable(rows + [row], row.id)
  {
    var out := rows + [row];
    forall i, j | 0 <= i < j < |out| ensures out[i].id < out[j].id && !Clash(out[i], out[j]) {
      assert out[i] == rows[i];
    }
  }

  lemma AllocatedIsFree(rows: seq<Row>, lastId: nat, v4: Option<Net>, v6: V6Pool)
    requires ValidPools(v4, v6) && Allocated(rows, lastId, v4, v6).Some?
    ensures forall r :: r in rows ==> !Clash(r, Allocated(rows, lastId, v4, v6).value)
    ensures Allocated(rows, lastId, v4, v6).value.id == lastId + 1
  {
    FirstFreeIsSmallest(v4.value.hosts, ReservedV4(v4.value), Used4(rows));
    if v6.V6Pool? {
      FirstFreeIsSmallest(v6.net.hosts, ReservedV6(v6.net), Used6(rows));
    }
  }

  /** So it can be inserted as it is. */
  lemma AllocatedFits(rows: seq<Row>, lastId: nat, v4: Option<Net>, v6: V6Pool)
    requires ValidTable(rows, lastId) && ValidPools(v4, v6) && Allocated(rows, lastId, v4, v6).Some?
    ensures var row := Allocated(rows, lastId, v4, v6).value;
            && row == Row(lastId + 1, row.v4, row.v6) && !Taken(rows, row)
            && ValidTable(rows + [row], row.id)
  {
    AllocatedIsFree(rows, lastId, v4, v6);
    AppendKeepsValid(rows, lastId, Allocated(rows, lastId, v4, v6).value);
  }

  /** A host a create may hand out: not the server's own address, and held by no client. */
  predicate Free4(net: Net, rows: seq<Row>, h: nat) {
    h in net.hosts && h != (net.addr + 1) % 0x1_0000_0000 && forall r :: r in rows ==> r.v4 != Some(h)
  }

  /** For IPv6 the network address is left out too. */
  predicate Free6(net: Net, rows: seq<Row>, h: nat) {
    && h in net.hosts && h != net.addr && h != (net.addr + 1) % 0x1_0000_0000_0000_0000_0000_0000_0000_0000
    && forall r :: r in rows ==> r.v6 != Some(h)
  }

  ghost predicate Smallest4(net: Net, rows: seq<Row>, a: nat) {
    Free4(net, rows, a) && forall h :: Free4(net, rows, h) ==> a <= h
  }

  ghost predicate Smallest6(net: Net, rows: seq<Row>, a: nat) {
    Free6(net, rows, a) && forall h :: Free6(net, rows, h) ==> a <= h
  }

  ghost predicate V6Chosen(rows: seq<Row>, v6: V6Pool, a: Option<nat>) {
    match v6
    case NoV6 => a.None?
    case BadV6 => false
    case V6Pool(net) => a.Some? && Smallest6(net, rows, a.value)
  }

  /** Choosing in one pool: the smallest free host, or none exactly when none is free. */
  lemma Choice4Means(net: Net, rows: seq<Row>, a: nat)
    requires ValidNet(net)
    ensures var r := FirstFree(net.hosts, ReservedV4(net), Used4(rows));
            (r.None? <==> forall h :: !Free4(net, rows, h)) && (r == Some(a) <==> Smallest4(net, rows, a))
  {
    var reserved, used := ReservedV4(net), Used4(rows);
    FirstFreeIsSmallest(net.hosts, reserved, used);
    assert forall h :: Free4(net, rows, h) <==> h in net.hosts && h !in reserved && h !in used;
  }

  lemma Choice6Means(net: Net, rows: seq<Row>, a: nat)
    requires ValidNet(net)
    ensures var r := FirstFree(net.hosts, ReservedV6(net), Used6(rows));
            (r.None? <==> forall h :: !Free6(net, rows, h)) && (r == Some(a) <==> Smallest6(net, rows, a))
  {
    var reserved, used := ReservedV6(net), Used6(rows);
    FirstFreeIsSmallest(net.hosts, reserved, used);
    assert forall h :: Free6(net, rows, h) <==> h in net.hosts && h !in reserved && h !in used;
  }

  predicate V6FirstFree(rows: seq<Row>, v6: V6Pool, a: Option<nat>) {
    match v6
    case NoV6 => a.None?
    case BadV6 => false
    case V6Pool(net) => a.Some? && FirstFree(net.hosts, ReservedV6(net), Used6(rows)) == a
  }

  lemma AllocatedParts(rows: seq<Row>, lastId: nat, v4: Net, v6: V6Pool, row: Row)
    ensures Allocated(rows, lastId, Some(v4), v6) == Some(row) <==>
              && row.id == lastId + 1 && row.v4.Some?
              && FirstFree(v4.hosts, ReservedV4(v4), Used4(rows)) == row.v4
              && V6FirstFree(rows, v6, row.v6)
    ensures Allocated(rows, lastId, Some(v4), v6).None? <==>
              || FirstFree(v4.hosts, ReservedV4(v4), Used4(rows)).None?
              || v6.BadV6? || (v6.V6Pool? && FirstFree(v6.net.hosts, ReservedV6(v6.net), Used6(rows)).None?)
  {
  }

  /** A create hands out exactly the smallest host of each pool that is not the server's address
      (nor the network's, for IPv6) and that no client holds; it fails exactly when a CIDR is
      unreadable or one of the pools has no such host left. */
  lemma CreateGivesSmallest(rows: seq<Row>, lastId: nat, v4: Option<Net>, v6: V6Pool, row: Row)
    requires ValidPools(v4, v6)
    ensures Allocated(rows, lastId, v4, v6) == Some(row) <==>
              && row.id == lastId + 1 && v4.Some? && row.v4.Some?
              && Smallest4(v4.value, rows, row.v4.value)
              && V6Chosen(rows, v6, row.v6)
    ensures Allocated(rows, lastId, v4, v6).None? <==>
              || v4.None? || (forall h :: !Free4(v4.value, rows, h))
              || v6.BadV6? || (v6.V6Pool? && forall h :: !Free6(v6.net, rows, h))
  {
    if v4.Some? {
      AllocatedParts(rows, lastId, v4.value, v6, row);
      Choice4Means(v4.value, rows, if row.v4.Some? then row.v4.value else 0);
    }
    if v6.V6Pool? {
      Choice6Means(v6.net, rows, if row.v6.Some? then row.v6.value else 0);
    }
  }

  /** A pool with two more hosts than clients (three more for IPv6) always has an address. */
  lemma RoomyPoolAllocates(rows: seq<Row>, lastId: nat, v4: Net, v6: V6Pool)
    requires ValidNet(v4) && |v4.hosts| >= |rows| + 2
    requires v6 == NoV6 || (v6.V6Pool? && ValidNet(v6.net) && |v6.net.hosts| >= |rows| + 3)
    ensures Allocated(rows, lastId, Some(v4), v6).Some?
  {
    RoomySucceeds(v4.hosts, ReservedV4(v4), Used4(rows));
    if v6.V6Pool? {
      assert |ReservedV6(v6.net)| <= 2;
      RoomySucceeds(v6.net.hosts, ReservedV6(v6.net), Used6(rows));
    }
  }

  // ---------------------------------------------------------------- runs

  datatype Op =
    | Create(v4: Option<Net>, v6: V6Pool)
    | Delete(id: nat)
    | Edit(id: nat, newV4: Option<nat>, newV6: Option<nat>)

  datatype State = State(rows: seq<Row>, lastId: nat)

  /** UPDATE of one row's addresses: refused when it would clash, a no-op for an unknown id. */
  function Edited(rows: seq<Row>, id: nat, v4: Option<nat>, v6: Option<nat>): seq<Row> {
    if exists r :: r in rows && r.id != id && Clash(r, Row(id, v4, v6)) then rows
    else seq(|rows|, i requires 0 <= i < |rows| => if rows[i].id == id then Row(id, v4, v6) else rows[i])
  }

  function Step(s: State, op: Op): State {
    match op
    case Create(v4, v6) =>
      var row := Allocated(s.rows, s.lastId, v4, v6);
      if row.None? then s else State(s.rows + [row.value], row.value.id)
    case Delete(id) => s.(rows := Deleted(s.rows, id))
    case Edit(id, v4, v6) => s.(rows := Edited(s.rows, id, v4, v6))
  }

  predicate ValidOp(op: Op) {
    op.Create? ==> ValidPools(op.v4, op.v6)
  }

  function Run(s: State, ops: seq<Op>): State {
    if ops == [] then s else Step(Run(s, ops[..|ops| - 1]), ops[|ops| - 1])
  }

  lemma {:induction false} DeletedFresh(rows: seq<Row>, id: nat)
    requires !HasId(rows, id)
    ensures Deleted(rows, id) == rows
  {
    if rows != [] {
      var n := |rows| - 1;
      assert !HasId(rows[..n], id) by {
        assert forall i :: 0 <= i < n ==> rows[i].id != id;
      }
      DeletedFresh(rows[..n], id);
      assert rows[n].id != id;
    }
  }

  /** Ids are distinct, so at most one row goes. */
  lemma {:induction false} DeletedCount(rows: seq<Row>, id: nat)
    requires forall i, j :: 0 <= i < j < |rows| ==> rows[i].id < rows[j].id
    ensures |Deleted(rows, id)| == |rows| - if HasId(rows, id) then 1 else 0
  {
    if HasId(rows, id) {
      var n := |rows| - 1;
      var k :| 0 <= k < |rows| && rows[k].id == id;
      if k == n {
        DeletedFresh(rows[..n], id);
      } else {
        assert rows[..n][k].id == id;
        DeletedCount(rows[..n], id);
      }
    } else {
      DeletedFresh(rows, id);
    }
  }

  lemma {:induction false} DeletedRows(rows: seq<Row>, id: nat, lastId: nat)
    requires ValidTable(rows, lastId)
    ensures ValidTable(Deleted(rows, id), lastId)
    ensures forall r :: r in Deleted(rows, id) <==> r in rows && r.id != id
  {
    if rows != [] {
      var n := |rows| - 1;
      DeletedRows(rows[..n], id, lastId);
      var rest := Deleted(rows[..n], id);
      assert rows == rows[..n] + [rows[n]];
      assert rest + [] == rest;
      if rows[n].id != id {
        assert forall r :: r in rows[..n] ==> r.id < rows[n].id && !Clash(r, rows[n]);
        AppendKeepsValid(rest, lastId, rows[n]);
      }
    }
  }

  lemma EditedRows(rows: seq<Row>, id: nat, v4: Option<nat>, v6: Option<nat>, lastId: nat)
    requires ValidTable(rows, lastId)
    ensures ValidTable(Edited(rows, id, v4, v6), lastId)
  {
    var out := Edited(rows, id, v4, v6);
    if out != rows {
      assert forall r :: r in rows && r.id != id ==> !Clash(r, Row(id, v4, v6));
    }
  }

  /** Different clients with different addresses. */
  predicate Apart(a: Row, b: Row) {
    a.id != b.id && (a.v4.None? || a.v4 != b.v4) && (a.v6.None? || a.v6 != b.v6)
  }

  /** An edit gives a client exactly the new addresses, unless another client holds one of them;
      then, and for every other client, nothing changes. */
  lemma EditIff(rows: seq<Row>, lastId: nat, i: nat, v4: Option<nat>, v6: Option<nat>)
    requires ValidTable(rows, lastId) && i < |rows|
    ensures var taken := exists j :: 0 <= j < |rows| && j != i
                           && ((v4.Some? && rows[j].v4 == v4) || (v6.Some? && rows[j].v6 == v6));
            Edited(rows, rows[i].id, v4, v6) == if taken then rows else rows[i := Row(rows[i].id, v4, v6)]
  {
    var row := Row(rows[i].id, v4, v6);
    if exists r :: r in rows && r.id != row.id && Clash(r, row) {
      var r :| r in rows && r.id != row.id && Clash(r, row);
      var j :| 0 <= j < |rows| && rows[j] == r;
      assert j != i && ((v4.Some? && rows[j].v4 == v4) || (v6.Some? && rows[j].v6 == v6));
    } else {
      assert forall j :: 0 <= j < |rows| && j != i ==> rows[j] in rows && rows[j].id != rows[i].id;
    }
  }

  /** Through every run of creates, deletes and edits all addresses stay distinct and ids keep
      growing; no create is ever refused by the UNIQUE columns. */
  lemma RunsKeepAddressesDistinct(s: State, ops: seq<Op>)
    requires ValidTable(s.rows, s.lastId)
    requires forall op :: op in ops ==> ValidOp(op)
    ensures var t := Run(s, ops);
            && ValidTable(t.rows, t.lastId) && s.lastId <= t.lastId
            && forall i, j :: 0 <= i < j < |t.rows| ==> Apart(t.rows[i], t.rows[j])
  {
    RunsKeepValid(s, ops);
  }

  lemma {:induction false} RunsKeepValid(s: State, ops: seq<Op>)
    requires ValidTable(s.rows, s.lastId)
    requires forall op :: op in ops ==> ValidOp(op)
    ensures ValidTable(Run(s, ops).rows, Run(s, ops).lastId)
    ensures s.lastId <= Run(s, ops).lastId
  {
    if ops != [] {
      var n := |ops| - 1;
      var t := Run(s, ops[..n]);
      RunsKeepValid(s, ops[..n]);
      match ops[n]
      case Create(v4, v6) =>
        assert ValidOp(ops[n]);
        if Allocated(t.rows, t.lastId, v4, v6).Some? {
          AllocatedIsFree(t.rows, t.lastId, v4, v6);
          AppendKeepsValid(t.rows, t.lastId, Allocated(t.rows, t.lastId, v4, v6).value);
        }
      case Delete(id) =>
        DeletedRows(t.rows, id, t.lastId);
      case Edit(id, v4, v6) =>
        EditedRows(t.rows, id, v4, v6, t.lastId);
    }
  }

  /** Deleting a client just created undoes the create, and the next create with the same
      pools hands out the same addresses again under a new id. */
  lemma DeleteUndoesCreate(s: State, v4: Option<Net>, v6: V6Pool, row: Row)
    requires ValidTable(s.rows, s.lastId) && Allocated(s.rows, s.lastId, v4, v6) == Some(row)
    ensures Run(s, [Create(v4, v6), Delete(row.id)]) == State(s.rows, row.id)
    ensures Allocated(s.rows, row.id, v4, v6) == Some(row.(id := row.id + 1))
  {
    AllocatedNumbers(s.rows, s.lastId, row.id, v4, v6);
    RunOfTwo(s, Create(v4, v6), Delete(row.id));
    CreateThenDelete(s, v4, v6, row);
  }

  lemma CreateThenDelete(s: State, v4: Option<Net>, v6: V6Pool, row: Row)
    requires ValidTable(s.rows, s.lastId) && Allocated(s.rows, s.lastId, v4, v6) == Some(row) && row.id > s.lastId
    ensures Step(Step(s, Create(v4, v6)), Delete(row.id)) == State(s.rows, row.id)
  {
    DeletedLast(s.rows, row);
  }

  /** The id is the next number and plays no part in the choice. */
  lemma AllocatedNumbers(rows: seq<Row>, lastId: nat, other: nat, v4: Option<Net>, v6: V6Pool)
    requires Allocated(rows, lastId, v4, v6).Some?
    ensures var row := Allocated(rows, lastId, v4, v6).value;
            row.id == lastId + 1 && Allocated(rows, other, v4, v6) == Some(row.(id := other + 1))
  {
  }

  lemma RunOfTwo(s: State, a: Op, b: Op)
    ensures Run(s, [a, b]) == Step(Step(s, a), b)
  {
    RunSnoc(s, [], a);
    RunSnoc(s, [a], b);
    assert [] + [a] == [a] && [a] + [b] == [a, b];
  }

  lemma RunSnoc(s: State, ops: seq<Op>, op: Op)
    ensures Run(s, ops + [op]) == Step(Run(s, ops), op)
  {
    assert (ops + [op])[..|ops|] == ops;
  }

  lemma DeletedLast(rows: seq<Row>, row: Row)
    requires forall r :: r in rows ==> r.id != row.id
    ensures Deleted(rows + [row], row.id) == rows
  {
    DeletedFresh(rows, row.id);
    assert (rows + [row])[..|rows|] == rows;
    assert rows + [] == rows;
  }
}
