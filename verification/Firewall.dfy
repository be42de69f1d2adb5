/** The rebuild itself, as it drives nft: every call may fail, every transaction is recorded,
    and packets see each table in between. */
module FirewallRebuild {
  import opened Text
  import opened Nft
  import opened ClientRules
  import opened DnsRules
  import opened RebuildSpec
  import opened Transitions
  import opened ReachableTables

  /** Tables init_chain can leave behind, whether its calls succeed or fail. */
  predicate InitState(iface: string, t: Table, u: Table) {
    || u == t
    || u == ClientChains(t)
    || u == Inited(t, iface)
    || u == AppendForward(ClientChains(t), [InJump(iface), OutJump(iface)])
  }

  predicate InitDone(iface: string, t: Table, u: Table) {
    u == Inited(t, iface) || u == AppendForward(ClientChains(t), [InJump(iface), OutJump(iface)])
  }

  /** Tables remove_filtering can leave behind. */
  predicate RemoveState(iface: string, t: Table, u: Table) {
    u == t || (WgClients in t && (u == t[WgClients := []] || u == DropClientJumps(t[WgClients := []], iface)))
  }

  /** Tables the DNS step can leave behind when the lockdown settings are already in force. */
  predicate DnsSettled(s: Settings, t: Table, u: Table) {
    u == t || (Forward in t && LockdownJump(SanitizeIface(s.name)) in t[Forward]
               && u == AppendForward(t, [LockdownJump(SanitizeIface(s.name))]))
  }

  predicate EnsureDnsState(iface: string, t: Table, u: Table) {
    u == t || u == DnsChains(t) || EnsureDnsDone(iface, t, u)
  }

  predicate EnsureDnsDone(iface: string, t: Table, u: Table) {
    u == DnsEnsured(t, iface) || u == AppendForward(DnsChains(t), [LockdownJump(iface)])
  }

  /** Removing the lockdown as far as its three calls got: the jump, the filter chain, the nat
      chain. */
  function RemovedPart(t: Table, iface: string, jump: bool, filter: bool, prerouting: bool): Table {
    var u := if jump then DropLockdownJump(t, iface) else t;
    var v := if filter then DropChain(u, DnsLockdown) else u;
    if prerouting then DropChain(v, DnsPrerouting) else v
  }

  predicate RemoveDnsState(iface: string, t: Table, u: Table) {
    exists jump: bool, filter: bool, prerouting: bool :: u == RemovedPart(t, iface, jump, filter, prerouting)
  }

  /** The lockdown chains filled behind their jump. */
  predicate FillDnsDone(lib: AddrLib, s: Settings, t: Table, u: Table)
    requires PlanOf(lib, s).On?
  {
    var iface, plan := SanitizeIface(s.name), PlanOf(lib, s);
    || u == DnsFilled(DnsEnsured(t, iface), iface, plan.fam, plan.target, s.blockExternal)
    || u == DnsFilled(AppendForward(DnsChains(t), [LockdownJump(iface)]), iface, plan.fam, plan.target, s.blockExternal)
  }

  /** Tables the DNS step can leave behind, from any table and with any calls failing. */
  predicate DnsStep(lib: AddrLib, s: Settings, t: Table, u: Table) {
    var iface := SanitizeIface(s.name);
    match PlanOf(lib, s)
    case Off => RemoveDnsState(iface, t, u)
    case Refused => u == t
    case On(_, _) => EnsureDnsState(iface, t, u) || FillDnsDone(lib, s, t, u)
  }

  /** The client chain filled behind the jumps that init_chain left. */
  ghost predicate FilledFrom(lib: AddrLib, s: Settings, v: Table, w: Table)
    requires WgClients in v
  {
    && ExecAll(lib, v, [Flush(WgClients)] + Adds(WgClients, ChainOf(lib, s))).Some?
    && w == v[WgClients := ChainOf(lib, s)]
  }

  ghost predicate FillDone(lib: AddrLib, s: Settings, t: Table, u: Table) {
    var iface := SanitizeIface(s.name);
    || FilledFrom(lib, s, Inited(t, iface), u)
    || FilledFrom(lib, s, AppendForward(ClientChains(t), [InJump(iface), OutJump(iface)]), u)
  }

  predicate RemoveDone(iface: string, t: Table, u: Table) {
    WgClients in t && (u == t[WgClients := []] || u == DropClientJumps(t[WgClients := []], iface))
  }

  /** Tables the client part can leave behind, from any table and with any calls failing. */
  ghost predicate ClientStep(lib: AddrLib, s: Settings, t: Table, u: Table) {
    if s.firewallOn then InitState(SanitizeIface(s.name), t, u) || FillDone(lib, s, t, u)
    else RemoveState(SanitizeIface(s.name), t, u)
  }

  ghost predicate ClientDone(lib: AddrLib, s: Settings, t: Table, u: Table) {
    if s.firewallOn then FillDone(lib, s, t, u) else RemoveDone(SanitizeIface(s.name), t, u)
  }

  // The same where every listing works: no jump is appended blindly.

  predicate InitSeen(iface: string, t: Table, u: Table) {
    u == t || u == ClientChains(t) || u == Inited(t, iface)
  }

  predicate EnsureDnsSeen(iface: string, t: Table, u: Table) {
    u == t || u == DnsChains(t) || u == DnsEnsured(t, iface)
  }

  predicate DnsSeen(lib: AddrLib, s: Settings, t: Table, u: Table) {
    var iface := SanitizeIface(s.name);
    match PlanOf(lib, s)
    case Off => RemoveDnsState(iface, t, u)
    case Refused => u == t
    case On(fam, target) =>
      EnsureDnsSeen(iface, t, u) || u == DnsFilled(DnsEnsured(t, iface), iface, fam, target, s.blockExternal)
  }

  predicate ClientSeen(lib: AddrLib, s: Settings, t: Table, u: Table) {
    var iface := SanitizeIface(s.name);
    if s.firewallOn then InitSeen(iface, t, u) || u == Inited(t, iface)[WgClients := ChainOf(lib, s)]
    else RemoveState(iface, t, u)
  }

  /** Packets fare as under the ruleset before the rebuild or as under the completed one. */
  ghost predicate OldOrNew(lib: AddrLib, s: Settings, t: Table, u: Table) {
    RoutesAlike(lib, u, t) || RoutesAlike(lib, u, Rebuilt(lib, s, t).0)
  }

  /** The lockdown jump is first and there are chains behind it. */
  predicate Locked(s: Settings, t: Table) {
    LockdownFirst(SanitizeIface(s.name), Rules(t, Forward)) && DnsPrerouting in t && DnsLockdown in t
  }

  /** Still locked, with the chains as before or as the new settings want them. */
  predicate StillLocked(lib: AddrLib, s: Settings, t: Table, u: Table)
    requires PlanOf(lib, s).On?
  {
    && Locked(s, u)
    && ((Rules(u, DnsPrerouting) == Rules(t, DnsPrerouting) && Rules(u, DnsLockdown) == Rules(t, DnsLockdown))
        || Installed(u, SanitizeIface(s.name), PlanOf(lib, s).fam, PlanOf(lib, s).target, s.blockExternal))
  }

  /** What a rebuild from t promises of every table u that packets see on the way, whichever calls
      fail. With its lockdown settings already in force, packets fare as before or as after the
      rebuild, and the settings stay in force. A tidy table stays tidy. A lockdown that stands first
      is never open while its target or block setting changes. */
  ghost predicate Promise(lib: AddrLib, s: Settings, t: Table, u: Table) {
    && (Coherent(lib, s, t) ==> Coherent(lib, s, u) && OldOrNew(lib, s, t, u))
    && (Tidy(SanitizeIface(s.name), t) ==> Tidy(SanitizeIface(s.name), u))
    && (PlanOf(lib, s).On? && Locked(s, t) ==> StillLocked(lib, s, t, u))
  }

  class Firewall {
    const lib: AddrLib
    /** Whether listings and whether transactions always work; otherwise any of them may fail. */
    const listings: bool
    const transactions: bool
    var table: Table
    ghost var trace: seq<Table>

    constructor (lib: AddrLib, listings: bool, transactions: bool, table: Table)
      ensures this.lib == lib && this.listings == listings && this.transactions == transactions
      ensures this.table == table && trace == [table]
    {
      this.lib, this.listings, this.transactions, this.table := lib, listings, transactions, table;
      trace := [table];
    }

    predicate Healthy() {
      listings && transactions
    }

    /** The trace ends with the table as it is. */
    ghost predicate Traced()
      reads this
    {
      trace != [] && trace[|trace| - 1] == table
    }

    /** Every table from position `from` of the trace on has each jump at most once. */
    ghost predicate OnceFrom(from: nat)
      reads this
    {
      JumpsOnce(table) && forall k :: from <= k < |trace| ==> JumpsOnce(trace[k])
    }

    /** nft -f -: all commands or none. */
    method Apply(cmds: seq<Cmd>) returns (ok: bool)
      modifies this
      ensures ok ==> ExecAll(lib, old(table), cmds) == Some(table)
      ensures !ok ==> table == old(table)
      ensures transactions ==> (ok <==> ExecAll(lib, old(table), cmds).Some?)
      ensures trace == old(trace) + [table]
    {
      var up := transactions;
      if * {
        up := true;
      }
      var r := ExecAll(lib, table, cmds);
      ok := up && r.Some?;
      if ok {
        table := r.value;
      }
      trace := trace + [table];
    }

    /** nft list chain … forward, an empty listing when the call fails. */
    method ListForward() returns (listing: seq<Rule>)
      ensures listing == Rules(table, Forward) || listing == []
      ensures listings ==> listing == Rules(table, Forward)
    {
      listing := Rules(table, Forward);
      if * {
        if !listings {
          listing := [];
        }
      }
    }

    method InitChain(iface: string) returns (ok: bool)
      requires Traced()
      modifies this
      ensures Traced()
      ensures old(trace) <= trace
      ensures forall k :: |old(trace)| <= k < |trace| ==> InitState(iface, old(table), trace[k])
      ensures InitState(iface, old(table), table)
      ensures listings ==> InitSeen(iface, old(table), table)
      ensures listings ==> forall k :: |old(trace)| <= k < |trace| ==> InitSeen(iface, old(table), trace[k])
      ensures ok ==> InitDone(iface, old(table), table)
      ensures Healthy() ==> ok && table == Inited(old(table), iface)
    {
      ghost var t := table;
      EnsureClientChains(lib, t);
      ok := Apply([AddTable, AddChain(WgClients), AddChain(Forward)]);
      if !ok {
        return;
      }
      assert table == ClientChains(t);
      var listing := ListForward();
      var adds := MissingClientJumps(listing, iface);
      JumpsLoad(lib, table, adds, iface);
      if listing == [] {
        assert adds == [InJump(iface), OutJump(iface)];
      }
      if adds != [] {
        ok := Apply(Adds(Forward, adds));
      } else {
        assert table[Forward] + [] == table[Forward];
        assert table == AppendForward(table, adds);
      }
    }

    method RemoveFiltering(iface: string) returns (ok: bool)
      requires Traced()
      modifies this
      ensures Traced()
      ensures old(trace) <= trace
      ensures forall k :: |old(trace)| <= k < |trace| ==> RemoveState(iface, old(table), trace[k])
      ensures RemoveState(iface, old(table), table)
      ensures ok ==> RemoveDone(iface, old(table), table)
      ensures Healthy() ==> (ok <==> WgClients in old(table))
      ensures Healthy() && ok ==> table == DropClientJumps(old(table)[WgClients := []], iface)
    {
      ok := Apply([Flush(WgClients)]);
      assert ExecAll(lib, old(table), [Flush(WgClients)]) == Exec(lib, old(table), Flush(WgClients));
      if !ok {
        return;
      }
      var listing := ListForward();
      DropJumps(listing, [InJump(iface), OutJump(iface)]);
    }

    /** Deletes, by the handles a listing showed, the lines that show a wanted jump; a failing
        deletion is ignored. */
    method DropJumps(listing: seq<Rule>, wants: seq<Rule>)
      requires forall w :: w in wants ==> |w.conds| == 1
      requires listing == Rules(table, Forward) || listing == []
      requires Traced()
      modifies this
      ensures Traced()
      ensures old(trace) <= trace
      ensures forall k :: |old(trace)| <= k < |trace| ==> trace[k] == table
      ensures table == old(table)
              || (Forward in old(table) && table == old(table)[Forward := DropShown(old(table)[Forward], wants)])
      ensures transactions && listing == Rules(old(table), Forward) && Forward in old(table) ==>
                table == old(table)[Forward := DropShown(old(table)[Forward], wants)]
    {
      var handles := ShownHandles(listing, wants);
      WithoutShown(listing, handles, wants);
      ghost var t := table;
      if handles != {} {
        assert ExecAll(lib, t, [DeleteHandles(Forward, handles)]) == Exec(lib, t, DeleteHandles(Forward, handles));
        var done := Apply([DeleteHandles(Forward, handles)]);
      } else {
        WithoutNothing(listing);
        assert Forward in t && listing == t[Forward] ==> t == t[Forward := DropShown(t[Forward], wants)];
      }
    }

    method EnsureDnsChains(iface: string) returns (ok: bool)
      requires Traced()
      modifies this
      ensures Traced()
      ensures old(trace) <= trace
      ensures forall k :: |old(trace)| <= k < |trace| ==> EnsureDnsState(iface, old(table), trace[k])
      ensures EnsureDnsState(iface, old(table), table)
      ensures listings ==> EnsureDnsSeen(iface, old(table), table)
      ensures listings ==> forall k :: |old(trace)| <= k < |trace| ==> EnsureDnsSeen(iface, old(table), trace[k])
      ensures ok ==> EnsureDnsDone(iface, old(table), table)
      ensures Healthy() ==> ok && table == DnsEnsured(old(table), iface)
    {
      ghost var t := table;
      EnsureDnsCommands(lib, t);
      ok := Apply([AddTable, AddChain(Forward), AddChain(DnsPrerouting), AddChain(DnsLockdown)]);
      if !ok {
        return;
      }
      var listing := ListForward();
      assert Rules(table, Forward) + [] == Rules(table, Forward);
      LockdownJumpLoads(lib, table, iface);
      if !Listed(listing, LockdownJump(iface)) {
        ok := Apply([AddRule(Forward, LockdownJump(iface))]);
      } else {
        assert table == AppendForward(table, []);
      }
    }

    /** Flushing and deleting one chain; a failure goes unnoticed. */
    method TryDropChain(c: ChainId) returns (done: bool)
      modifies this
      ensures trace == old(trace) + [table]
      ensures table == if done then DropChain(old(table), c) else old(table)
      ensures transactions ==> table == DropChain(old(table), c)
    {
      DropChainCommands(lib, table, c);
      done := Apply([Flush(c), DeleteChain(c)]);
    }

    /** Each of the three calls may fail unnoticed; every table on the way is named. */
    method RemoveDnsLockdown(iface: string)
      requires Traced()
      modifies this
      ensures Traced()
      ensures old(trace) <= trace
      ensures forall k :: |old(trace)| <= k < |trace| ==> RemoveDnsState(iface, old(table), trace[k])
      ensures RemoveDnsState(iface, old(table), table)
      ensures Healthy() ==> table == DnsRemoved(old(table), iface)
    {
      ghost var t := table;
      var listing := ListForward();
      DropJumps(listing, [LockdownJump(iface)]);
      ghost var jump := table == DropLockdownJump(t, iface);
      assert table == RemovedPart(t, iface, jump, false, false);
      assert Healthy() ==> jump;
      var filterGone := TryDropChain(DnsLockdown);
      assert table == RemovedPart(t, iface, jump, filterGone, false);
      var natGone := TryDropChain(DnsPrerouting);
      assert table == RemovedPart(t, iface, jump, filterGone, natGone);
    }

    /** The DNS step: every table on the way is named, and a reported success of switching or
        keeping it on means that the chains are filled behind their jump. */
    method RebuildDnsLockdown(s: Settings) returns (ok: bool)
      requires Sane(lib)
      requires Traced()
      modifies this
      ensures Traced()
      ensures old(trace) <= trace
      ensures forall k :: |old(trace)| <= k < |trace| ==> DnsStep(lib, s, old(table), trace[k])
      ensures DnsStep(lib, s, old(table), table)
      ensures listings ==> DnsSeen(lib, s, old(table), table)
      ensures listings ==> forall k :: |old(trace)| <= k < |trace| ==> DnsSeen(lib, s, old(table), trace[k])
      ensures ok ==> PlanOf(lib, s) != Refused
      ensures ok && PlanOf(lib, s).On? ==> FillDnsDone(lib, s, old(table), table)
      ensures Healthy() ==> (table, ok) == DnsRebuilt(lib, s, old(table))
    {
      var iface := SanitizeIface(s.name);
      match PlanOf(lib, s)
      case Off =>
        RemoveDnsLockdown(iface);
        ok := true;
      case Refused =>
        ok := false;
      case On(fam, target) =>
        ok := InstallLockdown(s, iface, fam, target);
    }

    method InstallLockdown(s: Settings, iface: string, fam: Family, target: string) returns (ok: bool)
      requires Sane(lib) && PlanOf(lib, s) == On(fam, target) && iface == SanitizeIface(s.name)
      requires Traced()
      modifies this
      ensures Traced()
      ensures old(trace) <= trace
      ensures forall k :: |old(trace)| <= k < |trace| ==> DnsStep(lib, s, old(table), trace[k])
      ensures DnsStep(lib, s, old(table), table)
      ensures listings ==> DnsSeen(lib, s, old(table), table)
      ensures listings ==> forall k :: |old(trace)| <= k < |trace| ==> DnsSeen(lib, s, old(table), trace[k])
      ensures ok ==> FillDnsDone(lib, s, old(table), table)
      ensures Healthy() ==> ok && table == DnsFilled(DnsEnsured(old(table), iface), iface, fam, target, s.blockExternal)
    {
      ok := EnsureDnsChains(iface);
      if !ok {
        return;
      }
      TargetLiteral(lib, s);
      ok := FillLockdown(iface, fam, target, s.blockExternal);
    }

    /** Replaces both lockdown chains in one transaction. */
    method FillLockdown(iface: string, fam: Family, target: string, blockExternal: bool) returns (ok: bool)
      requires DnsPrerouting in table && DnsLockdown in table && IsLiteral(lib, fam, target)
      modifies this
      ensures trace == old(trace) + [table]
      ensures table == if ok then DnsFilled(old(table), iface, fam, target, blockExternal) else old(table)
      ensures transactions ==> ok
    {
      FillCommands(lib, table, iface, fam, target, blockExternal);
      ok := Apply(FillCmds(iface, fam, target, blockExternal));
    }

    /** Replaces the client chain in one transaction. */
    method FillClients(s: Settings) returns (ok: bool)
      requires WgClients in table
      modifies this
      ensures trace == old(trace) + [table]
      ensures table == if ok then old(table)[WgClients := ChainOf(lib, s)] else old(table)
      ensures ok ==> ExecAll(lib, old(table), [Flush(WgClients)] + Adds(WgClients, ChainOf(lib, s))).Some?
      ensures var r := ExecAll(lib, old(table), [Flush(WgClients)] + Adds(WgClients, ChainOf(lib, s)));
              transactions ==> (ok <==> r.Some?) && table == if ok then r.value else old(table)
    {
      FillKeepsForward(lib, s, table);
      var txn := BuildClientTransaction(lib, s.clients, s.defaults, s.v6on);
      ok := Apply(txn);
    }

    /** Full rebuild: the promise holds of every table packets ever see, whichever calls fail, and
        while listings work none of them has a jump twice. After a reported success the client
        chain is the compiled one and the settings are in force, unless a failing call was
        swallowed while the lockdown was switched off. When no call fails the result is the
        specified table. */
    method RebuildRules(s: Settings) returns (ok: bool)
      requires Sane(lib)
      requires Traced()
      modifies this
      ensures Traced()
      ensures old(trace) <= trace
      ensures forall k :: |old(trace)| <= k < |trace| ==> Promise(lib, s, old(table), trace[k])
      ensures Promise(lib, s, old(table), table)
      ensures listings && JumpsOnce(old(table)) ==> OnceFrom(|old(trace)|)
      ensures ok && Tidy(SanitizeIface(s.name), old(table)) && (Healthy() || PlanOf(lib, s).On?) ==>
                Coherent(lib, s, table)
      ensures ok ==> Rules(table, WgClients) == if s.firewallOn then ChainOf(lib, s) else []
      ensures Healthy() ==> (table, ok) == Rebuilt(lib, s, old(table))
    {
      ghost var t := table;
      ok := RebuildDnsLockdown(s);
      ghost var u := table;
      forall v | DnsStep(lib, s, t, v) ensures Promise(lib, s, t, v) {
        DnsStepKeepsPromise(lib, s, t, v);
      }
      forall v | JumpsOnce(t) && DnsSeen(lib, s, t, v) ensures JumpsOnce(v) {
        DnsSeenOnce(lib, s, t, v);
      }
      if !ok {
        return;
      }
      if s.firewallOn {
        ok := FilterClients(s);
      } else {
        ok := RemoveFiltering(SanitizeIface(s.name));
      }
      forall w | ClientStep(lib, s, u, w) ensures Promise(lib, s, t, w) {
        ClientStepKeepsPromise(lib, s, t, u, w);
      }
      forall w | JumpsOnce(u) && ClientSeen(lib, s, u, w) ensures JumpsOnce(w) {
        ClientSeenOnce(lib, s, u, w);
      }
      if ok && Tidy(SanitizeIface(s.name), t) && PlanOf(lib, s).On? {
        FilledDnsInForce(lib, s, t, u);
        ClientDoneIsCoherent(lib, s, u, table);
      } else if ok && Tidy(SanitizeIface(s.name), t) && Healthy() {
        RebuiltIsCoherent(lib, s, t);
      }
    }

    /** init_chain and the one transaction behind it. */
    method FilterClients(s: Settings) returns (ok: bool)
      requires s.firewallOn
      requires Traced()
      modifies this
      ensures Traced()
      ensures old(trace) <= trace
      ensures forall k :: |old(trace)| <= k < |trace| ==> ClientStep(lib, s, old(table), trace[k])
      ensures ClientStep(lib, s, old(table), table)
      ensures listings ==> ClientSeen(lib, s, old(table), table)
      ensures listings ==> forall k :: |old(trace)| <= k < |trace| ==> ClientSeen(lib, s, old(table), trace[k])
      ensures ok ==> ClientDone(lib, s, old(table), table)
      ensures Healthy() ==> (table, ok) == ClientsRebuilt(lib, s, old(table))
    {
      ok := InitChain(SanitizeIface(s.name));
      if !ok {
        return;
      }
      ok := FillClients(s);
    }

    /** A rebuild that follows a successful one with the same lockdown settings, for whatever
        roster. `between` is the table after the first, the last of the trace up to `from`; from
        there on packets only ever fare as under it or as under what the second aims at. */
    method RebuildAgain(r: Settings, s: Settings)
      returns (first: bool, second: bool, ghost between: Table, ghost from: nat)
      requires Sane(lib) && Tidy(SanitizeIface(r.name), table) && Traced()
      requires s.name == r.name && PlanOf(lib, s) == PlanOf(lib, r) && s.blockExternal == r.blockExternal
      modifies this
      ensures Traced() && old(trace) <= trace && |old(trace)| <= from <= |trace| && between == trace[from - 1]
      ensures Promise(lib, r, old(table), between)
      ensures first ==> Rules(between, WgClients) == if r.firewallOn then ChainOf(lib, r) else []
      ensures second ==> Rules(table, WgClients) == if s.firewallOn then ChainOf(lib, s) else []
      ensures Healthy() ==> (between, first) == Rebuilt(lib, r, old(table))
      ensures Healthy() ==> (table, second) == Rebuilt(lib, s, between)
      ensures first && (Healthy() || PlanOf(lib, s).On?) ==>
                Coherent(lib, s, between) && OldOrNewFrom(s, between, from)
    {
      first := RebuildRules(r);
      between, from := table, |trace|;
      if first && (Healthy() || PlanOf(lib, s).On?) {
        CoherentAcrossRosters(lib, r, s, table);
      }
      second := RebuildInForce(s);
    }

    /** Packets fare as under t or as under what a rebuild of t aims at, for the table as it is and
        for all of the trace from position `from` on. */
    ghost predicate OldOrNewFrom(s: Settings, t: Table, from: nat)
      reads this
    {
      OldOrNew(lib, s, t, table) && forall k :: from <= k < |trace| ==> OldOrNew(lib, s, t, trace[k])
    }

    /** A rebuild whose lockdown settings are already in force. */
    method RebuildInForce(s: Settings) returns (ok: bool)
      requires Sane(lib) && Traced()
      modifies this
      ensures Traced() && old(trace) <= trace
      ensures Coherent(lib, s, old(table)) ==> OldOrNewFrom(s, old(table), |old(trace)|)
      ensures ok ==> Rules(table, WgClients) == if s.firewallOn then ChainOf(lib, s) else []
      ensures Healthy() ==> (table, ok) == Rebuilt(lib, s, old(table))
    {
      ok := RebuildRules(s);
    }
  }

  method ShownHandles(listing: seq<Rule>, wants: seq<Rule>) returns (handles: set<nat>)
    requires forall w :: w in wants ==> |w.conds| == 1
    ensures forall h: nat :: h in handles <==> h < |listing| && ShowsAny(listing[h], wants)
  {
    handles := {};
    for i := 0 to |listing|
      invariant forall h: nat :: h in handles <==> h < i && ShowsAny(listing[h], wants)
    {
      if ShowsAny(listing[i], wants) {
        handles := handles + {i};
      }
    }
  }

  // ---------------------------------------------------------------- lemmas about the commands

  lemma EnsureClientChains(lib: AddrLib, t: Table)
    ensures ExecAll(lib, t, [AddTable, AddChain(WgClients), AddChain(Forward)]) == Some(ClientChains(t))
  {
    var c1, c2 := [AddChain(WgClients), AddChain(Forward)], [AddChain(Forward)];
    assert [AddTable, AddChain(WgClients), AddChain(Forward)][1..] == c1 && c1[1..] == c2 && c2[1..] == [];
    var u := EnsureChain(t, WgClients);
    assert ExecAll(lib, u, c2) == Some(EnsureChain(u, Forward));
    assert ExecAll(lib, t, c1) == ExecAll(lib, u, c2);
  }

  lemma JumpsLoad(lib: AddrLib, t: Table, adds: seq<Rule>, iface: string)
    requires Forward in t && WgClients in t
    requires forall r :: r in adds ==> r == InJump(iface) || r == OutJump(iface)
    ensures ExecAll(lib, t, Adds(Forward, adds)) == Some(AppendForward(t, adds))
  {
    ExecAdds(lib, t, Forward, adds);
  }

  lemma {:induction false} WithoutShown(rules: seq<Rule>, handles: set<nat>, wants: seq<Rule>)
    requires forall w :: w in wants ==> |w.conds| == 1
    requires forall h: nat :: h < |rules| ==> (h in handles <==> ShowsAny(rules[h], wants))
    ensures Without(rules, handles) == DropShown(rules, wants)
  {
    if rules != [] {
      WithoutShown(rules[..|rules| - 1], handles, wants);
    }
  }

  lemma {:induction false} WithoutNothing(rules: seq<Rule>)
    ensures Without(rules, {}) == rules
  {
    if rules != [] {
      WithoutNothing(rules[..|rules| - 1]);
    }
  }

  lemma EnsureDnsCommands(lib: AddrLib, t: Table)
    ensures ExecAll(lib, t, [AddTable, AddChain(Forward), AddChain(DnsPrerouting), AddChain(DnsLockdown)])
         == Some(DnsChains(t))
  {
    var c1, c2, c3 :=
      [AddChain(Forward), AddChain(DnsPrerouting), AddChain(DnsLockdown)],
      [AddChain(DnsPrerouting), AddChain(DnsLockdown)], [AddChain(DnsLockdown)];
    assert [AddTable, AddChain(Forward), AddChain(DnsPrerouting), AddChain(DnsLockdown)][1..] == c1;
    assert c1[1..] == c2 && c2[1..] == c3 && c3[1..] == [];
    var u := EnsureChain(t, Forward);
    var v := EnsureChain(u, DnsPrerouting);
    assert ExecAll(lib, v, c3) == Some(EnsureChain(v, DnsLockdown));
    assert ExecAll(lib, u, c2) == ExecAll(lib, v, c3);
    assert ExecAll(lib, t, c1) == ExecAll(lib, u, c2);
  }

  lemma LockdownJumpLoads(lib: AddrLib, t: Table, iface: string)
    requires Forward in t && DnsLockdown in t
    ensures ExecAll(lib, t, [AddRule(Forward, LockdownJump(iface))])
         == Some(AppendForward(t, [LockdownJump(iface)]))
  {
    ExecAdds(lib, t, Forward, [LockdownJump(iface)]);
    assert Adds(Forward, [LockdownJump(iface)]) == [AddRule(Forward, LockdownJump(iface))];
  }

  lemma DropChainCommands(lib: AddrLib, t: Table, c: ChainId)
    ensures ExecAll(lib, t, [Flush(c), DeleteChain(c)])
         == if DropChain(t, c) != t then Some(DropChain(t, c)) else None
  {
    assert [Flush(c), DeleteChain(c)][1..] == [DeleteChain(c)];
    if c in t {
      var u := t[c := []];
      assert u - {c} == t - {c};
      assert ExecAll(lib, u, [DeleteChain(c)]) == Exec(lib, u, DeleteChain(c));
    }
  }

  /** With the lockdown already in force, making sure of its chains at most repeats its jump. */
  lemma SettledEnsure(lib: AddrLib, s: Settings, t: Table, u: Table)
    requires DnsCoherent(lib, s, t) && PlanOf(lib, s).On?
    requires EnsureDnsState(SanitizeIface(s.name), t, u)
    ensures DnsSettled(s, t, u)
  {
    var jump := LockdownJump(SanitizeIface(s.name));
    assert Shows(jump, jump);
    assert DnsChains(t) == t;
    assert IfUnlisted(t[Forward], jump) == [];
    assert t[Forward] + [] == t[Forward];
    assert AppendForward(t, []) == t;
  }

  lemma FilledAlready(lib: AddrLib, s: Settings, t: Table, u: Table)
    requires DnsCoherent(lib, s, t) && PlanOf(lib, s).On? && DnsSettled(s, t, u)
    ensures DnsFilled(u, SanitizeIface(s.name), PlanOf(lib, s).fam, PlanOf(lib, s).target, s.blockExternal) == u
  {
  }

  lemma TargetLiteral(lib: AddrLib, s: Settings)
    requires Sane(lib) && PlanOf(lib, s).On?
    ensures IsLiteral(lib, PlanOf(lib, s).fam, PlanOf(lib, s).target)
  {
  }

  function FillCmds(iface: string, fam: Family, target: string, blockExternal: bool): seq<Cmd> {
    [Flush(DnsPrerouting), Flush(DnsLockdown)]
    + Adds(DnsPrerouting, DnatRules(iface, fam, target))
    + Adds(DnsLockdown, LockdownChain(fam, target, blockExternal))
  }

  lemma FillCommands(lib: AddrLib, t: Table, iface: string, fam: Family, target: string, blockExternal: bool)
    requires IsLiteral(lib, fam, target)
    requires DnsPrerouting in t && DnsLockdown in t
    ensures ExecAll(lib, t, FillCmds(iface, fam, target, blockExternal))
         == Some(DnsFilled(t, iface, fam, target, blockExternal))
  {
    FillTwo(lib, t, DnatRules(iface, fam, target), LockdownChain(fam, target, blockExternal));
  }

  ghost predicate PlainLoadable(lib: AddrLib, rules: seq<Rule>) {
    forall r :: r in rules ==> !r.action.Jump? && forall d :: d in r.conds ==> LoadableCond(lib, d)
  }

  lemma FillTwo(lib: AddrLib, t: Table, dnat: seq<Rule>, filter: seq<Rule>)
    requires DnsPrerouting in t && DnsLockdown in t && PlainLoadable(lib, dnat) && PlainLoadable(lib, filter)
    ensures ExecAll(lib, t, [Flush(DnsPrerouting), Flush(DnsLockdown)]
                            + Adds(DnsPrerouting, dnat) + Adds(DnsLockdown, filter))
         == Some(t[DnsPrerouting := dnat][DnsLockdown := filter])
  {
    var flush := [Flush(DnsPrerouting), Flush(DnsLockdown)];
    var u := t[DnsPrerouting := []][DnsLockdown := []];
    var v := u[DnsPrerouting := dnat];
    FlushTwo(lib, t);
    FillOne(lib, u, DnsPrerouting, dnat);
    FillOne(lib, v, DnsLockdown, filter);
    ExecAppend(lib, t, flush, Adds(DnsPrerouting, dnat));
    ExecAppend(lib, t, flush + Adds(DnsPrerouting, dnat), Adds(DnsLockdown, filter));
    assert v[DnsLockdown := filter] == t[DnsPrerouting := dnat][DnsLockdown := filter];
  }

  lemma FillOne(lib: AddrLib, t: Table, c: ChainId, rules: seq<Rule>)
    requires c in t && t[c] == [] && PlainLoadable(lib, rules)
    ensures ExecAll(lib, t, Adds(c, rules)) == Some(t[c := rules])
  {
    ExecAdds(lib, t, c, rules);
    assert t[c] + rules == rules;
  }

  lemma FlushTwo(lib: AddrLib, t: Table)
    requires DnsPrerouting in t && DnsLockdown in t
    ensures ExecAll(lib, t, [Flush(DnsPrerouting), Flush(DnsLockdown)])
         == Some(t[DnsPrerouting := []][DnsLockdown := []])
  {
    var u := t[DnsPrerouting := []];
    assert [Flush(DnsPrerouting), Flush(DnsLockdown)][1..] == [Flush(DnsLockdown)];
    assert ExecAll(lib, u, [Flush(DnsLockdown)]) == Exec(lib, u, Flush(DnsLockdown));
  }

  // ---------------------------------------------------------------- what packets see

  lemma AbsentStays(lib: AddrLib, s: Settings, t: Table)
    requires DnsCoherent(lib, s, t) && PlanOf(lib, s) == Off
    ensures DropLockdownJump(t, SanitizeIface(s.name)) == t && DnsRemoved(t, SanitizeIface(s.name)) == t
    ensures forall u :: RemoveDnsState(SanitizeIface(s.name), t, u) ==> u == t
  {
    DropShownNothing(Rules(t, Forward), [LockdownJump(SanitizeIface(s.name))]);
  }

  lemma DnsStepSettles(lib: AddrLib, s: Settings, t: Table, u: Table)
    requires DnsCoherent(lib, s, t) && DnsStep(lib, s, t, u)
    ensures DnsSettled(s, t, u)
  {
    match PlanOf(lib, s)
    case Off => AbsentStays(lib, s, t);
    case Refused =>
    case On(_, _) =>
      var iface := SanitizeIface(s.name);
      if EnsureDnsState(iface, t, u) {
        SettledEnsure(lib, s, t, u);
      } else {
        var a, b := DnsEnsured(t, iface), AppendForward(DnsChains(t), [LockdownJump(iface)]);
        SettledEnsure(lib, s, t, a);
        SettledEnsure(lib, s, t, b);
        FilledAlready(lib, s, t, a);
        FilledAlready(lib, s, t, b);
      }
  }

  lemma InstalledStays(t: Table, iface: string, fam: Family, target: string, blockExternal: bool)
    requires Installed(t, iface, fam, target, blockExternal) && LockdownJump(iface) in Rules(t, Forward)
    ensures DnsFilled(DnsEnsured(t, iface), iface, fam, target, blockExternal) == t
  {
    var jump := LockdownJump(iface);
    assert Shows(jump, jump);
    assert DnsChains(t) == t;
    assert t[Forward] + [] == t[Forward];
    assert DnsEnsured(t, iface) == t;
  }

  lemma DnsIdempotent(lib: AddrLib, s: Settings, t: Table)
    requires DnsCoherent(lib, s, t) && PlanOf(lib, s) != Refused
    ensures DnsRebuilt(lib, s, t) == (t, true)
  {
    var iface, plan := SanitizeIface(s.name), PlanOf(lib, s);
    if plan == Off {
      AbsentStays(lib, s, t);
    } else {
      InstalledStays(t, iface, plan.fam, plan.target, s.blockExternal);
    }
  }

  /** The jumps the DNS step appended: at most one more copy of a jump already there. */
  function Repeated(t: Table, u: Table, s: Settings): seq<Rule> {
    if u == t then [] else [LockdownJump(SanitizeIface(s.name))]
  }

  lemma SettledShape(lib: AddrLib, s: Settings, t: Table, u: Table)
    requires DnsSettled(s, t, u)
    ensures SameChains(t, u) && (forall c :: c in t <==> c in u)
    ensures Rules(u, Forward) == Rules(t, Forward) + Repeated(t, u, s)
    ensures forall v :: InertAll(v, Rules(t, Forward), Repeated(t, u, s))
  {
    if u != t {
      forall v ensures InertAll(v, Rules(t, Forward), Repeated(t, u, s)) {
        InertOne(v, Rules(t, Forward), LockdownJump(SanitizeIface(s.name)));
      }
    }
  }

  lemma SettledSame(lib: AddrLib, s: Settings, t: Table, u: Table)
    requires Coherent(lib, s, t) && DnsSettled(s, t, u)
    ensures Same(lib, u, t) && Coherent(lib, s, u)
  {
    SettledShape(lib, s, t, u);
    PaddedSame(lib, t, u, Repeated(t, u, s));
  }

  lemma InitOldOrNew(lib: AddrLib, s: Settings, t: Table, u: Table, w: Table)
    requires Coherent(lib, s, t) && DnsSettled(s, t, u) && InitState(SanitizeIface(s.name), u, w)
    ensures OldOrNew(lib, s, t, w) && Coherent(lib, s, w)
  {
    SettledSame(lib, s, t, u);
    InitSame(lib, s, u, w);
    SameRoutes(lib, w, t);
    InitCoherent(lib, s, u, w);
  }

  /** What init_chain appended to forward. */
  lemma InitShape(iface: string, u: Table, w: Table) returns (more: seq<Rule>)
    requires InitState(iface, u, w)
    ensures SameChains(u, w) && (forall c :: c != WgClients && c != Forward ==> (c in u <==> c in w))
    ensures Rules(w, Forward) == Rules(u, Forward) + more
    ensures more == [] || more == [InJump(iface), OutJump(iface)]
         || more == MissingClientJumps(Rules(u, Forward), iface)
  {
    var rules := Rules(u, Forward);
    assert Rules(ClientChains(u), Forward) == rules;
    assert rules + [] == rules;
    if w == u || w == ClientChains(u) {
      more := [];
    } else if w == Inited(u, iface) {
      more := MissingClientJumps(rules, iface);
    } else {
      more := [InJump(iface), OutJump(iface)];
    }
  }

  lemma InitSame(lib: AddrLib, s: Settings, u: Table, w: Table)
    requires Coherent(lib, s, u) && InitState(SanitizeIface(s.name), u, w)
    ensures Same(lib, w, u)
  {
    var more := InitShape(SanitizeIface(s.name), u, w);
    ClientJumpsInert(s, u, Rules(u, Forward));
    PaddedSame(lib, u, w, more);
  }

  lemma InitCoherent(lib: AddrLib, s: Settings, u: Table, w: Table)
    requires Coherent(lib, s, u) && InitState(SanitizeIface(s.name), u, w)
    ensures Coherent(lib, s, w)
  {
    var more := InitShape(SanitizeIface(s.name), u, w);
    ExtendDnsTidy(lib, s, u, w, more);
    assert forall r :: r in Rules(u, Forward) ==> r in Rules(w, Forward);
  }

  /** Behind both jumps the same chain gives the same ruleset, whatever copies were added. */
  lemma FilledOldOrNew(lib: AddrLib, s: Settings, t: Table, u: Table, v: Table, w: Table)
    requires Sane(lib) && Coherent(lib, s, t) && DnsSettled(s, t, u) && InitDone(SanitizeIface(s.name), u, v)
    requires PlanOf(lib, s) != Refused && s.firewallOn && WgClients in v && FilledFrom(lib, s, v, w)
    ensures OldOrNew(lib, s, t, w) && Coherent(lib, s, w)
  {
    var iface, chain := SanitizeIface(s.name), ChainOf(lib, s);
    var n := Inited(t, iface);
    DnsIdempotent(lib, s, t);
    LoadsAlike(lib, s, v, n);
    assert Rebuilt(lib, s, t).0 == n[WgClients := chain];
    FilledSame(lib, s, t, u, v, chain);
    SameRoutes(lib, w, n[WgClients := chain]);
    SettledSame(lib, s, t, u);
    FilledCoherent(lib, s, u, v, chain);
  }

  lemma LoadsAlike(lib: AddrLib, s: Settings, v: Table, n: Table)
    requires Sane(lib) && WgClients in v && WgClients in n
    requires ExecAll(lib, v, [Flush(WgClients)] + Adds(WgClients, ChainOf(lib, s))).Some?
    ensures ExecAll(lib, n, [Flush(WgClients)] + Adds(WgClients, ChainOf(lib, s)))
            == Some(n[WgClients := ChainOf(lib, s)])
  {
    var chain := ChainOf(lib, s);
    var v0, n0 := v[WgClients := []], n[WgClients := []];
    ChainHasNoJumps(lib, s);
    ExecAppend(lib, v, [Flush(WgClients)], Adds(WgClients, chain));
    ExecAppend(lib, n, [Flush(WgClients)], Adds(WgClients, chain));
    assert ExecAll(lib, v, [Flush(WgClients)]) == Some(v0) && ExecAll(lib, n, [Flush(WgClients)]) == Some(n0);
    ExecAdds(lib, v0, WgClients, chain);
    assert forall r :: r in chain ==> (Loadable(lib, v0, r) <==> Loadable(lib, n0, r));
    FillOne(lib, n0, WgClients, chain);
    assert n0[WgClients := chain] == n[WgClients := chain];
  }

  lemma FilledSame(lib: AddrLib, s: Settings, t: Table, u: Table, v: Table, chain: seq<Rule>)
    requires Coherent(lib, s, t) && DnsSettled(s, t, u) && InitDone(SanitizeIface(s.name), u, v)
    ensures Same(lib, v[WgClients := chain], Inited(t, SanitizeIface(s.name))[WgClients := chain])
  {
    var iface := SanitizeIface(s.name);
    var n, w := Inited(t, iface)[WgClients := chain], v[WgClients := chain];
    var f, l := Rules(t, Forward), Repeated(t, u, s);
    var two := [InJump(iface), OutJump(iface)];
    SettledShape(lib, s, t, u);
    assert Rules(ClientChains(u), Forward) == f + l;
    assert Rules(ClientChains(t), Forward) == f;
    forall p ensures FilterVerdict(lib, w, p) == FilterVerdict(lib, n, p) {
      FullExtensionsAgree(lib, n, f, iface, p, JUMP_STACK);
      FullExtensionsAgree(lib, n, f + l, iface, p, JUMP_STACK);
      WalkInertAll(lib, n, f, l, p, JUMP_STACK);
      WalkSamePrefix(lib, n, f + l, f, two, p, JUMP_STACK);
      WalkFrame(lib, w, n, Rules(w, Forward), p, JUMP_STACK);
    }
  }

  lemma FilledCoherent(lib: AddrLib, s: Settings, u: Table, v: Table, chain: seq<Rule>)
    requires DnsTidy(lib, s, u) && InitDone(SanitizeIface(s.name), u, v)
    ensures Coherent(lib, s, v[WgClients := chain])
  {
    var iface := SanitizeIface(s.name);
    var rules := Rules(u, Forward);
    assert Rules(ClientChains(u), Forward) == rules;
    if v == Inited(u, iface) {
      ExtendDnsTidy(lib, s, u, v[WgClients := chain], MissingClientJumps(rules, iface));
      JumpsAreThere(rules, iface);
    } else {
      var two := [InJump(iface), OutJump(iface)];
      ExtendDnsTidy(lib, s, u, v[WgClients := chain], two);
      assert two[0] in rules + two && two[1] in rules + two;
    }
  }

  // ---------------------------------------------------------------- switching off

  lemma RemovedOldOrNew(lib: AddrLib, s: Settings, t: Table, u: Table, w: Table)
    requires Coherent(lib, s, t) && DnsSettled(s, t, u) && RemoveState(SanitizeIface(s.name), u, w)
    requires PlanOf(lib, s) != Refused && !s.firewallOn
    ensures OldOrNew(lib, s, t, w) && Coherent(lib, s, w)
  {
    SettledSame(lib, s, t, u);
    if w == u {
      SameRoutes(lib, w, t);
    } else {
      SettledShape(lib, s, t, u);
      DnsIdempotent(lib, s, t);
      RemovedSame(lib, s, t, u, w);
      SameRoutes(lib, w, Rebuilt(lib, s, t).0);
      RemovedCoherent(lib, s, u, w);
    }
  }

  lemma RemovedSame(lib: AddrLib, s: Settings, t: Table, u: Table, w: Table)
    requires DnsSettled(s, t, u) && WgClients in t && RemoveState(SanitizeIface(s.name), u, w) && w != u
    ensures Same(lib, w, DropClientJumps(t[WgClients := []], SanitizeIface(s.name)))
  {
    var iface := SanitizeIface(s.name);
    var t0, u0 := t[WgClients := []], u[WgClients := []];
    SettledShape(lib, s, t, u);
    PaddedSame(lib, t0, u0, Repeated(t, u, s));
    EmptiedSame(lib, t0, iface);
    EmptiedSame(lib, u0, iface);
  }

  lemma EmptiedSame(lib: AddrLib, t: Table, iface: string)
    requires Rules(t, WgClients) == []
    ensures Same(lib, t, DropClientJumps(t, iface)) && Same(lib, DropClientJumps(t, iface), t)
  {
    var wants := [InJump(iface), OutJump(iface)];
    if Forward in t {
      DroppedSame(lib, t, DropClientJumps(t, iface), wants);
    }
  }

  lemma RemovedCoherent(lib: AddrLib, s: Settings, u: Table, w: Table)
    requires DnsTidy(lib, s, u) && RemoveDone(SanitizeIface(s.name), u, w)
    ensures Coherent(lib, s, w)
  {
    if w == u[WgClients := []] {
      assert Rules(u, Forward) + [] == Rules(u, Forward);
      ExtendDnsTidy(lib, s, u, w, []);
    } else {
      EmptiedIsCoherent(lib, s, u);
    }
  }

  // ---------------------------------------------------------------- the promise of a rebuild

  lemma ClientStepOldOrNew(lib: AddrLib, s: Settings, t: Table, u: Table, w: Table)
    requires Sane(lib) && Coherent(lib, s, t) && DnsSettled(s, t, u) && PlanOf(lib, s) != Refused
    requires ClientStep(lib, s, u, w)
    ensures OldOrNew(lib, s, t, w) && Coherent(lib, s, w)
  {
    var iface := SanitizeIface(s.name);
    var a, b := Inited(u, iface), AppendForward(ClientChains(u), [InJump(iface), OutJump(iface)]);
    if !s.firewallOn {
      RemovedOldOrNew(lib, s, t, u, w);
    } else if InitState(iface, u, w) {
      InitOldOrNew(lib, s, t, u, w);
    } else if FilledFrom(lib, s, a, w) {
      FilledOldOrNew(lib, s, t, u, a, w);
    } else {
      FilledOldOrNew(lib, s, t, u, b, w);
    }
  }

  lemma RemovedPartDrawn(iface: string, t: Table, jump: bool, filter: bool, prerouting: bool)
    ensures Drawn(iface, t, RemovedPart(t, iface, jump, filter, prerouting))
  {
    var u := if jump then DropLockdownJump(t, iface) else t;
    var v := if filter then DropChain(u, DnsLockdown) else u;
    DropJumpDrawn(iface, t);
    DropChainDrawn(iface, u, DnsLockdown);
    DropChainDrawn(iface, v, DnsPrerouting);
    DrawnTwice(iface, t, u, v);
    DrawnTwice(iface, t, v, RemovedPart(t, iface, jump, filter, prerouting));
  }

  lemma BlindJumpDrawn(iface: string, t: Table)
    ensures Drawn(iface, t, AppendForward(DnsChains(t), [LockdownJump(iface)]))
  {
    var u := DnsChains(t);
    DnsChainsDrawn(iface, t);
    AppendDrawn(iface, u, [LockdownJump(iface)]);
    DrawnTwice(iface, t, u, AppendForward(u, [LockdownJump(iface)]));
  }

  lemma DnsStepDrawn(lib: AddrLib, s: Settings, t: Table, u: Table)
    requires DnsStep(lib, s, t, u)
    ensures Drawn(SanitizeIface(s.name), t, u)
  {
    var iface := SanitizeIface(s.name);
    match PlanOf(lib, s)
    case Off =>
      var jump: bool, filter: bool, prerouting: bool :| u == RemovedPart(t, iface, jump, filter, prerouting);
      RemovedPartDrawn(iface, t, jump, filter, prerouting);
    case Refused =>
    case On(fam, target) =>
      var a, b := DnsEnsured(t, iface), AppendForward(DnsChains(t), [LockdownJump(iface)]);
      DnsChainsDrawn(iface, t);
      DnsEnsuredDrawn(iface, t);
      BlindJumpDrawn(iface, t);
      if !EnsureDnsState(iface, t, u) {
        var v := if u == DnsFilled(a, iface, fam, target, s.blockExternal) then a else b;
        DnsFilledDrawn(iface, v, fam, target, s.blockExternal);
        DrawnTwice(iface, t, v, u);
      }
  }

  lemma BlindJumpsDrawn(iface: string, t: Table)
    ensures Drawn(iface, t, AppendForward(ClientChains(t), [InJump(iface), OutJump(iface)]))
  {
    var u := ClientChains(t);
    assert Drawn(iface, t, u);
    AppendDrawn(iface, u, [InJump(iface), OutJump(iface)]);
    DrawnTwice(iface, t, u, AppendForward(u, [InJump(iface), OutJump(iface)]));
  }

  lemma ClientStepDrawn(lib: AddrLib, s: Settings, t: Table, u: Table)
    requires Sane(lib) && ClientStep(lib, s, t, u)
    ensures Drawn(SanitizeIface(s.name), t, u)
  {
    var iface := SanitizeIface(s.name);
    var a, b := Inited(t, iface), AppendForward(ClientChains(t), [InJump(iface), OutJump(iface)]);
    if s.firewallOn {
      InitedDrawn(iface, t);
      BlindJumpsDrawn(iface, t);
      ChainHasNoJumps(lib, s);
      if !InitState(iface, t, u) {
        var v := if FilledFrom(lib, s, a, u) then a else b;
        FillDrawn(iface, v, WgClients, ChainOf(lib, s));
        DrawnTwice(iface, t, v, u);
      }
    } else {
      FillDrawn(iface, t, WgClients, []);
      EmptiedDrawn(iface, t);
    }
  }

  /** The first rule of forward stays where it is while the DNS step appends. */
  lemma DnsStepLocked(lib: AddrLib, s: Settings, t: Table, u: Table)
    requires PlanOf(lib, s).On? && Locked(s, t) && DnsStep(lib, s, t, u)
    ensures StillLocked(lib, s, t, u)
  {
    var iface := SanitizeIface(s.name);
    assert DnsChains(t) == t;
    var a, b := DnsEnsured(t, iface), AppendForward(t, [LockdownJump(iface)]);
    assert Locked(s, a) && Locked(s, b);
  }

  /** Appending to forward and filling the client chain keep the lockdown first. */
  lemma ExtendLocked(lib: AddrLib, s: Settings, t: Table, u: Table, w: Table, more: seq<Rule>)
    requires PlanOf(lib, s).On? && StillLocked(lib, s, t, u)
    requires Rules(w, Forward) == Rules(u, Forward) + more
    requires forall c :: c != WgClients && c != Forward ==> (c in u <==> c in w) && Rules(u, c) == Rules(w, c)
    ensures StillLocked(lib, s, t, w)
  {
    assert (Rules(u, Forward) + more)[0] == Rules(u, Forward)[0];
    assert Rules(u, DnsPrerouting) == Rules(w, DnsPrerouting) && Rules(u, DnsLockdown) == Rules(w, DnsLockdown);
  }

  lemma DropLocked(lib: AddrLib, s: Settings, t: Table, u: Table)
    requires PlanOf(lib, s).On? && StillLocked(lib, s, t, u)
    ensures StillLocked(lib, s, t, DropClientJumps(u[WgClients := []], SanitizeIface(s.name)))
  {
    var iface := SanitizeIface(s.name);
    var wants, rules := [InJump(iface), OutJump(iface)], Rules(u, Forward);
    assert !ShowsAny(rules[0], wants);
    DropShownHead(rules, wants);
  }

  lemma InitLocked(lib: AddrLib, s: Settings, t: Table, u: Table, w: Table)
    requires PlanOf(lib, s).On? && StillLocked(lib, s, t, u) && InitState(SanitizeIface(s.name), u, w)
    ensures StillLocked(lib, s, t, w)
  {
    var more := InitShape(SanitizeIface(s.name), u, w);
    ExtendLocked(lib, s, t, u, w, more);
  }

  lemma RefilledLocked(lib: AddrLib, s: Settings, t: Table, u: Table, chain: seq<Rule>)
    requires PlanOf(lib, s).On? && StillLocked(lib, s, t, u)
    ensures StillLocked(lib, s, t, u[WgClients := chain])
  {
    assert Rules(u, Forward) + [] == Rules(u, Forward);
    ExtendLocked(lib, s, t, u, u[WgClients := chain], []);
  }

  lemma ClientStepLocked(lib: AddrLib, s: Settings, t: Table, u: Table, w: Table)
    requires PlanOf(lib, s).On? && StillLocked(lib, s, t, u) && ClientStep(lib, s, u, w)
    ensures StillLocked(lib, s, t, w)
  {
    var iface := SanitizeIface(s.name);
    if !s.firewallOn {
      DropLocked(lib, s, t, u);
      RefilledLocked(lib, s, t, u, []);
    } else if InitState(iface, u, w) {
      InitLocked(lib, s, t, u, w);
    } else {
      var a, b := Inited(u, iface), AppendForward(ClientChains(u), [InJump(iface), OutJump(iface)]);
      InitLocked(lib, s, t, u, a);
      InitLocked(lib, s, t, u, b);
      RefilledLocked(lib, s, t, a, ChainOf(lib, s));
      RefilledLocked(lib, s, t, b, ChainOf(lib, s));
    }
  }

  lemma DnsStepKeepsPromise(lib: AddrLib, s: Settings, t: Table, u: Table)
    requires DnsStep(lib, s, t, u)
    ensures Promise(lib, s, t, u)
  {
    if Coherent(lib, s, t) {
      DnsStepSettles(lib, s, t, u);
      SettledSame(lib, s, t, u);
      SameRoutes(lib, u, t);
    }
    DnsStepDrawn(lib, s, t, u);
    if Tidy(SanitizeIface(s.name), t) {
      DrawnIsTidy(SanitizeIface(s.name), t, u);
    }
    if PlanOf(lib, s).On? && Locked(s, t) {
      DnsStepLocked(lib, s, t, u);
    }
  }

  lemma ClientStepKeepsPromise(lib: AddrLib, s: Settings, t: Table, u: Table, w: Table)
    requires Sane(lib) && DnsStep(lib, s, t, u) && ClientStep(lib, s, u, w) && PlanOf(lib, s) != Refused
    ensures Promise(lib, s, t, w)
  {
    if Coherent(lib, s, t) {
      DnsStepSettles(lib, s, t, u);
      ClientStepOldOrNew(lib, s, t, u, w);
    }
    DnsStepDrawn(lib, s, t, u);
    ClientStepDrawn(lib, s, u, w);
    DrawnTwice(SanitizeIface(s.name), t, u, w);
    if Tidy(SanitizeIface(s.name), t) {
      DrawnIsTidy(SanitizeIface(s.name), t, w);
    }
    if PlanOf(lib, s).On? && Locked(s, t) {
      DnsStepLocked(lib, s, t, u);
      ClientStepLocked(lib, s, t, u, w);
    }
  }

  /** The DNS part is in force once its chains were filled behind a listed or appended jump. */
  lemma FilledDnsInForce(lib: AddrLib, s: Settings, t: Table, u: Table)
    requires Tidy(SanitizeIface(s.name), t) && PlanOf(lib, s).On? && FillDnsDone(lib, s, t, u)
    ensures DnsTidy(lib, s, u)
  {
    var iface := SanitizeIface(s.name);
    DnsStepDrawn(lib, s, t, u);
    DrawnIsTidy(iface, t, u);
    if u == DnsRebuilt(lib, s, t).0 {
      DnsRebuiltIsInForce(lib, s, t);
    } else {
      var rules, jump := Rules(DnsChains(t), Forward), LockdownJump(iface);
      assert Rules(u, Forward) == rules + [jump];
      assert [jump][0] in rules + [jump];
    }
  }

  lemma ClientDoneIsCoherent(lib: AddrLib, s: Settings, u: Table, w: Table)
    requires DnsTidy(lib, s, u) && ClientDone(lib, s, u, w)
    ensures Coherent(lib, s, w)
  {
    var iface := SanitizeIface(s.name);
    if s.firewallOn {
      var a, b := Inited(u, iface), AppendForward(ClientChains(u), [InJump(iface), OutJump(iface)]);
      FilledCoherent(lib, s, u, a, ChainOf(lib, s));
      FilledCoherent(lib, s, u, b, ChainOf(lib, s));
    } else {
      RemovedCoherent(lib, s, u, w);
    }
  }

  // ---------------------------------------------------------------- each jump at most once

  lemma RemovedOnce(t: Table, iface: string, jump: bool, filter: bool, prerouting: bool)
    requires JumpsOnce(t)
    ensures JumpsOnce(RemovedPart(t, iface, jump, filter, prerouting))
  {
    var u := if jump then DropLockdownJump(t, iface) else t;
    if Forward in t {
      DropOnce(t, [LockdownJump(iface)]);
    }
    OnceByForward(u, RemovedPart(t, iface, jump, filter, prerouting));
  }

  lemma DnsSeenOnce(lib: AddrLib, s: Settings, t: Table, u: Table)
    requires JumpsOnce(t) && DnsSeen(lib, s, t, u)
    ensures JumpsOnce(u)
  {
    var iface := SanitizeIface(s.name);
    match PlanOf(lib, s)
    case Off => RemovedSeenOnce(t, iface, u);
    case Refused =>
    case On(fam, target) => EnsuredSeenOnce(t, iface, fam, target, s.blockExternal, u);
  }

  lemma RemovedSeenOnce(t: Table, iface: string, u: Table)
    requires JumpsOnce(t) && RemoveDnsState(iface, t, u)
    ensures JumpsOnce(u)
  {
    var jump: bool, filter: bool, prerouting: bool :| u == RemovedPart(t, iface, jump, filter, prerouting);
    RemovedOnce(t, iface, jump, filter, prerouting);
  }

  lemma EnsuredSeenOnce(t: Table, iface: string, fam: Family, target: string, blockExternal: bool, u: Table)
    requires JumpsOnce(t)
    requires EnsureDnsSeen(iface, t, u) || u == DnsFilled(DnsEnsured(t, iface), iface, fam, target, blockExternal)
    ensures JumpsOnce(u)
  {
    DnsEnsuredOnce(t, iface);
    OnceByForward(DnsEnsured(t, iface), DnsFilled(DnsEnsured(t, iface), iface, fam, target, blockExternal));
  }

  lemma ClientSeenOnce(lib: AddrLib, s: Settings, t: Table, u: Table)
    requires JumpsOnce(t) && ClientSeen(lib, s, t, u)
    ensures JumpsOnce(u)
  {
    var iface := SanitizeIface(s.name);
    if s.firewallOn {
      OnceByForward(t, ClientChains(t));
      InitedOnce(t, iface);
      OnceByForward(Inited(t, iface), Inited(t, iface)[WgClients := ChainOf(lib, s)]);
    } else {
      OnceByForward(t, t[WgClients := []]);
      if Forward in t {
        DropOnce(t[WgClients := []], [InJump(iface), OutJump(iface)]);
      }
    }
  }

  // ---------------------------------------------------------------- changing the lockdown

  /** While the target or the block setting of a lockdown that stands first changes, every table on
      the way confines every DNS packet of the interface to the old resolver or to the new one. */
  lemma StillLockedConfines(
    lib: AddrLib, s: Settings, t: Table, u: Table, fam: Family, target: string, blockExternal: bool,
    p: Packet, oif: string)
    requires PlanOf(lib, s).On? && StillLocked(lib, s, t, u)
    requires Installed(t, SanitizeIface(s.name), fam, target, blockExternal)
    requires p.iif == SanitizeIface(s.name) && IsDns(p)
    ensures Confined(lib, fam, target, Route(lib, u, p, oif))
            || Confined(lib, PlanOf(lib, s).fam, PlanOf(lib, s).target, Route(lib, u, p, oif))
  {
    var iface, plan := SanitizeIface(s.name), PlanOf(lib, s);
    var post := u[Forward][1..];
    assert u[Forward] == [LockdownJump(iface)] + post;
    if Installed(u, iface, plan.fam, plan.target, s.blockExternal) {
      LockdownFirstConfinesDns(lib, u, iface, plan.fam, plan.target, s.blockExternal, post, p, oif);
    } else {
      LockdownFirstConfinesDns(lib, u, iface, fam, target, blockExternal, post, p, oif);
    }
  }
}
