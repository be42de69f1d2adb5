/** Lockdown and client filtering share the forward chain, and jumps are only ever appended:
    what the order of switching them on means for DNS packets. */
module ToggleOrder {
  import opened Nft
  import opened ClientRules
  import opened DnsRules
  import opened RebuildSpec
  import opened ReachableTables

  lemma ClientsKeepHead(lib: AddrLib, s: Settings, t: Table)
    requires LockdownFirst(SanitizeIface(s.name), Rules(t, Forward))
    ensures LockdownFirst(SanitizeIface(s.name), Rules(ClientsRebuilt(lib, s, t).0, Forward))
  {
    var iface := SanitizeIface(s.name);
    if s.firewallOn {
      FillKeepsForward(lib, s, Inited(t, iface));
    } else {
      DropShownHead(Rules(t, Forward), [InJump(iface), OutJump(iface)]);
    }
  }

  /** Lockdown switched on while forward is empty, or already first, is in force and first
      after the rebuild, however client filtering is switched. */
  lemma LockdownTakesHead(lib: AddrLib, s: Settings, t: Table)
    requires Sane(lib) && InLockdown(lib, s)
    requires Rules(t, Forward) == [] || LockdownFirst(SanitizeIface(s.name), Rules(t, Forward))
    ensures LockdownFirst(SanitizeIface(s.name), Rules(Rebuilt(lib, s, t).0, Forward))
  {
    var iface := SanitizeIface(s.name);
    var u := DnsRebuilt(lib, s, t).0;
    PlanByFields(lib, s);
    assert Shows(LockdownJump(iface), LockdownJump(iface));
    assert LockdownFirst(iface, Rules(u, Forward));
    ClientsKeepHead(lib, s, u);
  }

  /** Every setting of the run keeps the lockdown on, for one interface. */
  ghost predicate LockdownThroughout(lib: AddrLib, runs: seq<Settings>, iface: string) {
    forall s :: s in runs ==> SanitizeIface(s.name) == iface && InLockdown(lib, s)
  }

  lemma {:induction false} RunKeepsLockdownFirst(lib: AddrLib, runs: seq<Settings>, t: Table, iface: string)
    requires Sane(lib) && LockdownThroughout(lib, runs, iface)
    requires Rules(t, Forward) == [] || LockdownFirst(iface, Rules(t, Forward))
    ensures var u := AfterRebuilds(lib, runs, t);
            (runs == [] && Rules(u, Forward) == []) || LockdownFirst(iface, Rules(u, Forward))
  {
    if runs != [] {
      var before := runs[..|runs| - 1];
      assert forall s :: s in before ==> s in runs;
      RunKeepsLockdownFirst(lib, before, t, iface);
      LockdownTakesHead(lib, runs[|runs| - 1], AfterRebuilds(lib, before, t));
    }
  }

  lemma HeadIsLockdown(iface: string, rules: seq<Rule>)
    requires LockdownFirst(iface, rules)
    ensures rules == [LockdownJump(iface)] + rules[1..]
  {
  }

  /** Switched on before client filtering, the lockdown confines every DNS packet of the
      interface after any number of rebuilds and filtering toggles. */
  lemma LockdownBeforeFilteringConfines(
    lib: AddrLib, runs: seq<Settings>, t: Table, iface: string, fam: Family, a: string, p: Packet, oif: string)
    requires Sane(lib) && runs != [] && LockdownThroughout(lib, runs, iface)
    requires LocksTo(lib, runs[|runs| - 1], fam, a)
    requires Rules(t, Forward) == [] || LockdownFirst(iface, Rules(t, Forward))
    requires p.iif == iface && IsDns(p)
    ensures Confined(lib, fam, a, Route(lib, AfterRebuilds(lib, runs, t), p, oif))
  {
    RunKeepsLockdownFirst(lib, runs, t, iface);
    var s := runs[|runs| - 1];
    var u := AfterRebuilds(lib, runs, t);
    assert s in runs;
    LockdownOnInstalls(lib, s, AfterRebuilds(lib, runs[..|runs| - 1], t), fam, a);
    HeadIsLockdown(iface, u[Forward]);
    LockdownFirstConfinesDns(lib, u, iface, fam, lib.canon(a), s.blockExternal, u[Forward][1..], p, oif);
  }

  // ---------------------------------------------------------------- what single jumps do

  /** One jump into the client chain in front of `rest`: what it matches meets the access list. */
  lemma ClientJumpJudges(lib: AddrLib, t: Table, s: Settings, cond: Cond, rest: seq<Rule>, p: Packet)
    requires Sane(lib) && WgClients in t && t[WgClients] == ChainOf(lib, s)
    ensures Walk(lib, t, [Rule([cond], Jump(WgClients))] + rest, p, JUMP_STACK)
            == if !Holds(lib, cond, p) then Walk(lib, t, rest, p, JUMP_STACK)
               else if Allowed(lib, s.clients, s.defaults, s.v6on, p) then Accepted else Dropped
  {
    WalkJump(lib, t, cond, WgClients, rest, p);
    ChainMeansAccessList(lib, s.clients, s.defaults, s.v6on, t, p, JUMP_STACK - 1);
  }

  lemma WalkJump(lib: AddrLib, t: Table, cond: Cond, chain: ChainId, rest: seq<Rule>, p: Packet)
    requires chain in t && !IsBase(chain)
    ensures var v := if Holds(lib, cond, p) then Walk(lib, t, t[chain], p, JUMP_STACK - 1) else Fallthrough;
            Walk(lib, t, [Rule([cond], Jump(chain))] + rest, p, JUMP_STACK)
            == if v == Fallthrough then Walk(lib, t, rest, p, JUMP_STACK) else v
  {
    var jump := Rule([cond], Jump(chain));
    Match1(lib, jump, p);
    assert ([jump] + rest)[1..] == rest;
  }

  /** Both client jumps in front of `rest`: they judge all traffic of the interface, in either
      direction, by the access list. */
  lemma ClientJumpsJudge(lib: AddrLib, t: Table, s: Settings, rest: seq<Rule>, p: Packet)
    requires Sane(lib) && WgClients in t && t[WgClients] == ChainOf(lib, s)
    ensures var iface := SanitizeIface(s.name);
            Walk(lib, t, [InJump(iface), OutJump(iface)] + rest, p, JUMP_STACK)
            == if p.iif != iface && p.oif != iface then Walk(lib, t, rest, p, JUMP_STACK)
               else if Allowed(lib, s.clients, s.defaults, s.v6on, p) then Accepted else Dropped
  {
    var iface := SanitizeIface(s.name);
    ClientJumpJudges(lib, t, s, OifName(iface), rest, p);
    ClientJumpJudges(lib, t, s, IifName(iface), [OutJump(iface)] + rest, p);
    assert [InJump(iface), OutJump(iface)] + rest == [InJump(iface)] + ([OutJump(iface)] + rest);
  }

  lemma LockdownJumpSkips(lib: AddrLib, t: Table, iface: string, rest: seq<Rule>, p: Packet)
    requires p.iif != iface
    ensures Walk(lib, t, [LockdownJump(iface)] + rest, p, JUMP_STACK) == Walk(lib, t, rest, p, JUMP_STACK)
  {
    Match1(lib, LockdownJump(iface), p);
    assert ([LockdownJump(iface)] + rest)[1..] == rest;
  }
}
