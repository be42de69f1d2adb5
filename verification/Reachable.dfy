/** The tables that runs of rebuilds reach: nothing in them is taken for one of our jumps that is
    not one, and after a success the lockdown settings are in force. */
module ReachableTables {
  import opened Nft
  import opened ClientRules
  import opened DnsRules
  import opened RebuildSpec
  import opened Transitions

  /** Lines that show an own jump are that jump, and only it leads into the lockdown chain. */
  predicate Tidy(iface: string, t: Table) {
    OnlyOwnLockdownJump(t, iface) && NoNarrowJumps(iface, Rules(t, Forward))
  }

  /** What can become of t: rules that were there, own jumps in forward, and elsewhere rules that
      do not jump. */
  predicate Drawn(iface: string, t: Table, u: Table) {
    forall d, r :: d in u && r in u[d] ==>
      || (d in t && r in t[d])
      || (d == Forward && OwnJump(iface, r))
      || (d != Forward && !r.action.Jump?)
  }

  lemma DrawnTwice(iface: string, t: Table, u: Table, v: Table)
    requires Drawn(iface, t, u) && Drawn(iface, u, v)
    ensures Drawn(iface, t, v)
  {
  }

  lemma DrawnIsTidy(iface: string, t: Table, u: Table)
    requires Tidy(iface, t) && Drawn(iface, t, u)
    ensures Tidy(iface, u)
  {
    assert forall r :: OwnJump(iface, r) && Shows(r, InJump(iface)) ==> r == InJump(iface);
    assert forall r :: OwnJump(iface, r) && Shows(r, OutJump(iface)) ==> r == OutJump(iface);
    assert forall r :: OwnJump(iface, r) && r.action == Jump(DnsLockdown) ==> r == LockdownJump(iface);
    assert Shows(LockdownJump(iface), LockdownJump(iface));
  }

  lemma AppendDrawn(iface: string, t: Table, rules: seq<Rule>)
    requires forall r :: r in rules ==> OwnJump(iface, r)
    ensures Drawn(iface, t, AppendForward(t, rules))
  {
  }

  lemma DropDrawn(iface: string, t: Table, wants: seq<Rule>)
    requires Forward in t && forall w :: w in wants ==> |w.conds| == 1
    ensures Drawn(iface, t, t[Forward := DropShown(t[Forward], wants)])
  {
    forall r ensures r in DropShown(t[Forward], wants) ==> r in t[Forward] {
      DropShownKeeps(t[Forward], wants, r);
    }
  }

  lemma FillDrawn(iface: string, t: Table, c: ChainId, rules: seq<Rule>)
    requires c != Forward && forall r :: r in rules ==> !r.action.Jump?
    ensures Drawn(iface, t, t[c := rules])
  {
  }

  lemma ChainHasNoJumps(lib: AddrLib, s: Settings)
    requires Sane(lib)
    ensures forall r :: r in ChainOf(lib, s) ==> !r.action.Jump?
  {
    RosterMatch(lib, s.clients, s.defaults, s.v6on, Packet("", "", V4, 0, 0, Tcp, 0));
  }

  lemma DnsFilledDrawn(iface: string, t: Table, fam: Family, target: string, blockExternal: bool)
    ensures Drawn(iface, t, DnsFilled(t, iface, fam, target, blockExternal))
  {
    FillDrawn(iface, t, DnsPrerouting, DnatRules(iface, fam, target));
    var u := t[DnsPrerouting := DnatRules(iface, fam, target)];
    FillDrawn(iface, u, DnsLockdown, LockdownChain(fam, target, blockExternal));
  }

  lemma DropChainDrawn(iface: string, t: Table, c: ChainId)
    ensures Drawn(iface, t, DropChain(t, c))
  {
  }

  lemma DropJumpDrawn(iface: string, t: Table)
    ensures Drawn(iface, t, DropLockdownJump(t, iface))
  {
    if Forward in t {
      DropDrawn(iface, t, [LockdownJump(iface)]);
    }
  }

  lemma DnsRemovedDrawn(iface: string, t: Table)
    ensures Drawn(iface, t, DnsRemoved(t, iface))
  {
    var u := DropLockdownJump(t, iface);
    DropJumpDrawn(iface, t);
    DropChainDrawn(iface, u, DnsLockdown);
    DropChainDrawn(iface, DropChain(u, DnsLockdown), DnsPrerouting);
    DrawnTwice(iface, t, u, DropChain(u, DnsLockdown));
    DrawnTwice(iface, t, DropChain(u, DnsLockdown), DnsRemoved(t, iface));
  }

  lemma DnsChainsDrawn(iface: string, t: Table)
    ensures Drawn(iface, t, DnsChains(t))
  {
  }

  lemma DnsEnsuredDrawn(iface: string, t: Table)
    ensures Drawn(iface, t, DnsEnsured(t, iface))
  {
    DnsChainsDrawn(iface, t);
    AppendDrawn(iface, DnsChains(t), IfUnlisted(Rules(DnsChains(t), Forward), LockdownJump(iface)));
    DrawnTwice(iface, t, DnsChains(t), DnsEnsured(t, iface));
  }

  lemma DnsRebuiltDrawn(lib: AddrLib, s: Settings, t: Table)
    ensures Drawn(SanitizeIface(s.name), t, DnsRebuilt(lib, s, t).0)
  {
    var iface := SanitizeIface(s.name);
    match PlanOf(lib, s)
    case Off => DnsRemovedDrawn(iface, t);
    case Refused =>
    case On(fam, target) =>
      DnsEnsuredDrawn(iface, t);
      DnsFilledDrawn(iface, DnsEnsured(t, iface), fam, target, s.blockExternal);
      DrawnTwice(iface, t, DnsEnsured(t, iface), DnsRebuilt(lib, s, t).0);
  }

  lemma InitedDrawn(iface: string, t: Table)
    ensures Drawn(iface, t, Inited(t, iface))
  {
    var u := ClientChains(t);
    assert Drawn(iface, t, u);
    AppendDrawn(iface, u, MissingClientJumps(Rules(u, Forward), iface));
    DrawnTwice(iface, t, u, Inited(t, iface));
  }

  lemma EmptiedDrawn(iface: string, t: Table)
    ensures Drawn(iface, t, DropClientJumps(t[WgClients := []], iface))
  {
    var u := t[WgClients := []];
    FillDrawn(iface, t, WgClients, []);
    if Forward in u {
      DropDrawn(iface, u, [InJump(iface), OutJump(iface)]);
      DrawnTwice(iface, t, u, DropClientJumps(u, iface));
    }
  }

  lemma ClientsRebuiltDrawn(lib: AddrLib, s: Settings, t: Table)
    requires Sane(lib)
    ensures Drawn(SanitizeIface(s.name), t, ClientsRebuilt(lib, s, t).0)
  {
    var iface := SanitizeIface(s.name);
    if s.firewallOn {
      var u := Inited(t, iface);
      InitedDrawn(iface, t);
      FillKeepsForward(lib, s, u);
      ChainHasNoJumps(lib, s);
      FillDrawn(iface, u, WgClients, ChainOf(lib, s));
      DrawnTwice(iface, t, u, u[WgClients := ChainOf(lib, s)]);
    } else {
      EmptiedDrawn(iface, t);
    }
  }

  /** A rebuild keeps the table tidy, whether it succeeds or not. */
  lemma RebuiltIsTidy(lib: AddrLib, s: Settings, t: Table)
    requires Sane(lib) && Tidy(SanitizeIface(s.name), t)
    ensures Tidy(SanitizeIface(s.name), Rebuilt(lib, s, t).0)
  {
    var iface := SanitizeIface(s.name);
    DnsRebuiltDrawn(lib, s, t);
    DrawnIsTidy(iface, t, DnsRebuilt(lib, s, t).0);
    ClientsRebuiltDrawn(lib, s, DnsRebuilt(lib, s, t).0);
    DrawnIsTidy(iface, DnsRebuilt(lib, s, t).0, ClientsRebuilt(lib, s, DnsRebuilt(lib, s, t).0).0);
  }

  // ---------------------------------------------------------------- success establishes the settings

  lemma DnsRebuiltIsInForce(lib: AddrLib, s: Settings, t: Table)
    requires Tidy(SanitizeIface(s.name), t)
    ensures DnsTidy(lib, s, DnsRebuilt(lib, s, t).0)
  {
    var iface := SanitizeIface(s.name);
    var jump := LockdownJump(iface);
    var u := DnsRebuilt(lib, s, t).0;
    DnsRebuiltDrawn(lib, s, t);
    DrawnIsTidy(iface, t, u);
    match PlanOf(lib, s)
    case Off =>
      DnsOffClearsChains(lib, s, t);
      assert Rules(u, Forward) == if Forward in t then DropShown(t[Forward], [jump]) else [];
      assert [jump][0] in [jump];
      forall r ensures r in Rules(u, Forward) ==> !Shows(r, jump) {
        DropShownKeeps(Rules(t, Forward), [jump], r);
      }
    case Refused =>
    case On(_, _) =>
      var rules := Rules(t, Forward);
      assert Rules(DnsChains(t), Forward) == rules;
      assert jump in rules + IfUnlisted(rules, jump);
  }

  lemma JumpsAreThere(rules: seq<Rule>, iface: string)
    requires NoNarrowJumps(iface, rules)
    ensures var all := rules + MissingClientJumps(rules, iface); InJump(iface) in all && OutJump(iface) in all
  {
    var more := MissingClientJumps(rules, iface);
    assert InJump(iface) in rules || InJump(iface) in more;
    assert OutJump(iface) in rules || OutJump(iface) in more;
  }

  /** The compiled chain behind both jumps. */
  lemma FilledIsCoherent(lib: AddrLib, s: Settings, u: Table)
    requires DnsTidy(lib, s, u)
    ensures Coherent(lib, s, Inited(u, SanitizeIface(s.name))[WgClients := ChainOf(lib, s)])
  {
    var iface := SanitizeIface(s.name);
    var w := Inited(u, iface)[WgClients := ChainOf(lib, s)];
    var rules := Rules(u, Forward);
    assert Rules(ClientChains(u), Forward) == rules;
    ExtendDnsTidy(lib, s, u, w, MissingClientJumps(rules, iface));
    JumpsAreThere(rules, iface);
  }

  lemma EmptiedIsCoherent(lib: AddrLib, s: Settings, u: Table)
    requires DnsTidy(lib, s, u)
    ensures Coherent(lib, s, DropClientJumps(u[WgClients := []], SanitizeIface(s.name)))
  {
    var iface := SanitizeIface(s.name);
    assert Forward !in u ==> DropShown([], [InJump(iface), OutJump(iface)]) == [];
    DropDnsTidy(lib, s, u, DropClientJumps(u[WgClients := []], iface));
  }

  /** A successful rebuild leaves its lockdown settings in force and its client part coherent. */
  lemma RebuiltIsCoherent(lib: AddrLib, s: Settings, t: Table)
    requires Tidy(SanitizeIface(s.name), t) && Rebuilt(lib, s, t).1
    ensures Coherent(lib, s, Rebuilt(lib, s, t).0)
  {
    var u := DnsRebuilt(lib, s, t).0;
    DnsRebuiltIsInForce(lib, s, t);
    if s.firewallOn {
      FillKeepsForward(lib, s, Inited(u, SanitizeIface(s.name)));
      FilledIsCoherent(lib, s, u);
    } else {
      EmptiedIsCoherent(lib, s, u);
    }
  }

  // ---------------------------------------------------------------- the switch, by its fields

  lemma ClientsKeepLockdown(lib: AddrLib, s: Settings, t: Table)
    ensures var u := ClientsRebuilt(lib, s, t).0;
            && (DnsLockdown in u <==> DnsLockdown in t) && Rules(u, DnsLockdown) == Rules(t, DnsLockdown)
            && (DnsPrerouting in u <==> DnsPrerouting in t) && Rules(u, DnsPrerouting) == Rules(t, DnsPrerouting)
  {
    if s.firewallOn {
      FillKeepsForward(lib, s, Inited(t, SanitizeIface(s.name)));
    }
  }

  /** The client step neither adds nor removes a lockdown jump. */
  lemma ClientsKeepLockdownJumps(lib: AddrLib, s: Settings, t: Table)
    requires Tidy(SanitizeIface(s.name), t)
    ensures var (iface, u) := (SanitizeIface(s.name), ClientsRebuilt(lib, s, t).0);
            Listed(Rules(u, Forward), LockdownJump(iface)) <==> Listed(Rules(t, Forward), LockdownJump(iface))
  {
    var iface := SanitizeIface(s.name);
    var u, jump := ClientsRebuilt(lib, s, t).0, LockdownJump(SanitizeIface(s.name));
    var rules, wants := Rules(t, Forward), [InJump(iface), OutJump(iface)];
    if s.firewallOn {
      FillKeepsForward(lib, s, Inited(t, iface));
      var more := MissingClientJumps(rules, iface);
      assert Rules(ClientChains(t), Forward) == rules && Rules(u, Forward) == rules + more;
      assert forall r :: r in rules + more <==> r in rules || r in more;
      assert forall r :: r in more ==> !Shows(r, jump);
    } else if WgClients in t && Forward in t {
      forall r ensures r in DropShown(rules, wants) && Shows(r, jump) <==> r in rules && Shows(r, jump) {
        DropShownKeeps(rules, wants, r);
        assert ShowsAny(r, wants) ==> r.action == Jump(WgClients);
      }
    }
  }

  /** A lockdown that is switched on with a usable target: after the rebuild of any table its chains
      redirect to that address and its jump is listed, the jump itself where the table was tidy. */
  lemma LockdownOnInstalls(lib: AddrLib, s: Settings, t: Table, fam: Family, a: string)
    requires Sane(lib) && LocksTo(lib, s, fam, a)
    ensures var (iface, u) := (SanitizeIface(s.name), Rebuilt(lib, s, t).0);
            && Installed(u, iface, fam, lib.canon(a), s.blockExternal)
            && (Tidy(iface, t) ==> LockdownJump(iface) in Rules(u, Forward))
    ensures ClientsOk(lib, s) ==> (Rebuilt(lib, s, t).1 <==> s.firewallOn || WgClients in t)
  {
    var iface := SanitizeIface(s.name);
    var u := DnsRebuilt(lib, s, t).0;
    PlanByFields(lib, s);
    ClientsKeepLockdown(lib, s, u);
    if Tidy(iface, t) {
      DnsRebuiltIsInForce(lib, s, t);
      DnsRebuiltDrawn(lib, s, t);
      DrawnIsTidy(iface, t, u);
      ClientsRebuiltDrawn(lib, s, u);
      DrawnIsTidy(iface, u, ClientsRebuilt(lib, s, u).0);
      assert Shows(LockdownJump(iface), LockdownJump(iface));
      ClientsKeepLockdownJumps(lib, s, u);
    }
    if ClientsOk(lib, s) {
      RebuildSucceeds(lib, s, t);
    }
  }

  /** Switched off, or on with nothing stored: the rebuild of a tidy table leaves neither chain of
      the lockdown and no jump to it, and does not fail on its account. */
  lemma LockdownOffRemoves(lib: AddrLib, s: Settings, t: Table)
    requires Sane(lib) && SwitchedOff(s) && Tidy(SanitizeIface(s.name), t)
    ensures var (iface, u) := (SanitizeIface(s.name), Rebuilt(lib, s, t).0);
            DnsLockdown !in u && DnsPrerouting !in u && !Listed(Rules(u, Forward), LockdownJump(iface))
    ensures ClientsOk(lib, s) ==> (Rebuilt(lib, s, t).1 <==> s.firewallOn || WgClients in t)
  {
    var iface := SanitizeIface(s.name);
    var u := DnsRebuilt(lib, s, t).0;
    PlanByFields(lib, s);
    DnsRebuiltIsInForce(lib, s, t);
    DnsRebuiltDrawn(lib, s, t);
    DrawnIsTidy(iface, t, u);
    ClientsKeepLockdown(lib, s, u);
    ClientsKeepLockdownJumps(lib, s, u);
    if ClientsOk(lib, s) {
      RebuildSucceeds(lib, s, t);
    }
  }

  /** On with a target that cannot be used: the rebuild fails before it changes anything. */
  lemma BadTargetRefused(lib: AddrLib, s: Settings, t: Table)
    requires Sane(lib) && Unusable(lib, s)
    ensures Rebuilt(lib, s, t) == (t, false)
  {
    PlanByFields(lib, s);
  }

  // ---------------------------------------------------------------- runs

  /** The table the PostUp hook leaves behind. */
  const FreshTable: Table := map[Forward := [], WgClients := []]

  /** The one interface row: its name is a key and never changes. */
  predicate OneIface(runs: seq<Settings>, iface: string) {
    forall s :: s in runs ==> SanitizeIface(s.name) == iface
  }

  lemma FreshIsTidy(iface: string)
    ensures Tidy(iface, FreshTable)
  {
  }

  /** Every table a run of rebuilds reaches from the fresh one is tidy and has its client chain. */
  lemma {:induction false} RunsAreTidy(lib: AddrLib, runs: seq<Settings>, iface: string)
    requires Sane(lib) && OneIface(runs, iface)
    ensures Tidy(iface, AfterRebuilds(lib, runs, FreshTable)) && WgClients in AfterRebuilds(lib, runs, FreshTable)
  {
    if runs == [] {
      FreshIsTidy(iface);
    } else {
      var front, s := runs[..|runs| - 1], runs[|runs| - 1];
      assert s in runs && forall r :: r in front ==> r in runs;
      RunsAreTidy(lib, front, iface);
      var t := AfterRebuilds(lib, front, FreshTable);
      RebuiltIsTidy(lib, s, t);
      RebuiltKeepsClientChain(lib, s, t);
    }
  }

  lemma RebuiltKeepsClientChain(lib: AddrLib, s: Settings, t: Table)
    requires WgClients in t
    ensures WgClients in Rebuilt(lib, s, t).0
  {
    DnsKeepsClientChain(lib, s, t);
    var u := DnsRebuilt(lib, s, t).0;
    if s.firewallOn {
      FillKeepsForward(lib, s, Inited(u, SanitizeIface(s.name)));
    }
  }

  /** After any run of rebuilds from the fresh table, the last of which found a usable target, the
      owned chains are a function of the last settings alone and those settings are in force. */
  lemma RunsFollowLastSettings(lib: AddrLib, runs: seq<Settings>, iface: string)
    requires Sane(lib) && runs != [] && OneIface(runs, iface)
    requires var s := runs[|runs| - 1]; ClientsOk(lib, s) && !Unusable(lib, s)
    ensures var (s, u) := (runs[|runs| - 1], AfterRebuilds(lib, runs, FreshTable));
            && Rules(u, WgClients) == (if s.firewallOn then ChainOf(lib, s) else [])
            && (SwitchedOff(s) ==> DnsLockdown !in u && DnsPrerouting !in u)
            && (forall fam, a :: LocksTo(lib, s, fam, a) ==>
                  Installed(u, iface, fam, lib.canon(a), s.blockExternal))
            && Coherent(lib, s, u)
  {
    PlanByFields(lib, runs[|runs| - 1]);
    var front, s := runs[..|runs| - 1], runs[|runs| - 1];
    assert s in runs && forall r :: r in front ==> r in runs;
    RunsAreTidy(lib, front, iface);
    var t := AfterRebuilds(lib, front, FreshTable);
    RebuildSucceeds(lib, s, t);
    OwnedChainsFollowSettings(lib, s, t);
    RebuiltIsCoherent(lib, s, t);
  }
}
