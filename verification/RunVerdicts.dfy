/** The forward hook after any run of rebuilds: which jumps stand in it and in what order, and so
    what becomes of every packet and of every DNS packet. */
module RunVerdicts {
  import opened Text
  import opened Nft
  import opened ClientRules
  import opened DnsRules
  import opened RebuildSpec
  import opened ReachableTables
  import opened ToggleOrder

  /** What stands in forward: nothing, the lockdown jump, the client jumps, or both in one of the
      two orders. */
  datatype Shape = Bare | LockOnly | ClientsOnly | LockFirst | ClientsFirst

  /** Two groups of rules in a shape. */
  function Arranged(shape: Shape, lock: seq<Rule>, clients: seq<Rule>): seq<Rule> {
    match shape
    case Bare => []
    case LockOnly => lock
    case ClientsOnly => clients
    case LockFirst => lock + clients
    case ClientsFirst => clients + lock
  }

  function Jumps(shape: Shape, iface: string): seq<Rule> {
    Arranged(shape, [LockdownJump(iface)], [InJump(iface), OutJump(iface)])
  }

  function WithLock(shape: Shape, on: bool): Shape {
    match shape
    case Bare => if on then LockOnly else Bare
    case LockOnly => if on then LockOnly else Bare
    case ClientsOnly => if on then ClientsFirst else ClientsOnly
    case LockFirst => if on then LockFirst else ClientsOnly
    case ClientsFirst => if on then ClientsFirst else ClientsOnly
  }

  function WithClients(shape: Shape, on: bool): Shape {
    match shape
    case Bare => if on then ClientsOnly else Bare
    case LockOnly => if on then LockFirst else LockOnly
    case ClientsOnly => if on then ClientsOnly else Bare
    case LockFirst => if on then LockFirst else LockOnly
    case ClientsFirst => if on then ClientsFirst else LockOnly
  }

  /** A rebuild whose lockdown target is refused stops before it changes anything. */
  function Next(lib: AddrLib, s: Settings, shape: Shape): Shape {
    if PlanOf(lib, s) == Refused then shape
    else WithClients(WithLock(shape, PlanOf(lib, s).On?), s.firewallOn)
  }

  function ShapeOf(lib: AddrLib, runs: seq<Settings>): Shape {
    if runs == [] then Bare else Next(lib, runs[|runs| - 1], ShapeOf(lib, runs[..|runs| - 1]))
  }

  // ---------------------------------------------------------------- the shape is what stands there

  lemma OwnJumpsShowThemselves(iface: string)
    ensures var (l, a, b) := (LockdownJump(iface), InJump(iface), OutJump(iface));
            && Shows(l, l) && Shows(a, a) && Shows(b, b)
            && !Shows(a, l) && !Shows(b, l) && !Shows(l, a) && !Shows(b, a) && !Shows(l, b) && !Shows(a, b)
  {
  }

  lemma AppendLock(shape: Shape, iface: string)
    ensures var rules := Jumps(shape, iface);
            rules + IfUnlisted(rules, LockdownJump(iface)) == Jumps(WithLock(shape, true), iface)
  {
    var l, a, b := LockdownJump(iface), InJump(iface), OutJump(iface);
    OwnJumpsShowThemselves(iface);
    assert forall r :: r in Jumps(shape, iface) ==> r == l || r == a || r == b;
    if shape.LockOnly? || shape.LockFirst? {
      assert Jumps(shape, iface)[0] == l;
    } else if shape.ClientsFirst? {
      assert Jumps(shape, iface)[2] == l;
    }
  }

  lemma AppendClients(shape: Shape, iface: string)
    ensures var rules := Jumps(shape, iface);
            rules + MissingClientJumps(rules, iface) == Jumps(WithClients(shape, true), iface)
  {
    var l, a, b := LockdownJump(iface), InJump(iface), OutJump(iface);
    var rules := Jumps(shape, iface);
    OwnJumpsShowThemselves(iface);
    assert forall r :: r in rules ==> r == l || r == a || r == b;
    if shape.ClientsOnly? || shape.ClientsFirst? {
      assert rules[0] == a && rules[1] == b;
    } else if shape.LockFirst? {
      assert rules[1] == a && rules[2] == b;
    } else {
      assert IfUnlisted(rules, a) + IfUnlisted(rules, b) == [a, b];
    }
  }

  lemma {:induction false} DropAppend(xs: seq<Rule>, ys: seq<Rule>, wants: seq<Rule>)
    requires forall w :: w in wants ==> |w.conds| == 1
    ensures DropShown(xs + ys, wants) == DropShown(xs, wants) + DropShown(ys, wants)
  {
    if ys == [] {
      assert xs + ys == xs;
    } else {
      var n := |ys| - 1;
      var all, last := xs + ys, if ShowsAny(ys[n], wants) then [] else [ys[n]];
      DropAppend(xs, ys[..n], wants);
      assert all != [] && all[..|all| - 1] == xs + ys[..n] && all[|all| - 1] == ys[n];
      assert DropShown(all, wants) == DropShown(xs + ys[..n], wants) + last;
      assert DropShown(ys, wants) == DropShown(ys[..n], wants) + last;
    }
  }

  /** Deleting from two groups of which one goes whole and one stays whole. */
  lemma DropGroup(gone: seq<Rule>, kept: seq<Rule>, wants: seq<Rule>)
    requires forall w :: w in wants ==> |w.conds| == 1
    requires forall r :: r in gone ==> ShowsAny(r, wants)
    requires forall r :: r in kept ==> !ShowsAny(r, wants)
    ensures Leaves(wants, gone, kept)
  {
    DropShownAll(gone, wants);
    DropShownNothing(kept, wants);
    DropAppend(gone, kept, wants);
    DropAppend(kept, gone, wants);
    assert [] + kept == kept && kept + [] == kept;
  }

  lemma LockShown(iface: string)
    ensures var (l, a, b) := (LockdownJump(iface), InJump(iface), OutJump(iface));
            && ShowsAny(l, [l]) && !ShowsAny(a, [l]) && !ShowsAny(b, [l])
            && !ShowsAny(l, [a, b]) && ShowsAny(a, [a, b]) && ShowsAny(b, [a, b])
  {
    var l, a, b := LockdownJump(iface), InJump(iface), OutJump(iface);
    OwnJumpsShowThemselves(iface);
    assert [l][0] == l && [a, b][0] == a && [a, b][1] == b;
  }

  /** Which rules of the two groups a deletion leaves. */
  predicate Leaves(wants: seq<Rule>, gone: seq<Rule>, kept: seq<Rule>)
    requires forall w :: w in wants ==> |w.conds| == 1
  {
    && DropShown([], wants) == [] && DropShown(gone, wants) == [] && DropShown(kept, wants) == kept
    && DropShown(gone + kept, wants) == kept && DropShown(kept + gone, wants) == kept
  }

  lemma LeavesClients(shape: Shape, lock: seq<Rule>, clients: seq<Rule>, wants: seq<Rule>)
    requires (forall w :: w in wants ==> |w.conds| == 1) && Leaves(wants, lock, clients)
    ensures DropShown(Arranged(shape, lock, clients), wants) == Arranged(WithLock(shape, false), lock, clients)
  {
  }

  lemma LeavesLock(shape: Shape, lock: seq<Rule>, clients: seq<Rule>, wants: seq<Rule>)
    requires (forall w :: w in wants ==> |w.conds| == 1) && Leaves(wants, clients, lock)
    ensures DropShown(Arranged(shape, lock, clients), wants) == Arranged(WithClients(shape, false), lock, clients)
  {
  }

  lemma DropFirstGroup(shape: Shape, lock: seq<Rule>, clients: seq<Rule>, wants: seq<Rule>)
    requires forall w :: w in wants ==> |w.conds| == 1
    requires forall r :: r in lock ==> ShowsAny(r, wants)
    requires forall r :: r in clients ==> !ShowsAny(r, wants)
    ensures DropShown(Arranged(shape, lock, clients), wants) == Arranged(WithLock(shape, false), lock, clients)
  {
    DropGroup(lock, clients, wants);
    LeavesClients(shape, lock, clients, wants);
  }

  lemma DropSecondGroup(shape: Shape, lock: seq<Rule>, clients: seq<Rule>, wants: seq<Rule>)
    requires forall w :: w in wants ==> |w.conds| == 1
    requires forall r :: r in clients ==> ShowsAny(r, wants)
    requires forall r :: r in lock ==> !ShowsAny(r, wants)
    ensures DropShown(Arranged(shape, lock, clients), wants) == Arranged(WithClients(shape, false), lock, clients)
  {
    DropGroup(clients, lock, wants);
    LeavesLock(shape, lock, clients, wants);
  }

  lemma DropLock(shape: Shape, iface: string)
    ensures DropShown(Jumps(shape, iface), [LockdownJump(iface)]) == Jumps(WithLock(shape, false), iface)
  {
    LockShown(iface);
    DropFirstGroup(shape, [LockdownJump(iface)], [InJump(iface), OutJump(iface)], [LockdownJump(iface)]);
  }

  lemma DropClients(shape: Shape, iface: string)
    ensures DropShown(Jumps(shape, iface), [InJump(iface), OutJump(iface)]) == Jumps(WithClients(shape, false), iface)
  {
    LockShown(iface);
    DropSecondGroup(shape, [LockdownJump(iface)], [InJump(iface), OutJump(iface)], [InJump(iface), OutJump(iface)]);
  }

  lemma DnsShape(lib: AddrLib, s: Settings, t: Table, shape: Shape)
    requires Rules(t, Forward) == Jumps(shape, SanitizeIface(s.name)) && PlanOf(lib, s) != Refused
    ensures Rules(DnsRebuilt(lib, s, t).0, Forward) == Jumps(WithLock(shape, PlanOf(lib, s).On?), SanitizeIface(s.name))
  {
    var iface := SanitizeIface(s.name);
    if PlanOf(lib, s) == Off {
      DropLock(shape, iface);
      assert DropShown([], [LockdownJump(iface)]) == [];
      assert Rules(DnsRebuilt(lib, s, t).0, Forward) == Rules(DropLockdownJump(t, iface), Forward);
    } else {
      AppendLock(shape, iface);
      assert Rules(DnsChains(t), Forward) == Rules(t, Forward);
    }
  }

  lemma ClientShape(lib: AddrLib, s: Settings, t: Table, shape: Shape)
    requires Rules(t, Forward) == Jumps(shape, SanitizeIface(s.name)) && WgClients in t
    ensures Rules(ClientsRebuilt(lib, s, t).0, Forward)
            == Jumps(WithClients(shape, s.firewallOn), SanitizeIface(s.name))
  {
    var iface := SanitizeIface(s.name);
    if s.firewallOn {
      AppendClients(shape, iface);
      assert Rules(ClientChains(t), Forward) == Rules(t, Forward);
      FillKeepsForward(lib, s, Inited(t, iface));
    } else {
      DropClients(shape, iface);
      assert DropShown([], [InJump(iface), OutJump(iface)]) == [];
    }
  }

  /** After any run of rebuilds from the fresh table exactly these jumps stand in forward. */
  lemma {:induction false} RunsHaveShape(lib: AddrLib, runs: seq<Settings>, iface: string)
    requires Sane(lib) && OneIface(runs, iface)
    ensures Rules(AfterRebuilds(lib, runs, FreshTable), Forward) == Jumps(ShapeOf(lib, runs), iface)
  {
    if runs != [] {
      var front, s := runs[..|runs| - 1], runs[|runs| - 1];
      assert s in runs && forall r :: r in front ==> r in runs;
      RunsHaveShape(lib, front, iface);
      RunsAreTidy(lib, front, iface);
      var t := AfterRebuilds(lib, front, FreshTable);
      if PlanOf(lib, s) != Refused {
        DnsShape(lib, s, t, ShapeOf(lib, front));
        DnsKeepsClientChain(lib, s, t);
        ClientShape(lib, s, DnsRebuilt(lib, s, t).0, WithLock(ShapeOf(lib, front), PlanOf(lib, s).On?));
      }
    }
  }

  // ---------------------------------------------------------------- which histories put clients first

  /** Rebuild k left filtering on with the lockdown off, and every later one that took effect kept
      filtering on with the lockdown on: filtering has been on without a break since before the
      last switching-on of the lockdown. */
  ghost predicate FilteringSinceBefore(lib: AddrLib, runs: seq<Settings>, k: nat)
    requires k < |runs|
  {
    && runs[k].firewallOn && SwitchedOff(runs[k])
    && (forall i :: k < i < |runs| ==>
          Unusable(lib, runs[i]) || (InLockdown(lib, runs[i]) && runs[i].firewallOn))
  }

  ghost predicate FilteringFirst(lib: AddrLib, runs: seq<Settings>) {
    exists k :: 0 <= k < |runs| && FilteringSinceBefore(lib, runs, k)
  }

  lemma FilteringFirstSnoc(lib: AddrLib, runs: seq<Settings>)
    requires runs != []
    ensures var (front, s) := (runs[..|runs| - 1], runs[|runs| - 1]);
            FilteringFirst(lib, runs) <==>
              || (s.firewallOn && SwitchedOff(s))
              || (FilteringFirst(lib, front) && (Unusable(lib, s) || (InLockdown(lib, s) && s.firewallOn)))
  {
    var n := |runs| - 1;
    var front, s := runs[..n], runs[n];
    if FilteringFirst(lib, runs) {
      var k :| 0 <= k < |runs| && FilteringSinceBefore(lib, runs, k);
      if k < n {
        assert FilteringSinceBefore(lib, front, k);
      }
    }
    if s.firewallOn && SwitchedOff(s) {
      assert FilteringSinceBefore(lib, runs, n);
    }
    if FilteringFirst(lib, front) && (Unusable(lib, s) || (InLockdown(lib, s) && s.firewallOn)) {
      var k :| 0 <= k < |front| && FilteringSinceBefore(lib, front, k);
      assert FilteringSinceBefore(lib, runs, k);
    }
  }

  /** What two switches make of a shape. */
  lemma Switches(shape: Shape, lock: bool, clients: bool)
    ensures var t := WithClients(WithLock(shape, lock), clients);
            && (t.Bare? <==> !lock && !clients) && (t.LockOnly? <==> lock && !clients)
            && (t.ClientsOnly? <==> !lock && clients) && (t.LockFirst? || t.ClientsFirst? <==> lock && clients)
            && (ClientsAhead(t) <==> clients && (!lock || ClientsAhead(shape)))
  {
  }

  predicate ClientsAhead(shape: Shape) {
    shape.ClientsOnly? || shape.ClientsFirst?
  }

  lemma NextShape(lib: AddrLib, runs: seq<Settings>)
    requires Sane(lib) && runs != []
    ensures var (s, before, t) := (runs[|runs| - 1], ShapeOf(lib, runs[..|runs| - 1]), ShapeOf(lib, runs));
            && (Unusable(lib, s) ==> t == before)
            && (!Unusable(lib, s) ==> t == WithClients(WithLock(before, InLockdown(lib, s)), s.firewallOn))
            && (SwitchedOff(s) <==> !Unusable(lib, s) && !InLockdown(lib, s))
  {
    PlanKind(lib, runs[|runs| - 1]);
  }

  /** The client jumps stand ahead of everything exactly in these histories. */
  lemma {:induction false} ClientsAheadIff(lib: AddrLib, runs: seq<Settings>)
    requires Sane(lib)
    ensures ClientsAhead(ShapeOf(lib, runs)) <==> FilteringFirst(lib, runs)
  {
    if runs != [] {
      var s := runs[|runs| - 1];
      Switches(ShapeOf(lib, runs[..|runs| - 1]), InLockdown(lib, s), s.firewallOn);
      ClientsAheadIff(lib, runs[..|runs| - 1]);
      FilteringFirstSnoc(lib, runs);
      NextShape(lib, runs);
    }
  }

  // ---------------------------------------------------------------- the verdict after any run

  /** Tunnel traffic, in either direction, by the access list; other traffic as `rest` has it. */
  ghost function ByAccessList(lib: AddrLib, s: Settings, p: Packet, rest: Verdict): Verdict {
    var iface := SanitizeIface(s.name);
    if p.iif != iface && p.oif != iface then rest
    else if Allowed(lib, s.clients, s.defaults, s.v6on, p) then Accepted
    else Dropped
  }

  /** The address literal a lockdown redirects to. */
  datatype Resolver = Resolver(fam: Family, literal: string)

  /** Packets from the tunnel by the lockdown chain, as far as it decides. */
  ghost function ByLockdown(lib: AddrLib, s: Settings, to: Resolver, p: Packet, rest: Verdict): Verdict {
    var v := if p.iif == SanitizeIface(s.name)
             then LockdownVerdict(lib, to.fam, lib.canon(to.literal), s.blockExternal, p) else Fallthrough;
    if v != Fallthrough then v else rest
  }

  /** What the settings ask of the lockdown: nothing, or to redirect to this address. */
  predicate Asks(lib: AddrLib, s: Settings, lock: Option<Resolver>) {
    match lock
    case None => SwitchedOff(s)
    case Some(to) => LocksTo(lib, s, to.fam, to.literal)
  }

  /** The forward hook's verdict, by the features that are on and, where both are, by the order in
      which the history put them. */
  ghost function VerdictAfter(lib: AddrLib, runs: seq<Settings>, lock: Option<Resolver>, p: Packet): Verdict
    requires runs != []
  {
    var s := runs[|runs| - 1];
    match (s.firewallOn, lock)
    case (true, Some(to)) =>
      if FilteringFirst(lib, runs) then ByAccessList(lib, s, p, ByLockdown(lib, s, to, p, Fallthrough))
      else ByLockdown(lib, s, to, p, ByAccessList(lib, s, p, Fallthrough))
    case (true, None) => ByAccessList(lib, s, p, Fallthrough)
    case (false, Some(to)) => ByLockdown(lib, s, to, p, Fallthrough)
    case (false, None) => Fallthrough
  }

  /** The shape follows from the last settings and the order. */
  lemma LastShape(lib: AddrLib, runs: seq<Settings>)
    requires Sane(lib) && runs != [] && !Unusable(lib, runs[|runs| - 1])
    ensures var (s, shape) := (runs[|runs| - 1], ShapeOf(lib, runs));
            var lock := InLockdown(lib, s);
            shape == if s.firewallOn && lock then (if FilteringFirst(lib, runs) then ClientsFirst else LockFirst)
                     else if s.firewallOn then ClientsOnly
                     else if lock then LockOnly
                     else Bare
  {
    var s := runs[|runs| - 1];
    NextShape(lib, runs);
    Switches(ShapeOf(lib, runs[..|runs| - 1]), InLockdown(lib, s), s.firewallOn);
    ClientsAheadIff(lib, runs);
  }

  lemma LockdownJudges(lib: AddrLib, t: Table, s: Settings, to: Resolver, rest: seq<Rule>, p: Packet)
    requires Installed(t, SanitizeIface(s.name), to.fam, lib.canon(to.literal), s.blockExternal)
    ensures Walk(lib, t, [LockdownJump(SanitizeIface(s.name))] + rest, p, JUMP_STACK)
            == ByLockdown(lib, s, to, p, Walk(lib, t, rest, p, JUMP_STACK))
  {
    var iface := SanitizeIface(s.name);
    if p.iif == iface {
      JumpVerdict(lib, t, iface, to.fam, lib.canon(to.literal), s.blockExternal, rest, p);
    } else {
      LockdownJumpSkips(lib, t, iface, rest, p);
    }
  }

  lemma ShapeJudges(lib: AddrLib, t: Table, s: Settings, shape: Shape, lock: Option<Resolver>, p: Packet)
    requires Sane(lib)
    requires s.firewallOn ==> WgClients in t && t[WgClients] == ChainOf(lib, s)
    requires lock.Some? ==>
               Installed(t, SanitizeIface(s.name), lock.value.fam, lib.canon(lock.value.literal), s.blockExternal)
    requires Rules(t, Forward) == Jumps(shape, SanitizeIface(s.name))
    requires shape.LockOnly? || shape.LockFirst? || shape.ClientsFirst? <==> lock.Some?
    requires shape.ClientsOnly? || shape.LockFirst? || shape.ClientsFirst? <==> s.firewallOn
    ensures FilterVerdict(lib, t, p) ==
              match shape
              case Bare => Fallthrough
              case LockOnly => ByLockdown(lib, s, lock.value, p, Fallthrough)
              case ClientsOnly => ByAccessList(lib, s, p, Fallthrough)
              case LockFirst => ByLockdown(lib, s, lock.value, p, ByAccessList(lib, s, p, Fallthrough))
              case ClientsFirst => ByAccessList(lib, s, p, ByLockdown(lib, s, lock.value, p, Fallthrough))
  {
    var iface := SanitizeIface(s.name);
    var jump, clients := [LockdownJump(iface)], [InJump(iface), OutJump(iface)];
    assert jump + [] == jump && clients + [] == clients;
    match shape
    case Bare =>
    case LockOnly => LockdownJudges(lib, t, s, lock.value, [], p);
    case ClientsOnly => ClientJumpsJudge(lib, t, s, [], p);
    case LockFirst =>
      LockdownJudges(lib, t, s, lock.value, clients, p);
      ClientJumpsJudge(lib, t, s, [], p);
    case ClientsFirst =>
      ClientJumpsJudge(lib, t, s, jump, p);
      LockdownJudges(lib, t, s, lock.value, [], p);
  }

  /** The verdict of every forwarded packet after any run of rebuilds from the fresh table, the last
      of which found a usable target: it depends on the last settings and, where lockdown and
      filtering are both on, on which of them the history put first. */
  lemma RunVerdict(lib: AddrLib, runs: seq<Settings>, iface: string, lock: Option<Resolver>, p: Packet)
    requires Sane(lib) && runs != [] && OneIface(runs, iface)
    requires ClientsOk(lib, runs[|runs| - 1]) && Asks(lib, runs[|runs| - 1], lock)
    ensures FilterVerdict(lib, AfterRebuilds(lib, runs, FreshTable), p) == VerdictAfter(lib, runs, lock, p)
  {
    var s := runs[|runs| - 1];
    assert s in runs;
    PlanByFields(lib, s);
    RunsFollowLastSettings(lib, runs, iface);
    RunsHaveShape(lib, runs, iface);
    LastShape(lib, runs);
    RunsAreTidy(lib, runs, iface);
    ShapeJudges(lib, AfterRebuilds(lib, runs, FreshTable), s, ShapeOf(lib, runs), lock, p);
  }

  /** Where the history put the lockdown first: for packets from the tunnel the lockdown decides
      what it decides, the access list decides the rest, and nothing falls through. */
  lemma LockdownThenAccessList(lib: AddrLib, runs: seq<Settings>, iface: string, to: Resolver, p: Packet)
    requires Sane(lib) && runs != [] && OneIface(runs, iface) && p.iif == iface
    requires var s := runs[|runs| - 1]; ClientsOk(lib, s) && s.firewallOn && LocksTo(lib, s, to.fam, to.literal)
    requires !FilteringFirst(lib, runs)
    ensures var s := runs[|runs| - 1];
            var v := LockdownVerdict(lib, to.fam, lib.canon(to.literal), s.blockExternal, p);
            FilterVerdict(lib, AfterRebuilds(lib, runs, FreshTable), p) == (
              if v != Fallthrough then v
              else if Allowed(lib, s.clients, s.defaults, s.v6on, p) then Accepted else Dropped)
  {
    assert runs[|runs| - 1] in runs;
    RunVerdict(lib, runs, iface, Some(to), p);
  }

  /** After any run that ends with filtering on, packets into the tunnel from outside it are judged
      with the remote host as their source: they are dropped exactly when the access list does not
      allow them, so a reply to an allowed request is dropped unless an enabled client owns the
      address it comes from. */
  lemma RepliesNeedAClient(lib: AddrLib, runs: seq<Settings>, iface: string, lock: Option<Resolver>, p: Packet)
    requires Sane(lib) && runs != [] && OneIface(runs, iface) && p.oif == iface && p.iif != iface
    requires var s := runs[|runs| - 1]; ClientsOk(lib, s) && s.firewallOn && Asks(lib, s, lock)
    ensures var s := runs[|runs| - 1];
            var v := FilterVerdict(lib, AfterRebuilds(lib, runs, FreshTable), p);
            && (v == Dropped <==> !Allowed(lib, s.clients, s.defaults, s.v6on, p))
            && ((forall c :: c in s.clients && c.enabled ==> !lib.inNet(Source(c, p.fam), p.src)) ==> v == Dropped)
  {
    assert runs[|runs| - 1] in runs;
    RunVerdict(lib, runs, iface, lock, p);
  }

  // ---------------------------------------------------------------- where DNS leaks

  lemma ConfinedByVerdict(lib: AddrLib, t: Table, s: Settings, to: Resolver, p: Packet, oif: string)
    requires Sane(lib) && p.iif == SanitizeIface(s.name) && IsDns(p)
    requires Installed(t, SanitizeIface(s.name), to.fam, lib.canon(to.literal), s.blockExternal)
    ensures Confined(lib, to.fam, to.literal, Route(lib, t, p, oif))
            <==> p.fam == to.fam || FilterVerdict(lib, t, p.(oif := oif)) == Dropped
  {
    DnatMeaning(lib, SanitizeIface(s.name), to.fam, lib.canon(to.literal), p);
  }

  /** DNS packets of the other family under the two orders. */
  lemma LeakByOrder(lib: AddrLib, s: Settings, to: Resolver, p: Packet)
    requires p.iif == SanitizeIface(s.name) && IsDns(p) && p.fam != to.fam
    ensures forall rest :: ByLockdown(lib, s, to, p, rest) == Dropped
    ensures forall rest :: ByAccessList(lib, s, p, rest) == Dropped
              <==> !Allowed(lib, s.clients, s.defaults, s.v6on, p)
  {
  }

  /** After any run that ends with the lockdown on, a DNS packet from the tunnel escapes exactly
      when it is of the family that is not redirected, filtering has been on without a break since
      before the last switching-on of the lockdown, and the access list allows it. */
  lemma DnsLeaksIff(lib: AddrLib, runs: seq<Settings>, iface: string, to: Resolver, p: Packet, oif: string)
    requires Sane(lib) && runs != [] && OneIface(runs, iface) && p.iif == iface && IsDns(p)
    requires var s := runs[|runs| - 1]; ClientsOk(lib, s) && LocksTo(lib, s, to.fam, to.literal)
    ensures var s := runs[|runs| - 1];
            !Confined(lib, to.fam, to.literal, Route(lib, AfterRebuilds(lib, runs, FreshTable), p, oif))
            <==> p.fam != to.fam && FilteringFirst(lib, runs)
                 && Allowed(lib, s.clients, s.defaults, s.v6on, p.(oif := oif))
  {
    var s := runs[|runs| - 1];
    assert s in runs;
    PlanByFields(lib, s);
    RunsFollowLastSettings(lib, runs, iface);
    RunVerdict(lib, runs, iface, Some(to), p.(oif := oif));
    ConfinedByVerdict(lib, AfterRebuilds(lib, runs, FreshTable), s, to, p, oif);
    if p.fam != to.fam {
      LeakByVerdict(lib, runs, to, p.(oif := oif));
    }
  }

  lemma LeakByVerdict(lib: AddrLib, runs: seq<Settings>, to: Resolver, p: Packet)
    requires Sane(lib) && runs != []
    requires var s := runs[|runs| - 1];
             && LocksTo(lib, s, to.fam, to.literal)
             && p.iif == SanitizeIface(s.name) && IsDns(p) && p.fam != to.fam
    ensures var s := runs[|runs| - 1];
            VerdictAfter(lib, runs, Some(to), p) == Dropped
            <==> !(FilteringFirst(lib, runs) && Allowed(lib, s.clients, s.defaults, s.v6on, p))
  {
    LeakByOrder(lib, runs[|runs| - 1], to, p);
    LockedIsNotOff(lib, runs[|runs| - 1], to.fam, to.literal);
    FilteringFirstSnoc(lib, runs);
  }

  /** The shortest such history: switched on after client filtering, the lockdown lets a DNS packet
      of the other family out exactly when the access list allows it. Put the other way round, the
      same settings never let it out. */
  lemma LockdownAfterFilteringLeaks(
    lib: AddrLib, filterOnly: Settings, both: Settings, to: Resolver, p: Packet, oif: string)
    requires Sane(lib) && ClientsOk(lib, filterOnly) && ClientsOk(lib, both)
    requires filterOnly.name == both.name && filterOnly.firewallOn && both.firewallOn
    requires SwitchedOff(filterOnly) && LocksTo(lib, both, to.fam, to.literal)
    requires p.iif == SanitizeIface(both.name) && IsDns(p)
    ensures Confined(lib, to.fam, to.literal, Route(lib, AfterRebuilds(lib, [filterOnly, both], FreshTable), p, oif))
            <==> !(p.fam != to.fam && Allowed(lib, both.clients, both.defaults, both.v6on, p.(oif := oif)))
    ensures Confined(lib, to.fam, to.literal, Route(lib, AfterRebuilds(lib, [both], FreshTable), p, oif))
  {
    var late, alone := [filterOnly, both], [both];
    DnsLeaksIff(lib, late, p.iif, to, p, oif);
    DnsLeaksIff(lib, alone, p.iif, to, p, oif);
    assert late[..1] == [filterOnly];
    assert FilteringSinceBefore(lib, late, 0);
    LockedIsNotOff(lib, both, to.fam, to.literal);
  }
}
