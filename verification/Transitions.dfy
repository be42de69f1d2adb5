/** Verdict-preserving changes of the table: what happens to packets between two nft
    transactions of one rebuild. */
module Transitions {
  import opened Nft
  import opened DnsRules
  import opened RebuildSpec

  /** No packet can tell the two tables apart, at either hook. */
  ghost predicate Same(lib: AddrLib, t: Table, u: Table) {
    && (forall p :: FilterVerdict(lib, t, p) == FilterVerdict(lib, u, p))
    && Rules(t, DnsPrerouting) == Rules(u, DnsPrerouting)
  }

  /** Every packet fares alike under both tables, whatever interface it is routed to. */
  ghost predicate RoutesAlike(lib: AddrLib, t: Table, u: Table) {
    forall p: Packet, oif: string :: Route(lib, t, p, oif) == Route(lib, u, p, oif)
  }

  lemma SameRoutes(lib: AddrLib, t: Table, u: Table)
    requires Same(lib, t, u)
    ensures RoutesAlike(lib, t, u)
  {
  }

  predicate OwnJump(iface: string, r: Rule) {
    r == InJump(iface) || r == OutJump(iface) || r == LockdownJump(iface)
  }

  /** The appended jump changes nothing: it repeats a rule of the list, or its chain is empty. */
  predicate Inert(t: Table, rules: seq<Rule>, r: Rule) {
    r.action.Jump? && (r in rules || Rules(t, r.action.chain) == [])
  }

  lemma WalkInert(lib: AddrLib, t: Table, rules: seq<Rule>, r: Rule, p: Packet, depth: nat)
    requires Inert(t, rules, r)
    ensures Walk(lib, t, rules + [r], p, depth) == Walk(lib, t, rules, p, depth)
  {
    if r in rules {
      WalkRepeat(lib, t, rules, r, p, depth);
    } else {
      WalkAppend(lib, t, rules, [r], p, depth);
      assert [r][1..] == [];
      assert Walk(lib, t, [r], p, depth) == Fallthrough;
    }
  }

  /** Each rule of the extension is inert where it is appended. */
  predicate InertAll(t: Table, rules: seq<Rule>, more: seq<Rule>)
    decreases |more|
  {
    more == [] || (Inert(t, rules, more[0]) && InertAll(t, rules + [more[0]], more[1..]))
  }

  lemma {:induction false} WalkInertAll(
    lib: AddrLib, t: Table, rules: seq<Rule>, more: seq<Rule>, p: Packet, depth: nat)
    requires InertAll(t, rules, more)
    ensures Walk(lib, t, rules + more, p, depth) == Walk(lib, t, rules, p, depth)
    decreases |more|
  {
    if more == [] {
      assert rules + more == rules;
    } else {
      WalkInert(lib, t, rules, more[0], p, depth);
      WalkInertAll(lib, t, rules + [more[0]], more[1..], p, depth);
      assert rules + [more[0]] + more[1..] == rules + more;
    }
  }

  /** Ordinary chains and the nat chain read the same in both tables. */
  ghost predicate SameChains(t: Table, u: Table) {
    forall c :: c != Forward ==> Rules(t, c) == Rules(u, c)
  }

  /** Tables that differ only in inert jumps at the end of forward (and in chains that are
      present but empty) are the same to every packet. */
  lemma PaddedSame(lib: AddrLib, t: Table, u: Table, more: seq<Rule>)
    requires SameChains(t, u)
    requires Rules(u, Forward) == Rules(t, Forward) + more && InertAll(t, Rules(t, Forward), more)
    ensures Same(lib, t, u)
  {
    forall p ensures FilterVerdict(lib, t, p) == FilterVerdict(lib, u, p) {
      WalkInertAll(lib, t, Rules(t, Forward), more, p, JUMP_STACK);
      WalkFrame(lib, t, u, Rules(u, Forward), p, JUMP_STACK);
    }
  }

  /** Taking jumps to an empty chain out of a list changes no verdict. */
  lemma {:induction false} WalkDropShown(
    lib: AddrLib, t: Table, rules: seq<Rule>, wants: seq<Rule>, p: Packet, depth: nat)
    requires forall w :: w in wants ==> |w.conds| == 1 && w.action.Jump? && Rules(t, w.action.chain) == []
    ensures Walk(lib, t, DropShown(rules, wants), p, depth) == Walk(lib, t, rules, p, depth)
  {
    if rules != [] {
      var n := |rules| - 1;
      var kept := DropShown(rules[..n], wants);
      WalkDropShown(lib, t, rules[..n], wants, p, depth);
      WalkAppend(lib, t, rules[..n], [rules[n]], p, depth);
      assert rules == rules[..n] + [rules[n]];
      if ShowsAny(rules[n], wants) {
        assert kept + [] == kept;
        assert [rules[n]][1..] == [];
        assert Walk(lib, t, [rules[n]], p, depth) == Fallthrough;
      } else {
        WalkAppend(lib, t, kept, [rules[n]], p, depth);
      }
    }
  }

  lemma DroppedSame(lib: AddrLib, t: Table, u: Table, wants: seq<Rule>)
    requires forall w :: w in wants ==> |w.conds| == 1 && w.action.Jump? && Rules(t, w.action.chain) == []
    requires SameChains(t, u) && Rules(u, Forward) == DropShown(Rules(t, Forward), wants)
    ensures Same(lib, t, u)
  {
    forall p ensures FilterVerdict(lib, t, p) == FilterVerdict(lib, u, p) {
      WalkDropShown(lib, t, Rules(t, Forward), wants, p, JUMP_STACK);
      WalkFrame(lib, t, u, Rules(u, Forward), p, JUMP_STACK);
    }
  }

  // ---------------------------------------------------------------- coherence

  /** The table agrees with the unchanged lockdown settings. */
  predicate DnsCoherent(lib: AddrLib, s: Settings, t: Table) {
    var iface := SanitizeIface(s.name);
    match PlanOf(lib, s)
    case Off =>
      DnsLockdown !in t && DnsPrerouting !in t && !Listed(Rules(t, Forward), LockdownJump(iface))
    case Refused => true
    case On(fam, target) =>
      Installed(t, iface, fam, target, s.blockExternal) && LockdownJump(iface) in Rules(t, Forward)
  }

  /** Both client jumps are in place, or there is nothing behind them yet. */
  predicate ClientCoherent(s: Settings, t: Table) {
    var iface := SanitizeIface(s.name);
    (InJump(iface) in Rules(t, Forward) && OutJump(iface) in Rules(t, Forward)) || Rules(t, WgClients) == []
  }

  /** Lines that show an own jump are that jump, not a narrower rule of somebody else's. */
  predicate NoNarrowJumps(iface: string, rules: seq<Rule>) {
    forall r :: r in rules ==>
      && (Shows(r, InJump(iface)) ==> r == InJump(iface))
      && (Shows(r, OutJump(iface)) ==> r == OutJump(iface))
      && (Shows(r, LockdownJump(iface)) ==> r == LockdownJump(iface))
  }

  predicate Coherent(lib: AddrLib, s: Settings, t: Table) {
    DnsCoherent(lib, s, t) && ClientCoherent(s, t) && NoNarrowJumps(SanitizeIface(s.name), Rules(t, Forward))
  }

  /** Coherence speaks about the lockdown settings only; the roster may change. */
  lemma CoherentAcrossRosters(lib: AddrLib, s: Settings, r: Settings, t: Table)
    requires Coherent(lib, s, t)
    requires s.name == r.name && PlanOf(lib, s) == PlanOf(lib, r) && s.blockExternal == r.blockExternal
    ensures Coherent(lib, r, t)
  {
  }

  // ---------------------------------------------------------------- the steps of one rebuild

  /** The DNS part is in force and nobody else's rule looks like an own jump. */
  predicate DnsTidy(lib: AddrLib, s: Settings, t: Table) {
    DnsCoherent(lib, s, t) && NoNarrowJumps(SanitizeIface(s.name), Rules(t, Forward))
  }

  /** Own client jumps appended to forward, and a new client chain, leave the DNS part in force. */
  lemma ExtendDnsTidy(lib: AddrLib, s: Settings, u: Table, w: Table, more: seq<Rule>)
    requires DnsTidy(lib, s, u)
    requires forall c :: c != WgClients && c != Forward ==> (c in u <==> c in w) && Rules(u, c) == Rules(w, c)
    requires Rules(w, Forward) == Rules(u, Forward) + more
    requires forall r :: r in more ==> r == InJump(SanitizeIface(s.name)) || r == OutJump(SanitizeIface(s.name))
    ensures DnsTidy(lib, s, w)
  {
    var iface := SanitizeIface(s.name);
    assert Rules(w, DnsPrerouting) == Rules(u, DnsPrerouting) && Rules(w, DnsLockdown) == Rules(u, DnsLockdown);
    assert forall r :: r in Rules(w, Forward) <==> r in Rules(u, Forward) || r in more;
    assert !Shows(InJump(iface), LockdownJump(iface)) && !Shows(OutJump(iface), LockdownJump(iface));
    assert Listed(Rules(w, Forward), LockdownJump(iface)) ==> Listed(Rules(u, Forward), LockdownJump(iface));
  }

  /** So do fewer client jumps. */
  lemma DropDnsTidy(lib: AddrLib, s: Settings, u: Table, w: Table)
    requires DnsTidy(lib, s, u)
    requires forall c :: c != WgClients && c != Forward ==> (c in u <==> c in w) && Rules(u, c) == Rules(w, c)
    requires var iface := SanitizeIface(s.name);
             Rules(w, Forward) == DropShown(Rules(u, Forward), [InJump(iface), OutJump(iface)])
    ensures DnsTidy(lib, s, w)
  {
    var iface := SanitizeIface(s.name);
    var wants := [InJump(iface), OutJump(iface)];
    assert Rules(w, DnsPrerouting) == Rules(u, DnsPrerouting) && Rules(w, DnsLockdown) == Rules(u, DnsLockdown);
    forall r ensures r in Rules(w, Forward) ==> r in Rules(u, Forward) {
      DropShownKeeps(Rules(u, Forward), wants, r);
    }
    DropShownKeeps(Rules(u, Forward), wants, LockdownJump(iface));
    assert !Shows(LockdownJump(iface), InJump(iface)) && !Shows(LockdownJump(iface), OutJump(iface));
  }

  lemma InertTwo(t: Table, rules: seq<Rule>, a: Rule, b: Rule)
    requires Inert(t, rules, a) && Inert(t, rules + [a], b)
    ensures InertAll(t, rules, [a, b])
  {
    assert [a, b][1..] == [b];
    assert [b][1..] == [];
    assert InertAll(t, rules + [a], [b]);
  }

  lemma InertOne(t: Table, rules: seq<Rule>, a: Rule)
    requires Inert(t, rules, a)
    ensures InertAll(t, rules, [a])
  {
    assert [a][1..] == [];
  }

  /** While the client part is coherent, the two client jumps may be appended blindly. */
  lemma ClientJumpsInert(s: Settings, t: Table, rules: seq<Rule>)
    requires (InJump(SanitizeIface(s.name)) in rules && OutJump(SanitizeIface(s.name)) in rules)
             || Rules(t, WgClients) == []
    ensures var iface := SanitizeIface(s.name);
            && InertAll(t, rules, [InJump(iface), OutJump(iface)])
            && InertAll(t, rules, MissingClientJumps(rules, iface))
  {
    var iface := SanitizeIface(s.name);
    InertTwo(t, rules, InJump(iface), OutJump(iface));
    if InJump(iface) in rules && OutJump(iface) in rules {
      assert Shows(InJump(iface), InJump(iface)) && Shows(OutJump(iface), OutJump(iface));
      assert MissingClientJumps(rules, iface) == [];
    } else {
      InertOne(t, rules, InJump(iface));
      InertOne(t, rules, OutJump(iface));
      assert IfUnlisted(rules, InJump(iface)) + [] == IfUnlisted(rules, InJump(iface));
      assert [] + IfUnlisted(rules, OutJump(iface)) == IfUnlisted(rules, OutJump(iface));
      assert [InJump(iface)] + [OutJump(iface)] == [InJump(iface), OutJump(iface)];
    }
  }

  /** With both jumps appended or listed, filling the chain gives one and the same ruleset,
      however many inert copies of the jumps were appended on the way. */
  lemma {:induction false} FullExtensionsAgree(
    lib: AddrLib, t: Table, rules: seq<Rule>, iface: string, p: Packet, depth: nat)
    requires NoNarrowJumps(iface, rules)
    ensures Walk(lib, t, rules + MissingClientJumps(rules, iface), p, depth)
         == Walk(lib, t, rules + [InJump(iface), OutJump(iface)], p, depth)
  {
    var a, b := InJump(iface), OutJump(iface);
    assert Shows(a, a) && Shows(b, b);
    assert Listed(rules, a) <==> a in rules;
    assert Listed(rules, b) <==> b in rules;
    assert rules + [a, b] == rules + [a] + [b];
    if a in rules && b in rules {
      assert rules + MissingClientJumps(rules, iface) == rules;
      WalkInert(lib, t, rules, a, p, depth);
      WalkInert(lib, t, rules + [a], b, p, depth);
    } else if a in rules {
      assert rules + MissingClientJumps(rules, iface) == rules + [b];
      WalkInert(lib, t, rules, a, p, depth);
      WalkAppend(lib, t, rules, [b], p, depth);
      WalkAppend(lib, t, rules + [a], [b], p, depth);
    } else if b in rules {
      assert rules + MissingClientJumps(rules, iface) == rules + [a];
      WalkInert(lib, t, rules + [a], b, p, depth);
    } else {
      assert rules + MissingClientJumps(rules, iface) == rules + [a, b];
    }
  }

  /** Walk respects equal prefixes. */
  lemma WalkSamePrefix(lib: AddrLib, t: Table, a: seq<Rule>, b: seq<Rule>, more: seq<Rule>, p: Packet, depth: nat)
    requires Walk(lib, t, a, p, depth) == Walk(lib, t, b, p, depth)
    ensures Walk(lib, t, a + more, p, depth) == Walk(lib, t, b + more, p, depth)
  {
    WalkAppend(lib, t, a, more, p, depth);
    WalkAppend(lib, t, b, more, p, depth);
  }
}
