/** DNS lockdown: the prerouting redirect, the two filter variants, and the confinement
    they give together. */
module DnsRules {
  import opened Text
  import opened Nft

  const DnsPorts: set<nat> := {53, 853}

  predicate IsDns(p: Packet) {
    (p.proto == Udp || p.proto == Tcp) && (p.dport == 53 || p.dport == 853)
  }

  function Other(fam: Family): Family {
    if fam == V4 then V6 else V4
  }

  /** Reads the operator's target: an IPv4 literal, or an IPv6 literal with or without
      brackets, as (family, canonical text). None is the error result. */
  function ParseTargetIp(lib: AddrLib, raw: string): (r: Option<(Family, string)>)
    ensures Sane(lib) && r.Some? ==>
              var (fam, text) := r.value;
              IsLiteral(lib, fam, text) && (lib.isV4(text) || lib.isV6(text))
  {
    var t := Trim(raw);
    if t == [] || !('.' in t || ':' in t) then None
    else if lib.isV4(t) then Some((V4, lib.canon(t)))
    else
      var inner := if |t| >= 2 && t[0] == '[' && t[|t| - 1] == ']' then t[1..|t| - 1] else t;
      if lib.isV6(inner) then Some((V6, lib.canon(inner))) else None
  }

  /** The two spellings of an IPv6 target. */
  predicate SpellsV6(t: string, a: string) {
    t == a || t == "[" + a + "]"
  }

  lemma SpellingIsUnique(lib: AddrLib, t: string, a: string)
    requires Sane(lib) && lib.isV6(a) && SpellsV6(t, a)
    ensures t != [] && ':' in t && !lib.isV4(t)
    ensures a == if |t| >= 2 && t[0] == '[' && t[|t| - 1] == ']' then t[1..|t| - 1] else t
  {
    assert a != [] && ':' in a;
    var i :| 0 <= i < |a| && a[i] == ':';
    assert t[if t == a then i else i + 1] == ':';
    if t == a {
      assert a[0] != '[';
    } else {
      assert t[1..|t| - 1] == a;
    }
  }

  /** Exactly the address literals are accepted, IPv6 ones with or without brackets, with any
      space around them; the reported text has the family and the number of the input. */
  lemma TargetIpIff(lib: AddrLib, raw: string)
    requires Sane(lib)
    ensures var (t, r) := (Trim(raw), ParseTargetIp(lib, raw));
            && (lib.isV4(t) ==> r == Some((V4, lib.canon(t))))
            && (forall a :: lib.isV6(a) && SpellsV6(t, a) ==> r == Some((V6, lib.canon(a))))
            && (r.Some? <==> lib.isV4(t) || exists a :: lib.isV6(a) && SpellsV6(t, a))
    ensures forall a :: lib.value(lib.canon(a)) == lib.value(a)
  {
    var t, r := Trim(raw), ParseTargetIp(lib, raw);
    forall a | lib.isV6(a) && SpellsV6(t, a) ensures r == Some((V6, lib.canon(a))) {
      SpellingIsUnique(lib, t, a);
    }
    if r.Some? && !lib.isV4(t) {
      var inner := if |t| >= 2 && t[0] == '[' && t[|t| - 1] == ']' then t[1..|t| - 1] else t;
      assert inner != t ==> t == [t[0]] + inner + [t[|t| - 1]];
      assert lib.isV6(inner) && SpellsV6(t, inner);
    }
  }

  function DnatRules(iface: string, fam: Family, target: string): seq<Rule> {
    [Rule([IifName(iface), NfProto(fam), DPort(Udp, DnsPorts)], Dnat(target, 53)),
     Rule([IifName(iface), NfProto(fam), DPort(Tcp, DnsPorts)], Dnat(target, 53))]
  }

  function FilterRules(fam: Family, target: string): seq<Rule> {
    [Rule([DAddr(fam, target)], Accept),
     Rule([DPort(Udp, DnsPorts)], Drop),
     Rule([DPort(Tcp, DnsPorts)], Drop)]
  }

  function LeakGuardRules(fam: Family): seq<Rule> {
    [Rule([NfProto(Other(fam)), DPort(Udp, DnsPorts)], Drop),
     Rule([NfProto(Other(fam)), DPort(Tcp, DnsPorts)], Drop)]
  }

  function LockdownChain(fam: Family, target: string, blockExternal: bool): seq<Rule> {
    if blockExternal then FilterRules(fam, target) else LeakGuardRules(fam)
  }

  function LockdownJump(iface: string): Rule {
    Rule([IifName(iface)], Jump(DnsLockdown))
  }

  predicate LockdownFirst(iface: string, rules: seq<Rule>) {
    rules != [] && rules[0] == LockdownJump(iface)
  }

  predicate Installed(t: Table, iface: string, fam: Family, target: string, blockExternal: bool) {
    && DnsPrerouting in t && t[DnsPrerouting] == DnatRules(iface, fam, target)
    && DnsLockdown in t && t[DnsLockdown] == LockdownChain(fam, target, blockExternal)
  }

  // ---------------------------------------------------------------- meaning

  function Redirected(lib: AddrLib, target: string, p: Packet): Packet {
    p.(dst := lib.value(target), dport := 53)
  }

  lemma DnatMeaning(lib: AddrLib, iface: string, fam: Family, target: string, p: Packet)
    ensures Prerouted(lib, DnatRules(iface, fam, target), p)
         == if p.iif == iface && p.fam == fam && IsDns(p) then Redirected(lib, target, p) else p
  {
    var rules := DnatRules(iface, fam, target);
    Match3(lib, rules[0], p);
    Match3(lib, rules[1], p);
    var tail := [rules[1]];
    assert rules[1..] == tail && tail[1..] == [];
    assert Prerouted(lib, tail, p) == if Matches(lib, rules[1], p) then Redirected(lib, target, p) else p;
  }

  lemma Match1(lib: AddrLib, r: Rule, p: Packet)
    requires |r.conds| == 1
    ensures Matches(lib, r, p) <==> Holds(lib, r.conds[0], p)
  {
  }

  lemma Match2(lib: AddrLib, r: Rule, p: Packet)
    requires |r.conds| == 2
    ensures Matches(lib, r, p) <==> Holds(lib, r.conds[0], p) && Holds(lib, r.conds[1], p)
  {
  }

  lemma Match3(lib: AddrLib, r: Rule, p: Packet)
    requires |r.conds| == 3
    ensures Matches(lib, r, p) <==>
              Holds(lib, r.conds[0], p) && Holds(lib, r.conds[1], p) && Holds(lib, r.conds[2], p)
  {
  }

  /** What the lockdown chain does to a packet, in one line per case. */
  function LockdownVerdict(lib: AddrLib, fam: Family, target: string, blockExternal: bool, p: Packet): Verdict {
    if blockExternal && p.fam == fam && lib.inNet(target, p.dst) then Accepted
    else if IsDns(p) && (blockExternal || p.fam != fam) then Dropped
    else Fallthrough
  }

  lemma LockdownMeaning(
    lib: AddrLib, t: Table, fam: Family, target: string, blockExternal: bool, p: Packet, depth: nat)
    ensures Walk(lib, t, LockdownChain(fam, target, blockExternal), p, depth)
         == LockdownVerdict(lib, fam, target, blockExternal, p)
  {
    var rules := LockdownChain(fam, target, blockExternal);
    if blockExternal {
      Match1(lib, rules[0], p);
      Match1(lib, rules[1], p);
      Match1(lib, rules[2], p);
      var tail, last := [rules[1], rules[2]], [rules[2]];
      assert rules[1..] == tail && tail[1..] == last && last[1..] == [];
      assert Walk(lib, t, last, p, depth) == if Matches(lib, rules[2], p) then Dropped else Fallthrough;
      assert Walk(lib, t, tail, p, depth) == if IsDns(p) then Dropped else Fallthrough;
    } else {
      Match2(lib, rules[0], p);
      Match2(lib, rules[1], p);
      var tail := [rules[1]];
      assert rules[1..] == tail && tail[1..] == [];
      assert Walk(lib, t, tail, p, depth) == if Matches(lib, rules[1], p) then Dropped else Fallthrough;
    }
  }

  lemma JumpVerdict(
    lib: AddrLib, t: Table, iface: string, fam: Family, target: string, blockExternal: bool,
    post: seq<Rule>, p: Packet)
    requires Installed(t, iface, fam, target, blockExternal)
    requires p.iif == iface
    ensures Walk(lib, t, [LockdownJump(iface)] + post, p, JUMP_STACK)
         == var v := LockdownVerdict(lib, fam, target, blockExternal, p);
            if v == Fallthrough then Walk(lib, t, post, p, JUMP_STACK) else v
  {
    Match1(lib, LockdownJump(iface), p);
    LockdownMeaning(lib, t, fam, target, blockExternal, p, JUMP_STACK - 1);
    assert ([LockdownJump(iface)] + post)[1..] == post;
  }

  /** Dropped, or on its way to the resolver's port 53. */
  predicate Confined(lib: AddrLib, fam: Family, target: string, leaving: Option<Packet>) {
    leaving.Some? ==>
      leaving.value.fam == fam && leaving.value.dst == lib.value(target) && leaving.value.dport == 53
  }

  /** No DNS escape, with its exact condition. When the lockdown is installed and its jump
      stands somewhere in the forward chain, a DNS or DoT packet from the interface gets out
      to another resolver if and only if it is of the family that cannot be redirected and
      a rule ahead of the jump accepts it. */
  lemma DnsEscapesOnlyAheadOfTheJump(
    lib: AddrLib, t: Table, iface: string, fam: Family, target: string, blockExternal: bool,
    pre: seq<Rule>, post: seq<Rule>, p: Packet, oif: string)
    requires Installed(t, iface, fam, target, blockExternal)
    requires Forward in t && t[Forward] == pre + [LockdownJump(iface)] + post
    requires p.iif == iface && IsDns(p)
    ensures !Confined(lib, fam, target, Route(lib, t, p, oif)) <==>
              p.fam != fam && Walk(lib, t, pre, p.(oif := oif), JUMP_STACK) == Accepted
  {
    DnatMeaning(lib, iface, fam, target, p);
    var q := Prerouted(lib, t[DnsPrerouting], p).(oif := oif);
    assert t[Forward] == pre + ([LockdownJump(iface)] + post);
    WalkAppend(lib, t, pre, [LockdownJump(iface)] + post, q, JUMP_STACK);
    JumpVerdict(lib, t, iface, fam, target, blockExternal, post, q);
  }

  /** With the jump first no DNS packet from the interface escapes, in either family and for
      either block setting. */
  lemma LockdownFirstConfinesDns(
    lib: AddrLib, t: Table, iface: string, fam: Family, target: string, blockExternal: bool,
    post: seq<Rule>, p: Packet, oif: string)
    requires Installed(t, iface, fam, target, blockExternal)
    requires Forward in t && t[Forward] == [LockdownJump(iface)] + post
    requires p.iif == iface && IsDns(p)
    ensures Confined(lib, fam, target, Route(lib, t, p, oif))
  {
    assert t[Forward] == [] + [LockdownJump(iface)] + post;
    DnsEscapesOnlyAheadOfTheJump(lib, t, iface, fam, target, blockExternal, [], post, p, oif);
  }

  /** Everything else keeps its destination: traffic that is not DNS, that comes from another
      interface, or that is of the other family leaves as it came or not at all. */
  lemma OnlyRedirectableDnsIsRewritten(
    lib: AddrLib, t: Table, iface: string, fam: Family, target: string, blockExternal: bool, p: Packet, oif: string)
    requires Installed(t, iface, fam, target, blockExternal)
    ensures var out := Route(lib, t, p, oif);
            out.Some? ==>
              out.value == if p.iif == iface && p.fam == fam && IsDns(p)
                           then Redirected(lib, target, p).(oif := oif) else p.(oif := oif)
  {
    DnatMeaning(lib, iface, fam, target, p);
  }
}
