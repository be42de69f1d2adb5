/** The table a rebuild aims at when every nft call succeeds, as a function of the settings
    and the table found, and what runs of rebuilds keep. */
module RebuildSpec {
  import opened Text
  import opened Nft
  import opened ClientRules
  import opened DnsRules

  /** The database rows a rebuild reads. */
  datatype Settings = Settings(
    name: string, firewallOn: bool, lockdownOn: bool, lockdownTarget: string, blockExternal: bool,
    v6on: bool, clients: seq<Client>, defaults: seq<string>)

  predicate IfaceChar(c: char) {
    IsDigit(c) || 'a' <= c <= 'z' || 'A' <= c <= 'Z' || c == '_' || c == '-'
  }

  function KeepIfaceChars(s: string): string {
    if s == [] then [] else (if IfaceChar(s[0]) then [s[0]] else []) + KeepIfaceChars(s[1..])
  }

  function SanitizeIface(name: string): string {
    var kept := KeepIfaceChars(name);
    if |kept| > 15 then kept[..15] else kept
  }

  /** The first fifteen of the name's letters, digits, underscores and hyphens, in order; a name
      that has nothing else and is short enough stays as it is. */
  lemma SanitizedNames(name: string)
    ensures |SanitizeIface(name)| <= 15
    ensures forall c :: c in SanitizeIface(name) ==>
              '0' <= c <= '9' || 'a' <= c <= 'z' || 'A' <= c <= 'Z' || c == '_' || c == '-'
    ensures (forall c :: c in name ==>
               '0' <= c <= '9' || 'a' <= c <= 'z' || 'A' <= c <= 'Z' || c == '_' || c == '-')
            ==> SanitizeIface(name) == name[..if |name| < 15 then |name| else 15]
    ensures name != [] && !('0' <= name[0] <= '9' || 'a' <= name[0] <= 'z' || 'A' <= name[0] <= 'Z'
                            || name[0] == '_' || name[0] == '-')
            ==> SanitizeIface(name) == SanitizeIface(name[1..])
  {
    KeptChars(name);
    assert forall c :: c in SanitizeIface(name) ==> c in KeepIfaceChars(name);
  }

  lemma {:induction false} KeptChars(name: string)
    ensures forall c :: c in KeepIfaceChars(name) ==> c in name && IfaceChar(c)
    ensures (forall c :: c in name ==> IfaceChar(c)) ==> KeepIfaceChars(name) == name
  {
    if name != [] {
      KeptChars(name[1..]);
      assert name == [name[0]] + name[1..];
    }
  }

  function InJump(iface: string): Rule {
    Rule([IifName(iface)], Jump(WgClients))
  }

  function OutJump(iface: string): Rule {
    Rule([OifName(iface)], Jump(WgClients))
  }

  /** A listed rule whose line contains the text of the wanted jump: the wanted match
      directly before the wanted jump, with anything in front. */
  predicate Shows(r: Rule, want: Rule)
    requires |want.conds| == 1
  {
    r.conds != [] && r.conds[|r.conds| - 1] == want.conds[0] && r.action == want.action
  }

  predicate Listed(rules: seq<Rule>, want: Rule)
    requires |want.conds| == 1
  {
    exists r :: r in rules && Shows(r, want)
  }

  predicate ShowsAny(r: Rule, wants: seq<Rule>)
    requires forall w :: w in wants ==> |w.conds| == 1
  {
    exists w :: w in wants && Shows(r, w)
  }

  function IfUnlisted(rules: seq<Rule>, want: Rule): seq<Rule>
    requires |want.conds| == 1
  {
    if Listed(rules, want) then [] else [want]
  }

  /** The listing without the lines that show one of the wanted jumps. */
  function DropShown(rules: seq<Rule>, wants: seq<Rule>): seq<Rule>
    requires forall w :: w in wants ==> |w.conds| == 1
  {
    if rules == [] then []
    else
      var n := |rules| - 1;
      DropShown(rules[..n], wants) + if ShowsAny(rules[n], wants) then [] else [rules[n]]
  }

  function EnsureChain(t: Table, c: ChainId): Table {
    if c in t then t else t[c := []]
  }

  function AppendForward(t: Table, rules: seq<Rule>): Table {
    t[Forward := Rules(t, Forward) + rules]
  }

  // ---------------------------------------------------------------- client part

  function ClientChains(t: Table): Table {
    EnsureChain(EnsureChain(t, WgClients), Forward)
  }

  function MissingClientJumps(rules: seq<Rule>, iface: string): seq<Rule> {
    IfUnlisted(rules, InJump(iface)) + IfUnlisted(rules, OutJump(iface))
  }

  /** init_chain: both chains exist and both jumps are listed afterwards. */
  function Inited(t: Table, iface: string): Table {
    var u := ClientChains(t);
    AppendForward(u, MissingClientJumps(Rules(u, Forward), iface))
  }

  function DropClientJumps(t: Table, iface: string): Table {
    if Forward in t then t[Forward := DropShown(t[Forward], [InJump(iface), OutJump(iface)])] else t
  }

  function ChainOf(lib: AddrLib, s: Settings): seq<Rule> {
    ClientChain(lib, s.clients, s.defaults, s.v6on)
  }

  // ---------------------------------------------------------------- DNS part

  datatype DnsPlan = Off | Refused | On(fam: Family, target: string)

  function PlanOf(lib: AddrLib, s: Settings): DnsPlan {
    if !s.lockdownOn || Trim(s.lockdownTarget) == [] then Off
    else match ParseTargetIp(lib, s.lockdownTarget)
      case None => Refused
      case Some((fam, text)) => if fam == V6 && !s.v6on then Refused else On(fam, text)
  }

  /** The lockdown switch is off, or there is nothing stored to redirect to. */
  predicate SwitchedOff(s: Settings) {
    !s.lockdownOn || Trim(s.lockdownTarget) == []
  }

  /** The lockdown switch is on and the stored target spells the address literal `a` of a family
      that is not disabled. */
  predicate LocksTo(lib: AddrLib, s: Settings, fam: Family, a: string) {
    && s.lockdownOn
    && match fam
       case V4 => lib.isV4(a) && Trim(s.lockdownTarget) == a
       case V6 => s.v6on && lib.isV6(a) && SpellsV6(Trim(s.lockdownTarget), a)
  }

  ghost predicate InLockdown(lib: AddrLib, s: Settings) {
    exists fam, a :: LocksTo(lib, s, fam, a)
  }

  /** The lockdown switch is on with a target that is no literal, or one of the disabled family. */
  ghost predicate Unusable(lib: AddrLib, s: Settings) {
    !SwitchedOff(s) && !InLockdown(lib, s)
  }

  /** Which way a rebuild takes, in the fields of the interface row. */
  lemma PlanByFields(lib: AddrLib, s: Settings)
    requires Sane(lib)
    ensures PlanOf(lib, s) == Off <==> SwitchedOff(s)
    ensures forall fam, a :: LocksTo(lib, s, fam, a) ==> PlanOf(lib, s) == On(fam, lib.canon(a))
    ensures PlanOf(lib, s).On? <==> InLockdown(lib, s)
    ensures PlanOf(lib, s) == Refused <==> Unusable(lib, s)
  {
    TargetIpIff(lib, s.lockdownTarget);
    forall fam, a | LocksTo(lib, s, fam, a) ensures PlanOf(lib, s) == On(fam, lib.canon(a)) {
      LockedIsNotOff(lib, s, fam, a);
    }
    if PlanOf(lib, s).On? {
      var t := Trim(s.lockdownTarget);
      if lib.isV4(t) {
        assert LocksTo(lib, s, V4, t);
      } else {
        var a :| lib.isV6(a) && SpellsV6(t, a);
        assert LocksTo(lib, s, V6, a);
      }
    }
  }

  lemma PlanKind(lib: AddrLib, s: Settings)
    requires Sane(lib)
    ensures (PlanOf(lib, s) == Off <==> SwitchedOff(s)) && (PlanOf(lib, s).On? <==> InLockdown(lib, s))
    ensures PlanOf(lib, s) == Refused <==> Unusable(lib, s)
  {
    PlanByFields(lib, s);
  }

  lemma LockedIsNotOff(lib: AddrLib, s: Settings, fam: Family, a: string)
    requires Sane(lib) && LocksTo(lib, s, fam, a)
    ensures !SwitchedOff(s)
  {
    if fam == V6 {
      SpellingIsUnique(lib, Trim(s.lockdownTarget), a);
    }
  }

  function DropLockdownJump(t: Table, iface: string): Table {
    if Forward in t then t[Forward := DropShown(t[Forward], [LockdownJump(iface)])] else t
  }

  /** flush and delete in one transaction; nothing happens while a jump still refers to it. */
  function DropChain(t: Table, c: ChainId): Table {
    if c in t && (IsBase(c) || !Referenced(t[c := []], c)) then t - {c} else t
  }

  function DnsRemoved(t: Table, iface: string): Table {
    DropChain(DropChain(DropLockdownJump(t, iface), DnsLockdown), DnsPrerouting)
  }

  function DnsChains(t: Table): Table {
    EnsureChain(EnsureChain(EnsureChain(t, Forward), DnsPrerouting), DnsLockdown)
  }

  function DnsEnsured(t: Table, iface: string): Table {
    var u := DnsChains(t);
    AppendForward(u, IfUnlisted(Rules(u, Forward), LockdownJump(iface)))
  }

  function DnsFilled(t: Table, iface: string, fam: Family, target: string, blockExternal: bool): Table {
    t[DnsPrerouting := DnatRules(iface, fam, target)][DnsLockdown := LockdownChain(fam, target, blockExternal)]
  }

  /** The table after the DNS step, and whether the step succeeded. */
  function DnsRebuilt(lib: AddrLib, s: Settings, t: Table): (Table, bool) {
    var iface := SanitizeIface(s.name);
    match PlanOf(lib, s)
    case Off => (DnsRemoved(t, iface), true)
    case Refused => (t, false)
    case On(fam, target) => (DnsFilled(DnsEnsured(t, iface), iface, fam, target, s.blockExternal), true)
  }

  // ---------------------------------------------------------------- whole rebuild

  function ClientsRebuilt(lib: AddrLib, s: Settings, t: Table): (Table, bool) {
    var iface := SanitizeIface(s.name);
    if !s.firewallOn then
      if WgClients !in t then (t, false) else (DropClientJumps(t[WgClients := []], iface), true)
    else
      var u := Inited(t, iface);
      match ExecAll(lib, u, [Flush(WgClients)] + Adds(WgClients, ChainOf(lib, s)))
      case None => (u, false)
      case Some(v) => (v, true)
  }

  function Rebuilt(lib: AddrLib, s: Settings, t: Table): (Table, bool) {
    var (u, ok) := DnsRebuilt(lib, s, t);
    if !ok then (u, false) else ClientsRebuilt(lib, s, u)
  }

  function AfterRebuilds(lib: AddrLib, runs: seq<Settings>, t: Table): Table {
    if runs == [] then t
    else Rebuilt(lib, runs[|runs| - 1], AfterRebuilds(lib, runs[..|runs| - 1], t)).0
  }

  ghost predicate ClientsOk(lib: AddrLib, s: Settings) {
    forall c :: c in s.clients && c.enabled ==> AddressesOk(lib, c)
  }

  // ---------------------------------------------------------------- jump counting

  function CountShown(rules: seq<Rule>, want: Rule): nat
    requires |want.conds| == 1
  {
    if rules == [] then 0
    else CountShown(rules[..|rules| - 1], want) + if Shows(rules[|rules| - 1], want) then 1 else 0
  }

  predicate IsOwnedJump(want: Rule) {
    |want.conds| == 1 && (want.conds[0].IifName? || want.conds[0].OifName?)
    && (want.action == Jump(WgClients) || want.action == Jump(DnsLockdown))
  }

  /** Whatever the interface is called, each of its jumps stands in forward at most once. */
  ghost predicate JumpsOnce(t: Table) {
    forall want :: IsOwnedJump(want) ==> CountShown(Rules(t, Forward), want) <= 1
  }

  lemma {:induction false} CountZero(rules: seq<Rule>, want: Rule)
    requires |want.conds| == 1
    ensures CountShown(rules, want) == 0 <==> !Listed(rules, want)
  {
    if rules != [] {
      var n := |rules| - 1;
      CountZero(rules[..n], want);
      assert rules == rules[..n] + [rules[n]];
      assert forall r :: r in rules <==> r in rules[..n] || r == rules[n];
    }
  }

  lemma CountSnoc(rules: seq<Rule>, r: Rule, want: Rule)
    requires |want.conds| == 1
    ensures CountShown(rules + [r], want) == CountShown(rules, want) + if Shows(r, want) then 1 else 0
  {
    assert (rules + [r])[..|rules|] == rules;
  }

  lemma {:induction false} CountDrop(rules: seq<Rule>, wants: seq<Rule>, want: Rule)
    requires |want.conds| == 1 && forall w :: w in wants ==> |w.conds| == 1
    ensures CountShown(DropShown(rules, wants), want) <= CountShown(rules, want)
  {
    if rules != [] {
      var n := |rules| - 1;
      CountDrop(rules[..n], wants, want);
      CountSnoc(DropShown(rules[..n], wants), rules[n], want);
      assert DropShown(rules[..n], wants) + [] == DropShown(rules[..n], wants);
    }
  }

  /** Appending a jump only when no line shows it keeps every jump at most once. */
  lemma AppendMissingOnce(rules: seq<Rule>, jump: Rule)
    requires IsOwnedJump(jump)
    requires forall want :: IsOwnedJump(want) ==> CountShown(rules, want) <= 1
    ensures forall want :: IsOwnedJump(want) ==> CountShown(rules + IfUnlisted(rules, jump), want) <= 1
  {
    assert rules + [] == rules;
    CountZero(rules, jump);
    forall want | IsOwnedJump(want) ensures CountShown(rules + IfUnlisted(rules, jump), want) <= 1 {
      CountSnoc(rules, jump, want);
      assert Shows(jump, want) ==> jump == want;
    }
  }

  lemma MissingStable(rules: seq<Rule>, a: Rule, b: Rule)
    requires |a.conds| == 1 && |b.conds| == 1 && a.conds[0] != b.conds[0]
    ensures IfUnlisted(rules + IfUnlisted(rules, a), b) == IfUnlisted(rules, b)
  {
    assert forall r :: r in rules + [a] <==> r in rules || r == a;
  }

  lemma DnsRebuiltOnce(lib: AddrLib, s: Settings, t: Table)
    requires JumpsOnce(t)
    ensures JumpsOnce(DnsRebuilt(lib, s, t).0)
  {
    var iface := SanitizeIface(s.name);
    match PlanOf(lib, s)
    case Off =>
      var u := DropLockdownJump(t, iface);
      forall want | IsOwnedJump(want) ensures CountShown(Rules(u, Forward), want) <= 1 {
        CountDrop(Rules(t, Forward), [LockdownJump(iface)], want);
      }
      assert Rules(DnsRemoved(t, iface), Forward) == Rules(u, Forward);
    case Refused =>
    case On(fam, target) =>
      var u := DnsChains(t);
      assert Rules(u, Forward) == Rules(t, Forward);
      AppendMissingOnce(Rules(u, Forward), LockdownJump(iface));
  }

  lemma InitedOnce(t: Table, iface: string)
    requires JumpsOnce(t)
    ensures JumpsOnce(Inited(t, iface))
  {
    var rules := Rules(ClientChains(t), Forward);
    assert rules == Rules(t, Forward);
    AppendMissingOnce(rules, InJump(iface));
    AppendMissingOnce(rules + IfUnlisted(rules, InJump(iface)), OutJump(iface));
    MissingStable(rules, InJump(iface), OutJump(iface));
    assert rules + MissingClientJumps(rules, iface)
        == rules + IfUnlisted(rules, InJump(iface)) + IfUnlisted(rules, OutJump(iface));
  }

  lemma FillKeepsForward(lib: AddrLib, s: Settings, t: Table)
    requires WgClients in t
    ensures var r := ExecAll(lib, t, [Flush(WgClients)] + Adds(WgClients, ChainOf(lib, s)));
            r.Some? ==> r.value == t[WgClients := ChainOf(lib, s)]
  {
    var u := t[WgClients := []];
    var chain := ChainOf(lib, s);
    ExecAppend(lib, t, [Flush(WgClients)], Adds(WgClients, chain));
    assert ExecAll(lib, t, [Flush(WgClients)]) == Some(u);
    ExecAdds(lib, u, WgClients, chain);
    assert [] + chain == chain;
    assert u[WgClients := u[WgClients] + chain] == t[WgClients := chain];
  }

  lemma ClientsRebuiltOnce(lib: AddrLib, s: Settings, t: Table)
    requires JumpsOnce(t)
    ensures JumpsOnce(ClientsRebuilt(lib, s, t).0)
  {
    var iface := SanitizeIface(s.name);
    if s.firewallOn {
      InitedOnce(t, iface);
      FillKeepsForward(lib, s, Inited(t, iface));
    } else if WgClients in t {
      var wants := [InJump(iface), OutJump(iface)];
      forall want | IsOwnedJump(want) ensures CountShown(Rules(ClientsRebuilt(lib, s, t).0, Forward), want) <= 1 {
        CountDrop(Rules(t, Forward), wants, want);
      }
    }
  }

  // The same of the single tables on the way, for rebuilds whose listings work.

  lemma OnceByForward(t: Table, u: Table)
    requires JumpsOnce(t) && Rules(u, Forward) == Rules(t, Forward)
    ensures JumpsOnce(u)
  {
  }

  lemma DropOnce(t: Table, wants: seq<Rule>)
    requires JumpsOnce(t) && Forward in t && forall w :: w in wants ==> |w.conds| == 1
    ensures JumpsOnce(t[Forward := DropShown(t[Forward], wants)])
  {
    forall want | IsOwnedJump(want) ensures CountShown(DropShown(t[Forward], wants), want) <= 1 {
      CountDrop(t[Forward], wants, want);
    }
  }

  lemma DnsEnsuredOnce(t: Table, iface: string)
    requires JumpsOnce(t)
    ensures JumpsOnce(DnsChains(t)) && JumpsOnce(DnsEnsured(t, iface))
  {
    assert Rules(DnsChains(t), Forward) == Rules(t, Forward);
    AppendMissingOnce(Rules(t, Forward), LockdownJump(iface));
  }

  /** Over any run of rebuilds in which every call succeeds, whatever the settings do in between,
      each jump of each interface name stands in forward at most once. */
  lemma {:induction false} RunsKeepJumpsOnce(lib: AddrLib, runs: seq<Settings>, t: Table)
    requires JumpsOnce(t)
    ensures JumpsOnce(AfterRebuilds(lib, runs, t))
  {
    if runs != [] {
      var s := runs[|runs| - 1];
      var u := AfterRebuilds(lib, runs[..|runs| - 1], t);
      RunsKeepJumpsOnce(lib, runs[..|runs| - 1], t);
      DnsRebuiltOnce(lib, s, u);
      ClientsRebuiltOnce(lib, s, DnsRebuilt(lib, s, u).0);
    }
  }

  // ---------------------------------------------------------------- contents

  lemma {:induction false} DropShownKeeps(rules: seq<Rule>, wants: seq<Rule>, r: Rule)
    requires forall w :: w in wants ==> |w.conds| == 1
    ensures r in DropShown(rules, wants) <==> r in rules && !ShowsAny(r, wants)
  {
    if rules != [] {
      var n := |rules| - 1;
      DropShownKeeps(rules[..n], wants, r);
      assert rules == rules[..n] + [rules[n]];
    }
  }

  lemma {:induction false} DropShownNothing(rules: seq<Rule>, wants: seq<Rule>)
    requires forall w :: w in wants ==> |w.conds| == 1
    requires forall r :: r in rules ==> !ShowsAny(r, wants)
    ensures DropShown(rules, wants) == rules
  {
    if rules != [] {
      DropShownNothing(rules[..|rules| - 1], wants);
    }
  }

  lemma {:induction false} DropShownAll(rules: seq<Rule>, wants: seq<Rule>)
    requires forall w :: w in wants ==> |w.conds| == 1
    requires forall r :: r in rules ==> ShowsAny(r, wants)
    ensures DropShown(rules, wants) == []
  {
    if rules != [] {
      DropShownAll(rules[..|rules| - 1], wants);
    }
  }

  lemma {:induction false} DropShownHead(rules: seq<Rule>, wants: seq<Rule>)
    requires forall w :: w in wants ==> |w.conds| == 1
    requires rules != [] && !ShowsAny(rules[0], wants)
    ensures DropShown(rules, wants) != [] && DropShown(rules, wants)[0] == rules[0]
  {
    if |rules| > 1 {
      DropShownHead(rules[..|rules| - 1], wants);
    }
  }

  /** Nothing but this interface's own forward jump leads into the lockdown chain. */
  predicate OnlyOwnLockdownJump(t: Table, iface: string) {
    forall d, r :: d in t && r in t[d] && r.action == Jump(DnsLockdown) ==>
      d == Forward && Shows(r, LockdownJump(iface))
  }

  lemma DnsOffClearsChains(lib: AddrLib, s: Settings, t: Table)
    requires OnlyOwnLockdownJump(t, SanitizeIface(s.name)) && PlanOf(lib, s) == Off
    ensures var u := DnsRebuilt(lib, s, t).0;
            DnsLockdown !in u && DnsPrerouting !in u
  {
    var iface := SanitizeIface(s.name);
    var u := DropLockdownJump(t, iface);
    if Forward in t {
      forall r ensures r in u[Forward] <==> r in t[Forward] && !Shows(r, LockdownJump(iface)) {
        DropShownKeeps(t[Forward], [LockdownJump(iface)], r);
        assert [LockdownJump(iface)][0] in [LockdownJump(iface)];
      }
    }
    assert !Referenced(u[DnsLockdown := []], DnsLockdown);
  }

  /** After a successful rebuild the owned chains are a function of the settings alone. */
  lemma OwnedChainsFollowSettings(lib: AddrLib, s: Settings, t: Table)
    requires OnlyOwnLockdownJump(t, SanitizeIface(s.name))
    requires Rebuilt(lib, s, t).1
    ensures var u := Rebuilt(lib, s, t).0;
            && Rules(u, WgClients) == (if s.firewallOn then ChainOf(lib, s) else [])
            && (PlanOf(lib, s) == Off ==> DnsLockdown !in u && DnsPrerouting !in u)
            && (PlanOf(lib, s).On? ==>
                  Installed(u, SanitizeIface(s.name), PlanOf(lib, s).fam, PlanOf(lib, s).target, s.blockExternal))
  {
    var iface := SanitizeIface(s.name);
    var (v, ok) := DnsRebuilt(lib, s, t);
    if PlanOf(lib, s) == Off {
      DnsOffClearsChains(lib, s, t);
    }
    if s.firewallOn {
      FillKeepsForward(lib, s, Inited(v, iface));
    }
  }

  lemma DnsKeepsClientChain(lib: AddrLib, s: Settings, t: Table)
    ensures WgClients in DnsRebuilt(lib, s, t).0 <==> WgClients in t
  {
  }

  lemma ClientsRebuildSucceeds(lib: AddrLib, s: Settings, t: Table)
    requires Sane(lib) && ClientsOk(lib, s)
    ensures ClientsRebuilt(lib, s, t).1 <==> s.firewallOn || WgClients in t
  {
    if s.firewallOn {
      MalformedTargetsNeverAbort(lib, Inited(t, SanitizeIface(s.name)), s.clients, s.defaults, s.v6on);
    }
  }

  /** When every nft call goes through, a rebuild succeeds exactly when the lockdown target is
      usable and, for switching off, the client chain exists; stored targets play no part as
      long as the enabled clients' own addresses are literals. */
  lemma RebuildSucceeds(lib: AddrLib, s: Settings, t: Table)
    requires Sane(lib) && ClientsOk(lib, s)
    ensures Rebuilt(lib, s, t).1 <==> !Unusable(lib, s) && (s.firewallOn || WgClients in t)
  {
    PlanByFields(lib, s);
    var (u, ok) := DnsRebuilt(lib, s, t);
    DnsKeepsClientChain(lib, s, t);
    ClientsRebuildSucceeds(lib, s, u);
  }
}
