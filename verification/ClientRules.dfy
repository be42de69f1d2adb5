/** Compilation of the client roster into the `wg-clients` chain, and what the compiled
    chain means: a plain access list. */
module ClientRules {
  import opened Text
  import opened Nft
  import opened TargetParser

  /** A nullable TEXT column holding a JSON list of target entries. */
  datatype Column = Missing | Blank | Unparsable | Targets(items: seq<string>)

  datatype Client = Client(
    id: nat, enabled: bool, v4: Option<string>, v6: Option<string>, firewallIps: Column, allowedIps: Column)

  function Items(c: Column): seq<string> {
    if c.Targets? then c.items else []
  }

  predicate Given(c: Column) {
    c.Targets? || c.Unparsable?
  }

  /** firewallIps when the column holds text, else allowedIps, else the default list. A text
      that does not parse counts as an empty list. */
  function EffectiveTargets(client: Client, defaults: seq<string>): seq<string> {
    if Given(client.firewallIps) then Items(client.firewallIps)
    else if Given(client.allowedIps) then Items(client.allowedIps)
    else defaults
  }

  function Source(client: Client, fam: Family): string {
    match fam
    case V4 => if client.v4.Some? then client.v4.value else "0.0.0.0"
    case V6 => if client.v6.Some? then client.v6.value else "::"
  }

  function FamilyOf(ip: string): Family {
    if ':' in ip then V6 else V4
  }

  // ---------------------------------------------------------------- compilation

  function GenRules(src: string, t: Target, fam: Family): seq<Rule> {
    var prefix := [SAddr(fam, src), DAddr(fam, t.ip)];
    match t.port
    case None => [Rule(prefix, Accept)]
    case Some(p) =>
      (if t.proto == None || t.proto == Some(Tcp) then [Rule(prefix + [DPort(Tcp, {p})], Accept)] else [])
      + (if t.proto == None || t.proto == Some(Udp) then [Rule(prefix + [DPort(Udp, {p})], Accept)] else [])
  }

  /** Rules of one target entry; entries that do not parse or whose family is off give none. */
  function EntryRules(lib: AddrLib, client: Client, entry: string, v6on: bool): seq<Rule> {
    match ParseTarget(lib, entry)
    case None => []
    case Some(t) =>
      if FamilyOf(t.ip) == V6 && !v6on then []
      else GenRules(Source(client, FamilyOf(t.ip)), t, FamilyOf(t.ip))
  }

  /** Concatenation of the rules of every item, in order. */
  function Compiled<T>(items: seq<T>, f: T -> seq<Rule>): seq<Rule> {
    if items == [] then [] else Compiled(items[..|items| - 1], f) + f(items[|items| - 1])
  }

  function PerEntry(lib: AddrLib, client: Client, v6on: bool): string -> seq<Rule> {
    entry => EntryRules(lib, client, entry, v6on)
  }

  function RulesOf(lib: AddrLib, client: Client, defaults: seq<string>, v6on: bool): seq<Rule> {
    Compiled(EffectiveTargets(client, defaults), PerEntry(lib, client, v6on))
  }

  function PerClient(lib: AddrLib, defaults: seq<string>, v6on: bool): Client -> seq<Rule> {
    (client: Client) => if client.enabled then RulesOf(lib, client, defaults, v6on) else []
  }

  function RosterRules(lib: AddrLib, clients: seq<Client>, defaults: seq<string>, v6on: bool): seq<Rule> {
    Compiled(clients, PerClient(lib, defaults, v6on))
  }

  const DefaultDeny: Rule := Rule([], Drop)

  function ClientChain(lib: AddrLib, clients: seq<Client>, defaults: seq<string>, v6on: bool): seq<Rule> {
    RosterRules(lib, clients, defaults, v6on) + [DefaultDeny]
  }

  lemma CompiledSnoc<T>(items: seq<T>, i: nat, f: T -> seq<Rule>)
    requires i < |items|
    ensures Compiled(items[..i + 1], f) == Compiled(items[..i], f) + f(items[i])
  {
    assert items[..i + 1][..i] == items[..i];
  }

  method PushRules(txn: seq<Cmd>, rules: seq<Rule>) returns (out: seq<Cmd>)
    ensures out == txn + Adds(WgClients, rules)
  {
    out := txn;
    for j := 0 to |rules|
      invariant out == txn + Adds(WgClients, rules[..j])
    {
      assert rules[..j + 1] == rules[..j] + [rules[j]];
      AddsAppend(WgClients, rules[..j], [rules[j]]);
      out := out + [AddRule(WgClients, rules[j])];
    }
    assert rules[..|rules|] == rules;
  }

  lemma AddsExtend(head: seq<Cmd>, a: seq<Rule>, b: seq<Rule>)
    ensures head + Adds(WgClients, a) + Adds(WgClients, b) == head + Adds(WgClients, a + b)
  {
    AddsAppend(WgClients, a, b);
  }

  method AppendClientRules(lib: AddrLib, txn: seq<Cmd>, client: Client, defaults: seq<string>, v6on: bool)
    returns (out: seq<Cmd>)
    ensures out == txn + Adds(WgClients, RulesOf(lib, client, defaults, v6on))
  {
    var targets := EffectiveTargets(client, defaults);
    ghost var f := PerEntry(lib, client, v6on);
    ghost var done := [];
    out := txn;
    for i := 0 to |targets|
      invariant done == Compiled(targets[..i], f)
      invariant out == txn + Adds(WgClients, done)
    {
      CompiledSnoc(targets, i, f);
      var rules := EntryRules(lib, client, targets[i], v6on);
      AddsExtend(txn, done, rules);
      out := PushRules(out, rules);
      done := done + rules;
    }
    assert targets[..|targets|] == targets;
  }

  /** The one transaction that replaces the whole chain: flush, every enabled client's
      rules, default deny. */
  method BuildClientTransaction(lib: AddrLib, clients: seq<Client>, defaults: seq<string>, v6on: bool)
    returns (txn: seq<Cmd>)
    ensures txn == [Flush(WgClients)] + Adds(WgClients, ClientChain(lib, clients, defaults, v6on))
  {
    var head := [Flush(WgClients)];
    ghost var f := PerClient(lib, defaults, v6on);
    ghost var done := [];
    txn := head;
    for i := 0 to |clients|
      invariant done == Compiled(clients[..i], f)
      invariant txn == head + Adds(WgClients, done)
    {
      CompiledSnoc(clients, i, f);
      AddsExtend(head, done, f(clients[i]));
      if clients[i].enabled {
        txn := AppendClientRules(lib, txn, clients[i], defaults, v6on);
      }
      done := done + f(clients[i]);
    }
    assert clients[..|clients|] == clients;
    AddsExtend(head, done, [DefaultDeny]);
    assert Adds(WgClients, [DefaultDeny]) == [AddRule(WgClients, DefaultDeny)];
    txn := txn + [AddRule(WgClients, DefaultDeny)];
  }

  // ---------------------------------------------------------------- the access list

  /** Whether one target entry of a client opens the way for a packet. The protocol of an
      entry without a port does not matter. */
  predicate Grants(lib: AddrLib, client: Client, entry: string, v6on: bool, p: Packet) {
    var t := ParseTarget(lib, entry);
    && t.Some?
    && FamilyOf(t.value.ip) == p.fam
    && (p.fam == V6 ==> v6on)
    && lib.inNet(Source(client, p.fam), p.src)
    && lib.inNet(t.value.ip, p.dst)
    && (t.value.port.Some? ==>
          && p.dport == t.value.port.value
          && p.proto != OtherProto
          && (t.value.proto.Some? ==> p.proto == t.value.proto.value))
  }

  ghost predicate ClientAllows(lib: AddrLib, client: Client, defaults: seq<string>, v6on: bool, p: Packet) {
    client.enabled && exists e :: e in EffectiveTargets(client, defaults) && Grants(lib, client, e, v6on, p)
  }

  ghost predicate Allowed(lib: AddrLib, clients: seq<Client>, defaults: seq<string>, v6on: bool, p: Packet) {
    exists c :: c in clients && ClientAllows(lib, c, defaults, v6on, p)
  }

  // ---------------------------------------------------------------- meaning

  predicate AcceptOnly(rules: seq<Rule>) {
    forall r :: r in rules ==> r.action == Accept
  }

  ghost predicate SomeMatch(lib: AddrLib, rules: seq<Rule>, p: Packet) {
    exists r :: r in rules && Matches(lib, r, p)
  }

  lemma {:induction false} WalkAcceptOnly(lib: AddrLib, t: Table, rules: seq<Rule>, p: Packet, depth: nat)
    requires AcceptOnly(rules)
    ensures Walk(lib, t, rules, p, depth) == if SomeMatch(lib, rules, p) then Accepted else Fallthrough
  {
    if rules != [] {
      WalkAcceptOnly(lib, t, rules[1..], p, depth);
      assert rules[0] in rules;
      assert forall r :: r in rules <==> r == rules[0] || r in rules[1..];
    }
  }

  lemma MatchAppend(lib: AddrLib, a: seq<Rule>, b: seq<Rule>, p: Packet)
    ensures SomeMatch(lib, a + b, p) <==> SomeMatch(lib, a, p) || SomeMatch(lib, b, p)
  {
    assert forall r :: r in a + b <==> r in a || r in b;
  }

  lemma GenRulesMatch(lib: AddrLib, src: string, t: Target, fam: Family, p: Packet)
    requires t.proto.Some? ==> t.proto.value != OtherProto
    ensures AcceptOnly(GenRules(src, t, fam))
    ensures SomeMatch(lib, GenRules(src, t, fam), p) <==>
              && p.fam == fam && lib.inNet(src, p.src) && lib.inNet(t.ip, p.dst)
              && (t.port.Some? ==>
                    p.dport == t.port.value && p.proto != OtherProto && (t.proto.Some? ==> p.proto == t.proto.value))
  {
    var prefix := [SAddr(fam, src), DAddr(fam, t.ip)];
    var rules := GenRules(src, t, fam);
    if t.port.None? {
      MatchOne(lib, Rule(prefix, Accept), p);
      assert rules == [Rule(prefix, Accept)];
    } else {
      var tcp := Rule(prefix + [DPort(Tcp, {t.port.value})], Accept);
      var udp := Rule(prefix + [DPort(Udp, {t.port.value})], Accept);
      MatchTwo(lib, prefix, DPort(Tcp, {t.port.value}), p);
      MatchTwo(lib, prefix, DPort(Udp, {t.port.value}), p);
      MatchOne(lib, Rule(prefix, Accept), p);
      assert t.proto.None? ==> rules == [tcp, udp];
      assert t.proto == Some(Tcp) ==> rules == [tcp];
      assert t.proto == Some(Udp) ==> rules == [udp];
      assert t.proto.None? ==> rules[0] in rules && rules[1] in rules;
      assert t.proto.Some? ==> rules[0] in rules;
    }
  }

  lemma MatchOne(lib: AddrLib, r: Rule, p: Packet)
    requires |r.conds| == 2
    ensures Matches(lib, r, p) <==> Holds(lib, r.conds[0], p) && Holds(lib, r.conds[1], p)
    ensures SomeMatch(lib, [r], p) <==> Matches(lib, r, p)
  {
    assert r in [r];
  }

  lemma MatchTwo(lib: AddrLib, prefix: seq<Cond>, last: Cond, p: Packet)
    ensures Matches(lib, Rule(prefix + [last], Accept), p)
            <==> Matches(lib, Rule(prefix, Accept), p) && Holds(lib, last, p)
  {
    assert forall c :: c in prefix + [last] <==> c in prefix || c == last;
  }

  lemma EntryMatch(lib: AddrLib, client: Client, entry: string, v6on: bool, p: Packet)
    requires Sane(lib)
    ensures AcceptOnly(EntryRules(lib, client, entry, v6on))
    ensures SomeMatch(lib, EntryRules(lib, client, entry, v6on), p) <==> Grants(lib, client, entry, v6on, p)
  {
    var t := ParseTarget(lib, entry);
    if t.Some? {
      ParsedIsLiteral(lib, entry);
      GenRulesMatch(lib, Source(client, FamilyOf(t.value.ip)), t.value, FamilyOf(t.value.ip), p);
    }
  }

  ghost predicate Any<T>(items: seq<T>, g: T -> bool) {
    exists x :: x in items && g(x)
  }

  /** When every item's rules match exactly if g holds of it, the whole compilation matches
      exactly if g holds of some item. */
  lemma {:induction false} CompiledMatch<T>(lib: AddrLib, items: seq<T>, f: T -> seq<Rule>, g: T -> bool, p: Packet)
    requires forall x :: x in items ==> AcceptOnly(f(x)) && (SomeMatch(lib, f(x), p) <==> g(x))
    ensures AcceptOnly(Compiled(items, f))
    ensures SomeMatch(lib, Compiled(items, f), p) <==> Any(items, g)
  {
    if items != [] {
      var n := |items| - 1;
      CompiledMatch(lib, items[..n], f, g, p);
      MatchAppend(lib, Compiled(items[..n], f), f(items[n]), p);
      assert forall x :: x in items <==> x in items[..n] || x == items[n];
    }
  }

  lemma ClientMatch(lib: AddrLib, client: Client, defaults: seq<string>, v6on: bool, p: Packet)
    requires Sane(lib)
    ensures AcceptOnly(PerClient(lib, defaults, v6on)(client))
    ensures SomeMatch(lib, PerClient(lib, defaults, v6on)(client), p) <==> ClientAllows(lib, client, defaults, v6on, p)
  {
    var f, g := PerEntry(lib, client, v6on), entry => Grants(lib, client, entry, v6on, p);
    forall e ensures AcceptOnly(f(e)) && (SomeMatch(lib, f(e), p) <==> g(e)) {
      EntryMatch(lib, client, e, v6on, p);
    }
    CompiledMatch(lib, EffectiveTargets(client, defaults), f, g, p);
  }

  lemma RosterMatch(lib: AddrLib, clients: seq<Client>, defaults: seq<string>, v6on: bool, p: Packet)
    requires Sane(lib)
    ensures AcceptOnly(RosterRules(lib, clients, defaults, v6on))
    ensures SomeMatch(lib, RosterRules(lib, clients, defaults, v6on), p) <==> Allowed(lib, clients, defaults, v6on, p)
  {
    var f, g := PerClient(lib, defaults, v6on), client => ClientAllows(lib, client, defaults, v6on, p);
    forall c ensures AcceptOnly(f(c)) && (SomeMatch(lib, f(c), p) <==> g(c)) {
      ClientMatch(lib, c, defaults, v6on, p);
    }
    CompiledMatch(lib, clients, f, g, p);
  }

  /** Main result: the compiled chain is the access list followed by deny. It accepts exactly
      the allowed packets, drops every other one and never returns to its caller. */
  lemma ChainMeansAccessList(
    lib: AddrLib, clients: seq<Client>, defaults: seq<string>, v6on: bool, t: Table, p: Packet, depth: nat)
    requires Sane(lib)
    ensures Walk(lib, t, ClientChain(lib, clients, defaults, v6on), p, depth)
         == if Allowed(lib, clients, defaults, v6on, p) then Accepted else Dropped
  {
    var rules := RosterRules(lib, clients, defaults, v6on);
    RosterMatch(lib, clients, defaults, v6on, p);
    WalkAcceptOnly(lib, t, rules, p, depth);
    WalkAppend(lib, t, rules, [DefaultDeny], p, depth);
    assert Matches(lib, DefaultDeny, p);
  }

  /** The verdict depends on which clients are on the roster, not on their order or on how
      often a row is repeated; disabled clients do not matter at all. */
  lemma OrderIrrelevant(
    lib: AddrLib, clients: seq<Client>, others: seq<Client>, defaults: seq<string>, v6on: bool,
    t: Table, p: Packet, depth: nat)
    requires Sane(lib)
    requires forall c: Client :: c.enabled ==> (c in clients <==> c in others)
    ensures Walk(lib, t, ClientChain(lib, clients, defaults, v6on), p, depth)
         == Walk(lib, t, ClientChain(lib, others, defaults, v6on), p, depth)
  {
    ChainMeansAccessList(lib, clients, defaults, v6on, t, p, depth);
    ChainMeansAccessList(lib, others, defaults, v6on, t, p, depth);
    assert Allowed(lib, clients, defaults, v6on, p) <==> Allowed(lib, others, defaults, v6on, p) by {
      if Allowed(lib, clients, defaults, v6on, p) {
        var c :| c in clients && ClientAllows(lib, c, defaults, v6on, p);
        assert c in others;
      }
      if Allowed(lib, others, defaults, v6on, p) {
        var c :| c in others && ClientAllows(lib, c, defaults, v6on, p);
        assert c in clients;
      }
    }
  }

  // ---------------------------------------------------------------- the access list by its columns

  /** Some entry of the list opens the way. */
  ghost predicate SomeGrants(lib: AddrLib, client: Client, items: seq<string>, v6on: bool, p: Packet) {
    exists e :: e in items && Grants(lib, client, e, v6on, p)
  }

  /** The column holds no text at all. */
  predicate Unset(c: Column) {
    c == Missing || c == Blank
  }

  /** Which list decides about an enabled client's packets: firewallIps whenever that column holds
      text, even an empty list; without text there allowedIps; without text in either the default
      list. A text that does not parse opens nothing. */
  lemma TargetsByPrecedence(
    lib: AddrLib, client: Client, defaults: seq<string>, v6on: bool, t: Table, p: Packet, depth: nat)
    requires Sane(lib) && client.enabled
    ensures var v := Walk(lib, t, ClientChain(lib, [client], defaults, v6on), p, depth);
            var (first, second) := (client.firewallIps, client.allowedIps);
            && (v == Accepted || v == Dropped)
            && (first.Targets? ==> (v == Accepted <==> SomeGrants(lib, client, first.items, v6on, p)))
            && (first.Unparsable? ==> v == Dropped)
            && (Unset(first) && second.Targets? ==> (v == Accepted <==> SomeGrants(lib, client, second.items, v6on, p)))
            && (Unset(first) && second.Unparsable? ==> v == Dropped)
            && (Unset(first) && Unset(second) ==> (v == Accepted <==> SomeGrants(lib, client, defaults, v6on, p)))
  {
    ChainMeansAccessList(lib, [client], defaults, v6on, t, p, depth);
    OneClientAllows(lib, client, defaults, v6on, p);
  }

  lemma OneClientAllows(lib: AddrLib, client: Client, defaults: seq<string>, v6on: bool, p: Packet)
    ensures Allowed(lib, [client], defaults, v6on, p) <==>
              client.enabled && SomeGrants(lib, client, EffectiveTargets(client, defaults), v6on, p)
  {
    assert [client][0] == client;
    assert ClientAllows(lib, client, defaults, v6on, p) <==>
             client.enabled && SomeGrants(lib, client, EffectiveTargets(client, defaults), v6on, p);
    if ClientAllows(lib, client, defaults, v6on, p) {
      assert client in [client];
    }
  }

  /** A roster accepts a packet exactly when some enabled client of it would on its own. */
  lemma RosterIsUnion(
    lib: AddrLib, clients: seq<Client>, defaults: seq<string>, v6on: bool, t: Table, p: Packet, depth: nat)
    requires Sane(lib)
    ensures Walk(lib, t, ClientChain(lib, clients, defaults, v6on), p, depth) == Accepted <==>
              exists c :: c in clients && c.enabled
                          && Walk(lib, t, ClientChain(lib, [c], defaults, v6on), p, depth) == Accepted
  {
    ChainMeansAccessList(lib, clients, defaults, v6on, t, p, depth);
    forall c: Client ensures c.enabled && Walk(lib, t, ClientChain(lib, [c], defaults, v6on), p, depth) == Accepted
                     <==> ClientAllows(lib, c, defaults, v6on, p)
    {
      ChainMeansAccessList(lib, [c], defaults, v6on, t, p, depth);
      OneClientAllows(lib, c, defaults, v6on, p);
    }
  }

  /** What an entry grants, in the client's own columns: the packet is of the family of the
      entry's address, IPv6 only where it is on, comes from the client's address of that family
      (from the unspecified address if it has none), goes to the entry's address and, with a port,
      to that port by the entry's protocol or, without one, by TCP or UDP. */
  lemma GrantsMeans(lib: AddrLib, client: Client, entry: string, v6on: bool, p: Packet)
    ensures Grants(lib, client, entry, v6on, p) <==>
              && ParseTarget(lib, entry).Some?
              && var t := ParseTarget(lib, entry).value;
              && (if ':' in t.ip then p.fam == V6 && v6on else p.fam == V4)
              && (p.fam == V4 ==> lib.inNet(if client.v4.Some? then client.v4.value else "0.0.0.0", p.src))
              && (p.fam == V6 ==> lib.inNet(if client.v6.Some? then client.v6.value else "::", p.src))
              && lib.inNet(t.ip, p.dst)
              && (t.port.Some? ==>
                    && p.dport == t.port.value
                    && (p.proto == Tcp || p.proto == Udp) && (t.proto.Some? ==> p.proto == t.proto.value))
  {
  }

  // ---------------------------------------------------------------- loading

  predicate AddressesOk(lib: AddrLib, client: Client) {
    && (client.v4.Some? ==> lib.isV4(client.v4.value))
    && (client.v6.Some? ==> lib.isV6(client.v6.value))
  }

  ghost predicate AllLoadable(lib: AddrLib, t: Table, rules: seq<Rule>) {
    forall r :: r in rules ==> Loadable(lib, t, r)
  }

  lemma EntryLoadable(lib: AddrLib, t: Table, client: Client, entry: string, v6on: bool)
    requires Sane(lib) && AddressesOk(lib, client)
    ensures AllLoadable(lib, t, EntryRules(lib, client, entry, v6on))
  {
    if ParseTarget(lib, entry).Some? {
      var t := ParseTarget(lib, entry).value;
      ParsedIsLiteral(lib, entry);
      GenRulesLoadable(lib, t, Source(client, FamilyOf(t.ip)), FamilyOf(t.ip), t.ip);
    }
  }

  lemma GenRulesLoadable(lib: AddrLib, t: Target, src: string, fam: Family, ip: string)
    requires t.ip == ip && IsLiteral(lib, fam, src) && IsLiteral(lib, fam, ip)
    ensures forall u: Table :: AllLoadable(lib, u, GenRules(src, t, fam))
  {
  }

  lemma {:induction false} CompiledLoadable<T>(lib: AddrLib, t: Table, items: seq<T>, f: T -> seq<Rule>)
    requires forall x :: x in items ==> AllLoadable(lib, t, f(x))
    ensures AllLoadable(lib, t, Compiled(items, f))
  {
    if items != [] {
      CompiledLoadable(lib, t, items[..|items| - 1], f);
    }
  }

  lemma RosterLoadable(lib: AddrLib, t: Table, clients: seq<Client>, defaults: seq<string>, v6on: bool)
    requires Sane(lib) && (forall c :: c in clients && c.enabled ==> AddressesOk(lib, c))
    ensures AllLoadable(lib, t, RosterRules(lib, clients, defaults, v6on))
  {
    var f := PerClient(lib, defaults, v6on);
    forall c | c in clients ensures AllLoadable(lib, t, f(c)) {
      if c.enabled {
        var g := PerEntry(lib, c, v6on);
        forall e ensures AllLoadable(lib, t, g(e)) {
          EntryLoadable(lib, t, c, e, v6on);
        }
        CompiledLoadable(lib, t, EffectiveTargets(c, defaults), g);
      }
    }
    CompiledLoadable(lib, t, clients, f);
  }

  /** However malformed the stored target entries are, the rebuild transaction loads and
      installs exactly the compiled chain, as long as clients' own addresses are literals. */
  lemma MalformedTargetsNeverAbort(
    lib: AddrLib, t: Table, clients: seq<Client>, defaults: seq<string>, v6on: bool)
    requires Sane(lib) && WgClients in t
    requires forall c :: c in clients && c.enabled ==> AddressesOk(lib, c)
    ensures var chain := ClientChain(lib, clients, defaults, v6on);
            ExecAll(lib, t, [Flush(WgClients)] + Adds(WgClients, chain)) == Some(t[WgClients := chain])
  {
    var chain := ClientChain(lib, clients, defaults, v6on);
    var u := t[WgClients := []];
    RosterLoadable(lib, u, clients, defaults, v6on);
    ExecAdds(lib, u, WgClients, chain);
    ExecAppend(lib, t, [Flush(WgClients)], Adds(WgClients, chain));
    assert [] + chain == chain;
    assert u[WgClients := u[WgClients] + chain] == t[WgClients := chain];
  }
}
