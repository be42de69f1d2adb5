/** A packet semantics for the fragment of nftables the firewall emits: ordered rules,
    conjunctive matches, accept / drop / jump / dnat, and all-or-nothing transactions. */
module Nft {
  import opened Text

  datatype Family = V4 | V6

  datatype Proto = Tcp | Udp | OtherProto

  datatype Packet = Packet(iif: string, oif: string, fam: Family, src: nat, dst: nat, proto: Proto, dport: nat)

  /** What the standard and ipnet parsers know about address texts. `inNet(t, a)` says that
      address a is the literal t or lies in the CIDR t; `value` is a literal's number and
      `canon` its canonical spelling. */
  datatype AddrLib = AddrLib(
    isV4: string -> bool,
    isV6: string -> bool,
    isNet4: string -> bool,
    isNet6: string -> bool,
    inNet: (string, nat) -> bool,
    value: string -> nat,
    canon: string -> string)

  predicate IsHex(c: char) {
    IsDigit(c) || 'a' <= c <= 'f' || 'A' <= c <= 'F'
  }

  predicate OverV4(s: string) {
    forall i :: 0 <= i < |s| ==> IsDigit(s[i]) || s[i] == '.'
  }

  predicate OverV6(s: string) {
    forall i :: 0 <= i < |s| ==> IsHex(s[i]) || s[i] == '.' || s[i] == ':'
  }

  predicate OverV4Net(s: string) {
    forall i :: 0 <= i < |s| ==> IsDigit(s[i]) || s[i] == '.' || s[i] == '/'
  }

  predicate OverV6Net(s: string) {
    forall i :: 0 <= i < |s| ==> IsHex(s[i]) || s[i] == '.' || s[i] == ':' || s[i] == '/'
  }

  /** The facts about literals this model relies on: their alphabets, that every IPv4 text has a
      dot and every IPv6 text two colons, and that canonical spelling keeps kind and number. */
  ghost predicate Sane(lib: AddrLib) {
    && (forall s :: lib.isV4(s) ==> '.' in s && OverV4(s))
    && (forall s :: lib.isV6(s) ==> OverV6(s) && Count(s, ':') >= 2)
    && (forall s :: lib.isNet4(s) ==> s != [] && OverV4Net(s))
    && (forall s :: lib.isNet6(s) ==> OverV6Net(s) && Count(s, ':') >= 2)
    && (forall s {:trigger lib.canon(s)} :: lib.isV4(s) ==> lib.isV4(lib.canon(s)))
    && (forall s {:trigger lib.canon(s)} :: lib.isV6(s) ==> lib.isV6(lib.canon(s)))
    && (forall s {:trigger lib.canon(s)} :: lib.value(lib.canon(s)) == lib.value(s))
    && (forall s, a :: lib.isV4(s) || lib.isV6(s) ==> (lib.inNet(s, a) <==> a == lib.value(s)))
    && lib.isV4("0.0.0.0") && lib.isV6("::")
  }

  /** Such parsers exist: the facts above do not contradict each other. */
  lemma SaneIsPossible() returns (lib: AddrLib)
    ensures Sane(lib)
  {
    lib := AddrLib(s => s == "0.0.0.0", s => s == "::", s => false, s => false,
                   (s, a) => a == 0, s => 0, s => s);
    assert "::"[1..] == ":" && Count(":", ':') == 1 && Count("::", ':') == 2;
  }

  predicate IsLiteral(lib: AddrLib, fam: Family, text: string) {
    match fam
    case V4 => lib.isV4(text) || lib.isNet4(text)
    case V6 => lib.isV6(text) || lib.isNet6(text)
  }

  /** Chains of the shared table. */
  datatype ChainId = Forward | WgClients | DnsLockdown | DnsPrerouting | HookChain(name: string)

  /** Base chains are entered by the kernel and can never be jumped to. */
  predicate IsBase(c: ChainId) {
    c == Forward || c == DnsPrerouting
  }

  datatype Cond =
    | IifName(name: string)
    | OifName(name: string)
    | NfProto(fam: Family)
    | SAddr(fam: Family, text: string)
    | DAddr(fam: Family, text: string)
    | DPort(proto: Proto, ports: set<nat>)

  datatype Action = Accept | Drop | Jump(chain: ChainId) | Dnat(to: string, port: nat)

  datatype Rule = Rule(conds: seq<Cond>, action: Action)

  type Table = map<ChainId, seq<Rule>>

  // ---------------------------------------------------------------- packets

  predicate Holds(lib: AddrLib, c: Cond, p: Packet) {
    match c
    case IifName(n) => p.iif == n
    case OifName(n) => p.oif == n
    case NfProto(f) => p.fam == f
    case SAddr(f, t) => p.fam == f && lib.inNet(t, p.src)
    case DAddr(f, t) => p.fam == f && lib.inNet(t, p.dst)
    case DPort(pr, ports) => p.proto == pr && p.dport in ports
  }

  predicate Matches(lib: AddrLib, r: Rule, p: Packet) {
    forall c :: c in r.conds ==> Holds(lib, c, p)
  }

  datatype Verdict = Accepted | Dropped | Fallthrough

  /** nftables' jump stack. */
  const JUMP_STACK: nat := 16

  /** Verdict of a rule list at the filter hook: the first decisive rule wins, a jump whose
      chain falls through continues after the jump. */
  function Walk(lib: AddrLib, t: Table, rules: seq<Rule>, p: Packet, depth: nat): Verdict
    decreases depth, |rules|
  {
    if rules == [] then Fallthrough
    else if !Matches(lib, rules[0], p) then Walk(lib, t, rules[1..], p, depth)
    else match rules[0].action
      case Accept => Accepted
      case Drop => Dropped
      case Dnat(_, _) => Walk(lib, t, rules[1..], p, depth)
      case Jump(c) =>
        var v := if depth == 0 || c !in t || IsBase(c) then Fallthrough else Walk(lib, t, t[c], p, depth - 1);
        if v == Fallthrough then Walk(lib, t, rules[1..], p, depth) else v
  }

  function Rules(t: Table, c: ChainId): seq<Rule> {
    if c in t then t[c] else []
  }

  /** The forward hook; its policy is accept, so only a Dropped verdict stops a packet. */
  function FilterVerdict(lib: AddrLib, t: Table, p: Packet): Verdict {
    Walk(lib, t, Rules(t, Forward), p, JUMP_STACK)
  }

  /** The prerouting nat hook: the first matching dnat rewrites destination and port. */
  function Prerouted(lib: AddrLib, rules: seq<Rule>, p: Packet): Packet {
    if rules == [] then p
    else if Matches(lib, rules[0], p) && rules[0].action.Dnat? then
      p.(dst := lib.value(rules[0].action.to), dport := rules[0].action.port)
    else Prerouted(lib, rules[1..], p)
  }

  /** A packet's way through the box: prerouting, routing onto `oif`, the forward hook.
      None when it is dropped, otherwise the packet that leaves. */
  function Route(lib: AddrLib, t: Table, p: Packet, oif: string): Option<Packet> {
    var q := Prerouted(lib, Rules(t, DnsPrerouting), p).(oif := oif);
    if FilterVerdict(lib, t, q) == Dropped then None else Some(q)
  }

  // ---------------------------------------------------------------- transactions

  datatype Cmd =
    | AddTable
    | AddChain(chain: ChainId)
    | Flush(chain: ChainId)
    | AddRule(chain: ChainId, rule: Rule)
    | DeleteHandles(chain: ChainId, handles: set<nat>)
    | DeleteChain(chain: ChainId)

  predicate LoadableCond(lib: AddrLib, c: Cond) {
    match c
    case SAddr(f, t) => IsLiteral(lib, f, t)
    case DAddr(f, t) => IsLiteral(lib, f, t)
    case _ => true
  }

  /** Whether nft accepts the rule at load time: its address texts are literals of the
      family they are used with, and a jump goes to an existing ordinary chain. */
  predicate Loadable(lib: AddrLib, t: Table, r: Rule) {
    && (forall c :: c in r.conds ==> LoadableCond(lib, c))
    && (r.action.Jump? ==> r.action.chain in t && !IsBase(r.action.chain))
  }

  predicate JumpsTo(rules: seq<Rule>, c: ChainId) {
    exists r :: r in rules && r.action == Jump(c)
  }

  predicate Referenced(t: Table, c: ChainId) {
    exists d :: d in t && JumpsTo(t[d], c)
  }

  /** Rules whose position is not among the handles, in order. Handles are the positions a
      listing of the chain showed. */
  function Without(rules: seq<Rule>, handles: set<nat>): seq<Rule> {
    if rules == [] then []
    else
      var n := |rules| - 1;
      Without(rules[..n], handles) + if n in handles then [] else [rules[n]]
  }

  function Exec(lib: AddrLib, t: Table, cmd: Cmd): Option<Table> {
    match cmd
    case AddTable => Some(t)
    case AddChain(c) => Some(if c in t then t else t[c := []])
    case Flush(c) => if c in t then Some(t[c := []]) else None
    case AddRule(c, r) => if c in t && Loadable(lib, t, r) then Some(t[c := t[c] + [r]]) else None
    case DeleteHandles(c, hs) =>
      if c in t && (forall h :: h in hs ==> h < |t[c]|) then Some(t[c := Without(t[c], hs)]) else None
    case DeleteChain(c) =>
      if c in t && t[c] == [] && (IsBase(c) || !Referenced(t, c)) then Some(t - {c}) else None
  }

  /** One `nft -f -` transaction: every command or none. */
  function ExecAll(lib: AddrLib, t: Table, cmds: seq<Cmd>): Option<Table>
    decreases |cmds|
  {
    if cmds == [] then Some(t)
    else
      var r := Exec(lib, t, cmds[0]);
      if r.None? then None else ExecAll(lib, r.value, cmds[1..])
  }

  function Adds(c: ChainId, rules: seq<Rule>): (cmds: seq<Cmd>)
    ensures |cmds| == |rules|
  {
    if rules == [] then [] else [AddRule(c, rules[0])] + Adds(c, rules[1..])
  }

  // ---------------------------------------------------------------- laws of Walk

  lemma {:induction false} WalkAppend(lib: AddrLib, t: Table, a: seq<Rule>, b: seq<Rule>, p: Packet, depth: nat)
    ensures Walk(lib, t, a + b, p, depth)
         == if Walk(lib, t, a, p, depth) == Fallthrough then Walk(lib, t, b, p, depth) else Walk(lib, t, a, p, depth)
  {
    if a == [] {
      assert a + b == b;
    } else {
      assert (a + b)[1..] == a[1..] + b;
      WalkAppend(lib, t, a[1..], b, p, depth);
    }
  }

  /** A jump that is already in the list adds nothing when it is appended again. */
  lemma {:induction false} WalkRepeat(lib: AddrLib, t: Table, rules: seq<Rule>, r: Rule, p: Packet, depth: nat)
    requires r in rules && r.action.Jump?
    ensures Walk(lib, t, rules + [r], p, depth) == Walk(lib, t, rules, p, depth)
  {
    WalkAppend(lib, t, rules, [r], p, depth);
    if Walk(lib, t, rules, p, depth) == Fallthrough {
      FallthroughPassesAll(lib, t, rules, r, p, depth);
    }
  }

  lemma {:induction false} FallthroughPassesAll(
    lib: AddrLib, t: Table, rules: seq<Rule>, r: Rule, p: Packet, depth: nat)
    requires r in rules && r.action.Jump?
    requires Walk(lib, t, rules, p, depth) == Fallthrough
    ensures Walk(lib, t, [r], p, depth) == Fallthrough
  {
    if rules[0] == r {
      assert [r][1..] == [];
    } else {
      FallthroughPassesAll(lib, t, rules[1..], r, p, depth);
    }
  }

  /** Chains that read the same walk the same; base chains are never walked into. */
  lemma {:induction false} WalkFrame(lib: AddrLib, t: Table, u: Table, rules: seq<Rule>, p: Packet, depth: nat)
    requires forall c :: !IsBase(c) ==> Rules(t, c) == Rules(u, c)
    ensures Walk(lib, t, rules, p, depth) == Walk(lib, u, rules, p, depth)
    decreases depth, |rules|
  {
    if rules != [] {
      WalkFrame(lib, t, u, rules[1..], p, depth);
      if rules[0].action.Jump? && depth > 0 && !IsBase(rules[0].action.chain) {
        var c := rules[0].action.chain;
        WalkFrame(lib, t, u, Rules(t, c), p, depth - 1);
        assert Rules(t, c) == Rules(u, c);
      }
    }
  }

  // ---------------------------------------------------------------- laws of ExecAll

  lemma {:induction false} ExecAppend(lib: AddrLib, t: Table, a: seq<Cmd>, b: seq<Cmd>)
    ensures ExecAll(lib, t, a + b)
         == if ExecAll(lib, t, a).None? then None else ExecAll(lib, ExecAll(lib, t, a).value, b)
    decreases |a|
  {
    if a == [] {
      assert a + b == b;
    } else {
      assert (a + b)[1..] == a[1..] + b;
      var r := Exec(lib, t, a[0]);
      if r.Some? {
        ExecAppend(lib, r.value, a[1..], b);
      }
    }
  }

  lemma {:induction false} AddsAppend(c: ChainId, a: seq<Rule>, b: seq<Rule>)
    ensures Adds(c, a + b) == Adds(c, a) + Adds(c, b)
  {
    if a == [] {
      assert a + b == b;
    } else {
      assert (a + b)[1..] == a[1..] + b;
      AddsAppend(c, a[1..], b);
    }
  }

  /** Adding loadable rules to an existing chain succeeds and appends them in order; one
      rule that is not loadable rejects the whole transaction. */
  lemma {:induction false} ExecAdds(lib: AddrLib, t: Table, c: ChainId, rules: seq<Rule>)
    requires c in t
    ensures (forall r :: r in rules ==> Loadable(lib, t, r)) ==>
              ExecAll(lib, t, Adds(c, rules)) == Some(t[c := t[c] + rules])
    ensures (exists r :: r in rules && !Loadable(lib, t, r)) ==> ExecAll(lib, t, Adds(c, rules)) == None
  {
    if rules == [] {
      assert t[c] + rules == t[c];
      assert t[c := t[c] + rules] == t;
    } else {
      var cmds := Adds(c, rules);
      assert cmds[1..] == Adds(c, rules[1..]);
      if Loadable(lib, t, rules[0]) {
        var u := t[c := t[c] + [rules[0]]];
        assert u.Keys == t.Keys;
        assert forall r :: Loadable(lib, u, r) <==> Loadable(lib, t, r);
        ExecAdds(lib, u, c, rules[1..]);
        assert t[c] + [rules[0]] + rules[1..] == t[c] + rules;
        assert u[c := u[c] + rules[1..]] == t[c := t[c] + rules];
        if exists r :: r in rules && !Loadable(lib, t, r) {
          var r :| r in rules && !Loadable(lib, t, r);
          assert r in rules[1..];
        }
      }
    }
  }
}
