/** The firewall-target mini-language: `parse_target` (read side), `validate_firewall_target`
    (write side), and how the two agree. */
module TargetParser {
  import opened Text
  import opened Nft

  /** An address text, an optional port, an optional protocol. */
  datatype Target = Target(ip: string, port: Option<nat>, proto: Option<Proto>)

  predicate IsAddr(lib: AddrLib, s: string) {
    lib.isV4(s) || lib.isV6(s)
  }

  predicate IsNet(lib: AddrLib, s: string) {
    lib.isNet4(s) || lib.isNet6(s)
  }

  predicate CheckedIp(lib: AddrLib, s: string) {
    IsAddr(lib, s) || IsNet(lib, s)
  }

  /** Splits a trailing /tcp or /udp off an entry. */
  function SplitProto(entry: string): (string, Option<Proto>) {
    if HasSuffix(entry, "/tcp") then (DropLast(entry, 4), Some(Tcp))
    else if HasSuffix(entry, "/udp") then (DropLast(entry, 4), Some(Udp))
    else (entry, None)
  }

  function Checked(lib: AddrLib, ip: string, port: Option<nat>, proto: Option<Proto>): Option<Target> {
    if CheckedIp(lib, ip) then Some(Target(ip, port, proto)) else None
  }

  predicate Bracketed(body: string) {
    body != [] && body[0] == '['
  }

  /** `[addr]` with an optional `:port`; whatever else follows the bracket is ignored. */
  function ParseBracketedBody(lib: AddrLib, body: string, end: nat, proto: Option<Proto>): (r: Option<Target>)
    requires Bracketed(body) && 1 <= end < |body|
    ensures r.Some? ==> CheckedIp(lib, r.value.ip) && r.value.proto == proto
    ensures r.Some? && r.value.port.Some? ==> r.value.port.value <= 65535
  {
    var ip := body[1..end];
    var rest := body[end + 1..];
    if rest != [] && rest[0] == ':' then
      var port := ParseUnsigned(rest[1..], 65535);
      if port.None? then None else Checked(lib, ip, port, proto)
    else Checked(lib, ip, None, proto)
  }

  /** The column of the colon that ends the address, when the text has one colon and only
      digits behind it. */
  function PortColumn(body: string): (r: Option<nat>)
    ensures r.Some? ==> r.value < |body|
  {
    if Count(body, ':') <= 1 && RFind(body, ':').Some? && AllDigits(body[RFind(body, ':').value + 1..])
    then RFind(body, ':') else None
  }

  function ParsePlainBody(lib: AddrLib, body: string, proto: Option<Proto>): (r: Option<Target>)
    ensures r.Some? ==> CheckedIp(lib, r.value.ip) && r.value.proto == proto
    ensures r.Some? && r.value.port.Some? ==> r.value.port.value <= 65535
  {
    match PortColumn(body)
    case None => Checked(lib, body, None, proto)
    case Some(col) =>
      var port := ParseUnsigned(body[col + 1..], 65535);
      if port.None? then None else Checked(lib, body[..col], port, proto)
  }

  /** None stands for the error result. */
  function ParseTarget(lib: AddrLib, entry: string): Option<Target> {
    var (body, proto) := SplitProto(entry);
    if Bracketed(body) && Find(body[1..], ']').Some?
    then ParseBracketedBody(lib, body, Find(body[1..], ']').value + 1, proto)
    else ParsePlainBody(lib, body, proto)
  }

  // ---------------------------------------------------------------- the write-side check

  predicate ValidPort(s: string) {
    var p := ParseUnsigned(s, 0xFFFF_FFFF);
    p.Some? && 1 <= p.value <= 65535
  }

  predicate ValidRoutingEntry(lib: AddrLib, entry: string) {
    var e := Trim(entry);
    e != [] && CheckedIp(lib, e)
  }

  predicate ValidBracketedBody(lib: AddrLib, body: string)
    requires Bracketed(body)
  {
    match Find(body[1..], ']')
    case None => false
    case Some(i) =>
      var after := body[i + 2..];
      && lib.isV6(body[1..i + 1])
      && if after != [] && after[0] == ':' then ValidPort(after[1..]) else after == []
  }

  predicate ValidPlainBody(lib: AddrLib, body: string) {
    if Count(body, ':') == 1 && PortColumn(body).Some? then
      var col := PortColumn(body).value;
      ValidRoutingEntry(lib, body[..col]) && ValidPort(body[col + 1..])
    else ValidRoutingEntry(lib, body)
  }

  predicate ValidFirewallTarget(lib: AddrLib, entry: string) {
    var e := Trim(entry);
    e != [] &&
    var body := SplitProto(e).0;
    if Bracketed(body) then ValidBracketedBody(lib, body) else ValidPlainBody(lib, body)
  }

  // ---------------------------------------------------------------- printing

  /** Address and port; a colon-bearing address is bracketed before a port. */
  function PrintAddr(ip: string, port: Option<nat>): string {
    if port.None? then ip
    else if ':' in ip then "[" + ip + "]:" + Decimal(port.value)
    else ip + ":" + Decimal(port.value)
  }

  function PrintProto(proto: Option<Proto>): string {
    match proto
    case Some(Tcp) => "/tcp"
    case Some(Udp) => "/udp"
    case _ => ""
  }

  /** The natural spelling of a target. */
  function Print(t: Target): string {
    PrintAddr(t.ip, t.port) + PrintProto(t.proto)
  }

  predicate Printable(lib: AddrLib, t: Target) {
    && CheckedIp(lib, t.ip)
    && (t.port.Some? ==> t.port.value <= 65535)
    && (t.proto.Some? ==> t.proto.value != OtherProto)
  }

  // ---------------------------------------------------------------- lemmas

  lemma LiteralShape(lib: AddrLib, s: string)
    requires Sane(lib) && CheckedIp(lib, s)
    ensures s != [] && OverV6Net(s)
    ensures NoSpace(s) && '[' !in s && ']' !in s
    ensures ':' in s <==> (lib.isV6(s) || lib.isNet6(s))
    ensures Count(s, ':') != 1
  {
    assert Count("", ':') == 0;
  }

  /** A text that ends in neither 'p' has no protocol suffix. */
  lemma SplitProtoPlain(s: string)
    requires s != [] && s[|s| - 1] != 'p'
    ensures SplitProto(s) == (s, None)
  {
    assert |s| >= 4 ==> s[|s| - 4..][3] == s[|s| - 1];
  }

  lemma SplitProtoSuffixed(s: string)
    ensures SplitProto(s + "/tcp") == (s, Some(Tcp))
    ensures SplitProto(s + "/udp") == (s, Some(Udp))
  {
    assert (s + "/tcp")[|s|..] == "/tcp" && (s + "/tcp")[..|s|] == s;
    assert (s + "/udp")[|s|..] == "/udp" && (s + "/udp")[..|s|] == s;
    assert (s + "/udp")[|s|..][1] == 'u';
  }

  /** The part of parse_target after the protocol suffix was split off. */
  lemma ParseBare(lib: AddrLib, ip: string, entry: string, proto: Option<Proto>)
    requires Sane(lib) && CheckedIp(lib, ip)
    requires SplitProto(entry) == (ip, proto)
    ensures ParseTarget(lib, entry) == Some(Target(ip, None, proto))
  {
    LiteralShape(lib, ip);
  }

  lemma ParseBracketed(lib: AddrLib, ip: string, port: nat, entry: string, proto: Option<Proto>)
    requires Sane(lib) && CheckedIp(lib, ip) && port <= 65535
    requires SplitProto(entry) == ("[" + ip + "]:" + Decimal(port), proto)
    ensures ParseTarget(lib, entry) == Some(Target(ip, Some(port), proto))
  {
    LiteralShape(lib, ip);
    ParseClosed(lib, ip, port, entry, SplitProto(entry).0, proto);
  }

  lemma ParseClosed(lib: AddrLib, ip: string, port: nat, entry: string, body: string, proto: Option<Proto>)
    requires CheckedIp(lib, ip) && port <= 65535 && ']' !in ip && body == "[" + ip + "]:" + Decimal(port)
    requires SplitProto(entry) == (body, proto)
    ensures ParseTarget(lib, entry) == Some(Target(ip, Some(port), proto))
  {
    FindClosing(ip, Decimal(port), body);
    ReadBracketed(lib, ip, port, body, proto);
  }

  lemma FindClosing(ip: string, digits: string, body: string)
    requires body == "[" + ip + "]:" + digits && ']' !in ip
    ensures Bracketed(body) && Find(body[1..], ']') == Some(|ip|)
  {
    BracketedSlices(ip, digits, body);
    FindUnique(body[1..], ']', |ip|);
  }

  lemma ReadBracketed(lib: AddrLib, ip: string, port: nat, body: string, proto: Option<Proto>)
    requires CheckedIp(lib, ip) && port <= 65535 && body == "[" + ip + "]:" + Decimal(port)
    ensures Bracketed(body) && 1 <= |ip| + 1 < |body|
    ensures ParseBracketedBody(lib, body, |ip| + 1, proto) == Some(Target(ip, Some(port), proto))
  {
    BracketedSlices(ip, Decimal(port), body);
    ParseDecimal(port, 65535);
  }

  lemma BracketedSlices(ip: string, digits: string, body: string)
    requires body == "[" + ip + "]:" + digits
    ensures Bracketed(body)
    ensures body[1..][|ip|] == ']' && body[1..][..|ip|] == ip && body[1..|ip| + 1] == ip
    ensures body[|ip| + 2..] == ":" + digits && body[|ip| + 2..][1..] == digits
  {
  }

  lemma FindUnique(s: string, c: char, i: nat)
    requires i < |s| && s[i] == c && c !in s[..i]
    ensures Find(s, c) == Some(i)
  {
    assert c in s;
  }

  lemma RFindUnique(s: string, c: char, i: nat)
    requires i < |s| && s[i] == c && c !in s[i + 1..]
    ensures RFind(s, c) == Some(i)
  {
    assert c in s;
  }

  lemma ParseColon(lib: AddrLib, ip: string, port: nat, entry: string, proto: Option<Proto>)
    requires Sane(lib) && CheckedIp(lib, ip) && ':' !in ip && port <= 65535
    requires SplitProto(entry) == (ip + ":" + Decimal(port), proto)
    ensures ParseTarget(lib, entry) == Some(Target(ip, Some(port), proto))
  {
    LiteralShape(lib, ip);
    ColonSlices(ip, Decimal(port), ip + ":" + Decimal(port));
    ReadColon(lib, ip, port, ip + ":" + Decimal(port), proto);
  }

  lemma ReadColon(lib: AddrLib, ip: string, port: nat, body: string, proto: Option<Proto>)
    requires CheckedIp(lib, ip) && ip != [] && ':' !in ip && port <= 65535 && body == ip + ":" + Decimal(port)
    ensures ParsePlainBody(lib, body, proto) == Some(Target(ip, Some(port), proto))
  {
    ColonSlices(ip, Decimal(port), body);
    RFindUnique(body, ':', |ip|);
    ParseDecimal(port, 65535);
  }

  lemma ColonSlices(ip: string, digits: string, body: string)
    requires body == ip + ":" + digits && ip != [] && ':' !in ip && ':' !in digits
    ensures body[0] == ip[0] && body[|ip|] == ':'
    ensures body[|ip| + 1..] == digits && body[..|ip|] == ip
    ensures Count(body, ':') == 1
  {
    CountAppend(ip, ":" + digits, ':');
    assert body == ip + (":" + digits);
    assert (":" + digits)[1..] == digits;
  }

  /** A printed address and port never end like a protocol suffix. */
  lemma PrintAddrEnds(lib: AddrLib, ip: string, port: Option<nat>)
    requires Sane(lib) && CheckedIp(lib, ip)
    ensures PrintAddr(ip, port) != [] && PrintAddr(ip, port)[|PrintAddr(ip, port)| - 1] != 'p'
  {
    LiteralShape(lib, ip);
    if port.Some? {
      var d := Decimal(port.value);
      assert IsDigit(d[|d| - 1]);
    }
  }

  lemma PrintSplits(lib: AddrLib, t: Target)
    requires Sane(lib) && Printable(lib, t)
    ensures SplitProto(Print(t)) == (PrintAddr(t.ip, t.port), t.proto)
  {
    PrintAddrEnds(lib, t.ip, t.port);
    SplitPrinted(PrintAddr(t.ip, t.port), t.proto);
  }

  lemma SplitPrinted(plain: string, proto: Option<Proto>)
    requires plain != [] && plain[|plain| - 1] != 'p' && proto != Some(OtherProto)
    ensures SplitProto(plain + PrintProto(proto)) == (plain, proto)
  {
    SplitProtoPlain(plain);
    SplitProtoSuffixed(plain);
    assert plain + "" == plain;
  }

  /** parse_target inverts the printer on every address or CIDR, port and protocol. */
  lemma PrintParse(lib: AddrLib, t: Target)
    requires Sane(lib) && Printable(lib, t)
    ensures ParseTarget(lib, Print(t)) == Some(t)
  {
    PrintSplits(lib, t);
    if t.port.None? {
      ParseBare(lib, t.ip, Print(t), t.proto);
    } else if ':' in t.ip {
      ParseBracketed(lib, t.ip, t.port.value, Print(t), t.proto);
    } else {
      ParseColon(lib, t.ip, t.port.value, Print(t), t.proto);
    }
  }

  /** Bracketed entries must hold a plain IPv6 literal and be followed by nothing but a port:
      the write side insists on it, the parser does not. */
  predicate StrictBrackets(lib: AddrLib, entry: string) {
    var body := SplitProto(entry).0;
    Bracketed(body) && Find(body[1..], ']').Some? ==>
      var end := Find(body[1..], ']').value + 1;
      lib.isV6(body[1..end]) && (end + 1 < |body| ==> body[end + 1] == ':')
  }

  predicate PortInRange(port: Option<nat>) {
    port.Some? ==> 1 <= port.value <= 65535
  }

  /** On entries without whitespace the write-side check accepts exactly the entries the
      parser reads, minus port 0 and minus loosely bracketed ones. */
  lemma ValidatorMeansParser(lib: AddrLib, entry: string)
    requires Sane(lib) && NoSpace(entry)
    ensures ValidFirewallTarget(lib, entry) <==>
              && ParseTarget(lib, entry).Some?
              && PortInRange(ParseTarget(lib, entry).value.port)
              && StrictBrackets(lib, entry)
  {
    TrimNothing(entry);
    var (body, proto) := SplitProto(entry);
    if Bracketed(body) {
      if Find(body[1..], ']').Some? {
        BracketedAgrees(lib, body, Find(body[1..], ']').value, proto);
      } else {
        OpenBracketRejected(lib, body, proto);
      }
    } else {
      PlainAgrees(lib, body, proto);
      NotALiteral(lib);
    }
  }

  lemma PortsAgree(s: string)
    ensures ValidPort(s) <==> ParseUnsigned(s, 65535).Some? && ParseUnsigned(s, 65535).value >= 1
  {
  }

  lemma BracketedAgrees(lib: AddrLib, body: string, i: nat, proto: Option<Proto>)
    requires Sane(lib)
    requires Bracketed(body) && Find(body[1..], ']') == Some(i)
    ensures var r := ParseBracketedBody(lib, body, i + 1, proto);
            ValidBracketedBody(lib, body) <==>
              && r.Some? && PortInRange(r.value.port)
              && lib.isV6(body[1..i + 1]) && (i + 2 < |body| ==> body[i + 2] == ':')
  {
    var after := body[i + 2..];
    if after != [] {
      PortsAgree(after[1..]);
    }
  }

  lemma PlainAgrees(lib: AddrLib, body: string, proto: Option<Proto>)
    requires Sane(lib) && NoSpace(body)
    ensures var r := ParsePlainBody(lib, body, proto);
            ValidPlainBody(lib, body) <==> r.Some? && PortInRange(r.value.port)
  {
    TrimNothing(body);
    NotALiteral(lib);
    if PortColumn(body).Some? {
      var col := PortColumn(body).value;
      TrimNothing(body[..col]);
      PortsAgree(body[col + 1..]);
    }
  }

  lemma NotALiteral(lib: AddrLib)
    requires Sane(lib)
    ensures !CheckedIp(lib, "")
  {
    assert Count("", ':') == 0;
  }

  lemma BracketNotLiteral(lib: AddrLib, s: string)
    requires Sane(lib)
    requires s == [] || s[0] == '['
    ensures !CheckedIp(lib, s)
  {
    assert s == [] ==> Count(s, ':') == 0;
    assert s != [] ==> !IsHex(s[0]);
  }

  lemma OpenBracketRejected(lib: AddrLib, body: string, proto: Option<Proto>)
    requires Sane(lib) && Bracketed(body)
    ensures ParsePlainBody(lib, body, proto).None?
  {
    BracketNotLiteral(lib, body);
    if PortColumn(body).Some? {
      BracketNotLiteral(lib, body[..PortColumn(body).value]);
    }
  }

  /** Every address the parser lets through is a literal of the family its colons announce,
      so it can be rendered with that family's keyword. */
  lemma ParsedIsLiteral(lib: AddrLib, entry: string)
    requires Sane(lib) && ParseTarget(lib, entry).Some?
    ensures var t := ParseTarget(lib, entry).value;
            && IsLiteral(lib, if ':' in t.ip then V6 else V4, t.ip)
            && (t.port.Some? ==> t.port.value <= 65535)
            && (t.proto.Some? ==> t.proto.value != OtherProto)
  {
    LiteralShape(lib, ParseTarget(lib, entry).value.ip);
  }

  // ---------------------------------------------------------------- what counts as an address

  /** Every address and every CIDR of either family is an entry of its own, for the parser and for
      the write-side check. */
  lemma BareLiteralsParse(lib: AddrLib, ip: string)
    requires Sane(lib) && (lib.isV4(ip) || lib.isV6(ip) || lib.isNet4(ip) || lib.isNet6(ip))
    ensures ParseTarget(lib, ip) == Some(Target(ip, None, None)) && ValidFirewallTarget(lib, ip)
  {
    PrintParse(lib, Target(ip, None, None));
    assert ip + "" == ip;
    LiteralShape(lib, ip);
    ValidatorMeansParser(lib, ip);
    PrintSplits(lib, Target(ip, None, None));
  }
}
