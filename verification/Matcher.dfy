/** When a packet satisfies the conditions of a rule. */
module Matcher {
  import opened Wrappers
  import opened Net
  import opened Text
  import opened Rule

  datatype Protocol = Tcp | Udp | Icmp | Other(number: Byte)

  datatype PacketContext = PacketContext(
    srcIp: Ipv4Addr,
    dstIp: Ipv4Addr,
    srcPort: Option<nat>,
    dstPort: Option<nat>,
    protocol: Protocol,
    domains: seq<string>)

  /** An address block given by its leading `prefix` bits. */
  datatype Network = Network(addr: Ipv4Addr, prefix: nat)

  function Pow2(n: nat): (p: nat)
    ensures p > 0
  {
    if n == 0 then 1 else 2 * Pow2(n - 1)
  }

  /** The leading bits agree. */
  predicate Contains(net: Network, ip: Ipv4Addr) {
    net.prefix <= 32 && net.addr.Bits() / Pow2(32 - net.prefix) == ip.Bits() / Pow2(32 - net.prefix)
  }

  /** The `k`-th bit of an address, the first one being the most significant. */
  function BitAt(ip: Ipv4Addr, k: nat): nat
    requires k < 32
  {
    ip.Bits() / Pow2(31 - k) % 2
  }

  lemma HalveQuotient(x: nat, n: nat)
    ensures x / Pow2(n) == 2 * (x / Pow2(n + 1)) + x / Pow2(n) % 2
  {
    var m := Pow2(n);
    DivDiv(x, m);
  }

  lemma DivDiv(x: nat, m: nat)
    requires m > 0
    ensures x / (2 * m) == x / m / 2
  {
    var q, r := x / m, x % m;
    var h, b := q / 2, q % 2;
    assert x == m * q + r && q == 2 * h + b;
    assert m * q == (2 * m) * h + m * b;
    assert 0 <= m * b + r < 2 * m;
    QuotientIs(x, 2 * m, h, m * b + r);
  }

  lemma QuotientIs(x: nat, d: nat, q: nat, r: nat)
    requires d > 0 && r < d && x == d * q + r
    ensures x / d == q
  {
    var q' := x / d;
    assert x == d * q' + x % d;
    if q' < q {
      MulMonotone(d, q' + 1, q);
      MulMonotone(d, q', q);
    } else if q < q' {
      MulMonotone(d, q + 1, q');
      MulMonotone(d, q, q');
    }
  }

  lemma MulMonotone(d: nat, a: nat, b: nat)
    requires a <= b
    ensures d * a <= d * b && d * (a + 1) == d * a + d
  {
    assert d * b == d * a + d * (b - a);
  }

  lemma {:induction false} LeadingBitsAgree(x: Ipv4Addr, y: Ipv4Addr, n: nat)
    requires n <= 32
    ensures x.Bits() / Pow2(32 - n) == y.Bits() / Pow2(32 - n) <==> forall k: nat :: k < n ==> BitAt(x, k) == BitAt(y, k)
  {
    if n == 0 {
      FullShift(x);
      FullShift(y);
    } else {
      LeadingBitsAgree(x, y, n - 1);
      HalveQuotient(x.Bits(), 32 - n);
      HalveQuotient(y.Bits(), 32 - n);
      assert BitAt(x, n - 1) == x.Bits() / Pow2(32 - n) % 2;
      assert BitAt(y, n - 1) == y.Bits() / Pow2(32 - n) % 2;
    }
  }

  lemma FullShift(x: Ipv4Addr)
    ensures x.Bits() / Pow2(32) == 0
  {
    assert Pow2(8) == 0x100;
    assert Pow2(16) == 0x1_0000;
    assert Pow2(24) == 0x100_0000;
    assert Pow2(32) == 0x1_0000_0000;
  }

  /** A network contains an address exactly if the first `prefix` bits agree. */
  lemma ContainsIsBitwise(net: Network, ip: Ipv4Addr)
    ensures Contains(net, ip) <==>
      net.prefix <= 32 && forall k: nat :: k < net.prefix ==> BitAt(net.addr, k) == BitAt(ip, k)
  {
    if net.prefix <= 32 { LeadingBitsAgree(net.addr, ip, net.prefix); }
  }

  /** Code outside this model: the network and address parsers, and the country database, which
      gives the ISO codes recorded for an address and none without a database. */
  datatype Env = Env(
    parseNetwork: string -> Option<Network>,
    parseAddr: string -> Option<Ipv4Addr>,
    countries: Ipv4Addr -> set<string>)

  // ---------------------------------------------------------------------------
  // Ports and protocols
  // ---------------------------------------------------------------------------

  predicate IsDigit(c: char) {
    '0' <= c <= '9'
  }

  predicate Digits(s: string) {
    forall i :: 0 <= i < |s| ==> IsDigit(s[i])
  }

  function DecimalValue(s: string): nat
    requires Digits(s)
  {
    if s == [] then 0
    else
      assert IsDigit(s[|s| - 1]);
      10 * DecimalValue(s[..|s| - 1]) + (s[|s| - 1] as int - '0' as int)
  }

  /** A `u16` from its decimal digits, with an optional plus sign. */
  function ParseU16(s: string): Option<nat> {
    var digits := if s != [] && s[0] == '+' then s[1..] else s;
    if digits == [] || !Digits(digits) then None
    else if DecimalValue(digits) > 0xFFFF then None
    else Some(DecimalValue(digits))
  }

  datatype PortRange = PortRange(start: nat, end: nat)

  function ParsePortRange(s: string): (r: Option<PortRange>)
    ensures r.Some? ==> r.value.start <= r.value.end <= 0xFFFF
  {
    if '-' in s then
      var parts := Split(s, '-');
      if |parts| != 2 then None
      else
        match (ParseU16(parts[0]), ParseU16(parts[1]))
        case (Some(start), Some(end)) => if start > end then None else Some(PortRange(start, end))
        case _ => None
    else
      match ParseU16(s)
      case Some(port) => Some(PortRange(port, port))
      case None => None
  }

  /** The decimal digits of a number, without leading zeros. */
  function Decimal(n: nat): (s: string)
    ensures s != [] && Digits(s)
  {
    var last := ['0' + (n % 10) as char];
    if n < 10 then last else Decimal(n / 10) + last
  }

  lemma {:induction false} DecimalRoundTrip(n: nat)
    ensures DecimalValue(Decimal(n)) == n
  {
    var s := Decimal(n);
    if n >= 10 {
      DecimalRoundTrip(n / 10);
      assert s[..|s| - 1] == Decimal(n / 10);
    }
  }

  lemma ParseU16Decimal(n: nat)
    requires n <= 0xFFFF
    ensures ParseU16(Decimal(n)) == Some(n)
  {
    DecimalRoundTrip(n);
    assert IsDigit(Decimal(n)[0]);
  }

  lemma NoDash(n: nat)
    ensures '-' !in Decimal(n)
  {
  }

  function Pow10(n: nat): nat {
    if n == 0 then 1 else 10 * Pow10(n - 1)
  }

  /** Decimal digits weigh by their position, the last one least. */
  lemma {:induction false} DecimalIsPositional(s: string, t: string)
    requires Digits(s) && Digits(t)
    ensures Digits(s + t) && DecimalValue(s + t) == Pow10(|t|) * DecimalValue(s) + DecimalValue(t)
    decreases |t|
  {
    if t == [] {
      assert s + t == s;
    } else {
      var front := t[..|t| - 1];
      DecimalIsPositional(s, front);
      assert (s + t)[..|s + t| - 1] == s + front && (s + t)[|s + t| - 1] == t[|t| - 1];
      TenTimes(Pow10(|front|), DecimalValue(s), DecimalValue(front));
    }
  }

  lemma TenTimes(p: nat, v: nat, w: nat)
    ensures 10 * (p * v + w) == (10 * p) * v + 10 * w
  {
  }

  /** A single digit is worth its place among the ten. */
  lemma DigitValue(i: nat)
    requires i < 10
    ensures Digits(["0123456789"[i]]) && DecimalValue(["0123456789"[i]]) == i
  {
    var c := "0123456789"[i];
    assert c as int == 0x30 + i by {
      assert i == 0 || i == 1 || i == 2 || i == 3 || i == 4 || i == 5 || i == 6 || i == 7 || i == 8 || i == 9;
    }
    assert [c][..0] == [];
  }

  /** A port as text: digits, after a plus sign or not, whose value fits 16 bits. */
  predicate PortNumber(s: string, n: nat) {
    && n < 65536
    && (|| (s != [] && Digits(s) && DecimalValue(s) == n)
        || (|s| > 1 && s[0] == '+' && Digits(s[1..]) && DecimalValue(s[1..]) == n))
  }

  lemma ParseU16IsPortNumber(s: string, n: nat)
    ensures ParseU16(s) == Some(n) <==> PortNumber(s, n)
  {
    assert s != [] && s[0] == '+' ==> !IsDigit(s[0]) && !Digits(s);
  }

  /** Two ports with a dash in between, the first not above the second. */
  ghost predicate PortPair(s: string, i: nat, start: nat, end: nat) {
    && i < |s| && s[i] == '-' && '-' !in s[..i] && '-' !in s[i + 1..]
    && PortNumber(s[..i], start) && PortNumber(s[i + 1..], end) && start <= end
  }

  /** The port range a text denotes: one port, or two with a dash in between. */
  ghost predicate PortSpec(s: string, start: nat, end: nat) {
    if '-' in s then exists i: nat :: PortPair(s, i, start, end)
    else start == end && PortNumber(s, start)
  }

  lemma PortPairIsParsed(s: string, i: nat, start: nat, end: nat)
    requires PortPair(s, i, start, end)
    ensures ParsePortRange(s) == Some(PortRange(start, end))
  {
    assert s == s[..i] + ['-'] + s[i + 1..];
    SplitConcat(s[..i], s[i + 1..], '-');
    SplitWithout(s[..i], '-');
    SplitWithout(s[i + 1..], '-');
    ParseU16IsPortNumber(s[..i], start);
    ParseU16IsPortNumber(s[i + 1..], end);
  }

  lemma ParsedIsPortPair(s: string, start: nat, end: nat)
    requires '-' in s && ParsePortRange(s) == Some(PortRange(start, end))
    ensures PortPair(s, |Split(s, '-')[0]|, start, end)
  {
    var parts := Split(s, '-');
    JoinSplit(s, '-');
    SplitPieces(s, '-');
    assert parts[0] in parts && parts[1] in parts;
    assert Join(parts[1..], '-') == parts[1];
    var i := |parts[0]|;
    assert s == parts[0] + ['-'] + parts[1];
    assert s[..i] == parts[0] && s[i + 1..] == parts[1];
    ParseU16IsPortNumber(parts[0], start);
    ParseU16IsPortNumber(parts[1], end);
  }

  /** Exactly these texts are port ranges, and this is what they denote. */
  lemma PortRangeIsItsText(s: string, start: nat, end: nat)
    ensures ParsePortRange(s) == Some(PortRange(start, end)) <==> PortSpec(s, start, end)
  {
    if '-' in s {
      if ParsePortRange(s) == Some(PortRange(start, end)) { ParsedIsPortPair(s, start, end); }
      if i: nat :| PortPair(s, i, start, end) { PortPairIsParsed(s, i, start, end); }
    } else {
      ParseU16IsPortNumber(s, start);
    }
  }

  lemma WrittenPieces(start: nat, end: nat)
    ensures Split(Decimal(start) + ['-'] + Decimal(end), '-') == [Decimal(start), Decimal(end)]
  {
    NoDash(start);
    NoDash(end);
    SplitConcat(Decimal(start), Decimal(end), '-');
    SplitWithout(Decimal(start), '-');
    SplitWithout(Decimal(end), '-');
  }

  lemma WrittenRangeIsParsed(start: nat, end: nat)
    requires start <= 0xFFFF && end <= 0xFFFF
    ensures ParsePortRange(Decimal(start) + ['-'] + Decimal(end)) == if start <= end then Some(PortRange(start, end)) else None
  {
    var s := Decimal(start) + ['-'] + Decimal(end);
    assert s[|Decimal(start)|] == '-';
    WrittenPieces(start, end);
    ParseU16Decimal(start);
    ParseU16Decimal(end);
  }

  lemma WrittenPortIsParsed(port: nat)
    requires port <= 0xFFFF
    ensures ParsePortRange(Decimal(port)) == Some(PortRange(port, port))
  {
    NoDash(port);
    ParseU16Decimal(port);
  }

  /** A written range matches exactly the ports inside it, and an inverted one matches none. */
  lemma WrittenRangeMatches(start: nat, end: nat, port: nat)
    requires start <= 0xFFFF && end <= 0xFFFF
    ensures MatchesPort(Decimal(start) + ['-'] + Decimal(end), Some(port)) <==> start <= port <= end
    ensures MatchesPort(Decimal(start), Some(port)) <==> port == start
  {
    WrittenRangeIsParsed(start, end);
    WrittenPortIsParsed(start);
  }

  function ProtocolNamed(s: string): Option<Protocol> {
    var v := Lower(s);
    if v == "tcp" then Some(Tcp)
    else if v == "udp" then Some(Udp)
    else if v == "icmp" then Some(Icmp)
    else None
  }

  predicate MatchesPort(spec: string, port: Option<nat>) {
    && port.Some?
    && ParsePortRange(spec).Some?
    && ParsePortRange(spec).value.start <= port.value <= ParsePortRange(spec).value.end
  }

  predicate MatchesProtocol(name: string, protocol: Protocol) {
    ProtocolNamed(name) == Some(protocol)
  }

  predicate MatchesIp(env: Env, cidr: string, ip: Ipv4Addr) {
    match env.parseNetwork(cidr)
    case Some(net) => Contains(net, ip)
    case None => env.parseAddr(cidr) == Some(ip)
  }

  // ---------------------------------------------------------------------------
  // Domains
  // ---------------------------------------------------------------------------

  predicate EndsWith(s: string, t: string) {
    |t| <= |s| && s[|s| - |t|..] == t
  }

  predicate OccursAt(s: string, t: string, i: nat) {
    i + |t| <= |s| && s[i..i + |t|] == t
  }

  predicate ContainsText(s: string, t: string) {
    exists i: nat :: i <= |s| && OccursAt(s, t, i)
  }

  /** The `DOMAIN-SUFFIX` test on one name. */
  predicate HasDomainSuffix(name: string, suffix: string) {
    name == suffix || EndsWith(name, ['.'] + suffix)
  }

  predicate MatchesDomain(domain: string, names: seq<string>) {
    exists i :: 0 <= i < |names| && names[i] == domain
  }

  predicate MatchesDomainSuffix(suffix: string, names: seq<string>) {
    exists i :: 0 <= i < |names| && HasDomainSuffix(names[i], suffix)
  }

  predicate MatchesDomainKeyword(keyword: string, names: seq<string>) {
    exists i :: 0 <= i < |names| && ContainsText(names[i], keyword)
  }

  function Labels(name: string): seq<string> {
    Split(name, '.')
  }

  predicate IsLabelSuffix(ys: seq<string>, xs: seq<string>) {
    |ys| <= |xs| && xs[|xs| - |ys|..] == ys
  }

  lemma SuffixGivesLabels(name: string, suffix: string)
    requires HasDomainSuffix(name, suffix)
    ensures IsLabelSuffix(Labels(suffix), Labels(name))
  {
    if name != suffix {
      var front := name[..|name| - |suffix| - 1];
      assert name == front + ['.'] + suffix;
      SplitConcat(front, suffix, '.');
    }
  }

  lemma LabelsGiveSuffix(name: string, suffix: string)
    requires IsLabelSuffix(Labels(suffix), Labels(name))
    ensures HasDomainSuffix(name, suffix)
  {
    var xs, ys := Labels(name), Labels(suffix);
    var front := xs[..|xs| - |ys|];
    assert xs == front + ys;
    JoinSplit(name, '.');
    JoinSplit(suffix, '.');
    if front != [] {
      JoinConcat(front, ys, '.');
      assert name == Join(front, '.') + (['.'] + suffix);
    }
  }

  /** The string test holds exactly when the suffix's labels are the last labels of the name. */
  lemma DomainSuffixIsLabelSuffix(name: string, suffix: string)
    ensures HasDomainSuffix(name, suffix) <==> IsLabelSuffix(Labels(suffix), Labels(name))
  {
    if HasDomainSuffix(name, suffix) { SuffixGivesLabels(name, suffix); }
    if IsLabelSuffix(Labels(suffix), Labels(name)) { LabelsGiveSuffix(name, suffix); }
  }

  /** Exact match implies suffix match, and suffix match implies keyword match. */
  lemma DomainTestsAreNested(name: string, value: string)
    ensures name == value ==> HasDomainSuffix(name, value)
    ensures HasDomainSuffix(name, value) ==> ContainsText(name, value)
  {
    if HasDomainSuffix(name, value) {
      assert OccursAt(name, value, |name| - |value|);
    }
  }

  lemma DomainSuffixIsTransitive(a: string, b: string, c: string)
    requires HasDomainSuffix(a, b) && HasDomainSuffix(b, c)
    ensures HasDomainSuffix(a, c)
  {
  }

  // ---------------------------------------------------------------------------
  // GEOIP
  // ---------------------------------------------------------------------------

  predicate IsCgnat(ip: Ipv4Addr) {
    ip.a == 100 && 64 <= ip.b <= 127
  }

  predicate IsPrivateIp(ip: Ipv4Addr) {
    || (ip.a == 10 || (ip.a == 172 && 16 <= ip.b <= 31) || (ip.a == 192 && ip.b == 168))
    || ip.a == 127
    || (ip.a == 169 && ip.b == 254)
    || ip == Ipv4Addr(0, 0, 0, 0)
    || ip == Ipv4Addr(255, 255, 255, 255)
    || 224 <= ip.a <= 239
    || IsCgnat(ip)
  }

  predicate MatchesGeoIp(env: Env, ip: Ipv4Addr, code: string) {
    if Upper(code) == "PRIVATE" then IsPrivateIp(ip)
    else Upper(code) in env.countries(ip)
  }

  // ---------------------------------------------------------------------------
  // Rules
  // ---------------------------------------------------------------------------

  /** Every condition that is present holds; a rule without conditions matches every packet. */
  predicate Matches(env: Env, rule: Rule, packet: PacketContext) {
    && (rule.srcIpCidr.Some? ==> MatchesIp(env, rule.srcIpCidr.value, packet.srcIp))
    && (rule.dstIpCidr.Some? ==> MatchesIp(env, rule.dstIpCidr.value, packet.dstIp))
    && (rule.srcPort.Some? ==> MatchesPort(rule.srcPort.value, packet.srcPort))
    && (rule.dstPort.Some? ==> MatchesPort(rule.dstPort.value, packet.dstPort))
    && (rule.proto.Some? ==> MatchesProtocol(rule.proto.value, packet.protocol))
    && (rule.domain.Some? ==> MatchesDomain(rule.domain.value, packet.domains))
    && (rule.domainSuffix.Some? ==> MatchesDomainSuffix(rule.domainSuffix.value, packet.domains))
    && (rule.domainKeyword.Some? ==> MatchesDomainKeyword(rule.domainKeyword.value, packet.domains))
    && (rule.geoip.Some? ==> MatchesGeoIp(env, packet.dstIp, rule.geoip.value))
  }

  /** A match looks at the protocol's name without its case. */
  lemma AlikeRulesMatchAlike(env: Env, r1: Rule, r2: Rule, packet: PacketContext)
    requires RuleAlike(r1, r2)
    ensures Matches(env, r1, packet) <==> Matches(env, r2, packet)
  {
  }
}
