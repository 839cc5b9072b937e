/**
 What a list of rule texts says about a packet, in terms of the pieces of each text.  The parser, the rule
 record, the matcher and the validator are proved to agree with it.
 */
module RuleMeaning {
  import opened Wrappers
  import opened Net
  import opened Text
  import opened Rule
  import opened Matcher
  import opened Engine
  import opened Config

  // ---------------------------------------------------------------------------
  // Matching
  // ---------------------------------------------------------------------------

  /** The address has the network's leading bits, or is the address itself when the text is no network. */
  ghost predicate InRange(env: Env, value: string, ip: Ipv4Addr) {
    match env.parseNetwork(value)
    case Some(net) => net.prefix <= 32 && forall k: nat :: k < net.prefix ==> BitAt(net.addr, k) == BitAt(ip, k)
    case None => env.parseAddr(value) == Some(ip)
  }

  ghost predicate InPorts(value: string, port: Option<nat>) {
    port.Some? && exists start: nat, end: nat :: PortSpec(value, start, end) && start <= port.value <= end
  }

  predicate IsProtocol(value: string, protocol: Protocol) {
    || (EqualButForCase(value, "tcp") && protocol == Tcp)
    || (EqualButForCase(value, "udp") && protocol == Udp)
    || (EqualButForCase(value, "icmp") && protocol == Icmp)
  }

  /** The name is the domain or ends in a dot and the domain. */
  ghost predicate UnderDomain(name: string, domain: string) {
    name == domain || exists front: string :: name == front + ['.'] + domain
  }

  ghost predicate HasKeyword(name: string, keyword: string) {
    exists front: string, back: string :: name == front + keyword + back
  }

  ghost predicate InCountry(env: Env, value: string, ip: Ipv4Addr) {
    if EqualButForCase(Trim(value), "PRIVATE") then exists i: nat :: InBlock(i, ip)
    else Upper(Trim(value)) in env.countries(ip)
  }

  /** A condition written as a field and a value holds of a packet whose destination has the given names. */
  ghost predicate Says(env: Env, f: Field, value: string, p: PacketContext, names: set<string>) {
    match f
    case SrcIpCidr => InRange(env, value, p.srcIp)
    case DstIpCidr => InRange(env, value, p.dstIp)
    case SrcPort => InPorts(value, p.srcPort)
    case DstPort => InPorts(value, p.dstPort)
    case Proto => IsProtocol(value, p.protocol)
    case Domain => DomainForm(value) in names
    case DomainSuffix => exists n :: n in names && UnderDomain(n, DomainForm(value))
    case DomainKeyword => exists n :: n in names && HasKeyword(n, DomainForm(value))
    case GeoIp => InCountry(env, value, p.dstIp)
  }

  /** `MATCH` applies to every packet, and a field rule where its condition holds. */
  ghost predicate Applies(env: Env, text: string, p: PacketContext, names: set<string>) {
    var parts := Pieces(text);
    || |parts| == 2
    || (|parts| == 3 && FieldNamed(Upper(parts[0])).Some? && Says(env, FieldNamed(Upper(parts[0])).value, parts[1], p, names))
  }

  /** The action in the last piece. */
  function ActionOf(text: string): RuleAction {
    var parts := Pieces(text);
    match WrittenAction(parts[|parts| - 1])
    case Some(a) => a
    case None => Direct
  }

  /** The action of the first text that applies, and `Direct` when none does. */
  ghost function TextDecision(env: Env, texts: seq<string>, p: PacketContext, names: set<string>): RuleAction {
    if texts == [] then Direct
    else if Applies(env, texts[0], p, names) then ActionOf(texts[0])
    else TextDecision(env, texts[1..], p, names)
  }

  lemma IpIsInRange(env: Env, value: string, ip: Ipv4Addr)
    ensures MatchesIp(env, value, ip) <==> InRange(env, value, ip)
  {
    match env.parseNetwork(value)
    case Some(net) => ContainsIsBitwise(net, ip);
    case None =>
  }

  lemma PortIsInPorts(value: string, port: Option<nat>)
    ensures MatchesPort(value, port) <==> InPorts(value, port)
  {
    if ParsePortRange(value).Some? {
      var r := ParsePortRange(value).value;
      PortRangeIsItsText(value, r.start, r.end);
    }
    forall start: nat, end: nat | PortSpec(value, start, end) ensures ParsePortRange(value) == Some(PortRange(start, end)) {
      PortRangeIsItsText(value, start, end);
    }
  }

  lemma ProtocolIsNamed(value: string, protocol: Protocol)
    ensures MatchesProtocol(value, protocol) <==> IsProtocol(value, protocol)
  {
    assert Lower("tcp") == "tcp" && Lower("udp") == "udp" && Lower("icmp") == "icmp";
    CaseIsAllThatIsLost(value, "tcp");
    CaseIsAllThatIsLost(value, "udp");
    CaseIsAllThatIsLost(value, "icmp");
  }

  lemma LabelSuffixIsUnder(name: string, domain: string)
    ensures IsLabelSuffix(Labels(domain), Labels(name)) <==> UnderDomain(name, domain)
  {
    DomainSuffixIsLabelSuffix(name, domain);
    if EndsWith(name, ['.'] + domain) {
      assert name == name[..|name| - |domain| - 1] + ['.'] + domain;
    }
    if front: string :| name == front + ['.'] + domain {
      assert name[|front|..] == ['.'] + domain;
    }
  }

  lemma ContainsIsKeyword(name: string, keyword: string)
    ensures ContainsText(name, keyword) <==> HasKeyword(name, keyword)
  {
    if i: nat :| i <= |name| && OccursAt(name, keyword, i) {
      assert name == name[..i] + keyword + name[i + |keyword|..];
    }
    if front: string, back: string :| name == front + keyword + back {
      assert OccursAt(name, keyword, |front|);
    }
  }

  lemma GeoIpIsCountry(env: Env, value: string, ip: Ipv4Addr)
    ensures MatchesGeoIp(env, ip, Upper(Trim(value))) <==> InCountry(env, value, ip)
  {
    var code := Upper(Trim(value));
    UpperHasNoLower(Trim(value));
    UpperHasNoLower(code);
    assert Upper(code) == code;
    assert Upper("PRIVATE") == "PRIVATE";
    CaseIsAllThatIsLost(Trim(value), "PRIVATE");
    PrivateIsSomeBlock(ip);
  }

  /** The value a parsed rule keeps. */
  function Kept(f: Field, value: string): string {
    if IsDomainField(f) then DomainForm(value) else if f.GeoIp? then Upper(Trim(value)) else value
  }

  /** A rule with one field decides by what its text says. */
  lemma FieldDecides(env: Env, a: RuleAction, f: Field, value: string, p: PacketContext, names: set<string>)
    ensures MatchesNames(env, WithField(a, f, Kept(f, value)), p, names) <==> Says(env, f, value, p, names)
  {
    match f
    case SrcIpCidr => IpIsInRange(env, value, p.srcIp);
    case DstIpCidr => IpIsInRange(env, value, p.dstIp);
    case SrcPort => PortIsInPorts(value, p.srcPort);
    case DstPort => PortIsInPorts(value, p.dstPort);
    case Proto => ProtocolIsNamed(value, p.protocol);
    case Domain =>
    case DomainSuffix =>
      var domain := DomainForm(value);
      forall n ensures IsLabelSuffix(Labels(domain), Labels(n)) <==> UnderDomain(n, domain) {
        LabelSuffixIsUnder(n, domain);
      }
    case DomainKeyword =>
      var keyword := DomainForm(value);
      forall n ensures ContainsText(n, keyword) <==> HasKeyword(n, keyword) { ContainsIsKeyword(n, keyword); }
    case GeoIp => GeoIpIsCountry(env, value, p.dstIp);
  }

  lemma FieldTextIsKept(text: string)
    requires ParseCompact(text).Ok? && |Pieces(text)| == 3
    ensures var parts := Pieces(text);
            && FieldNamed(Upper(parts[0])).Some?
            && ParseCompact(text).value == WithField(ActionOf(text), FieldNamed(Upper(parts[0])).value, Kept(FieldNamed(Upper(parts[0])).value, parts[1]))
  {
    MatchIsNoField(Pieces(text)[0]);
    ActionIsWritten(Pieces(text)[2]);
  }

  lemma MatchTextIsKept(text: string)
    requires ParseCompact(text).Ok? && |Pieces(text)| != 3
    ensures |Pieces(text)| == 2 && ParseCompact(text).value == NewRule(ActionOf(text)).(matchAll := true)
  {
    var parts := Pieces(text);
    MatchIsNoField(parts[0]);
    RuleTextsAreReadable(text);
    ActionIsWritten(parts[1]);
  }

  /** A rule that was read matches exactly where its text applies, and carries the action written last. */
  lemma TextDecides(env: Env, text: string, p: PacketContext, names: set<string>)
    requires ParseCompact(text).Ok?
    ensures MatchesNames(env, ParseCompact(text).value, p, names) <==> Applies(env, text, p, names)
    ensures ParseCompact(text).value.action == ActionOf(text)
  {
    var parts := Pieces(text);
    if |parts| == 3 {
      FieldTextIsKept(text);
      FieldDecides(env, ActionOf(text), FieldNamed(Upper(parts[0])).value, parts[1], p, names);
    } else {
      MatchTextIsKept(text);
    }
  }

  lemma {:induction false} DecisionIsItsText(env: Env, raw: seq<string>, p: PacketContext, names: set<string>)
    requires ParseAll(raw).Ok?
    ensures Decision(env, ParseAll(raw).value, p, names) == TextDecision(env, raw, p, names)
  {
    if raw != [] {
      TextDecides(env, raw[0], p, names);
      DecisionIsItsText(env, raw[1..], p, names);
    }
  }

  /** The engine over a list that was read gives every packet the action of the first text that applies. */
  lemma FirstMatchIsItsText(env: Env, raw: seq<string>, p: PacketContext)
    requires ParseAll(raw).Ok?
    ensures FirstMatch(env, ParseAll(raw).value, p) == TextDecision(env, raw, p, NameSet(p.domains))
  {
    FirstMatchIsDecision(env, ParseAll(raw).value, p);
    DecisionIsItsText(env, raw, p, NameSet(p.domains));
  }

  // ---------------------------------------------------------------------------
  // Validation
  // ---------------------------------------------------------------------------

  /** The values that validation lets pass. */
  ghost predicate ValidValue(env: Env, f: Field, value: string) {
    match f
    case SrcIpCidr => env.parseNetwork(value).Some?
    case DstIpCidr => env.parseNetwork(value).Some?
    case SrcPort => exists start: nat, end: nat :: PortSpec(value, start, end)
    case DstPort => exists start: nat, end: nat :: PortSpec(value, start, end)
    case Proto => exists protocol :: IsProtocol(value, protocol)
    case _ => value != [] && Plain(value)
  }

  lemma PortIsValid(value: string)
    ensures ParsePortRange(value).Some? <==> exists start: nat, end: nat :: PortSpec(value, start, end)
  {
    if ParsePortRange(value).Some? {
      var r := ParsePortRange(value).value;
      PortRangeIsItsText(value, r.start, r.end);
    }
    if start: nat, end: nat :| PortSpec(value, start, end) { PortRangeIsItsText(value, start, end); }
  }

  lemma ProtocolIsValid(value: string)
    ensures ProtocolNamed(value).Some? <==> exists protocol :: IsProtocol(value, protocol)
  {
    if ProtocolNamed(value).Some? { ProtocolIsNamed(value, ProtocolNamed(value).value); }
    if protocol :| IsProtocol(value, protocol) { ProtocolIsNamed(value, protocol); }
  }

  lemma ConditionsAreFields(r: Rule)
    ensures r.HasConditions() <==> r.matchAll || exists f :: r.Get(f).Some?
  {
    assert r.srcIpCidr == r.Get(SrcIpCidr) && r.dstIpCidr == r.Get(DstIpCidr) && r.srcPort == r.Get(SrcPort);
    assert r.dstPort == r.Get(DstPort) && r.proto == r.Get(Proto) && r.domain == r.Get(Domain);
    assert r.domainSuffix == r.Get(DomainSuffix) && r.domainKeyword == r.Get(DomainKeyword) && r.geoip == r.Get(GeoIp);
  }

  /** The check the validator makes on one field. */
  predicate Passes(env: Env, f: Field, value: string) {
    match f
    case SrcIpCidr => env.parseNetwork(value).Some?
    case DstIpCidr => env.parseNetwork(value).Some?
    case SrcPort => ParsePortRange(value).Some?
    case DstPort => ParsePortRange(value).Some?
    case Proto => ProtocolNamed(value).Some?
    case _ => !BadText(value)
  }

  lemma ChecksAreFields(env: Env, r: Rule, index: nat)
    ensures CheckRule(env, r, index).None? <==>
      r.HasConditions() && forall f :: r.Get(f).Some? ==> Passes(env, f, r.Get(f).value)
  {
    assert r.srcIpCidr == r.Get(SrcIpCidr) && r.dstIpCidr == r.Get(DstIpCidr) && r.srcPort == r.Get(SrcPort);
    assert r.dstPort == r.Get(DstPort) && r.proto == r.Get(Proto) && r.domain == r.Get(Domain);
    assert r.domainSuffix == r.Get(DomainSuffix) && r.domainKeyword == r.Get(DomainKeyword) && r.geoip == r.Get(GeoIp);
  }

  lemma PassesIsValid(env: Env, f: Field, value: string)
    ensures Passes(env, f, value) <==> ValidValue(env, f, value)
  {
    if f.SrcPort? || f.DstPort? {
      PortIsValid(value);
    } else if f.Proto? {
      ProtocolIsValid(value);
    }
  }

  /** Any rule passes validation exactly if it has a condition and the value of every field it sets is valid. */
  lemma ValidationIsPerField(env: Env, r: Rule, index: nat)
    ensures CheckRule(env, r, index).None? <==>
      && (r.matchAll || exists f :: r.Get(f).Some?)
      && (forall f :: r.Get(f).Some? ==> ValidValue(env, f, r.Get(f).value))
  {
    ConditionsAreFields(r);
    ChecksAreFields(env, r, index);
    forall f | r.Get(f).Some? ensures Passes(env, f, r.Get(f).value) <==> ValidValue(env, f, r.Get(f).value) {
      PassesIsValid(env, f, r.Get(f).value);
    }
  }
}
