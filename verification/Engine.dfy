/** First-match evaluation of a rule list. */
module Engine {
  import opened Wrappers
  import opened Net
  import opened Text
  import opened Rule
  import opened Matcher

  /** The action of the first matching rule, and `Direct` when none matches. */
  function FirstMatch(env: Env, rules: seq<Rule>, packet: PacketContext): RuleAction {
    if rules == [] then Direct
    else if Matches(env, rules[0], packet) then rules[0].action
    else FirstMatch(env, rules[1..], packet)
  }

  ghost predicate AnyMatches(env: Env, rules: seq<Rule>, packet: PacketContext) {
    exists r :: r in rules && Matches(env, r, packet)
  }

  /** The engine's loop over its rules, with an early return. */
  method MatchPacket(env: Env, rules: seq<Rule>, packet: PacketContext) returns (action: RuleAction)
    ensures action == FirstMatch(env, rules, packet)
    ensures (exists i :: 0 <= i < |rules| && Matches(env, rules[i], packet) && action == rules[i].action
               && forall j :: 0 <= j < i ==> !Matches(env, rules[j], packet))
            || (action == Direct && forall i :: 0 <= i < |rules| ==> !Matches(env, rules[i], packet))
  {
    for index := 0 to |rules|
      invariant FirstMatch(env, rules, packet) == FirstMatch(env, rules[index..], packet)
      invariant forall j :: 0 <= j < index ==> !Matches(env, rules[j], packet)
    {
      if Matches(env, rules[index], packet) {
        return rules[index].action;
      }
    }
    return Direct;
  }

  lemma {:induction false} FirstMatchConcat(env: Env, xs: seq<Rule>, ys: seq<Rule>, packet: PacketContext)
    ensures FirstMatch(env, xs + ys, packet) ==
      if AnyMatches(env, xs, packet) then FirstMatch(env, xs, packet) else FirstMatch(env, ys, packet)
  {
    if xs == [] {
      assert xs + ys == ys;
    } else {
      assert (xs + ys)[1..] == xs[1..] + ys;
      FirstMatchConcat(env, xs[1..], ys, packet);
      if AnyMatches(env, xs, packet) && !Matches(env, xs[0], packet) {
        var r :| r in xs && Matches(env, r, packet);
        assert r in xs[1..];
      }
      assert xs[0] in xs;
      assert forall r :: r in xs[1..] ==> r in xs;
    }
  }

  // ---------------------------------------------------------------------------
  // Only the set of names matters
  // ---------------------------------------------------------------------------

  /** The specification of a match, over a set of names. */
  ghost predicate MatchesNames(env: Env, rule: Rule, packet: PacketContext, names: set<string>) {
    && (rule.srcIpCidr.Some? ==> MatchesIp(env, rule.srcIpCidr.value, packet.srcIp))
    && (rule.dstIpCidr.Some? ==> MatchesIp(env, rule.dstIpCidr.value, packet.dstIp))
    && (rule.srcPort.Some? ==> MatchesPort(rule.srcPort.value, packet.srcPort))
    && (rule.dstPort.Some? ==> MatchesPort(rule.dstPort.value, packet.dstPort))
    && (rule.proto.Some? ==> MatchesProtocol(rule.proto.value, packet.protocol))
    && (rule.geoip.Some? ==> MatchesGeoIp(env, packet.dstIp, rule.geoip.value))
    && (rule.domain.Some? ==> rule.domain.value in names)
    && (rule.domainSuffix.Some? ==> exists n :: n in names && IsLabelSuffix(Labels(rule.domainSuffix.value), Labels(n)))
    && (rule.domainKeyword.Some? ==> exists n :: n in names && ContainsText(n, rule.domainKeyword.value))
  }

  ghost function Decision(env: Env, rules: seq<Rule>, packet: PacketContext, names: set<string>): RuleAction {
    if rules == [] then Direct
    else if MatchesNames(env, rules[0], packet, names) then rules[0].action
    else Decision(env, rules[1..], packet, names)
  }

  ghost function NameSet(names: seq<string>): set<string> {
    set n | n in names
  }

  lemma SuffixNames(suffix: string, names: seq<string>)
    ensures MatchesDomainSuffix(suffix, names) <==>
      exists n :: n in NameSet(names) && IsLabelSuffix(Labels(suffix), Labels(n))
  {
    forall i | 0 <= i < |names|
      ensures HasDomainSuffix(names[i], suffix) <==> IsLabelSuffix(Labels(suffix), Labels(names[i]))
    {
      DomainSuffixIsLabelSuffix(names[i], suffix);
    }
    if MatchesDomainSuffix(suffix, names) {
      var i :| 0 <= i < |names| && HasDomainSuffix(names[i], suffix);
      assert names[i] in NameSet(names);
    }
  }

  lemma KeywordNames(keyword: string, names: seq<string>)
    ensures MatchesDomainKeyword(keyword, names) <==> exists n :: n in NameSet(names) && ContainsText(n, keyword)
  {
    if MatchesDomainKeyword(keyword, names) {
      var i :| 0 <= i < |names| && ContainsText(names[i], keyword);
      assert names[i] in NameSet(names);
    }
  }

  lemma MatchesIsSetMatch(env: Env, rule: Rule, packet: PacketContext)
    ensures Matches(env, rule, packet) <==> MatchesNames(env, rule, packet, NameSet(packet.domains))
  {
    if rule.domainSuffix.Some? { SuffixNames(rule.domainSuffix.value, packet.domains); }
    if rule.domainKeyword.Some? { KeywordNames(rule.domainKeyword.value, packet.domains); }
  }

  /** The engine's action depends on the packet's domain list only through its set of names, and
      equals the specification's. */
  lemma {:induction false} FirstMatchIsDecision(env: Env, rules: seq<Rule>, packet: PacketContext)
    ensures FirstMatch(env, rules, packet) == Decision(env, rules, packet, NameSet(packet.domains))
  {
    if rules != [] {
      MatchesIsSetMatch(env, rules[0], packet);
      FirstMatchIsDecision(env, rules[1..], packet);
    }
  }

  // ---------------------------------------------------------------------------
  // GEOIP,PRIVATE as address blocks
  // ---------------------------------------------------------------------------

  /** Section 3 of RFC 1918, loopback, link-local, the two single addresses, multicast and section 7
      of RFC 6598. */
  const BLOCK_COUNT: nat := 9

  function Block(i: nat): Network
    requires i < BLOCK_COUNT
  {
    match i
    case 0 => Network(Ipv4Addr(10, 0, 0, 0), 8)
    case 1 => Network(Ipv4Addr(172, 16, 0, 0), 12)
    case 2 => Network(Ipv4Addr(192, 168, 0, 0), 16)
    case 3 => Network(Ipv4Addr(127, 0, 0, 0), 8)
    case 4 => Network(Ipv4Addr(169, 254, 0, 0), 16)
    case 5 => Network(Ipv4Addr(0, 0, 0, 0), 32)
    case 6 => Network(Ipv4Addr(255, 255, 255, 255), 32)
    case 7 => Network(Ipv4Addr(224, 0, 0, 0), 4)
    case 8 => Network(Ipv4Addr(100, 64, 0, 0), 10)
  }

  function BlockText(i: nat): string
    requires i < BLOCK_COUNT
  {
    match i
    case 0 => "10.0.0.0/8"
    case 1 => "172.16.0.0/12"
    case 2 => "192.168.0.0/16"
    case 3 => "127.0.0.0/8"
    case 4 => "169.254.0.0/16"
    case 5 => "0.0.0.0/32"
    case 6 => "255.255.255.255/32"
    case 7 => "224.0.0.0/4"
    case 8 => "100.64.0.0/10"
  }

  /** The network parser reads the nine texts as the blocks they denote. */
  predicate ReadsBlocks(env: Env) {
    forall i: nat :: i < BLOCK_COUNT ==> env.parseNetwork(BlockText(i)) == Some(Block(i))
  }

  function BlockRules(a: RuleAction): (rs: seq<Rule>)
    ensures |rs| == BLOCK_COUNT
    ensures forall i: nat :: i < BLOCK_COUNT ==> rs[i] == WithField(a, DstIpCidr, BlockText(i))
  {
    seq(BLOCK_COUNT, i requires 0 <= i < BLOCK_COUNT => WithField(a, DstIpCidr, BlockText(i)))
  }

  lemma Pow2Values()
    ensures Pow2(0) == 1 && Pow2(16) == 0x1_0000 && Pow2(20) == 0x10_0000
    ensures Pow2(22) == 0x40_0000 && Pow2(24) == 0x100_0000 && Pow2(28) == 0x1000_0000
  {
    assert Pow2(4) == 16;
    assert Pow2(8) == 0x100;
    assert Pow2(12) == 0x1000;
    assert Pow2(16) == 0x1_0000;
    assert Pow2(20) == 0x10_0000;
    assert Pow2(24) == 0x100_0000;
    assert Pow2(28) == 0x1000_0000;
  }

  /** The leading bits of an address in terms of its octets. */
  lemma LeadingBits(ip: Ipv4Addr)
    ensures ip.Bits() / 0x1000_0000 == ip.a as int / 16
    ensures ip.Bits() / 0x100_0000 == ip.a
    ensures ip.Bits() / 0x40_0000 == 4 * ip.a as int + ip.b as int / 64
    ensures ip.Bits() / 0x10_0000 == 16 * ip.a as int + ip.b as int / 16
    ensures ip.Bits() / 0x1_0000 == 256 * ip.a as int + ip.b
  {
  }

  lemma BitsAreInjective(x: Ipv4Addr, y: Ipv4Addr)
    requires x.Bits() == y.Bits()
    ensures x == y
  {
    LeadingBits(x);
    LeadingBits(y);
  }

  lemma Block8(x: Byte, ip: Ipv4Addr)
    ensures Contains(Network(Ipv4Addr(x, 0, 0, 0), 8), ip) <==> ip.a == x
  {
    Pow2Values();
    LeadingBits(ip);
    LeadingBits(Ipv4Addr(x, 0, 0, 0));
  }

  lemma Block16(x: Byte, y: Byte, ip: Ipv4Addr)
    ensures Contains(Network(Ipv4Addr(x, y, 0, 0), 16), ip) <==> ip.a == x && ip.b == y
  {
    Pow2Values();
    LeadingBits(ip);
    LeadingBits(Ipv4Addr(x, y, 0, 0));
  }

  lemma Block32(addr: Ipv4Addr, ip: Ipv4Addr)
    ensures Contains(Network(addr, 32), ip) <==> ip == addr
  {
    Pow2Values();
    if ip.Bits() == addr.Bits() { BitsAreInjective(ip, addr); }
  }

  lemma Block12(ip: Ipv4Addr)
    ensures Contains(Network(Ipv4Addr(172, 16, 0, 0), 12), ip) <==> ip.a == 172 && 16 <= ip.b <= 31
  {
    Pow2Values();
    LeadingBits(ip);
    LeadingBits(Ipv4Addr(172, 16, 0, 0));
  }

  lemma Block4(ip: Ipv4Addr)
    ensures Contains(Network(Ipv4Addr(224, 0, 0, 0), 4), ip) <==> 224 <= ip.a <= 239
  {
    Pow2Values();
    LeadingBits(ip);
    LeadingBits(Ipv4Addr(224, 0, 0, 0));
  }

  lemma Block10(ip: Ipv4Addr)
    ensures Contains(Network(Ipv4Addr(100, 64, 0, 0), 10), ip) <==> ip.a == 100 && 64 <= ip.b <= 127
  {
    Pow2Values();
    LeadingBits(ip);
    LeadingBits(Ipv4Addr(100, 64, 0, 0));
  }

  ghost predicate InBlock(i: nat, ip: Ipv4Addr) {
    i < BLOCK_COUNT && Contains(Block(i), ip)
  }

  /** The octet test that stands for the `i`-th block. */
  predicate OctetTest(i: nat, ip: Ipv4Addr) {
    match i
    case 0 => ip.a == 10
    case 1 => ip.a == 172 && 16 <= ip.b <= 31
    case 2 => ip.a == 192 && ip.b == 168
    case 3 => ip.a == 127
    case 4 => ip.a == 169 && ip.b == 254
    case 5 => ip == Ipv4Addr(0, 0, 0, 0)
    case 6 => ip == Ipv4Addr(255, 255, 255, 255)
    case 7 => 224 <= ip.a <= 239
    case 8 => ip.a == 100 && 64 <= ip.b <= 127
    case _ => false
  }

  lemma BlockIsOctetTest(i: nat, ip: Ipv4Addr)
    ensures InBlock(i, ip) <==> OctetTest(i, ip)
  {
    match i
    case 0 => Block8(10, ip);
    case 1 => Block12(ip);
    case 2 => Block16(192, 168, ip);
    case 3 => Block8(127, ip);
    case 4 => Block16(169, 254, ip);
    case 5 => Block32(Ipv4Addr(0, 0, 0, 0), ip);
    case 6 => Block32(Ipv4Addr(255, 255, 255, 255), ip);
    case 7 => Block4(ip);
    case 8 => Block10(ip);
    case _ =>
  }

  lemma PrivateIsSomeOctetTest(ip: Ipv4Addr)
    ensures IsPrivateIp(ip) <==> exists i: nat :: OctetTest(i, ip)
  {
    assert IsPrivateIp(ip) ==>
      (|| OctetTest(0, ip) || OctetTest(1, ip) || OctetTest(2, ip) || OctetTest(3, ip) || OctetTest(4, ip)
       || OctetTest(5, ip) || OctetTest(6, ip) || OctetTest(7, ip) || OctetTest(8, ip));
  }

  lemma PrivateIsSomeBlock(ip: Ipv4Addr)
    ensures IsPrivateIp(ip) <==> exists i: nat :: InBlock(i, ip)
  {
    PrivateIsSomeOctetTest(ip);
    forall i: nat ensures InBlock(i, ip) <==> OctetTest(i, ip) { BlockIsOctetTest(i, ip); }
  }

  lemma BlockRulesMatchPrivate(env: Env, a: RuleAction, packet: PacketContext)
    requires ReadsBlocks(env)
    ensures AnyMatches(env, BlockRules(a), packet) <==> IsPrivateIp(packet.dstIp)
  {
    var rs := BlockRules(a);
    PrivateIsSomeBlock(packet.dstIp);
    forall i: nat | i < BLOCK_COUNT
      ensures Matches(env, rs[i], packet) <==> InBlock(i, packet.dstIp)
    {
      assert env.parseNetwork(BlockText(i)) == Some(Block(i));
    }
    if IsPrivateIp(packet.dstIp) {
      var i: nat :| InBlock(i, packet.dstIp);
      assert rs[i] in rs && Matches(env, rs[i], packet);
    }
  }

  lemma {:induction false} UniformAction(env: Env, rules: seq<Rule>, a: RuleAction, packet: PacketContext)
    requires (forall r :: r in rules ==> r.action == a) && AnyMatches(env, rules, packet)
    ensures FirstMatch(env, rules, packet) == a
  {
    if !Matches(env, rules[0], packet) {
      var r :| r in rules && Matches(env, r, packet);
      assert r in rules[1..];
      UniformAction(env, rules[1..], a, packet);
    }
  }

  /** Two stretches of a list are interchangeable for a packet that both decide alike. */
  lemma ReplaceStretch(env: Env, before: seq<Rule>, xs: seq<Rule>, ys: seq<Rule>, after: seq<Rule>, packet: PacketContext)
    requires AnyMatches(env, xs, packet) <==> AnyMatches(env, ys, packet)
    requires AnyMatches(env, xs, packet) ==> FirstMatch(env, xs, packet) == FirstMatch(env, ys, packet)
    ensures FirstMatch(env, before + xs + after, packet) == FirstMatch(env, before + ys + after, packet)
  {
    assert before + xs + after == before + (xs + after);
    assert before + ys + after == before + (ys + after);
    FirstMatchConcat(env, before, xs + after, packet);
    FirstMatchConcat(env, before, ys + after, packet);
    FirstMatchConcat(env, xs, after, packet);
    FirstMatchConcat(env, ys, after, packet);
  }

  /** Replacing a GEOIP,PRIVATE rule, wherever it stands in a list, by `DST-IP-CIDR` rules for its nine
      blocks changes no packet's action. */
  lemma PrivateRuleIsItsBlocks(
    env: Env, before: seq<Rule>, code: string, a: RuleAction, after: seq<Rule>, packet: PacketContext)
    requires ReadsBlocks(env) && Upper(code) == "PRIVATE"
    ensures FirstMatch(env, before + [WithField(a, GeoIp, code)] + after, packet)
         == FirstMatch(env, before + BlockRules(a) + after, packet)
  {
    var geo := [WithField(a, GeoIp, code)];
    BlockRulesMatchPrivate(env, a, packet);
    assert geo[0] in geo && (Matches(env, geo[0], packet) <==> IsPrivateIp(packet.dstIp));
    if IsPrivateIp(packet.dstIp) {
      UniformAction(env, geo, a, packet);
      UniformAction(env, BlockRules(a), a, packet);
    }
    ReplaceStretch(env, before, geo, BlockRules(a), after, packet);
  }
}
