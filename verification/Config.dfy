/** Rule lists: reading, writing and validating them. */
module Config {
  import opened Wrappers
  import opened Net
  import opened Rule
  import opened Matcher
  import opened Engine

  // ---------------------------------------------------------------------------
  // Reading and writing
  // ---------------------------------------------------------------------------

  function ParseAll(raw: seq<string>): Result<seq<Rule>, RuleError> {
    if raw == [] then Ok([])
    else
      match ParseCompact(raw[0])
      case Err(e) => Err(e)
      case Ok(rule) =>
        match ParseAll(raw[1..])
        case Err(e) => Err(e)
        case Ok(rest) => Ok([rule] + rest)
  }

  function ShowAll(rules: seq<Rule>): (texts: seq<string>)
    ensures |texts| == |rules| && forall i :: 0 <= i < |rules| ==> texts[i] == Display(rules[i])
  {
    seq(|rules|, i requires 0 <= i < |rules| => Display(rules[i]))
  }

  lemma {:induction false} ParseAllSucceeds(raw: seq<string>, rules: seq<Rule>)
    requires |rules| == |raw| && forall i :: 0 <= i < |raw| ==> ParseCompact(raw[i]) == Ok(rules[i])
    ensures ParseAll(raw) == Ok(rules)
  {
    if raw != [] {
      ParseAllSucceeds(raw[1..], rules[1..]);
      assert ParseCompact(raw[0]) == Ok(rules[0]);
      assert [rules[0]] + rules[1..] == rules;
    }
  }

  lemma {:induction false} ParseAllFails(raw: seq<string>, i: nat, e: RuleError)
    requires i < |raw| && ParseCompact(raw[i]) == Err(e) && forall j :: 0 <= j < i ==> ParseCompact(raw[j]).Ok?
    ensures ParseAll(raw) == Err(e)
  {
    if i > 0 {
      ParseAllFails(raw[1..], i - 1, e);
      assert ParseCompact(raw[0]).Ok?;
    }
  }

  /** The deserializer's loop: one parsed rule per element, or the first error. */
  method VisitSeq(raw: seq<string>) returns (r: Result<seq<Rule>, RuleError>)
    ensures r == ParseAll(raw)
    ensures r.Ok? ==> |r.value| == |raw| && forall i :: 0 <= i < |raw| ==> ParseCompact(raw[i]) == Ok(r.value[i])
    ensures r.Err? ==> exists i :: 0 <= i < |raw| && ParseCompact(raw[i]) == Err(r.error)
                         && forall j :: 0 <= j < i ==> ParseCompact(raw[j]).Ok?
  {
    var rules := [];
    for i := 0 to |raw|
      invariant |rules| == i && forall j :: 0 <= j < i ==> ParseCompact(raw[j]) == Ok(rules[j])
    {
      match ParseCompact(raw[i])
      case Err(e) =>
        ParseAllFails(raw, i, e);
        return Err(e);
      case Ok(rule) =>
        rules := rules + [rule];
    }
    ParseAllSucceeds(raw, rules);
    return Ok(rules);
  }

  lemma {:induction false} ParsedAllAreWellFormed(raw: seq<string>)
    requires ParseAll(raw).Ok?
    ensures forall r :: r in ParseAll(raw).value ==> WellFormed(r)
  {
    if raw != [] {
      ParsedIsWellFormed(raw[0]);
      ParsedAllAreWellFormed(raw[1..]);
    }
  }

  lemma {:induction false} WellFormedListIsRead(rules: seq<Rule>)
    requires forall r :: r in rules ==> WellFormed(r)
    ensures ParseAll(ShowAll(rules)) == Ok(rules)
  {
    if rules != [] {
      WellFormedIsRead(rules[0]);
      assert ShowAll(rules)[1..] == ShowAll(rules[1..]);
      WellFormedListIsRead(rules[1..]);
      assert [rules[0]] + rules[1..] == rules;
    }
  }

  /** Lists whose texts are alike one by one. */
  predicate TextsAlike(raw1: seq<string>, raw2: seq<string>) {
    |raw1| == |raw2| && forall i :: 0 <= i < |raw1| ==> TextAlike(raw1[i], raw2[i])
  }

  predicate RulesAlike(rules1: seq<Rule>, rules2: seq<Rule>) {
    |rules1| == |rules2| && forall i :: 0 <= i < |rules1| ==> RuleAlike(rules1[i], rules2[i])
  }

  /** Both lists are read, as alike rules, or neither is. */
  lemma {:induction false} ParseAllIgnoresSpelling(raw1: seq<string>, raw2: seq<string>)
    requires TextsAlike(raw1, raw2)
    ensures ParseAll(raw1).Ok? <==> ParseAll(raw2).Ok?
    ensures ParseAll(raw1).Ok? ==> RulesAlike(ParseAll(raw1).value, ParseAll(raw2).value)
  {
    if raw1 != [] {
      assert TextAlike(raw1[0], raw2[0]);
      ParseIgnoresSpelling(raw1[0], raw2[0]);
      ParseAllIgnoresSpelling(raw1[1..], raw2[1..]);
    }
  }

  /** Alike rules give every packet the same action. */
  lemma {:induction false} AlikeListsDecideAlike(env: Env, rules1: seq<Rule>, rules2: seq<Rule>, packet: PacketContext)
    requires RulesAlike(rules1, rules2)
    ensures FirstMatch(env, rules1, packet) == FirstMatch(env, rules2, packet)
  {
    if rules1 != [] {
      assert RuleAlike(rules1[0], rules2[0]);
      AlikeRulesMatchAlike(env, rules1[0], rules2[0], packet);
      AlikeListsDecideAlike(env, rules1[1..], rules2[1..], packet);
    }
  }

  // ---------------------------------------------------------------------------
  // Validation
  // ---------------------------------------------------------------------------

  datatype ConfigError =
    | ValidationError(index: nat)
    | InvalidCidr(index: nat)
    | InvalidPortRange(index: nat)

  /** What is wrong with the rule at `index`, if anything. */
  function CheckRule(env: Env, rule: Rule, index: nat): Option<ConfigError> {
    if !rule.HasConditions() then Some(ValidationError(index))
    else if rule.srcIpCidr.Some? && env.parseNetwork(rule.srcIpCidr.value).None? then Some(InvalidCidr(index))
    else if rule.dstIpCidr.Some? && env.parseNetwork(rule.dstIpCidr.value).None? then Some(InvalidCidr(index))
    else if rule.srcPort.Some? && ParsePortRange(rule.srcPort.value).None? then Some(InvalidPortRange(index))
    else if rule.dstPort.Some? && ParsePortRange(rule.dstPort.value).None? then Some(InvalidPortRange(index))
    else if rule.proto.Some? && ProtocolNamed(rule.proto.value).None? then Some(ValidationError(index))
    else if rule.domain.Some? && BadText(rule.domain.value) then Some(ValidationError(index))
    else if rule.domainSuffix.Some? && BadText(rule.domainSuffix.value) then Some(ValidationError(index))
    else if rule.domainKeyword.Some? && BadText(rule.domainKeyword.value) then Some(ValidationError(index))
    else if rule.geoip.Some? && BadText(rule.geoip.value) then Some(ValidationError(index))
    else None
  }

  predicate BadText(value: string) {
    value == [] || HasForbiddenChar(value)
  }

  /** The validation loop accepts a list exactly when every rule passes, and reports the first that
      does not. */
  method Validate(env: Env, rules: seq<Rule>) returns (r: Result<(), ConfigError>)
    ensures r.Ok? <==> forall i :: 0 <= i < |rules| ==> CheckRule(env, rules[i], i).None?
    ensures r.Err? ==> exists i :: 0 <= i < |rules| && CheckRule(env, rules[i], i) == Some(r.error)
                         && forall j :: 0 <= j < i ==> CheckRule(env, rules[j], j).None?
  {
    for index := 0 to |rules|
      invariant forall j :: 0 <= j < index ==> CheckRule(env, rules[j], j).None?
    {
      match CheckRule(env, rules[index], index)
      case Some(e) => return Err(e);
      case None =>
    }
    return Ok(());
  }

  lemma AlikeRulesCheckAlike(env: Env, r1: Rule, r2: Rule, index: nat)
    requires RuleAlike(r1, r2)
    ensures CheckRule(env, r1, index) == CheckRule(env, r2, index)
  {
  }

  /** Alike texts are validated alike: the same rules pass, and with the same errors the others fail. */
  lemma ValidationIgnoresSpelling(env: Env, raw1: seq<string>, raw2: seq<string>, index: nat)
    requires TextsAlike(raw1, raw2) && ParseAll(raw1).Ok? && index < |ParseAll(raw1).value|
    ensures ParseAll(raw2).Ok? && index < |ParseAll(raw2).value|
    ensures CheckRule(env, ParseAll(raw1).value[index], index) == CheckRule(env, ParseAll(raw2).value[index], index)
  {
    ParseAllIgnoresSpelling(raw1, raw2);
    AlikeRulesCheckAlike(env, ParseAll(raw1).value[index], ParseAll(raw2).value[index], index);
  }

  /** Values that the rule parser normalises always pass the text checks of validation, so only
      networks, ports and protocols of a parsed list can be rejected. */
  lemma ParsedTextIsValid(env: Env, s: string, index: nat)
    requires ParseCompact(s).Ok?
    ensures var r := ParseCompact(s).value;
            CheckRule(env, r, index).None? <==>
              && (r.srcIpCidr.Some? ==> env.parseNetwork(r.srcIpCidr.value).Some?)
              && (r.dstIpCidr.Some? ==> env.parseNetwork(r.dstIpCidr.value).Some?)
              && (r.srcPort.Some? ==> ParsePortRange(r.srcPort.value).Some?)
              && (r.dstPort.Some? ==> ParsePortRange(r.dstPort.value).Some?)
              && (r.proto.Some? ==> ProtocolNamed(r.proto.value).Some?)
  {
    ParsedIsWellFormed(s);
  }

  /** The error of a parsed rule names its index and the kind of its one condition. */
  lemma ParsedErrorKind(env: Env, s: string, index: nat)
    requires ParseCompact(s).Ok? && CheckRule(env, ParseCompact(s).value, index).Some?
    ensures var r := ParseCompact(s).value;
            var e := CheckRule(env, r, index).value;
            && e.index == index
            && (e.InvalidCidr? <==> r.srcIpCidr.Some? || r.dstIpCidr.Some?)
            && (e.InvalidPortRange? <==> r.srcPort.Some? || r.dstPort.Some?)
            && (e.ValidationError? <==> r.proto.Some?)
  {
    ParsedIsWellFormed(s);
  }

  /** Writing a list that was read and reading it back gives the same rules, hence the same
      validation result for every rule and the same action on every packet. */
  lemma RuleListRoundTrip(env: Env, raw: seq<string>, packet: PacketContext)
    requires ParseAll(raw).Ok?
    ensures ParseAll(ShowAll(ParseAll(raw).value)) == ParseAll(raw)
    ensures forall i :: 0 <= i < |ParseAll(raw).value| ==>
              CheckRule(env, ParseAll(ShowAll(ParseAll(raw).value)).value[i], i) == CheckRule(env, ParseAll(raw).value[i], i)
    ensures FirstMatch(env, ParseAll(ShowAll(ParseAll(raw).value)).value, packet)
         == FirstMatch(env, ParseAll(raw).value, packet)
  {
    ParsedAllAreWellFormed(raw);
    WellFormedListIsRead(ParseAll(raw).value);
  }

  const ANY_IP := Ipv4Addr(0, 0, 0, 0)

  lemma SrcPortRuleIsExact(env: Env, a: RuleAction, v: string)
    ensures ParsePortRange(v).Some? <==> exists p :: Matches(env, WithField(a, SrcPort, v), p)
  {
    if ParsePortRange(v).Some? {
      var port := ParsePortRange(v).value.start;
      assert Matches(env, WithField(a, SrcPort, v), PacketContext(ANY_IP, ANY_IP, Some(port), None, Tcp, []));
    }
  }

  lemma DstPortRuleIsExact(env: Env, a: RuleAction, v: string)
    ensures ParsePortRange(v).Some? <==> exists p :: Matches(env, WithField(a, DstPort, v), p)
  {
    if ParsePortRange(v).Some? {
      var port := ParsePortRange(v).value.start;
      assert Matches(env, WithField(a, DstPort, v), PacketContext(ANY_IP, ANY_IP, None, Some(port), Tcp, []));
    }
  }

  lemma ProtoRuleIsExact(env: Env, a: RuleAction, v: string)
    ensures ProtocolNamed(v).Some? <==> exists p :: Matches(env, WithField(a, Proto, v), p)
  {
    if ProtocolNamed(v).Some? {
      var proto := ProtocolNamed(v).value;
      assert Matches(env, WithField(a, Proto, v), PacketContext(ANY_IP, ANY_IP, None, None, proto, []));
    }
  }

  /** Validation of a parsed port or protocol rule is exact: it passes exactly when some packet
      matches the rule. */
  lemma ValidationIsExact(env: Env, s: string, index: nat)
    requires ParseCompact(s).Ok?
    requires var r := ParseCompact(s).value; r.srcPort.Some? || r.dstPort.Some? || r.proto.Some?
    ensures var r := ParseCompact(s).value;
            CheckRule(env, r, index).None? <==> exists p :: Matches(env, r, p)
  {
    ParsedIsWellFormed(s);
    WellFormedRuleIsExact(env, ParseCompact(s).value, index);
  }

  lemma WellFormedRuleIsExact(env: Env, r: Rule, index: nat)
    requires WellFormed(r) && (r.srcPort.Some? || r.dstPort.Some? || r.proto.Some?)
    ensures CheckRule(env, r, index).None? <==> exists p :: Matches(env, r, p)
  {
    var f :| FieldRule(r, f);
    match f
    case SrcPort => SrcPortRuleIsExact(env, r.action, r.srcPort.value);
    case DstPort => DstPortRuleIsExact(env, r.action, r.dstPort.value);
    case Proto => ProtoRuleIsExact(env, r.action, r.proto.value);
    case _ =>
  }
}
