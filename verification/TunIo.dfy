/**
 The TUN loop: packets from the transport and from the direct proxy teach the domain cache and go
 to the TUN device; packets from the TUN device are routed by the rules.  The loop with its cache is proved
 against a specification that keeps only the log of observations.
 */
module TunIo {
  import opened Wrappers
  import opened Net
  import opened Text
  import opened Rule
  import opened Matcher
  import opened Engine
  import opened Config
  import opened RuleMeaning
  import opened DomainLog
  import DomainCache

  type Packet = seq<Byte>

  /** Code outside this model: IPv4 packet parsing and DNS response parsing. */
  datatype Wire = Wire(context: Packet -> Option<PacketContext>, answers: Packet -> seq<Answer>)

  /** What the loop has sent to each of its three sinks. */
  datatype Output = Output(toTun: seq<Packet>, toTransport: seq<Packet>, toDirect: seq<Packet>)

  datatype Event =
    | FromTransport(data: Packet, now: nat, delays: seq<nat>)
    | FromDirect(data: Packet, now: nat, delays: seq<nat>)
    | FromTun(data: Packet, now: nat)
  {
    /** The last time the clock can be read while the packet is handled. */
    function End(): nat {
      if FromTun? then now else LastClock(now, delays)
    }
  }

  /** The clock never goes back. */
  predicate Timely(clock: nat, es: seq<Event>)
    decreases |es|
  {
    es == [] || (clock <= es[0].now && Timely(es[0].End(), es[1..]))
  }

  /** Where a packet with the given action goes; rejected packets go nowhere. */
  function Deliver(out: Output, action: RuleAction, data: Packet): Output {
    match action
    case Direct => out.(toDirect := out.toDirect + [data])
    case Proxy => out.(toTransport := out.toTransport + [data])
    case Reject => out
  }

  // ---------------------------------------------------------------------------
  // The loop
  // ---------------------------------------------------------------------------

  datatype State = State(entries: Entries, out: Output)

  function Step(env: Env, wire: Wire, rules: seq<Rule>, s: State, e: Event): State {
    if e.FromTun? then
      match wire.context(e.data)
      case None => s.(out := Deliver(s.out, Proxy, e.data))
      case Some(ctx) =>
        var packet := ctx.(domains := Found(s.entries, ctx.dstIp, e.now));
        State(Purge(s.entries, ctx.dstIp, e.now), Deliver(s.out, FirstMatch(env, rules, packet), e.data))
    else
      State(InsertAll(s.entries, Stamped(wire.answers(e.data), e.now, e.delays)), s.out.(toTun := s.out.toTun + [e.data]))
  }

  function Run(env: Env, wire: Wire, rules: seq<Rule>, s: State, es: seq<Event>): State
    decreases |es|
  {
    if es == [] then s else Run(env, wire, rules, Step(env, wire, rules, s, es[0]), es[1..])
  }

  // ---------------------------------------------------------------------------
  // The specification
  // ---------------------------------------------------------------------------

  datatype SpecState = SpecState(log: seq<Observation>, out: Output)

  /** What the rules say of a packet, given only the log; a packet that is not IPv4 is proxied. */
  ghost function Verdict(env: Env, wire: Wire, rules: seq<Rule>, log: seq<Observation>, data: Packet, now: nat): RuleAction {
    match wire.context(data)
    case None => Proxy
    case Some(ctx) => Decision(env, rules, ctx, LiveNames(log, ctx.dstIp, now))
  }

  function If(b: bool, data: Packet): seq<Packet> {
    if b then [data] else []
  }

  ghost function SpecStep(env: Env, wire: Wire, rules: seq<Rule>, s: SpecState, e: Event): SpecState {
    var routed := e.FromTun?;
    var verdict := Verdict(env, wire, rules, s.log, e.data, e.now);
    SpecState(
      if routed then s.log else s.log + Stamped(wire.answers(e.data), e.now, e.delays),
      Output(
        s.out.toTun + If(!routed, e.data),
        s.out.toTransport + If(routed && verdict == Proxy, e.data),
        s.out.toDirect + If(routed && verdict == Direct, e.data)))
  }

  ghost function SpecRun(env: Env, wire: Wire, rules: seq<Rule>, s: SpecState, es: seq<Event>): SpecState
    decreases |es|
  {
    if es == [] then s else SpecRun(env, wire, rules, SpecStep(env, wire, rules, s, es[0]), es[1..])
  }

  const SILENT := Output([], [], [])

  // ---------------------------------------------------------------------------
  // The loop refines the specification
  // ---------------------------------------------------------------------------

  lemma {:induction false} InsertAllRefines(entries: Entries, log: seq<Observation>, clock: nat, os: seq<Observation>, end: nat)
    returns (clock': nat)
    requires Refines(entries, log, clock) && clock <= end && Chronological(clock, os, end)
    ensures Refines(InsertAll(entries, os), log + os, clock') && clock' <= end
    decreases |os|
  {
    if os == [] {
      clock' := clock;
      assert log + os == log;
    } else {
      InsertRefines(entries, log, clock, os[0]);
      clock' := InsertAllRefines(Insert(entries, os[0]), log + [os[0]], os[0].at, os[1..], end);
      assert log + [os[0]] + os[1..] == log + os;
    }
  }

  lemma {:induction false} DecisionIgnoresDomainList(env: Env, rules: seq<Rule>, p: PacketContext, list: seq<string>, names: set<string>)
    ensures Decision(env, rules, p.(domains := list), names) == Decision(env, rules, p, names)
  {
    if rules != [] { DecisionIgnoresDomainList(env, rules[1..], p, list, names); }
  }

  /** One routed packet: lookup plus first match is the specification's decision. */
  lemma RouteAgrees(env: Env, rules: seq<Rule>, entries: Entries, log: seq<Observation>, clock: nat, ctx: PacketContext, now: nat)
    requires Refines(entries, log, clock) && clock <= now
    ensures FirstMatch(env, rules, ctx.(domains := Found(entries, ctx.dstIp, now)))
         == Decision(env, rules, ctx, LiveNames(log, ctx.dstIp, now))
  {
    var names := Found(entries, ctx.dstIp, now);
    FoundIsLive(entries, log, clock, ctx.dstIp, now);
    FirstMatchIsDecision(env, rules, ctx.(domains := names));
    DecisionIgnoresDomainList(env, rules, ctx, names, NameSet(names));
  }

  lemma RoutedRefines(env: Env, wire: Wire, rules: seq<Rule>, s: State, spec: SpecState, clock: nat, e: Event) returns (clock': nat)
    requires Refines(s.entries, spec.log, clock) && s.out == spec.out && clock <= e.now && e.FromTun?
    ensures var s', spec' := Step(env, wire, rules, s, e), SpecStep(env, wire, rules, spec, e);
            Refines(s'.entries, spec'.log, clock') && s'.out == spec'.out && clock' <= e.now
  {
    clock' := clock;
    match wire.context(e.data)
    case None =>
    case Some(ctx) =>
      RouteAgrees(env, rules, s.entries, spec.log, clock, ctx, e.now);
      PurgeRefines(s.entries, spec.log, clock, ctx.dstIp, e.now);
      clock' := e.now;
  }

  lemma InboundRefines(env: Env, wire: Wire, rules: seq<Rule>, s: State, spec: SpecState, clock: nat, e: Event) returns (clock': nat)
    requires Refines(s.entries, spec.log, clock) && s.out == spec.out && clock <= e.now && !e.FromTun?
    ensures var s', spec' := Step(env, wire, rules, s, e), SpecStep(env, wire, rules, spec, e);
            Refines(s'.entries, spec'.log, clock') && s'.out == spec'.out && clock' <= e.End()
  {
    var os := Stamped(wire.answers(e.data), e.now, e.delays);
    StampedIsChronological(wire.answers(e.data), e.now, e.delays);
    ClockIsBounded(e.now, e.delays, 0);
    clock' := InsertAllRefines(s.entries, spec.log, clock, os, e.End());
  }

  lemma StepRefines(env: Env, wire: Wire, rules: seq<Rule>, s: State, spec: SpecState, clock: nat, e: Event) returns (clock': nat)
    requires Refines(s.entries, spec.log, clock) && s.out == spec.out && clock <= e.now
    ensures var s', spec' := Step(env, wire, rules, s, e), SpecStep(env, wire, rules, spec, e);
            Refines(s'.entries, spec'.log, clock') && s'.out == spec'.out && clock' <= e.End()
  {
    if e.FromTun? {
      clock' := RoutedRefines(env, wire, rules, s, spec, clock, e);
    } else {
      clock' := InboundRefines(env, wire, rules, s, spec, clock, e);
    }
  }

  lemma {:induction false} RunRefines(env: Env, wire: Wire, rules: seq<Rule>, s: State, spec: SpecState, clock: nat, es: seq<Event>)
    requires Refines(s.entries, spec.log, clock) && s.out == spec.out && Timely(clock, es)
    ensures Run(env, wire, rules, s, es).out == SpecRun(env, wire, rules, spec, es).out
    decreases |es|
  {
    if es != [] {
      var clock' := StepRefines(env, wire, rules, s, spec, clock, es[0]);
      TimelyWeaken(clock', es[0].End(), es[1..]);
      RunRefines(env, wire, rules, Step(env, wire, rules, s, es[0]), SpecStep(env, wire, rules, spec, es[0]), clock', es[1..]);
    }
  }

  lemma TimelyWeaken(clock: nat, clock': nat, es: seq<Event>)
    requires clock <= clock' && Timely(clock', es)
    ensures Timely(clock, es)
  {
  }

  /** End to end: in every run with a clock that never goes back, the loop with its lazily purged
      cache sends exactly the packets, to exactly the sinks and in the order, that the cache-free
      specification sends. */
  lemma LoopRefinesSpecification(env: Env, wire: Wire, rules: seq<Rule>, es: seq<Event>)
    requires Timely(0, es)
    ensures Run(env, wire, rules, State(map[], SILENT), es).out == SpecRun(env, wire, rules, SpecState([], SILENT), es).out
  {
    EmptyRefines();
    RunRefines(env, wire, rules, State(map[], SILENT), SpecState([], SILENT), 0, es);
  }

  /** Answer lists that agree up to the spelling of names. */
  ghost predicate AnswersAlike(xs: seq<Answer>, ys: seq<Answer>) {
    |xs| == |ys| &&
    forall i :: 0 <= i < |xs| ==>
      xs[i].ip == ys[i].ip && xs[i].ttl == ys[i].ttl && DomainForm(xs[i].name) == DomainForm(ys[i].name)
  }

  /** Two parsers that report the same packets and the same answers up to the spelling of names. */
  ghost predicate SpellAlike(w1: Wire, w2: Wire) {
    forall p :: w1.context(p) == w2.context(p) && AnswersAlike(w1.answers(p), w2.answers(p))
  }

  lemma StampedAlike(xs: seq<Answer>, ys: seq<Answer>, now: nat, delays: seq<nat>)
    requires AnswersAlike(xs, ys)
    ensures SameForms(Stamped(xs, now, delays), Stamped(ys, now, delays))
  {
    var os1, os2 := Stamped(xs, now, delays), Stamped(ys, now, delays);
    forall i | 0 <= i < |os1| ensures Alike(os1[i], os2[i]) {
      assert DomainForm(xs[i].name) == DomainForm(ys[i].name);
    }
  }

  lemma AppendAlike(log1: seq<Observation>, log2: seq<Observation>, os1: seq<Observation>, os2: seq<Observation>)
    requires SameForms(log1, log2) && SameForms(os1, os2)
    ensures SameForms(log1 + os1, log2 + os2)
  {
    var all1, all2 := log1 + os1, log2 + os2;
    forall i | 0 <= i < |all1| ensures Alike(all1[i], all2[i]) {
      if i < |log1| {
        assert Alike(log1[i], log2[i]);
      } else {
        assert Alike(os1[i - |log1|], os2[i - |log1|]);
      }
    }
  }

  lemma StepIgnoresSpelling(env: Env, w1: Wire, w2: Wire, rules: seq<Rule>, s1: SpecState, s2: SpecState, e: Event)
    requires SpellAlike(w1, w2) && SameForms(s1.log, s2.log) && s1.out == s2.out
    ensures var t1, t2 := SpecStep(env, w1, rules, s1, e), SpecStep(env, w2, rules, s2, e);
            SameForms(t1.log, t2.log) && t1.out == t2.out
  {
    var context := w1.context(e.data);
    assert w2.context(e.data) == context;
    if !e.FromTun? {
      var as1, as2 := w1.answers(e.data), w2.answers(e.data);
      StampedAlike(as1, as2, e.now, e.delays);
      AppendAlike(s1.log, s2.log, Stamped(as1, e.now, e.delays), Stamped(as2, e.now, e.delays));
    } else if context.Some? {
      LiveNamesIgnoreSpelling(s1.log, s2.log, context.value.dstIp, e.now);
    }
  }

  lemma {:induction false} SpecIgnoresSpelling(
    env: Env, w1: Wire, w2: Wire, rules: seq<Rule>, s1: SpecState, s2: SpecState, es: seq<Event>)
    requires SpellAlike(w1, w2) && SameForms(s1.log, s2.log) && s1.out == s2.out
    ensures SpecRun(env, w1, rules, s1, es).out == SpecRun(env, w2, rules, s2, es).out
    decreases |es|
  {
    if es != [] {
      StepIgnoresSpelling(env, w1, w2, rules, s1, s2, es[0]);
      SpecIgnoresSpelling(
        env, w1, w2, rules, SpecStep(env, w1, rules, s1, es[0]), SpecStep(env, w2, rules, s2, es[0]), es[1..]);
    }
  }

  /** Case and trailing dots in DNS answers never change where a packet goes. */
  lemma RunIgnoresSpelling(env: Env, w1: Wire, w2: Wire, rules: seq<Rule>, es: seq<Event>)
    requires Timely(0, es) && SpellAlike(w1, w2)
    ensures Run(env, w1, rules, State(map[], SILENT), es).out == Run(env, w2, rules, State(map[], SILENT), es).out
  {
    LoopRefinesSpecification(env, w1, rules, es);
    LoopRefinesSpecification(env, w2, rules, es);
    SpecIgnoresSpelling(env, w1, w2, rules, SpecState([], SILENT), SpecState([], SILENT), es);
  }

  lemma {:induction false} AlikeListsRunAlike(env: Env, wire: Wire, rules1: seq<Rule>, rules2: seq<Rule>, s: State, es: seq<Event>)
    requires RulesAlike(rules1, rules2)
    ensures Run(env, wire, rules1, s, es) == Run(env, wire, rules2, s, es)
    decreases |es|
  {
    if es != [] {
      var context := wire.context(es[0].data);
      if es[0].FromTun? && context.Some? {
        var packet := context.value.(domains := Found(s.entries, context.value.dstIp, es[0].now));
        AlikeListsDecideAlike(env, rules1, rules2, packet);
      }
      AlikeListsRunAlike(env, wire, rules1, rules2, Step(env, wire, rules1, s, es[0]), es[1..]);
    }
  }

  /** Routing from rule texts and DNS answers to the three sinks: texts that are alike are read both or
      not at all, and with answers that are alike every run then sends the same packets to the same sinks,
      those of the specification. */
  lemma RoutingIgnoresSpelling(env: Env, w1: Wire, w2: Wire, raw1: seq<string>, raw2: seq<string>, es: seq<Event>)
    requires Timely(0, es) && SpellAlike(w1, w2) && TextsAlike(raw1, raw2)
    ensures ParseAll(raw1).Ok? <==> ParseAll(raw2).Ok?
    ensures ParseAll(raw1).Ok? ==>
              && Run(env, w1, ParseAll(raw1).value, State(map[], SILENT), es).out
                 == Run(env, w2, ParseAll(raw2).value, State(map[], SILENT), es).out
              && Run(env, w1, ParseAll(raw1).value, State(map[], SILENT), es).out
                 == SpecRun(env, w1, ParseAll(raw1).value, SpecState([], SILENT), es).out
  {
    ParseAllIgnoresSpelling(raw1, raw2);
    if ParseAll(raw1).Ok? {
      var rules1, rules2 := ParseAll(raw1).value, ParseAll(raw2).value;
      RunIgnoresSpelling(env, w1, w2, rules1, es);
      AlikeListsRunAlike(env, w2, rules1, rules2, State(map[], SILENT), es);
      LoopRefinesSpecification(env, w1, rules1, es);
    }
  }

  // ---------------------------------------------------------------------------
  // From the texts and the answers to the sinks
  // ---------------------------------------------------------------------------

  /** Every address answer of the inbound packets of a run, with the time it was seen. */
  function Learned(wire: Wire, es: seq<Event>): seq<Observation>
    decreases |es|
  {
    if es == [] then []
    else
      LearnedFrom(wire, es[0]) + Learned(wire, es[1..])
  }

  function LearnedFrom(wire: Wire, e: Event): seq<Observation> {
    if e.FromTun? then [] else Stamped(wire.answers(e.data), e.now, e.delays)
  }

  /** What the rule texts say of a packet after the given observations; a packet that is not IPv4 is proxied. */
  ghost function TextVerdict(env: Env, wire: Wire, raw: seq<string>, log: seq<Observation>, data: Packet, now: nat): RuleAction {
    match wire.context(data)
    case None => Proxy
    case Some(ctx) => TextDecision(env, raw, ctx, LiveNames(log, ctx.dstIp, now))
  }

  lemma SpecStepLearns(env: Env, wire: Wire, rules: seq<Rule>, s: SpecState, e: Event)
    ensures SpecStep(env, wire, rules, s, e).log == s.log + LearnedFrom(wire, e)
  {
  }

  lemma {:induction false} SpecLogIsLearned(env: Env, wire: Wire, rules: seq<Rule>, s: SpecState, es: seq<Event>)
    ensures SpecRun(env, wire, rules, s, es).log == s.log + Learned(wire, es)
    decreases |es|
  {
    if es != [] {
      var s' := SpecStep(env, wire, rules, s, es[0]);
      SpecStepLearns(env, wire, rules, s, es[0]);
      SpecLogIsLearned(env, wire, rules, s', es[1..]);
      ConcatAssoc(s.log, LearnedFrom(wire, es[0]), Learned(wire, es[1..]));
    }
  }

  lemma {:induction false} SpecRunLast(env: Env, wire: Wire, rules: seq<Rule>, s: SpecState, es: seq<Event>, e: Event)
    ensures SpecRun(env, wire, rules, s, es + [e]) == SpecStep(env, wire, rules, SpecRun(env, wire, rules, s, es), e)
    decreases |es|
  {
    if es == [] {
      assert (es + [e])[0] == e && (es + [e])[1..] == [];
    } else {
      assert (es + [e])[0] == es[0] && (es + [e])[1..] == es[1..] + [e];
      SpecRunLast(env, wire, rules, SpecStep(env, wire, rules, s, es[0]), es[1..], e);
    }
  }

  lemma {:induction false} TimelyFront(clock: nat, es: seq<Event>, e: Event)
    requires Timely(clock, es + [e])
    ensures Timely(clock, es)
    decreases |es|
  {
    if es != [] {
      assert (es + [e])[0] == es[0] && (es + [e])[1..] == es[1..] + [e];
      TimelyFront(es[0].End(), es[1..], e);
    }
  }

  /** Every run of the loop under rules that were read from texts, packet by packet: one from the transport or
      the direct proxy goes to the TUN device, and one from the TUN device goes where the first text that
      applies to it sends it, given exactly the names that the answers so far give its destination. */
  lemma RoutingIsItsText(env: Env, wire: Wire, raw: seq<string>, es: seq<Event>, e: Event)
    requires ParseAll(raw).Ok? && Timely(0, es + [e])
    ensures var rules := ParseAll(raw).value;
            var before := Run(env, wire, rules, State(map[], SILENT), es).out;
            var after := Run(env, wire, rules, State(map[], SILENT), es + [e]).out;
            var verdict := TextVerdict(env, wire, raw, Learned(wire, es), e.data, e.now);
            && after.toTun == before.toTun + (if e.FromTun? then [] else [e.data])
            && after.toTransport == before.toTransport + (if e.FromTun? && verdict == Proxy then [e.data] else [])
            && after.toDirect == before.toDirect + (if e.FromTun? && verdict == Direct then [e.data] else [])
  {
    var rules, init := ParseAll(raw).value, SpecState([], SILENT);
    TimelyFront(0, es, e);
    LoopRefinesSpecification(env, wire, rules, es);
    LoopRefinesSpecification(env, wire, rules, es + [e]);
    SpecRunLast(env, wire, rules, init, es, e);
    SpecLogIsLearned(env, wire, rules, init, es);
    var log := Learned(wire, es);
    assert [] + log == log;
    if wire.context(e.data).Some? {
      var ctx := wire.context(e.data).value;
      DecisionIsItsText(env, raw, ctx, LiveNames(log, ctx.dstIp, e.now));
    }
  }

  /** The name meets the value of a domain rule, both in their normal form. */
  ghost predicate Meets(f: Field, name: string, value: string) {
    match f
    case Domain => name == value
    case DomainSuffix => UnderDomain(name, value)
    case DomainKeyword => HasKeyword(name, value)
    case _ => false
  }

  lemma {:induction false} FirstThatApplies(env: Env, texts: seq<string>, p: PacketContext, names: set<string>, k: nat)
    requires k < |texts| && Applies(env, texts[k], p, names)
    requires forall j :: 0 <= j < k ==> !Applies(env, texts[j], p, names)
    ensures TextDecision(env, texts, p, names) == ActionOf(texts[k])
  {
    if k > 0 {
      assert !Applies(env, texts[0], p, names);
      FirstThatApplies(env, texts[1..], p, names, k - 1);
    }
  }

  /** A name learned from any answer, while it lasts, meets every domain rule written for it in whatever
      spelling: the packet gets the rule's action unless an earlier text applies. */
  lemma LearnedNameMeetsItsRule(env: Env, wire: Wire, raw: seq<string>, es: seq<Event>, data: Packet, now: nat, i: nat, k: nat)
    requires ParseAll(raw).Ok? && Timely(0, es + [FromTun(data, now)]) && wire.context(data).Some?
    requires var ip := wire.context(data).value.dstIp; Current(Learned(wire, es), i, ip, now)
    requires k < |raw| && |Pieces(raw[k])| == 3 && FieldNamed(Upper(Pieces(raw[k])[0])).Some?
    requires Meets(FieldNamed(Upper(Pieces(raw[k])[0])).value, DomainForm(Learned(wire, es)[i].name), DomainForm(Pieces(raw[k])[1]))
    requires var ctx := wire.context(data).value;
             forall j :: 0 <= j < k ==> !Applies(env, raw[j], ctx, LiveNames(Learned(wire, es), ctx.dstIp, now))
    ensures var before := Run(env, wire, ParseAll(raw).value, State(map[], SILENT), es).out;
            var after := Run(env, wire, ParseAll(raw).value, State(map[], SILENT), es + [FromTun(data, now)]).out;
            && after.toTransport == before.toTransport + (if ActionOf(raw[k]) == Proxy then [data] else [])
            && after.toDirect == before.toDirect + (if ActionOf(raw[k]) == Direct then [data] else [])
  {
    RoutingIsItsText(env, wire, raw, es, FromTun(data, now));
    var ctx, log := wire.context(data).value, Learned(wire, es);
    var names := LiveNames(log, ctx.dstIp, now);
    assert DomainForm(log[i].name) in names;
    FirstThatApplies(env, raw, ctx, names, k);
  }

  // ---------------------------------------------------------------------------
  // The task object
  // ---------------------------------------------------------------------------

  class TunTask {
    const env: Env
    const wire: Wire
    const rules: seq<Rule>
    const cache: DomainCache.DomainCache
    var out: Output

    ghost function View(): State
      reads this, cache
    {
      State(cache.entries, out)
    }

    ghost function SpecView(): SpecState
      reads this, cache
    {
      SpecState(cache.log, out)
    }

    ghost predicate Valid()
      reads this, cache
    {
      cache.Valid()
    }

    constructor (env: Env, wire: Wire, rules: seq<Rule>)
      ensures Valid() && fresh(cache) && cache.clock == 0
      ensures this.env == env && this.wire == wire && this.rules == rules
      ensures View() == State(map[], SILENT) && SpecView() == SpecState([], SILENT)
    {
      this.env, this.wire, this.rules, out := env, wire, rules, SILENT;
      cache := new DomainCache.DomainCache();
    }

    /** A packet from the transport or the direct proxy. */
    method HandleInbound(e: Event)
      requires Valid() && cache.clock <= e.now && !e.FromTun?
      modifies this, cache
      ensures Valid() && cache.clock <= e.End()
      ensures View() == Step(env, wire, rules, old(View()), e)
      ensures SpecView() == SpecStep(env, wire, rules, old(SpecView()), e)
    {
      cache.ObserveAnswers(wire.answers(e.data), e.now, e.delays);
      out := out.(toTun := out.toTun + [e.data]);
    }

    /** A packet read from the TUN device: unparsable ones go to the transport, the others where the
        rules send them. */
    method HandlePacketRoute(e: Event)
      requires Valid() && cache.clock <= e.now && e.FromTun?
      modifies this, cache
      ensures Valid() && cache.clock <= e.now
      ensures View() == Step(env, wire, rules, old(View()), e)
      ensures SpecView() == SpecStep(env, wire, rules, old(SpecView()), e)
    {
      match wire.context(e.data)
      case None =>
        out := out.(toTransport := out.toTransport + [e.data]);
      case Some(ctx) =>
        RouteAgrees(env, rules, cache.entries, cache.log, cache.clock, ctx, e.now);
        var domains := cache.LookUp(ctx.dstIp, e.now);
        var action := MatchPacket(env, rules, ctx.(domains := domains));
        match action
        case Direct => out := out.(toDirect := out.toDirect + [e.data]);
        case Proxy => out := out.(toTransport := out.toTransport + [e.data]);
        case Reject =>
    }
  }
}
