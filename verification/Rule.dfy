/** Routing rules: the compact text form, its parser and its printer. */
module Rule {
  import opened Wrappers
  import opened Text

  datatype RuleAction = Direct | Proxy | Reject

  /** The rule fields that take a value, in the order the printer looks for them. */
  datatype Field =
    | SrcIpCidr | DstIpCidr | SrcPort | DstPort | Proto | Domain | DomainSuffix | DomainKeyword | GeoIp

  datatype Rule = Rule(
    srcIpCidr: Option<string>,
    dstIpCidr: Option<string>,
    srcPort: Option<string>,
    dstPort: Option<string>,
    proto: Option<string>,
    domain: Option<string>,
    domainSuffix: Option<string>,
    domainKeyword: Option<string>,
    geoip: Option<string>,
    matchAll: bool,
    action: RuleAction)
  {
    /** The value of one field. */
    function Get(f: Field): Option<string> {
      match f
      case SrcIpCidr => srcIpCidr
      case DstIpCidr => dstIpCidr
      case SrcPort => srcPort
      case DstPort => dstPort
      case Proto => proto
      case Domain => domain
      case DomainSuffix => domainSuffix
      case DomainKeyword => domainKeyword
      case GeoIp => geoip
    }

    predicate HasConditions() {
      || matchAll || srcIpCidr.Some? || dstIpCidr.Some? || srcPort.Some? || dstPort.Some? || proto.Some?
      || domain.Some? || domainSuffix.Some? || domainKeyword.Some? || geoip.Some?
    }
  }

  function NewRule(action: RuleAction): Rule {
    Rule(None, None, None, None, None, None, None, None, None, false, action)
  }

  function WithField(action: RuleAction, f: Field, value: string): Rule {
    var r := NewRule(action);
    match f
    case SrcIpCidr => r.(srcIpCidr := Some(value))
    case DstIpCidr => r.(dstIpCidr := Some(value))
    case SrcPort => r.(srcPort := Some(value))
    case DstPort => r.(dstPort := Some(value))
    case Proto => r.(proto := Some(value))
    case Domain => r.(domain := Some(value))
    case DomainSuffix => r.(domainSuffix := Some(value))
    case DomainKeyword => r.(domainKeyword := Some(value))
    case GeoIp => r.(geoip := Some(value))
  }

  datatype RuleError =
    | EmptyRule
    | BadFormat(field: string)
    | EmptyValue(field: string)
    | InvalidValue(value: string)
    | UnknownField(name: string)
    | UnknownAction(name: string)

  // ---------------------------------------------------------------------------
  // Parsing
  // ---------------------------------------------------------------------------

  function FieldName(f: Field): string {
    match f
    case SrcIpCidr => "SRC-IP-CIDR"
    case DstIpCidr => "DST-IP-CIDR"
    case SrcPort => "SRC-PORT"
    case DstPort => "DST-PORT"
    case Proto => "PROTO"
    case Domain => "DOMAIN"
    case DomainSuffix => "DOMAIN-SUFFIX"
    case DomainKeyword => "DOMAIN-KEYWORD"
    case GeoIp => "GEOIP"
  }

  function FieldNamed(name: string): Option<Field> {
    if name == "SRC-IP-CIDR" then Some(SrcIpCidr)
    else if name == "DST-IP-CIDR" then Some(DstIpCidr)
    else if name == "SRC-PORT" then Some(SrcPort)
    else if name == "DST-PORT" then Some(DstPort)
    else if name == "PROTO" then Some(Proto)
    else if name == "DOMAIN" then Some(Domain)
    else if name == "DOMAIN-SUFFIX" then Some(DomainSuffix)
    else if name == "DOMAIN-KEYWORD" then Some(DomainKeyword)
    else if name == "GEOIP" then Some(GeoIp)
    else None
  }

  function ParseAction(value: string): Result<RuleAction, RuleError> {
    var v := Lower(value);
    if v == "direct" then Ok(Direct)
    else if v == "proxy" then Ok(Proxy)
    else if v == "reject" || v == "drop" then Ok(Reject)
    else Err(UnknownAction(value))
  }

  predicate HasForbiddenChar(value: string) {
    exists i :: 0 <= i < |value| && (IsWhitespace(value[i]) || value[i] == '/' || value[i] == ',')
  }

  function NormalizeDomainValue(value: string): Result<string, RuleError> {
    var v := DomainForm(value);
    if v == [] then Err(EmptyValue("domain"))
    else if HasForbiddenChar(v) then Err(InvalidValue(v))
    else Ok(v)
  }

  function NormalizeGeoIpValue(value: string): Result<string, RuleError> {
    var v := Upper(Trim(value));
    if v == [] then Err(EmptyValue("GEOIP"))
    else if HasForbiddenChar(v) then Err(InvalidValue(v))
    else Ok(v)
  }

  function NormalizeValue(f: Field, value: string): Result<string, RuleError> {
    match f
    case Domain => NormalizeDomainValue(value)
    case DomainSuffix => NormalizeDomainValue(value)
    case DomainKeyword => NormalizeDomainValue(value)
    case GeoIp => NormalizeGeoIpValue(value)
    case _ => Ok(value)
  }

  function TrimAll(parts: seq<string>): (r: seq<string>)
    ensures |r| == |parts| && forall i :: 0 <= i < |parts| ==> r[i] == Trim(parts[i])
  {
    seq(|parts|, i requires 0 <= i < |parts| => Trim(parts[i]))
  }

  function ParseFieldRule(parts: seq<string>, f: Field): Result<Rule, RuleError> {
    if |parts| != 3 then Err(BadFormat(FieldName(f)))
    else if parts[1] == [] then Err(EmptyValue(FieldName(f)))
    else
      match ParseAction(parts[2])
      case Err(e) => Err(e)
      case Ok(action) =>
        match NormalizeValue(f, parts[1])
        case Err(e) => Err(e)
        case Ok(value) => Ok(WithField(action, f, value))
  }

  function ParseParts(parts: seq<string>): Result<Rule, RuleError>
    requires |parts| > 0
  {
    if parts[0] == [] then Err(EmptyRule)
    else if Upper(parts[0]) == "MATCH" then
      if |parts| != 2 then Err(BadFormat("MATCH"))
      else
        match ParseAction(parts[1])
        case Err(e) => Err(e)
        case Ok(action) => Ok(NewRule(action).(matchAll := true))
    else
      match FieldNamed(Upper(parts[0]))
      case None => Err(UnknownField(parts[0]))
      case Some(f) => ParseFieldRule(parts, f)
  }

  function ParseCompact(value: string): Result<Rule, RuleError> {
    ParseParts(TrimAll(Split(value, ',')))
  }

  // ---------------------------------------------------------------------------
  // Printing
  // ---------------------------------------------------------------------------

  function ActionName(a: RuleAction): string {
    match a
    case Direct => "Direct"
    case Proxy => "Proxy"
    case Reject => "Reject"
  }

  function ShowField(r: Rule, f: Field): string
    requires r.Get(f).Some?
  {
    FieldName(f) + [','] + (r.Get(f).value + [','] + ActionName(r.action))
  }

  /** The printer shows `MATCH`, or else the first field that is set. */
  function Display(r: Rule): string {
    if r.matchAll then "MATCH" + [','] + ActionName(r.action)
    else if r.srcIpCidr.Some? then ShowField(r, SrcIpCidr)
    else if r.dstIpCidr.Some? then ShowField(r, DstIpCidr)
    else if r.srcPort.Some? then ShowField(r, SrcPort)
    else if r.dstPort.Some? then ShowField(r, DstPort)
    else if r.proto.Some? then ShowField(r, Proto)
    else if r.domain.Some? then ShowField(r, Domain)
    else if r.domainSuffix.Some? then ShowField(r, DomainSuffix)
    else if r.domainKeyword.Some? then ShowField(r, DomainKeyword)
    else if r.geoip.Some? then ShowField(r, GeoIp)
    else "MATCH" + [','] + ActionName(r.action)
  }

  // ---------------------------------------------------------------------------
  // Printing and parsing again
  // ---------------------------------------------------------------------------

  predicate IsDomainField(f: Field) {
    f.Domain? || f.DomainSuffix? || f.DomainKeyword?
  }

  predicate NoUpper(s: string) {
    forall i :: 0 <= i < |s| ==> !('A' <= s[i] <= 'Z')
  }

  predicate NoLower(s: string) {
    forall i :: 0 <= i < |s| ==> !('a' <= s[i] <= 'z')
  }

  /** No blank, slash or comma. */
  predicate Plain(s: string) {
    forall i :: 0 <= i < |s| ==> !IsWhitespace(s[i]) && s[i] != '/' && s[i] != ','
  }

  /** The values a parsed rule can hold, by their characters. */
  predicate Canonical(f: Field, value: string) {
    && value != [] && ',' !in value && Tight(value)
    && (IsDomainField(f) ==> Plain(value) && NoUpper(value) && value[|value| - 1] != '.')
    && (f.GeoIp? ==> Plain(value) && NoLower(value))
  }

  /** Without forbidden characters there is nothing to trim or to split. */
  lemma AllowedIsTight(v: string)
    requires !HasForbiddenChar(v)
    ensures Tight(v) && ',' !in v
  {
  }

  lemma LowerHasNoUpper(s: string)
    ensures NoUpper(Lower(s)) && (NoUpper(s) ==> Lower(s) == s)
  {
  }

  lemma UpperHasNoLower(s: string)
    ensures NoLower(Upper(s)) && (NoLower(s) ==> Upper(s) == s)
  {
  }

  lemma DomainValueIsCanonical(value: string)
    requires NormalizeDomainValue(value).Ok?
    ensures Canonical(Domain, NormalizeDomainValue(value).value)
  {
    var t := TrimDots(Trim(value));
    var v := Lower(t);
    AllowedIsTight(v);
    TrimEndIsPrefix(Trim(value), c => c == '.');
    LowerHasNoUpper(t);
    assert v[|v| - 1] == LowerChar(t[|t| - 1]) != '.';
  }

  lemma GeoIpValueIsCanonical(value: string)
    requires NormalizeGeoIpValue(value).Ok?
    ensures Canonical(GeoIp, NormalizeGeoIpValue(value).value)
  {
    AllowedIsTight(Upper(Trim(value)));
    UpperHasNoLower(Trim(value));
  }

  /** Whatever the normaliser returns has canonical characters. */
  lemma NormalizedIsCanonical(f: Field, value: string)
    requires value != [] && ',' !in value && Tight(value) && NormalizeValue(f, value).Ok?
    ensures Canonical(f, NormalizeValue(f, value).value)
  {
    if IsDomainField(f) {
      DomainValueIsCanonical(value);
    } else if f.GeoIp? {
      GeoIpValueIsCanonical(value);
    }
  }

  /** And it leaves exactly the canonical values as they are. */
  lemma CanonicalIsFixed(f: Field, value: string)
    requires value != [] && ',' !in value && Tight(value)
    ensures Canonical(f, value) <==> NormalizeValue(f, value) == Ok(value)
  {
    if Canonical(f, value) {
      TrimTight(value);
      TrimEndIsPrefix(value, c => c == '.');
      LowerHasNoUpper(value);
      UpperHasNoLower(value);
    }
    if NormalizeValue(f, value) == Ok(value) {
      NormalizedIsCanonical(f, value);
    }
  }

  /** What every parsed rule looks like: `MATCH`, or one field with a canonical value. */
  ghost predicate FieldRule(r: Rule, f: Field) {
    r.Get(f).Some? && r == WithField(r.action, f, r.Get(f).value) && Canonical(f, r.Get(f).value)
  }

  ghost predicate WellFormed(r: Rule) {
    r == NewRule(r.action).(matchAll := true) || exists f :: FieldRule(r, f)
  }

  lemma FieldPartsAreWellFormed(parts: seq<string>, f: Field)
    requires ParseFieldRule(parts, f).Ok? && ',' !in parts[1] && Tight(parts[1])
    ensures FieldRule(ParseFieldRule(parts, f).value, f)
  {
    NormalizedIsCanonical(f, parts[1]);
  }

  lemma PartsAreWellFormed(parts: seq<string>)
    requires |parts| > 0 && forall i :: 0 <= i < |parts| ==> ',' !in parts[i] && Tight(parts[i])
    requires ParseParts(parts).Ok?
    ensures WellFormed(ParseParts(parts).value)
  {
    if Upper(parts[0]) != "MATCH" {
      FieldPartsAreWellFormed(parts, FieldNamed(Upper(parts[0])).value);
    }
  }

  lemma PiecesArePlain(s: string, i: nat)
    requires i < |Split(s, ',')|
    ensures ',' !in Trim(Split(s, ',')[i]) && Tight(Trim(Split(s, ',')[i]))
  {
    SplitPieces(s, ',');
    TrimIsTight(Split(s, ',')[i]);
    assert Split(s, ',')[i] in Split(s, ',');
  }

  lemma ParsedIsWellFormed(s: string)
    requires ParseCompact(s).Ok?
    ensures WellFormed(ParseCompact(s).value)
  {
    var parts := TrimAll(Split(s, ','));
    forall i | 0 <= i < |parts| ensures ',' !in parts[i] && Tight(parts[i]) {
      PiecesArePlain(s, i);
    }
    PartsAreWellFormed(parts);
  }

  lemma FieldNamesAreRead(f: Field)
    ensures FieldNamed(FieldName(f)) == Some(f) && FieldName(f) != "MATCH"
  {
  }

  lemma FieldNamesAreUpper(f: Field)
    ensures Upper(FieldName(f)) == FieldName(f)
  {
  }

  lemma FieldNamesArePlain(f: Field)
    ensures FieldName(f) != [] && Tight(FieldName(f)) && ',' !in FieldName(f)
  {
  }

  lemma ActionNamesAreRead(a: RuleAction)
    ensures ParseAction(ActionName(a)) == Ok(a)
    ensures Tight(ActionName(a)) && ',' !in ActionName(a)
  {
  }

  /** An action is written by its printed name in any case, or as "drop" for a rejection, and no
      other way. */
  lemma ActionSpellings(s: string, a: RuleAction)
    ensures ParseAction(s) == Ok(a) <==> Lower(s) == Lower(ActionName(a)) || (a == Reject && Lower(s) == "drop")
  {
    assert Lower("Direct") == "direct" && Lower("Proxy") == "proxy" && Lower("Reject") == "reject";
  }

  lemma SplitThree(a: string, b: string, c: string)
    requires ',' !in a && ',' !in b && ',' !in c && Tight(a) && Tight(b) && Tight(c)
    ensures TrimAll(Split(a + [','] + (b + [','] + c), ',')) == [a, b, c]
  {
    SplitConcat(a, b + [','] + c, ',');
    SplitConcat(b, c, ',');
    SplitWithout(a, ',');
    SplitWithout(b, ',');
    SplitWithout(c, ',');
    TrimTight(a);
    TrimTight(b);
    TrimTight(c);
  }

  lemma SplitTwo(a: string, b: string)
    requires ',' !in a && ',' !in b && Tight(a) && Tight(b)
    ensures TrimAll(Split(a + [','] + b, ',')) == [a, b]
  {
    SplitConcat(a, b, ',');
    SplitWithout(a, ',');
    SplitWithout(b, ',');
    TrimTight(a);
    TrimTight(b);
  }

  lemma FieldRuleIsRead(r: Rule, f: Field)
    requires FieldRule(r, f)
    ensures ParseCompact(Display(r)) == Ok(r)
  {
    var value := r.Get(f).value;
    FieldNamesAreUpper(f);
    FieldNamesArePlain(f);
    ActionNamesAreRead(r.action);
    CanonicalIsFixed(f, value);
    SplitThree(FieldName(f), value, ActionName(r.action));
    assert Display(r) == ShowField(r, f) by { ShowsItsField(r, f); }
    FieldNamesAreRead(f);
  }

  lemma ShowsItsField(r: Rule, f: Field)
    requires FieldRule(r, f)
    ensures Display(r) == ShowField(r, f)
  {
  }

  lemma WellFormedIsRead(r: Rule)
    requires WellFormed(r)
    ensures ParseCompact(Display(r)) == Ok(r)
  {
    if f :| FieldRule(r, f) {
      FieldRuleIsRead(r, f);
    } else {
      ActionNamesAreRead(r.action);
      MatchRuleIsRead(r.action);
    }
  }

  lemma MatchRuleIsRead(a: RuleAction)
    ensures ParseCompact("MATCH" + [','] + ActionName(a)) == Ok(NewRule(a).(matchAll := true))
  {
    ActionNamesAreRead(a);
    SplitTwo("MATCH", ActionName(a));
    assert Upper("MATCH") == "MATCH";
  }

  /** Printing a parsed rule and parsing the text again gives the same rule. */
  lemma PrintParseRoundTrip(s: string)
    requires ParseCompact(s).Ok?
    ensures ParseCompact(Display(ParseCompact(s).value)) == ParseCompact(s)
  {
    ParsedIsWellFormed(s);
    WellFormedIsRead(ParseCompact(s).value);
  }

  /** For an arbitrary rule value the round trip holds exactly when it is one that parsing can
      produce: the printer shows only the first condition and no other part survives it. */
  lemma RoundTripIffWellFormed(r: Rule)
    ensures ParseCompact(Display(r)) == Ok(r) <==> WellFormed(r)
  {
    if WellFormed(r) { WellFormedIsRead(r); }
    if ParseCompact(Display(r)) == Ok(r) { ParsedIsWellFormed(Display(r)); }
  }

  /** A rule with two conditions prints only the first, so it does not come back. */
  lemma SecondConditionIsLost()
    ensures var r := WithField(Direct, SrcPort, "80").(dstPort := Some("443"));
            ParseCompact(Display(r)).Ok? && ParseCompact(Display(r)) != Ok(r)
  {
    var kept := WithField(Direct, SrcPort, "80");
    var r := kept.(dstPort := Some("443"));
    assert FieldRule(kept, SrcPort);
    FieldRuleIsRead(kept, SrcPort);
    assert Display(r) == Display(kept);
  }

  function ConditionCount(r: Rule): nat {
    One(r.matchAll) + One(r.srcIpCidr.Some?) + One(r.dstIpCidr.Some?) + One(r.srcPort.Some?)
    + One(r.dstPort.Some?) + One(r.proto.Some?) + One(r.domain.Some?) + One(r.domainSuffix.Some?)
    + One(r.domainKeyword.Some?) + One(r.geoip.Some?)
  }

  /** Every parsed rule has exactly one condition, although a rule could hold ten. */
  lemma ParsedHasOneCondition(s: string)
    requires ParseCompact(s).Ok?
    ensures ConditionCount(ParseCompact(s).value) == 1
  {
    ParsedIsWellFormed(s);
  }

  // ---------------------------------------------------------------------------
  // The texts
  // ---------------------------------------------------------------------------

  const FIELD_NAMES: seq<string> := [
    "SRC-IP-CIDR", "DST-IP-CIDR", "SRC-PORT", "DST-PORT", "PROTO", "DOMAIN", "DOMAIN-SUFFIX", "DOMAIN-KEYWORD", "GEOIP"]

  const FIELDS: seq<Field> := [
    SrcIpCidr, DstIpCidr, SrcPort, DstPort, Proto, Domain, DomainSuffix, DomainKeyword, GeoIp]

  /** The nine names, each for its own field, and no others. */
  lemma FieldsAreNamed(name: string, f: Field)
    ensures FieldNamed(name) == Some(f) <==> exists i :: 0 <= i < 9 && FIELD_NAMES[i] == name && FIELDS[i] == f
  {
    assert FieldNamed(name).Some? ==>
      (|| name == FIELD_NAMES[0] || name == FIELD_NAMES[1] || name == FIELD_NAMES[2] || name == FIELD_NAMES[3]
       || name == FIELD_NAMES[4] || name == FIELD_NAMES[5] || name == FIELD_NAMES[6] || name == FIELD_NAMES[7]
       || name == FIELD_NAMES[8]);
  }

  /** The action that an action text stands for. */
  function WrittenAction(s: string): Option<RuleAction> {
    if EqualButForCase(s, "direct") then Some(Direct)
    else if EqualButForCase(s, "proxy") then Some(Proxy)
    else if EqualButForCase(s, "reject") || EqualButForCase(s, "drop") then Some(Reject)
    else None
  }

  lemma ActionIsWritten(s: string)
    ensures ParseAction(s).Ok? <==> WrittenAction(s).Some?
    ensures ParseAction(s).Ok? ==> ParseAction(s).value == WrittenAction(s).value
  {
    assert Lower("direct") == "direct" && Lower("proxy") == "proxy";
    assert Lower("reject") == "reject" && Lower("drop") == "drop";
    CaseIsAllThatIsLost(s, "direct");
    CaseIsAllThatIsLost(s, "proxy");
    CaseIsAllThatIsLost(s, "reject");
    CaseIsAllThatIsLost(s, "drop");
  }

  /** The values a field accepts. */
  predicate AcceptsValue(f: Field, value: string) {
    && value != []
    && (IsDomainField(f) ==> DomainForm(value) != [] && Plain(DomainForm(value)))
    && (f.GeoIp? ==> Upper(Trim(value)) != [] && Plain(Upper(Trim(value))))
  }

  /** The trimmed pieces that make a rule: `MATCH` in any case and an action, or a field name in any case, a
      value it accepts and an action. */
  predicate Readable(parts: seq<string>) {
    || (|parts| == 2 && EqualButForCase(parts[0], "MATCH") && WrittenAction(parts[1]).Some?)
    || (&& |parts| == 3 && FieldNamed(Upper(parts[0])).Some? && WrittenAction(parts[2]).Some?
        && AcceptsValue(FieldNamed(Upper(parts[0])).value, parts[1]))
  }

  lemma MatchIsNoField(name: string)
    ensures EqualButForCase(name, "MATCH") <==> Upper(name) == "MATCH"
    ensures Upper(name) == "MATCH" ==> FieldNamed(Upper(name)).None?
    ensures Upper(name) == "MATCH" || FieldNamed(Upper(name)).Some? ==> name != []
  {
    assert Upper("MATCH") == "MATCH";
    CaseIsAllThatIsLost(name, "MATCH");
    assert |Upper(name)| == |name|;
  }

  lemma FieldPartsAreReadable(parts: seq<string>, f: Field)
    ensures ParseFieldRule(parts, f).Ok? <==>
      |parts| == 3 && WrittenAction(parts[2]).Some? && AcceptsValue(f, parts[1])
  {
    if |parts| == 3 { ActionIsWritten(parts[2]); }
  }

  /** The trimmed pieces of a text between its commas. */
  function Pieces(text: string): (parts: seq<string>)
    ensures |parts| > 0
  {
    TrimAll(Split(text, ','))
  }

  /** Exactly these texts are rules. */
  lemma RuleTextsAreReadable(s: string)
    ensures ParseCompact(s).Ok? <==> Readable(Pieces(s))
  {
    var parts := Pieces(s);
    MatchIsNoField(parts[0]);
    if Upper(parts[0]) == "MATCH" {
      if |parts| == 2 { ActionIsWritten(parts[1]); }
    } else if FieldNamed(Upper(parts[0])).Some? {
      FieldPartsAreReadable(parts, FieldNamed(Upper(parts[0])).value);
    }
  }

  const ACTIONS: seq<RuleAction> := [Direct, Proxy, Reject]

  const ACTION_NAMES: seq<string> := ["Direct", "Proxy", "Reject"]

  lemma ActionsAreShown(j: nat)
    requires j < 3
    ensures ActionName(ACTIONS[j]) == ACTION_NAMES[j]
  {
  }

  lemma FieldsAreShown(i: nat)
    requires i < 9
    ensures FieldName(FIELDS[i]) == FIELD_NAMES[i]
  {
    assert i == 0 || i == 1 || i == 2 || i == 3 || i == 4 || i == 5 || i == 6 || i == 7 || i == 8;
  }

  /** The first field that is set, in the order of the names. */
  predicate FirstSet(r: Rule, i: nat) {
    i < 9 && r.Get(FIELDS[i]).Some? && forall k :: 0 <= k < i ==> r.Get(FIELDS[k]).None?
  }

  predicate NoneSet(r: Rule) {
    forall k :: 0 <= k < 9 ==> r.Get(FIELDS[k]).None?
  }

  /** The nine fields in their order, one by one. */
  lemma FieldsInOrder(r: Rule)
    ensures r.Get(FIELDS[0]) == r.srcIpCidr && r.Get(FIELDS[1]) == r.dstIpCidr && r.Get(FIELDS[2]) == r.srcPort
    ensures r.Get(FIELDS[3]) == r.dstPort && r.Get(FIELDS[4]) == r.proto && r.Get(FIELDS[5]) == r.domain
    ensures r.Get(FIELDS[6]) == r.domainSuffix && r.Get(FIELDS[7]) == r.domainKeyword && r.Get(FIELDS[8]) == r.geoip
  {
  }

  lemma FirstSetIsShown(r: Rule, i: nat)
    requires !r.matchAll && FirstSet(r, i)
    ensures Display(r) == ShowField(r, FIELDS[i])
  {
    FieldsInOrder(r);
    assert i == 0 || i == 1 || i == 2 || i == 3 || i == 4 || i == 5 || i == 6 || i == 7 || i == 8;
  }

  lemma NoneSetShowsMatch(r: Rule)
    requires r.matchAll || NoneSet(r)
    ensures Display(r) == "MATCH" + [','] + ActionName(r.action)
  {
    FieldsInOrder(r);
  }

  /** How any rule is printed: the name and value of the first field that is set, or `MATCH` if it matches all
      or has no field, and its action's name. */
  lemma PrintedText(r: Rule, i: nat, j: nat)
    requires j < 3 && r.action == ACTIONS[j]
    ensures !r.matchAll && FirstSet(r, i) ==>
              Display(r) == FIELD_NAMES[i] + "," + r.Get(FIELDS[i]).value + "," + ACTION_NAMES[j]
    ensures r.matchAll || NoneSet(r) ==> Display(r) == "MATCH," + ACTION_NAMES[j]
  {
    var action := ACTION_NAMES[j];
    ActionsAreShown(j);
    if !r.matchAll && FirstSet(r, i) {
      var name, v := FIELD_NAMES[i], r.Get(FIELDS[i]).value;
      FieldsAreShown(i);
      FirstSetIsShown(r, i);
      assert name + [','] + (v + [','] + action) == name + "," + v + "," + action;
    }
    if r.matchAll || NoneSet(r) {
      NoneSetShowsMatch(r);
      assert "MATCH" + [','] + action == "MATCH," + action;
    }
  }

  /** Why a text is refused: an empty or unknown name first, then the number of pieces, then an empty value,
      then the action, and the value's characters last. */
  ghost function Refusal(parts: seq<string>): RuleError
    requires |parts| > 0
  {
    var name := Upper(parts[0]);
    if name == [] then EmptyRule
    else if name == "MATCH" then
      if |parts| != 2 then BadFormat(name) else UnknownAction(parts[1])
    else if FieldNamed(name).None? then UnknownField(parts[0])
    else if |parts| != 3 then BadFormat(name)
    else if parts[1] == [] then EmptyValue(name)
    else if WrittenAction(parts[2]).None? then UnknownAction(parts[2])
    else
      var f := FieldNamed(name).value;
      var value := if f.GeoIp? then Upper(Trim(parts[1])) else DomainForm(parts[1]);
      if value == [] then EmptyValue(if f.GeoIp? then "GEOIP" else "domain") else InvalidValue(value)
  }

  lemma NamedFieldHasName(name: string)
    requires FieldNamed(name).Some?
    ensures FieldName(FieldNamed(name).value) == name && name != "MATCH" && name != []
  {
  }

  /** A text that is no rule is refused for this reason. */
  lemma RefusalsAreNamed(s: string)
    ensures ParseCompact(s).Err? ==> ParseCompact(s) == Err(Refusal(Pieces(s)))
  {
    RuleTextsAreReadable(s);
    var parts := Pieces(s);
    MatchIsNoField(parts[0]);
    if FieldNamed(Upper(parts[0])).Some? {
      NamedFieldHasName(Upper(parts[0]));
      if |parts| == 3 { ActionIsWritten(parts[2]); }
    } else if |parts| == 2 {
      ActionIsWritten(parts[1]);
    }
  }

  // ---------------------------------------------------------------------------
  // Spelling
  // ---------------------------------------------------------------------------

  /** Values of a field that mean the same: domains with one normal form, and country codes and protocols
      up to case. */
  predicate ValueAlike(f: Field, u: string, v: string) {
    if IsDomainField(f) then DomainForm(u) == DomainForm(v)
    else if f.GeoIp? then Upper(Trim(u)) == Upper(Trim(v))
    else if f.Proto? then Lower(u) == Lower(v)
    else u == v
  }

  /** Equal rules, up to the case of a protocol, which the parser keeps as it is written. */
  predicate RuleAlike(r1: Rule, r2: Rule) {
    && r1.(proto := None) == r2.(proto := None)
    && (r1.proto == r2.proto || (r1.proto.Some? && r2.proto.Some? && Lower(r1.proto.value) == Lower(r2.proto.value)))
  }

  /** Trimmed pieces that agree up to the case of the field and the action and the form of the value. */
  predicate PartsAlike(xs: seq<string>, ys: seq<string>) {
    && 0 < |xs| == |ys| && Upper(xs[0]) == Upper(ys[0])
    && (|xs| == 2 ==> Lower(xs[1]) == Lower(ys[1]))
    && (|xs| == 3 ==> Lower(xs[2]) == Lower(ys[2])
                      && (FieldNamed(Upper(xs[0])).Some? ==> ValueAlike(FieldNamed(Upper(xs[0])).value, xs[1], ys[1])))
  }

  predicate TextAlike(s: string, t: string) {
    PartsAlike(TrimAll(Split(s, ',')), TrimAll(Split(t, ',')))
  }

  /** Both parse, to alike rules, or neither parses. */
  predicate SameReading(r1: Result<Rule, RuleError>, r2: Result<Rule, RuleError>) {
    if r1.Ok? then r2.Ok? && RuleAlike(r1.value, r2.value) else r2.Err?
  }

  lemma ActionIgnoresCase(a: string, b: string)
    requires Lower(a) == Lower(b)
    ensures ParseAction(a) == ParseAction(b) || (ParseAction(a).Err? && ParseAction(b).Err?)
  {
  }

  /** An empty piece is an error of its own; a piece with an empty form is one all the same. */
  lemma ValueIgnoresSpelling(f: Field, u: string, v: string)
    requires ValueAlike(f, u, v)
    ensures !f.Proto? ==> NormalizeValue(f, u) == NormalizeValue(f, v)
    ensures IsDomainField(f) || f.GeoIp? ==> NormalizeValue(f, []).Err?
    ensures !IsDomainField(f) && !f.GeoIp? ==> |u| == |v|
  {
    assert Lower([]) == [] && Upper([]) == [];
    assert |Lower(u)| == |u| && |Lower(v)| == |v|;
  }

  lemma FieldRuleIgnoresSpelling(xs: seq<string>, ys: seq<string>, f: Field)
    requires |xs| == |ys|
    requires |xs| == 3 ==> Lower(xs[2]) == Lower(ys[2]) && ValueAlike(f, xs[1], ys[1])
    ensures SameReading(ParseFieldRule(xs, f), ParseFieldRule(ys, f))
  {
    if |xs| == 3 {
      ActionIgnoresCase(xs[2], ys[2]);
      ValueIgnoresSpelling(f, xs[1], ys[1]);
    }
  }

  lemma PartsIgnoreSpelling(xs: seq<string>, ys: seq<string>)
    requires PartsAlike(xs, ys)
    ensures SameReading(ParseParts(xs), ParseParts(ys))
  {
    var name := Upper(xs[0]);
    assert |name| == |xs[0]| == |ys[0]|;
    if name == "MATCH" {
      if |xs| == 2 { ActionIgnoresCase(xs[1], ys[1]); }
    } else if FieldNamed(name).Some? {
      FieldRuleIgnoresSpelling(xs, ys, FieldNamed(name).value);
    }
  }

  /** The case of the field, of the action and of a country code or protocol, blanks around the pieces,
      and the spelling of a domain within its normal form never change what a rule text means. */
  lemma ParseIgnoresSpelling(s: string, t: string)
    requires TextAlike(s, t)
    ensures SameReading(ParseCompact(s), ParseCompact(t))
  {
    PartsIgnoreSpelling(TrimAll(Split(s, ',')), TrimAll(Split(t, ',')));
  }
}
