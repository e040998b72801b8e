// Quality profiles: the values, their checks, the printer and the parser, over JSON-like trees.
module QualityProfiles {
  import opened Common

  datatype Severity = Info | Warning | Error | Critical

  datatype Preset = Parcel | Road | AdminBoundary | PointSurvey

  datatype Check = GeometryCheck | CrsCheck | AttributesCheck | TopologyCheck | SpatialCheck

  datatype RuleKind =
    | NoOverlap | NoGap | NoDuplicate | MustBeInside | MustNotIntersect | SmallestArea | BoundaryMustMatch
    | NoDangles | EndpointMustConnect | NoOvershootUndershoot | AllowedGeometryType | SinglepartOnly | NoSpikes
    | MinimumSegmentLength | MinimumVertexDistance | MustTouch | MustIntersect | MustCover | AttributeOverlap
    | PrecisionGrid

  datatype Policy = DenyAll | AllowEqual | AllowDifferent

  datatype AttributeKind = Required | NotNull | Unique | AllowedValues | NumericRange

  datatype Category = Geometry | Topology | Network | Attribute | Metadata

  // A text value. Texts the schema knows by name are represented by that name, all others plainly.
  datatype Word =
    | OfSeverity(severity: Severity) | OfPreset(preset: Preset) | OfCheck(check: Check) | OfRule(rule: RuleKind)
    | OfPolicy(policy: Policy) | OfAttribute(attribute: AttributeKind) | Plain(text: string)

  const EMPTY: Word := Plain([])

  // An object key, likewise.
  datatype Key =
    | NameKey | VersionKey | IdColumnKey | PresetKey | ToleranceKey | MinimumAreaKey | EnabledChecksKey
    | ExpectedGeometryTypesKey | CrsKey | TopologyRulesKey | AttributeRulesKey | AttributeSchemaKey
    | SeverityOverridesKey | ScoringKey | QualityGateKey
    | RequiredKey | RequireProjectedKey | AllowedKey
    | CategoryWeightsKey | SeverityPenaltiesKey | CategoryCapsKey | RepeatedFeatureCapKey
    | MinimumScoreKey | FailOnKey | AllowUnknownCrsKey
    | TypeKey | LayerKey | ReferenceLayerKey | MinimumLengthKey | MinimumDistanceKey | MinimumAngleKey
    | AllowedGeometryTypesKey | PrecisionGridSizeKey | AttributeColumnKey | OverlapPolicyKey | SeverityKey
    | ColumnKey | AllowedValuesKey | MinimumKey | MaximumKey
    | Level(severity: Severity) | Standard(category: Category) | Custom(text: string)

  datatype Value =
    | Null | Bool(flag: bool) | Int(whole: int) | Real(number: real) | NotFinite | Text(word: Word)
    | Array(items: seq<Value>) | Object(fields: map<Key, Value>)

  type Fields = map<Key, Value>

  predicate Truthy(v: Value) {
    match v
    case Null => false
    case Bool(flag) => flag
    case Int(whole) => whole != 0
    case Real(number) => number != 0.0
    case NotFinite => true
    case Text(word) => word != EMPTY
    case Array(items) => items != []
    case Object(fields) => fields != map[]
  }

  // What the language does with texts: str(), float() of a text, and strip().
  datatype Texts = Texts(str: Value -> Word, float: Word -> Option<real>, strip: Word -> Word)
  {
    ghost predicate Valid() {
      && (forall w {:trigger str(Text(w))} :: str(Text(w)) == w)
      && (forall v {:trigger str(v)} :: Truthy(v) ==> str(v) != EMPTY)
      && (forall w {:trigger strip(w)} :: strip(strip(w)) == strip(w))
      && strip(EMPTY) == EMPTY
    }

    predicate Blank(w: Word) {
      strip(w) == EMPTY
    }
  }

  datatype Fault =
    | UnknownFields | NotAnObject | NotAnArray | NotNumeric | NotAnInteger | NotABoolean | NotAMember
    | BothSchemas | BadScoring | BadGate | BadRule | BadAttributeRule | BadProfile

  datatype Parsed<+T> = Read(value: T) | Invalid(fault: Fault)
  {
    predicate IsFailure() {
      Invalid?
    }

    function PropagateFailure<U>(): Parsed<U>
      requires Invalid?
    {
      Invalid(fault)
    }

    function Extract(): T
      requires Read?
    {
      value
    }
  }

  // ---- profiles -------------------------------------------------------------------------

  datatype TopologyRule = TopologyRule(
    kind: RuleKind, layer: Word, referenceLayer: Option<Word>, tolerance: real, minimumArea: real, minimumLength: real,
    minimumDistance: real, minimumAngle: real, allowedGeometryTypes: seq<Word>, precisionGridSize: real,
    attributeColumn: Option<Word>, overlapPolicy: Policy, severity: Severity)

  datatype AttributeRule = AttributeRule(
    column: Word, kind: AttributeKind, severity: Severity, allowedValues: seq<Value>, minimum: Option<real>,
    maximum: Option<real>)

  datatype Scoring = Scoring(
    weights: map<Key, real>, penalties: map<Severity, real>, caps: map<Key, real>, repeatedFeatureCap: real)

  datatype Gate = Gate(minimumScore: real, failOn: Severity, allowUnknownCrs: bool)

  datatype Crs = Crs(required: bool, requireProjected: bool, allowed: seq<Word>)

  datatype Profile = Profile(
    name: Word, version: int, preset: Option<Preset>, tolerance: real, minimumArea: real, crs: Crs,
    idColumn: Option<Word>, enabledChecks: seq<Word>, expectedGeometryTypes: seq<Word>,
    topologyRules: seq<TopologyRule>, attributeRules: seq<AttributeRule>, overrides: map<Key, Severity>,
    scoring: Scoring, gate: Gate)

  predicate NeedsReference(kind: RuleKind) {
    kind in {MustBeInside, MustNotIntersect, BoundaryMustMatch, MustTouch, MustIntersect, MustCover}
  }

  predicate ValidRule(texts: Texts, r: TopologyRule) {
    && !texts.Blank(r.layer)
    && r.tolerance >= 0.0 && r.minimumArea >= 0.0 && r.minimumLength >= 0.0 && r.minimumDistance >= 0.0
    && r.minimumAngle >= 0.0 && r.precisionGridSize >= 0.0
    && r.minimumAngle <= 180.0
    && (NeedsReference(r.kind) ==> r.referenceLayer.Some? && r.referenceLayer.value != EMPTY)
    && (r.kind == AllowedGeometryType ==> r.allowedGeometryTypes != [])
    && (r.kind == NoSpikes ==> r.minimumAngle > 0.0)
    && (r.kind == MinimumSegmentLength ==> r.minimumLength > 0.0)
    && (r.kind == MinimumVertexDistance ==> r.minimumDistance > 0.0)
    && (r.kind == PrecisionGrid ==> r.precisionGridSize > 0.0)
    && (r.kind == AttributeOverlap ==> r.attributeColumn.Some? && !texts.Blank(r.attributeColumn.value))
  }

  predicate ValidAttributeRule(texts: Texts, r: AttributeRule) {
    && !texts.Blank(r.column)
    && (r.minimum.Some? && r.maximum.Some? ==> r.minimum.value <= r.maximum.value)
    && (r.kind == AllowedValues ==> r.allowedValues != [])
  }

  const SEVERITIES: set<Severity> := {Info, Warning, Error, Critical}

  // A non-negative sum is positive exactly when one of its terms is.
  predicate ValidScoring(s: Scoring) {
    && (forall k :: k in s.weights ==> s.weights[k] >= 0.0)
    && (exists k :: k in s.weights && s.weights[k] > 0.0)
    && s.penalties.Keys == SEVERITIES && (forall k :: k in s.penalties ==> s.penalties[k] >= 0.0)
    && s.caps.Keys == s.weights.Keys && (forall k :: k in s.caps ==> 0.0 <= s.caps[k] <= 100.0)
    && 0.0 <= s.repeatedFeatureCap <= 100.0
  }

  predicate ValidGate(g: Gate) {
    0.0 <= g.minimumScore <= 100.0
  }

  predicate ValidHead(texts: Texts, p: Profile) {
    && !texts.Blank(p.name) && p.version >= 1 && p.tolerance >= 0.0 && p.minimumArea >= 0.0
    && (p.idColumn.Some? ==> !texts.Blank(p.idColumn.value))
    && p.enabledChecks != [] && (forall w :: w in p.enabledChecks ==> w.OfCheck?)
    && (forall w :: w in p.expectedGeometryTypes ==> !texts.Blank(w))
  }

  // The profiles that can be constructed.
  predicate ValidProfile(texts: Texts, p: Profile) {
    && ValidHead(texts, p) && ValidScoring(p.scoring) && ValidGate(p.gate)
    && (forall r :: r in p.topologyRules ==> ValidRule(texts, r))
    && (forall r :: r in p.attributeRules ==> ValidAttributeRule(texts, r))
  }

  // ---- field parsers ------------------------------------------------------------------------

  function Get(raw: Fields, key: Key, default: Value): Value {
    if key in raw then raw[key] else default
  }

  function Number(texts: Texts, v: Value): Parsed<real> {
    match v
    case Int(whole) => Read(whole as real)
    case Real(number) => Read(number)
    case Text(word) => (match texts.float(word) case Some(number) => Read(number) case None => Invalid(NotNumeric))
    case _ => Invalid(NotNumeric)
  }

  function Integer(texts: Texts, v: Value): Parsed<int> {
    var number :- Number(texts, v);
    if number.Floor as real == number then Read(number.Floor) else Invalid(NotAnInteger)
  }

  function Boolean(v: Value): Parsed<bool> {
    if v.Bool? then Read(v.flag) else Invalid(NotABoolean)
  }

  function Mapping(v: Value): Parsed<Fields> {
    if v.Object? then Read(v.fields) else Invalid(NotAnObject)
  }

  function Sequence(v: Value): Parsed<seq<Value>> {
    if v.Array? then Read(v.items) else Invalid(NotAnArray)
  }

  function RejectUnknown(raw: Fields, allowed: set<Key>): Parsed<Fields> {
    if raw.Keys <= allowed then Read(raw) else Invalid(UnknownFields)
  }

  function Words(texts: Texts, v: Value): Parsed<seq<Word>> {
    var items :- Sequence(v);
    Read(seq(|items|, i requires 0 <= i < |items| => texts.str(items[i])))
  }

  // A text that may be left out or null.
  function OptionalWord(texts: Texts, v: Value): Option<Word> {
    if v.Null? then None else Some(texts.str(v))
  }

  function OptionalNumber(texts: Texts, v: Value): Parsed<Option<real>> {
    if v.Null? then Read(None)
    else
      var number :- Number(texts, v);
      Read(Some(number))
  }

  function ToSeverity(w: Word): Parsed<Severity> {
    if w.OfSeverity? then Read(w.severity) else Invalid(NotAMember)
  }

  // Parses every entry, or fails with the first fault.
  function All<T>(items: seq<Value>, parse: Value -> Parsed<T>): (r: Parsed<seq<T>>)
    ensures r.Read? <==> forall i :: 0 <= i < |items| ==> parse(items[i]).Read?
    ensures r.Read? ==> |r.value| == |items| && forall i :: 0 <= i < |items| ==> parse(items[i]) == Read(r.value[i])
  {
    if items == [] then Read([])
    else
      var front :- All(items[..|items| - 1], parse);
      var last :- parse(items[|items| - 1]);
      Read(front + [last])
  }

  // ---- section parsers --------------------------------------------------------------------------

  const RULE_KEYS: set<Key> := {
    TypeKey, LayerKey, ReferenceLayerKey, ToleranceKey, MinimumAreaKey, MinimumLengthKey, MinimumDistanceKey,
    MinimumAngleKey, AllowedGeometryTypesKey, PrecisionGridSizeKey, AttributeColumnKey, OverlapPolicyKey, SeverityKey}

  function ParseRule(texts: Texts, v: Value): Parsed<TopologyRule> {
    var fields :- Mapping(v);
    var raw :- RejectUnknown(fields, RULE_KEYS);
    var kind := texts.str(Get(raw, TypeKey, Text(EMPTY)));
    if !kind.OfRule? then Invalid(NotAMember)
    else
      var reference := Get(raw, ReferenceLayerKey, Null);
      var tolerance :- Number(texts, Get(raw, ToleranceKey, Real(0.0)));
      var minimumArea :- Number(texts, Get(raw, MinimumAreaKey, Real(0.0)));
      var minimumLength :- Number(texts, Get(raw, MinimumLengthKey, Real(0.0)));
      var minimumDistance :- Number(texts, Get(raw, MinimumDistanceKey, Real(0.0)));
      var minimumAngle :- Number(texts, Get(raw, MinimumAngleKey, Real(0.0)));
      var types :- Words(texts, Get(raw, AllowedGeometryTypesKey, Array([])));
      var grid :- Number(texts, Get(raw, PrecisionGridSizeKey, Real(0.0)));
      var policy := texts.str(Get(raw, OverlapPolicyKey, Text(OfPolicy(DenyAll))));
      if !policy.OfPolicy? then Invalid(NotAMember)
      else
        var severity :- ToSeverity(texts.str(Get(raw, SeverityKey, Text(OfSeverity(Error)))));
        var rule := TopologyRule(
          kind.rule, texts.str(Get(raw, LayerKey, Text(EMPTY))),
          if Truthy(reference) then Some(texts.str(reference)) else None,
          tolerance, minimumArea, minimumLength, minimumDistance, minimumAngle, types, grid,
          OptionalWord(texts, Get(raw, AttributeColumnKey, Null)), policy.policy, severity);
        if ValidRule(texts, rule) then Read(rule) else Invalid(BadRule)
  }

  const ATTRIBUTE_KEYS: set<Key> := {ColumnKey, TypeKey, SeverityKey, AllowedValuesKey, MinimumKey, MaximumKey}

  function ParseAttributeRule(texts: Texts, v: Value): Parsed<AttributeRule> {
    var fields :- Mapping(v);
    var raw :- RejectUnknown(fields, ATTRIBUTE_KEYS);
    var kind := texts.str(Get(raw, TypeKey, Text(EMPTY)));
    if !kind.OfAttribute? then Invalid(NotAMember)
    else
      var severity :- ToSeverity(texts.str(Get(raw, SeverityKey, Text(OfSeverity(Error)))));
      var values :- Sequence(Get(raw, AllowedValuesKey, Array([])));
      var minimum :- OptionalNumber(texts, Get(raw, MinimumKey, Null));
      var maximum :- OptionalNumber(texts, Get(raw, MaximumKey, Null));
      var rule := AttributeRule(
        texts.str(Get(raw, ColumnKey, Text(EMPTY))), kind.attribute, severity, values, minimum, maximum);
      if ValidAttributeRule(texts, rule) then Read(rule) else Invalid(BadAttributeRule)
  }

  function Numbers(texts: Texts, v: Value): Parsed<map<Key, real>> {
    var raw :- Mapping(v);
    if exists k :: k in raw && Number(texts, raw[k]).Invalid? then Invalid(NotNumeric)
    else Read(map k | k in raw :: Number(texts, raw[k]).Extract())
  }

  function Penalties(texts: Texts, v: Value): Parsed<map<Severity, real>> {
    var raw :- Mapping(v);
    if exists k :: k in raw && (!k.Level? || Number(texts, raw[k]).Invalid?) then Invalid(NotAMember)
    else Read(map s | s in SEVERITIES && Level(s) in raw :: Number(texts, raw[Level(s)]).Extract())
  }

  const DEFAULT_WEIGHTS: map<Key, real> := map[
    Standard(Geometry) := 0.35, Standard(Topology) := 0.35, Standard(Network) := 0.2,
    Standard(Attribute) := 0.05, Standard(Metadata) := 0.05]

  const DEFAULT_PENALTIES: map<Severity, real> := map[Info := 1.0, Warning := 5.0, Error := 10.0, Critical := 25.0]

  const SCORING_KEYS: set<Key> := {CategoryWeightsKey, SeverityPenaltiesKey, CategoryCapsKey, RepeatedFeatureCapKey}

  // Without caps of its own, every category is capped at 80.
  function WithCaps(weights: map<Key, real>, caps: map<Key, real>): map<Key, real> {
    if caps == map[] then map k | k in weights :: 80.0 else caps
  }

  function ParseScoring(texts: Texts, raw: Fields): Parsed<Scoring> {
    var weights :- if Get(raw, CategoryWeightsKey, Null).Null? then Read(DEFAULT_WEIGHTS)
                   else Numbers(texts, raw[CategoryWeightsKey]);
    var penalties :- if Get(raw, SeverityPenaltiesKey, Null).Null? then Read(DEFAULT_PENALTIES)
                     else Penalties(texts, raw[SeverityPenaltiesKey]);
    var caps :- if CategoryCapsKey in raw then Numbers(texts, raw[CategoryCapsKey]) else Read(map[]);
    var repeated :- Number(texts, Get(raw, RepeatedFeatureCapKey, Real(30.0)));
    var scoring := Scoring(weights, penalties, WithCaps(weights, caps), repeated);
    if ValidScoring(scoring) then Read(scoring) else Invalid(BadScoring)
  }

  const GATE_KEYS: set<Key> := {MinimumScoreKey, FailOnKey, AllowUnknownCrsKey}

  function ParseGate(texts: Texts, raw: Fields): Parsed<Gate> {
    var minimum :- Number(texts, Get(raw, MinimumScoreKey, Real(75.0)));
    var failOn :- ToSeverity(texts.str(Get(raw, FailOnKey, Text(OfSeverity(Error)))));
    var allow :- Boolean(Get(raw, AllowUnknownCrsKey, Bool(false)));
    var gate := Gate(minimum, failOn, allow);
    if ValidGate(gate) then Read(gate) else Invalid(BadGate)
  }

  const CRS_KEYS: set<Key> := {RequiredKey, RequireProjectedKey, AllowedKey}

  function ParseCrs(texts: Texts, raw: Fields): Parsed<Crs> {
    var required :- Boolean(Get(raw, RequiredKey, Bool(true)));
    var projected :- Boolean(Get(raw, RequireProjectedKey, Bool(false)));
    var allowed :- Words(texts, Get(raw, AllowedKey, Array([])));
    Read(Crs(required, projected, allowed))
  }

  function ParseOverrides(texts: Texts, v: Value): Parsed<map<Key, Severity>> {
    var raw :- Mapping(v);
    if exists k :: k in raw && ToSeverity(texts.str(raw[k])).Invalid? then Invalid(NotAMember)
    else Read(map k | k in raw :: ToSeverity(texts.str(raw[k])).Extract())
  }

  function ParsePreset(texts: Texts, v: Value): Parsed<Option<Preset>> {
    if v.Null? then Read(None)
    else
      var word := texts.str(v);
      if word.OfPreset? then Read(Some(word.preset)) else Invalid(NotAMember)
  }

  const DEFAULT_CHECKS: Value := Array([
    Text(OfCheck(GeometryCheck)), Text(OfCheck(CrsCheck)), Text(OfCheck(AttributesCheck)), Text(OfCheck(TopologyCheck)),
    Text(OfCheck(SpatialCheck))])

  const ROOT_KEYS: set<Key> := {
    NameKey, IdColumnKey, VersionKey, PresetKey, ToleranceKey, MinimumAreaKey, EnabledChecksKey,
    ExpectedGeometryTypesKey, CrsKey, TopologyRulesKey, AttributeRulesKey, AttributeSchemaKey, SeverityOverridesKey,
    ScoringKey, QualityGateKey}

  function Section(raw: Fields, key: Key, allowed: set<Key>): Parsed<Fields> {
    var section :- Mapping(Get(raw, key, Object(map[])));
    RejectUnknown(section, allowed)
  }

  function Rules<T>(raw: Value, parse: Value -> Parsed<T>): Parsed<seq<T>> {
    var items :- Sequence(raw);
    All(items, parse)
  }

  function ParseRules(texts: Texts, raw: Value): Parsed<seq<TopologyRule>> {
    Rules(raw, v => ParseRule(texts, v))
  }

  function ParseAttributeRules(texts: Texts, raw: Value): Parsed<seq<AttributeRule>> {
    Rules(raw, v => ParseAttributeRule(texts, v))
  }

  // The attribute rules may come under either of two names.
  function Schema(raw: Fields): Value {
    Get(raw, AttributeSchemaKey, Get(raw, AttributeRulesKey, Array([])))
  }

  // The fields outside the three sections and the two rule lists.
  datatype Head = Head(
    name: Word, version: int, preset: Option<Preset>, tolerance: real, minimumArea: real, idColumn: Option<Word>,
    enabledChecks: seq<Word>, expectedGeometryTypes: seq<Word>)

  function ParseHead(texts: Texts, raw: Fields): Parsed<Head> {
    var version :- Integer(texts, Get(raw, VersionKey, Int(1)));
    var preset :- ParsePreset(texts, Get(raw, PresetKey, Null));
    var tolerance :- Number(texts, Get(raw, ToleranceKey, Real(0.0)));
    var minimumArea :- Number(texts, Get(raw, MinimumAreaKey, Real(0.0)));
    var checks :- Words(texts, Get(raw, EnabledChecksKey, DEFAULT_CHECKS));
    var types :- Words(texts, Get(raw, ExpectedGeometryTypesKey, Array([])));
    Read(Head(texts.strip(texts.str(Get(raw, NameKey, Text(EMPTY)))), version, preset, tolerance, minimumArea,
            OptionalWord(texts, Get(raw, IdColumnKey, Null)), checks, types))
  }

  // What is left once the sections are known and the scoring is read.
  function ParseBody(texts: Texts, raw: Fields, crsRaw: Fields, gateRaw: Fields, scoring: Scoring): Parsed<Profile> {
    var head :- ParseHead(texts, raw);
    var crs :- ParseCrs(texts, crsRaw);
    var rules :- ParseRules(texts, Get(raw, TopologyRulesKey, Array([])));
    var attributes :- ParseAttributeRules(texts, Schema(raw));
    var overrides :- ParseOverrides(texts, Get(raw, SeverityOverridesKey, Object(map[])));
    var gate :- ParseGate(texts, gateRaw);
    var profile := Profile(
      head.name, head.version, head.preset, head.tolerance, head.minimumArea, crs, head.idColumn,
      head.enabledChecks, head.expectedGeometryTypes, rules, attributes, overrides, scoring, gate);
    if ValidHead(texts, profile) then Read(profile) else Invalid(BadProfile)
  }

  function Parse(texts: Texts, raw: Fields): Parsed<Profile> {
    var _ :- RejectUnknown(raw, ROOT_KEYS);
    var crsRaw :- Section(raw, CrsKey, CRS_KEYS);
    var scoringRaw :- Section(raw, ScoringKey, SCORING_KEYS);
    var gateRaw :- Section(raw, QualityGateKey, GATE_KEYS);
    var scoring :- ParseScoring(texts, scoringRaw);
    if AttributeSchemaKey in raw && AttributeRulesKey in raw then Invalid(BothSchemas)
    else ParseBody(texts, raw, crsRaw, gateRaw, scoring)
  }

  // ---- the printer ---------------------------------------------------------------------------------

  function PrintWord(w: Option<Word>): Value {
    if w.Some? then Text(w.value) else Null
  }

  function PrintNumber(n: Option<real>): Value {
    if n.Some? then Real(n.value) else Null
  }

  function PrintWords(words: seq<Word>): Value {
    Array(seq(|words|, i requires 0 <= i < |words| => Text(words[i])))
  }

  function PrintNumbers(numbers: map<Key, real>): Value {
    Object(map k | k in numbers :: Real(numbers[k]))
  }

  function PrintPenalties(penalties: map<Severity, real>): Value {
    Object(map s | s in penalties :: Level(s) := Real(penalties[s]))
  }

  function PrintRule(r: TopologyRule): Value {
    Object(map[
      TypeKey := Text(OfRule(r.kind)), LayerKey := Text(r.layer), ReferenceLayerKey := PrintWord(r.referenceLayer),
      ToleranceKey := Real(r.tolerance), MinimumAreaKey := Real(r.minimumArea),
      MinimumLengthKey := Real(r.minimumLength),
      MinimumDistanceKey := Real(r.minimumDistance), MinimumAngleKey := Real(r.minimumAngle),
      AllowedGeometryTypesKey := PrintWords(r.allowedGeometryTypes), PrecisionGridSizeKey := Real(r.precisionGridSize),
      AttributeColumnKey := PrintWord(r.attributeColumn), OverlapPolicyKey := Text(OfPolicy(r.overlapPolicy)),
      SeverityKey := Text(OfSeverity(r.severity))])
  }

  function PrintAttributeRule(r: AttributeRule): Value {
    Object(map[
      TypeKey := Text(OfAttribute(r.kind)), ColumnKey := Text(r.column), SeverityKey := Text(OfSeverity(r.severity)),
      AllowedValuesKey := Array(r.allowedValues), MinimumKey := PrintNumber(r.minimum),
      MaximumKey := PrintNumber(r.maximum)])
  }

  function PrintRules(rules: seq<TopologyRule>): Value {
    Array(seq(|rules|, i requires 0 <= i < |rules| => PrintRule(rules[i])))
  }

  function PrintAttributeRules(rules: seq<AttributeRule>): Value {
    Array(seq(|rules|, i requires 0 <= i < |rules| => PrintAttributeRule(rules[i])))
  }

  function PrintScoring(s: Scoring): Fields {
    map[CategoryWeightsKey := PrintNumbers(s.weights), SeverityPenaltiesKey := PrintPenalties(s.penalties),
        CategoryCapsKey := PrintNumbers(s.caps), RepeatedFeatureCapKey := Real(s.repeatedFeatureCap)]
  }

  function PrintGate(g: Gate): Fields {
    map[MinimumScoreKey := Real(g.minimumScore), FailOnKey := Text(OfSeverity(g.failOn)),
        AllowUnknownCrsKey := Bool(g.allowUnknownCrs)]
  }

  function PrintCrs(c: Crs): Fields {
    map[RequiredKey := Bool(c.required), RequireProjectedKey := Bool(c.requireProjected),
        AllowedKey := PrintWords(c.allowed)]
  }

  function PrintOverrides(overrides: map<Key, Severity>): Value {
    Object(map k | k in overrides :: Text(OfSeverity(overrides[k])))
  }

  function PrintPreset(preset: Option<Preset>): Value {
    if preset.Some? then Text(OfPreset(preset.value)) else Null
  }

  function PrintHead(p: Profile): Fields {
    map[
      NameKey := Text(p.name), VersionKey := Int(p.version), IdColumnKey := PrintWord(p.idColumn),
      EnabledChecksKey := PrintWords(p.enabledChecks), ExpectedGeometryTypesKey := PrintWords(p.expectedGeometryTypes),
      PresetKey := PrintPreset(p.preset), ToleranceKey := Real(p.tolerance), MinimumAreaKey := Real(p.minimumArea)]
  }

  function PrintSections(p: Profile): Fields {
    map[
      CrsKey := Object(PrintCrs(p.crs)), TopologyRulesKey := PrintRules(p.topologyRules),
      AttributeSchemaKey := PrintAttributeRules(p.attributeRules), ScoringKey := Object(PrintScoring(p.scoring)),
      SeverityOverridesKey := PrintOverrides(p.overrides), QualityGateKey := Object(PrintGate(p.gate))]
  }

  function Print(p: Profile): Fields {
    PrintHead(p) + PrintSections(p)
  }
}
