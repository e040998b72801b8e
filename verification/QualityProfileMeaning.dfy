// What a profile mapping means, field by field, and when a profile can be constructed: the
// reference the parser is measured against.
module QualityProfileMeaning {
  import opened Common
  import opened QualityProfiles

  // ---- single fields ---------------------------------------------------------------------

  ghost predicate IsNumber(texts: Texts, v: Value, n: real) {
    || (v.Int? && n == v.whole as real)
    || (v.Real? && n == v.number)
    || (v.Text? && texts.float(v.word) == Some(n))
  }

  ghost predicate NumberField(texts: Texts, raw: Fields, key: Key, default: real, n: real) {
    if key in raw then IsNumber(texts, raw[key], n) else n == default
  }

  ghost predicate MaybeNumberField(texts: Texts, raw: Fields, key: Key, n: Option<real>) {
    if key in raw && raw[key] != Null then n.Some? && IsNumber(texts, raw[key], n.value) else n == None
  }

  ghost predicate WordField(texts: Texts, raw: Fields, key: Key, default: Word, w: Word) {
    w == if key in raw then texts.str(raw[key]) else default
  }

  ghost predicate MaybeWordField(texts: Texts, raw: Fields, key: Key, w: Option<Word>) {
    w == if key in raw && raw[key] != Null then Some(texts.str(raw[key])) else None
  }

  ghost predicate BoolField(raw: Fields, key: Key, default: bool, b: bool) {
    if key in raw then raw[key] == Bool(b) else b == default
  }

  ghost predicate AreWords(texts: Texts, v: Value, ws: seq<Word>) {
    v.Array? && |ws| == |v.items| && forall i :: 0 <= i < |ws| ==> ws[i] == texts.str(v.items[i])
  }

  ghost predicate WordsField(texts: Texts, raw: Fields, key: Key, default: seq<Word>, ws: seq<Word>) {
    if key in raw then AreWords(texts, raw[key], ws) else ws == default
  }

  // The value is one that counts as nothing.
  ghost predicate IsNothing(v: Value) {
    || v == Null || v == Bool(false) || v == Int(0) || v == Real(0.0) || v == Text(EMPTY) || v == Array([])
    || v == Object(map[])
  }

  ghost predicate SomethingField(texts: Texts, raw: Fields, key: Key, w: Option<Word>) {
    w == if key in raw && !IsNothing(raw[key]) then Some(texts.str(raw[key])) else None
  }

  lemma {:induction false} NumberMeans(texts: Texts, v: Value, n: real)
    ensures Number(texts, v) == Read(n) <==> IsNumber(texts, v, n)
  {
  }

  lemma {:induction false} NumberFieldMeans(texts: Texts, raw: Fields, key: Key, default: real, n: real)
    ensures Number(texts, Get(raw, key, Real(default))) == Read(n) <==> NumberField(texts, raw, key, default, n)
  {
  }

  lemma {:induction false} MaybeNumberFieldMeans(texts: Texts, raw: Fields, key: Key, n: Option<real>)
    ensures OptionalNumber(texts, Get(raw, key, Null)) == Read(n) <==> MaybeNumberField(texts, raw, key, n)
  {
  }

  lemma {:induction false} WordFieldMeans(texts: Texts, raw: Fields, key: Key, default: Word, w: Word)
    requires texts.Valid()
    ensures texts.str(Get(raw, key, Text(default))) == w <==> WordField(texts, raw, key, default, w)
  {
  }

  lemma {:induction false} WordsMean(texts: Texts, v: Value, ws: seq<Word>)
    ensures Words(texts, v) == Read(ws) <==> AreWords(texts, v, ws)
  {
    if AreWords(texts, v, ws) {
      assert ws == seq(|v.items|, i requires 0 <= i < |v.items| => texts.str(v.items[i]));
    }
  }

  lemma {:induction false} WordsFieldMeans(texts: Texts, raw: Fields, key: Key, ws: seq<Word>)
    ensures Words(texts, Get(raw, key, Array([]))) == Read(ws) <==> WordsField(texts, raw, key, [], ws)
  {
    WordsMean(texts, Get(raw, key, Array([])), ws);
  }

  lemma {:induction false} SomethingFieldMeans(texts: Texts, raw: Fields, key: Key, w: Option<Word>)
    ensures var v := Get(raw, key, Null);
      (if Truthy(v) then Some(texts.str(v)) else None) == w <==> SomethingField(texts, raw, key, w)
  {
  }

  // ---- topology rules ----------------------------------------------------------------------

  ghost predicate RuleNumbers(texts: Texts, raw: Fields, r: TopologyRule) {
    && NumberField(texts, raw, ToleranceKey, 0.0, r.tolerance)
    && NumberField(texts, raw, MinimumAreaKey, 0.0, r.minimumArea)
    && NumberField(texts, raw, MinimumLengthKey, 0.0, r.minimumLength)
    && NumberField(texts, raw, MinimumDistanceKey, 0.0, r.minimumDistance)
    && NumberField(texts, raw, MinimumAngleKey, 0.0, r.minimumAngle)
    && NumberField(texts, raw, PrecisionGridSizeKey, 0.0, r.precisionGridSize)
  }

  ghost predicate RuleTexts(texts: Texts, raw: Fields, r: TopologyRule) {
    && WordField(texts, raw, TypeKey, EMPTY, OfRule(r.kind))
    && WordField(texts, raw, LayerKey, EMPTY, r.layer)
    && SomethingField(texts, raw, ReferenceLayerKey, r.referenceLayer)
    && WordsField(texts, raw, AllowedGeometryTypesKey, [], r.allowedGeometryTypes)
    && MaybeWordField(texts, raw, AttributeColumnKey, r.attributeColumn)
    && WordField(texts, raw, OverlapPolicyKey, OfPolicy(DenyAll), OfPolicy(r.overlapPolicy))
    && WordField(texts, raw, SeverityKey, OfSeverity(Error), OfSeverity(r.severity))
  }

  ghost predicate RuleMeans(texts: Texts, v: Value, r: TopologyRule) {
    && v.Object? && RuleNumbers(texts, v.fields, r) && RuleTexts(texts, v.fields, r)
    && forall key :: key in v.fields ==>
         key in {TypeKey, LayerKey, ReferenceLayerKey, ToleranceKey, MinimumAreaKey, MinimumLengthKey,
                 MinimumDistanceKey, MinimumAngleKey, AllowedGeometryTypesKey, PrecisionGridSizeKey,
                 AttributeColumnKey, OverlapPolicyKey, SeverityKey}
  }

  // What a rule of each kind needs.
  ghost predicate HasWhatItNeeds(texts: Texts, r: TopologyRule) {
    match r.kind
    case MustBeInside => r.referenceLayer.Some? && r.referenceLayer.value != EMPTY
    case MustNotIntersect => r.referenceLayer.Some? && r.referenceLayer.value != EMPTY
    case BoundaryMustMatch => r.referenceLayer.Some? && r.referenceLayer.value != EMPTY
    case MustTouch => r.referenceLayer.Some? && r.referenceLayer.value != EMPTY
    case MustIntersect => r.referenceLayer.Some? && r.referenceLayer.value != EMPTY
    case MustCover => r.referenceLayer.Some? && r.referenceLayer.value != EMPTY
    case AllowedGeometryType => |r.allowedGeometryTypes| > 0
    case NoSpikes => r.minimumAngle > 0.0
    case MinimumSegmentLength => r.minimumLength > 0.0
    case MinimumVertexDistance => r.minimumDistance > 0.0
    case PrecisionGrid => r.precisionGridSize > 0.0
    case AttributeOverlap => r.attributeColumn.Some? && texts.strip(r.attributeColumn.value) != EMPTY
    case _ => true
  }

  ghost predicate NoneNegative(numbers: seq<real>) {
    forall i :: 0 <= i < |numbers| ==> numbers[i] >= 0.0
  }

  lemma {:induction false} SixNonNegative(a: real, b: real, c: real, d: real, e: real, f: real)
    ensures NoneNegative([a, b, c, d, e, f]) <==>
      a >= 0.0 && b >= 0.0 && c >= 0.0 && d >= 0.0 && e >= 0.0 && f >= 0.0
  {
    var all := [a, b, c, d, e, f];
    if NoneNegative(all) {
      assert all[0] >= 0.0 && all[1] >= 0.0 && all[2] >= 0.0 && all[3] >= 0.0 && all[4] >= 0.0 && all[5] >= 0.0;
    }
  }

  ghost predicate RuleStands(texts: Texts, r: TopologyRule) {
    && texts.strip(r.layer) != EMPTY && HasWhatItNeeds(texts, r) && r.minimumAngle <= 180.0
    && NoneNegative([r.tolerance, r.minimumArea, r.minimumLength, r.minimumDistance, r.minimumAngle,
                     r.precisionGridSize])
  }

  lemma {:induction false} RuleIsValid(texts: Texts, r: TopologyRule)
    ensures ValidRule(texts, r) <==> RuleStands(texts, r)
  {
    SixNonNegative(r.tolerance, r.minimumArea, r.minimumLength, r.minimumDistance, r.minimumAngle, r.precisionGridSize);
  }

  // The fields as the parser reads them.
  ghost predicate RuleNumbersRead(texts: Texts, raw: Fields, r: TopologyRule) {
    && Number(texts, Get(raw, ToleranceKey, Real(0.0))) == Read(r.tolerance)
    && Number(texts, Get(raw, MinimumAreaKey, Real(0.0))) == Read(r.minimumArea)
    && Number(texts, Get(raw, MinimumLengthKey, Real(0.0))) == Read(r.minimumLength)
    && Number(texts, Get(raw, MinimumDistanceKey, Real(0.0))) == Read(r.minimumDistance)
    && Number(texts, Get(raw, MinimumAngleKey, Real(0.0))) == Read(r.minimumAngle)
    && Number(texts, Get(raw, PrecisionGridSizeKey, Real(0.0))) == Read(r.precisionGridSize)
  }

  ghost predicate RuleTextsRead(texts: Texts, raw: Fields, r: TopologyRule) {
    var reference := Get(raw, ReferenceLayerKey, Null);
    && texts.str(Get(raw, TypeKey, Text(EMPTY))) == OfRule(r.kind)
    && texts.str(Get(raw, LayerKey, Text(EMPTY))) == r.layer
    && (if Truthy(reference) then Some(texts.str(reference)) else None) == r.referenceLayer
    && Words(texts, Get(raw, AllowedGeometryTypesKey, Array([]))) == Read(r.allowedGeometryTypes)
    && OptionalWord(texts, Get(raw, AttributeColumnKey, Null)) == r.attributeColumn
    && texts.str(Get(raw, OverlapPolicyKey, Text(OfPolicy(DenyAll)))) == OfPolicy(r.overlapPolicy)
    && ToSeverity(texts.str(Get(raw, SeverityKey, Text(OfSeverity(Error))))) == Read(r.severity)
  }

  lemma {:induction false} RuleNumbersMean(texts: Texts, raw: Fields, r: TopologyRule)
    ensures RuleNumbers(texts, raw, r) <==> RuleNumbersRead(texts, raw, r)
  {
    NumberFieldMeans(texts, raw, ToleranceKey, 0.0, r.tolerance);
    NumberFieldMeans(texts, raw, MinimumAreaKey, 0.0, r.minimumArea);
    NumberFieldMeans(texts, raw, MinimumLengthKey, 0.0, r.minimumLength);
    NumberFieldMeans(texts, raw, MinimumDistanceKey, 0.0, r.minimumDistance);
    NumberFieldMeans(texts, raw, MinimumAngleKey, 0.0, r.minimumAngle);
    NumberFieldMeans(texts, raw, PrecisionGridSizeKey, 0.0, r.precisionGridSize);
  }

  lemma {:induction false} RuleTextsMean(texts: Texts, raw: Fields, r: TopologyRule)
    requires texts.Valid()
    ensures RuleTexts(texts, raw, r) <==> RuleTextsRead(texts, raw, r)
  {
    WordFieldMeans(texts, raw, TypeKey, EMPTY, OfRule(r.kind));
    WordFieldMeans(texts, raw, LayerKey, EMPTY, r.layer);
    SomethingFieldMeans(texts, raw, ReferenceLayerKey, r.referenceLayer);
    WordsFieldMeans(texts, raw, AllowedGeometryTypesKey, r.allowedGeometryTypes);
    WordFieldMeans(texts, raw, OverlapPolicyKey, OfPolicy(DenyAll), OfPolicy(r.overlapPolicy));
    WordFieldMeans(texts, raw, SeverityKey, OfSeverity(Error), OfSeverity(r.severity));
  }

  lemma {:induction false} RuleReadsParts(texts: Texts, raw: Fields, r: TopologyRule)
    ensures ParseRule(texts, Object(raw)) == Read(r) <==>
      raw.Keys <= RULE_KEYS && RuleNumbersRead(texts, raw, r) && RuleTextsRead(texts, raw, r) && ValidRule(texts, r)
  {
  }

  lemma {:induction false} RuleMeansParts(texts: Texts, raw: Fields, r: TopologyRule)
    requires texts.Valid()
    ensures RuleMeans(texts, Object(raw), r) && RuleStands(texts, r) <==>
      raw.Keys <= RULE_KEYS && RuleNumbersRead(texts, raw, r) && RuleTextsRead(texts, raw, r) && ValidRule(texts, r)
  {
    RuleNumbersMean(texts, raw, r);
    RuleTextsMean(texts, raw, r);
    RuleIsValid(texts, r);
    assert raw.Keys <= RULE_KEYS <==> forall key :: key in raw ==> key in RULE_KEYS;
  }

  // The parser reads a rule exactly from the mappings that mean one that can be constructed.
  lemma {:induction false} RuleParses(texts: Texts, v: Value, r: TopologyRule)
    requires texts.Valid()
    ensures ParseRule(texts, v) == Read(r) <==> RuleMeans(texts, v, r) && RuleStands(texts, r)
  {
    if v.Object? {
      RuleReadsParts(texts, v.fields, r);
      RuleMeansParts(texts, v.fields, r);
    }
  }

  // ---- attribute rules ----------------------------------------------------------------------

  ghost predicate AttributeFields(texts: Texts, raw: Fields, r: AttributeRule) {
    && WordField(texts, raw, TypeKey, EMPTY, OfAttribute(r.kind))
    && WordField(texts, raw, ColumnKey, EMPTY, r.column)
    && WordField(texts, raw, SeverityKey, OfSeverity(Error), OfSeverity(r.severity))
    && (if AllowedValuesKey in raw then raw[AllowedValuesKey] == Array(r.allowedValues) else r.allowedValues == [])
    && MaybeNumberField(texts, raw, MinimumKey, r.minimum)
    && MaybeNumberField(texts, raw, MaximumKey, r.maximum)
  }

  ghost predicate AttributeMeans(texts: Texts, v: Value, r: AttributeRule) {
    && v.Object? && AttributeFields(texts, v.fields, r)
    && forall key :: key in v.fields ==>
         key in {TypeKey, ColumnKey, SeverityKey, AllowedValuesKey, MinimumKey, MaximumKey}
  }

  ghost predicate AttributeStands(texts: Texts, r: AttributeRule) {
    && texts.strip(r.column) != EMPTY
    && !(r.minimum.Some? && r.maximum.Some? && r.minimum.value > r.maximum.value)
    && !(r.kind == AllowedValues && r.allowedValues == [])
  }

  lemma {:induction false} AttributeParses(texts: Texts, v: Value, r: AttributeRule)
    requires texts.Valid()
    ensures ParseAttributeRule(texts, v) == Read(r) <==> AttributeMeans(texts, v, r) && AttributeStands(texts, r)
  {
    if v.Object? {
      var raw := v.fields;
      WordFieldMeans(texts, raw, TypeKey, EMPTY, OfAttribute(r.kind));
      WordFieldMeans(texts, raw, ColumnKey, EMPTY, r.column);
      WordFieldMeans(texts, raw, SeverityKey, OfSeverity(Error), OfSeverity(r.severity));
      MaybeNumberFieldMeans(texts, raw, MinimumKey, r.minimum);
      MaybeNumberFieldMeans(texts, raw, MaximumKey, r.maximum);
      assert raw.Keys <= ATTRIBUTE_KEYS <==> forall key :: key in raw ==> key in ATTRIBUTE_KEYS;
    }
  }

  // ---- scoring ---------------------------------------------------------------------------------

  ghost predicate AreNumbers(texts: Texts, v: Value, m: map<Key, real>) {
    v.Object? && m.Keys == v.fields.Keys && forall key :: key in m ==> IsNumber(texts, v.fields[key], m[key])
  }

  lemma {:induction false} NumbersMean(texts: Texts, v: Value, m: map<Key, real>)
    ensures Numbers(texts, v) == Read(m) <==> AreNumbers(texts, v, m)
  {
    if v.Object? {
      forall key | key in v.fields ensures forall n :: Number(texts, v.fields[key]) == Read(n) <==>
        IsNumber(texts, v.fields[key], n) {
      }
      var parsed := Numbers(texts, v);
      if AreNumbers(texts, v, m) {
        forall key | key in v.fields ensures Number(texts, v.fields[key]) == Read(m[key]) {
          NumberMeans(texts, v.fields[key], m[key]);
        }
        assert parsed.Read? && parsed.value == m;
      }
    }
  }

  ghost predicate ArePenalties(texts: Texts, v: Value, m: map<Severity, real>) {
    && v.Object? && (forall key :: key in v.fields ==> key.Level? && key.severity in m)
    && forall s :: s in m ==> Level(s) in v.fields && IsNumber(texts, v.fields[Level(s)], m[s])
  }

  lemma {:induction false} EverySeverity()
    ensures forall s: Severity :: s in SEVERITIES
  {
    forall s: Severity ensures s in SEVERITIES {
      match s {
        case Info =>
        case Warning =>
        case Error =>
        case Critical =>
      }
    }
  }

  lemma {:induction false} PenaltiesMean(texts: Texts, v: Value, m: map<Severity, real>)
    ensures Penalties(texts, v) == Read(m) <==> ArePenalties(texts, v, m)
  {
    if v.Object? {
      var parsed := Penalties(texts, v);
      EverySeverity();
      if ArePenalties(texts, v, m) {
        forall key | key in v.fields ensures key.Level? && Number(texts, v.fields[key]) == Read(m[key.severity]) {
          assert key == Level(key.severity);
          NumberMeans(texts, v.fields[key], m[key.severity]);
        }
        assert parsed.Read?;
        forall s | s in m || s in parsed.value ensures s in m && s in parsed.value && m[s] == parsed.value[s] {
          assert Level(s) in v.fields;
        }
        assert parsed.value == m;
      }
      if parsed == Read(m) {
        forall key | key in v.fields ensures key.Level? && key.severity in m {
        }
      }
    }
  }

  ghost predicate WeightsField(texts: Texts, raw: Fields, m: map<Key, real>) {
    if CategoryWeightsKey in raw && raw[CategoryWeightsKey] != Null then AreNumbers(texts, raw[CategoryWeightsKey], m)
    else m == map[Standard(Geometry) := 0.35, Standard(Topology) := 0.35, Standard(Network) := 0.2,
                  Standard(Attribute) := 0.05, Standard(Metadata) := 0.05]
  }

  ghost predicate PenaltiesField(texts: Texts, raw: Fields, m: map<Severity, real>) {
    if SeverityPenaltiesKey in raw && raw[SeverityPenaltiesKey] != Null
    then ArePenalties(texts, raw[SeverityPenaltiesKey], m)
    else m == map[Info := 1.0, Warning := 5.0, Error := 10.0, Critical := 25.0]
  }

  // Without caps every category is capped at 80.
  ghost predicate CapsField(texts: Texts, raw: Fields, weights: map<Key, real>, m: map<Key, real>) {
    if CategoryCapsKey in raw && raw[CategoryCapsKey] != Object(map[]) then AreNumbers(texts, raw[CategoryCapsKey], m)
    else m.Keys == weights.Keys && forall key :: key in m ==> m[key] == 80.0
  }

  ghost predicate ScoringMeans(texts: Texts, raw: Fields, s: Scoring) {
    && WeightsField(texts, raw, s.weights) && PenaltiesField(texts, raw, s.penalties)
    && CapsField(texts, raw, s.weights, s.caps)
    && NumberField(texts, raw, RepeatedFeatureCapKey, 30.0, s.repeatedFeatureCap)
  }

  ghost predicate ScoringStands(s: Scoring) {
    && (forall key :: key in s.weights ==> s.weights[key] >= 0.0)
    && (exists key :: key in s.weights && s.weights[key] > 0.0)
    && (forall severity: Severity :: severity in s.penalties && s.penalties[severity] >= 0.0)
    && (forall key :: key in s.caps <==> key in s.weights)
    && (forall key :: key in s.caps ==> 0.0 <= s.caps[key] <= 100.0)
    && 0.0 <= s.repeatedFeatureCap <= 100.0
  }

  lemma {:induction false} ScoringIsValid(s: Scoring)
    ensures ValidScoring(s) <==> ScoringStands(s)
  {
    EverySeverity();
  }

  lemma {:induction false} CapsMean(texts: Texts, raw: Fields, weights: map<Key, real>, m: map<Key, real>)
    ensures var caps := if CategoryCapsKey in raw then Numbers(texts, raw[CategoryCapsKey]) else Read(map[]);
      (caps.Read? && WithCaps(weights, caps.value) == m) <==> CapsField(texts, raw, weights, m)
  {
    if CategoryCapsKey in raw {
      var v := raw[CategoryCapsKey];
      NumbersMean(texts, v, m);
      NumbersMean(texts, v, map[]);
      assert v.Object? && v.fields.Keys == {} ==> v.fields == map[];
      if Numbers(texts, v).Read? {
        NumbersMean(texts, v, Numbers(texts, v).value);
      }
    }
  }

  lemma {:induction false} WeightsMean(texts: Texts, raw: Fields, m: map<Key, real>)
    ensures var weights := if Get(raw, CategoryWeightsKey, Null).Null? then Read(DEFAULT_WEIGHTS)
                           else Numbers(texts, raw[CategoryWeightsKey]);
      weights == Read(m) <==> WeightsField(texts, raw, m)
  {
    if CategoryWeightsKey in raw {
      NumbersMean(texts, raw[CategoryWeightsKey], m);
    }
  }

  lemma {:induction false} PenaltiesFieldMeans(texts: Texts, raw: Fields, m: map<Severity, real>)
    ensures var penalties := if Get(raw, SeverityPenaltiesKey, Null).Null? then Read(DEFAULT_PENALTIES)
                             else Penalties(texts, raw[SeverityPenaltiesKey]);
      penalties == Read(m) <==> PenaltiesField(texts, raw, m)
  {
    if SeverityPenaltiesKey in raw {
      PenaltiesMean(texts, raw[SeverityPenaltiesKey], m);
    }
  }

  lemma {:induction false} ScoringParses(texts: Texts, raw: Fields, s: Scoring)
    ensures ParseScoring(texts, raw) == Read(s) <==> ScoringMeans(texts, raw, s) && ScoringStands(s)
  {
    WeightsMean(texts, raw, s.weights);
    PenaltiesFieldMeans(texts, raw, s.penalties);
    CapsMean(texts, raw, s.weights, s.caps);
    NumberFieldMeans(texts, raw, RepeatedFeatureCapKey, 30.0, s.repeatedFeatureCap);
    ScoringIsValid(s);
  }

  // ---- gate and reference system -----------------------------------------------------------------

  ghost predicate GateMeans(texts: Texts, raw: Fields, g: Gate) {
    && NumberField(texts, raw, MinimumScoreKey, 75.0, g.minimumScore)
    && WordField(texts, raw, FailOnKey, OfSeverity(Error), OfSeverity(g.failOn))
    && BoolField(raw, AllowUnknownCrsKey, false, g.allowUnknownCrs)
  }

  lemma {:induction false} GateParses(texts: Texts, raw: Fields, g: Gate)
    requires texts.Valid()
    ensures ParseGate(texts, raw) == Read(g) <==> GateMeans(texts, raw, g) && 0.0 <= g.minimumScore <= 100.0
  {
    NumberFieldMeans(texts, raw, MinimumScoreKey, 75.0, g.minimumScore);
    WordFieldMeans(texts, raw, FailOnKey, OfSeverity(Error), OfSeverity(g.failOn));
  }

  ghost predicate CrsMeans(texts: Texts, raw: Fields, c: Crs) {
    && BoolField(raw, RequiredKey, true, c.required) && BoolField(raw, RequireProjectedKey, false, c.requireProjected)
    && WordsField(texts, raw, AllowedKey, [], c.allowed)
  }

  lemma {:induction false} CrsParses(texts: Texts, raw: Fields, c: Crs)
    ensures ParseCrs(texts, raw) == Read(c) <==> CrsMeans(texts, raw, c)
  {
    WordsFieldMeans(texts, raw, AllowedKey, c.allowed);
  }

  // ---- the plain fields ------------------------------------------------------------------------

  ghost predicate PresetField(texts: Texts, raw: Fields, preset: Option<Preset>) {
    if PresetKey in raw && raw[PresetKey] != Null
    then preset.Some? && texts.str(raw[PresetKey]) == OfPreset(preset.value) else preset == None
  }

  ghost predicate VersionField(texts: Texts, raw: Fields, version: int) {
    if VersionKey in raw then IsNumber(texts, raw[VersionKey], version as real) else version == 1
  }

  ghost predicate HeadMeans(texts: Texts, raw: Fields, h: Head) {
    && h.name == texts.strip(if NameKey in raw then texts.str(raw[NameKey]) else EMPTY)
    && VersionField(texts, raw, h.version)
    && PresetField(texts, raw, h.preset)
    && NumberField(texts, raw, ToleranceKey, 0.0, h.tolerance)
    && NumberField(texts, raw, MinimumAreaKey, 0.0, h.minimumArea)
    && MaybeWordField(texts, raw, IdColumnKey, h.idColumn)
    && WordsField(texts, raw, EnabledChecksKey,
                  [OfCheck(GeometryCheck), OfCheck(CrsCheck), OfCheck(AttributesCheck), OfCheck(TopologyCheck),
                   OfCheck(SpatialCheck)], h.enabledChecks)
    && WordsField(texts, raw, ExpectedGeometryTypesKey, [], h.expectedGeometryTypes)
  }

  lemma {:induction false} VersionMeans(texts: Texts, raw: Fields, version: int)
    ensures Integer(texts, Get(raw, VersionKey, Int(1))) == Read(version) <==> VersionField(texts, raw, version)
  {
    var v := Get(raw, VersionKey, Int(1));
    NumberMeans(texts, v, version as real);
    assert (version as real).Floor == version;
  }

  lemma {:induction false} ChecksMean(texts: Texts, raw: Fields, ws: seq<Word>)
    requires texts.Valid()
    ensures Words(texts, Get(raw, EnabledChecksKey, DEFAULT_CHECKS)) == Read(ws) <==>
      WordsField(texts, raw, EnabledChecksKey,
                 [OfCheck(GeometryCheck), OfCheck(CrsCheck), OfCheck(AttributesCheck), OfCheck(TopologyCheck),
                  OfCheck(SpatialCheck)], ws)
  {
    var checks := [OfCheck(GeometryCheck), OfCheck(CrsCheck), OfCheck(AttributesCheck), OfCheck(TopologyCheck),
                   OfCheck(SpatialCheck)];
    WordsMean(texts, Get(raw, EnabledChecksKey, DEFAULT_CHECKS), ws);
    WordsMean(texts, DEFAULT_CHECKS, checks);
  }

  lemma {:induction false} HeadParses(texts: Texts, raw: Fields, h: Head)
    requires texts.Valid()
    ensures ParseHead(texts, raw) == Read(h) <==> HeadMeans(texts, raw, h)
  {
    VersionMeans(texts, raw, h.version);
    NumberFieldMeans(texts, raw, ToleranceKey, 0.0, h.tolerance);
    NumberFieldMeans(texts, raw, MinimumAreaKey, 0.0, h.minimumArea);
    ChecksMean(texts, raw, h.enabledChecks);
    WordsFieldMeans(texts, raw, ExpectedGeometryTypesKey, h.expectedGeometryTypes);
  }

  // ---- lists and overrides -----------------------------------------------------------------------

  ghost predicate AreRules(texts: Texts, v: Value, rules: seq<TopologyRule>) {
    && v.Array? && |rules| == |v.items|
    && forall i :: 0 <= i < |rules| ==> RuleMeans(texts, v.items[i], rules[i]) && RuleStands(texts, rules[i])
  }

  ghost predicate AreAttributeRules(texts: Texts, v: Value, rules: seq<AttributeRule>) {
    && v.Array? && |rules| == |v.items|
    && forall i :: 0 <= i < |rules| ==> AttributeMeans(texts, v.items[i], rules[i]) && AttributeStands(texts, rules[i])
  }

  ghost predicate RulesField(texts: Texts, raw: Fields, rules: seq<TopologyRule>) {
    if TopologyRulesKey in raw then AreRules(texts, raw[TopologyRulesKey], rules) else rules == []
  }

  // The attribute rules may come under either name, but not under both.
  ghost predicate AttributesField(texts: Texts, raw: Fields, rules: seq<AttributeRule>) {
    && !(AttributeSchemaKey in raw && AttributeRulesKey in raw)
    && (AttributeSchemaKey in raw ==> AreAttributeRules(texts, raw[AttributeSchemaKey], rules))
    && (AttributeRulesKey in raw ==> AreAttributeRules(texts, raw[AttributeRulesKey], rules))
    && (AttributeSchemaKey !in raw && AttributeRulesKey !in raw ==> rules == [])
  }

  lemma {:induction false} AllMean<T(!new)>(items: seq<Value>, parse: Value -> Parsed<T>, parts: seq<T>)
    ensures All(items, parse) == Read(parts) <==>
      |parts| == |items| && forall i :: 0 <= i < |parts| ==> parse(items[i]) == Read(parts[i])
  {
    var parsed := All(items, parse);
    if |parts| == |items| && forall i :: 0 <= i < |parts| ==> parse(items[i]) == Read(parts[i]) {
      assert parsed.Read?;
      assert parsed.value == parts;
    }
  }

  lemma {:induction false} RulesParse(texts: Texts, v: Value, rules: seq<TopologyRule>)
    requires texts.Valid()
    ensures ParseRules(texts, v) == Read(rules) <==> AreRules(texts, v, rules)
  {
    if v.Array? {
      AllMean(v.items, u => ParseRule(texts, u), rules);
      forall i | 0 <= i < |rules| && i < |v.items|
        ensures ParseRule(texts, v.items[i]) == Read(rules[i]) <==>
          RuleMeans(texts, v.items[i], rules[i]) && RuleStands(texts, rules[i])
      {
        RuleParses(texts, v.items[i], rules[i]);
      }
    }
  }

  lemma {:induction false} AttributesParse(texts: Texts, v: Value, rules: seq<AttributeRule>)
    requires texts.Valid()
    ensures ParseAttributeRules(texts, v) == Read(rules) <==> AreAttributeRules(texts, v, rules)
  {
    if v.Array? {
      AllMean(v.items, u => ParseAttributeRule(texts, u), rules);
      forall i | 0 <= i < |rules| && i < |v.items|
        ensures ParseAttributeRule(texts, v.items[i]) == Read(rules[i]) <==>
          AttributeMeans(texts, v.items[i], rules[i]) && AttributeStands(texts, rules[i])
      {
        AttributeParses(texts, v.items[i], rules[i]);
      }
    }
  }

  lemma {:induction false} RulesFieldParses(texts: Texts, raw: Fields, rules: seq<TopologyRule>)
    requires texts.Valid()
    ensures ParseRules(texts, Get(raw, TopologyRulesKey, Array([]))) == Read(rules) <==> RulesField(texts, raw, rules)
  {
    RulesParse(texts, Get(raw, TopologyRulesKey, Array([])), rules);
  }

  lemma {:induction false} AttributesFieldParses(texts: Texts, raw: Fields, rules: seq<AttributeRule>)
    requires texts.Valid() && !(AttributeSchemaKey in raw && AttributeRulesKey in raw)
    ensures ParseAttributeRules(texts, Schema(raw)) == Read(rules) <==> AttributesField(texts, raw, rules)
  {
    AttributesParse(texts, Schema(raw), rules);
  }

  ghost predicate OverridesField(texts: Texts, raw: Fields, m: map<Key, Severity>) {
    if SeverityOverridesKey in raw
    then raw[SeverityOverridesKey].Object? && m.Keys == raw[SeverityOverridesKey].fields.Keys
         && forall key :: key in m ==> texts.str(raw[SeverityOverridesKey].fields[key]) == OfSeverity(m[key])
    else m == map[]
  }

  lemma {:induction false} OverridesParse(texts: Texts, raw: Fields, m: map<Key, Severity>)
    ensures ParseOverrides(texts, Get(raw, SeverityOverridesKey, Object(map[]))) == Read(m)
       <==> OverridesField(texts, raw, m)
  {
    var v := Get(raw, SeverityOverridesKey, Object(map[]));
    var parsed := ParseOverrides(texts, v);
    if v.Object? && OverridesField(texts, raw, m) {
      assert m.Keys == v.fields.Keys;
      assert parsed.Read?;
      assert parsed.value == m;
    }
  }

  // ---- the whole profile ---------------------------------------------------------------------------

  // A section that is left out is an empty one.
  ghost predicate SectionIs(raw: Fields, key: Key, section: Fields) {
    if key in raw then raw[key] == Object(section) else section == map[]
  }

  ghost predicate OnlyKeys(raw: Fields, allowed: set<Key>) {
    forall key :: key in raw ==> key in allowed
  }

  ghost predicate CrsField(texts: Texts, raw: Fields, c: Crs) {
    exists section :: SectionIs(raw, CrsKey, section) && CrsMeans(texts, section, c)
      && OnlyKeys(section, {RequiredKey, RequireProjectedKey, AllowedKey})
  }

  ghost predicate ScoringField(texts: Texts, raw: Fields, s: Scoring) {
    exists section :: SectionIs(raw, ScoringKey, section) && ScoringMeans(texts, section, s)
      && OnlyKeys(section, {CategoryWeightsKey, SeverityPenaltiesKey, CategoryCapsKey, RepeatedFeatureCapKey})
  }

  ghost predicate GateField(texts: Texts, raw: Fields, g: Gate) {
    exists section :: SectionIs(raw, QualityGateKey, section) && GateMeans(texts, section, g)
      && OnlyKeys(section, {MinimumScoreKey, FailOnKey, AllowUnknownCrsKey})
  }

  ghost function HeadIn(p: Profile): Head {
    Head(p.name, p.version, p.preset, p.tolerance, p.minimumArea, p.idColumn, p.enabledChecks, p.expectedGeometryTypes)
  }

  // The mapping means this profile.
  ghost predicate Means(texts: Texts, raw: Fields, p: Profile) {
    && HeadMeans(texts, raw, HeadIn(p)) && CrsField(texts, raw, p.crs)
    && RulesField(texts, raw, p.topologyRules) && AttributesField(texts, raw, p.attributeRules)
    && OverridesField(texts, raw, p.overrides) && ScoringField(texts, raw, p.scoring) && GateField(texts, raw, p.gate)
    && OnlyKeys(raw, {NameKey, IdColumnKey, VersionKey, PresetKey, ToleranceKey, MinimumAreaKey, EnabledChecksKey,
                      ExpectedGeometryTypesKey, CrsKey, TopologyRulesKey, AttributeRulesKey, AttributeSchemaKey,
                      SeverityOverridesKey, ScoringKey, QualityGateKey})
  }

  // A name, a positive version, no negative number, known checks and at least one, and no blank
  // name of a geometry type.
  ghost predicate HeadStands(texts: Texts, p: Profile) {
    && texts.strip(p.name) != EMPTY && p.version > 0 && !(p.tolerance < 0.0) && !(p.minimumArea < 0.0)
    && !(p.idColumn.Some? && texts.strip(p.idColumn.value) == EMPTY)
    && |p.enabledChecks| > 0 && (forall i :: 0 <= i < |p.enabledChecks| ==> p.enabledChecks[i].OfCheck?)
    && (forall i :: 0 <= i < |p.expectedGeometryTypes| ==> texts.strip(p.expectedGeometryTypes[i]) != EMPTY)
  }

  // The profile can be constructed: its plain fields, its rules, its scoring and its gate are sound.
  ghost predicate Stands(texts: Texts, p: Profile) {
    && HeadStands(texts, p) && ScoringStands(p.scoring) && 0.0 <= p.gate.minimumScore <= 100.0
    && (forall i :: 0 <= i < |p.topologyRules| ==> RuleStands(texts, p.topologyRules[i]))
    && (forall i :: 0 <= i < |p.attributeRules| ==> AttributeStands(texts, p.attributeRules[i]))
  }

  lemma {:induction false} HeadIsValid(texts: Texts, p: Profile)
    ensures ValidHead(texts, p) <==> HeadStands(texts, p)
  {
    assert forall i :: 0 <= i < |p.enabledChecks| ==> p.enabledChecks[i] in p.enabledChecks;
    assert forall i :: 0 <= i < |p.expectedGeometryTypes| ==> p.expectedGeometryTypes[i] in p.expectedGeometryTypes;
  }

  // Which profiles can be constructed.
  lemma {:induction false} ValidExactlyWhen(texts: Texts, p: Profile)
    ensures ValidProfile(texts, p) <==> Stands(texts, p)
  {
    HeadIsValid(texts, p);
    ScoringIsValid(p.scoring);
    forall r ensures ValidRule(texts, r) <==> RuleStands(texts, r) {
      RuleIsValid(texts, r);
    }
    forall r ensures ValidAttributeRule(texts, r) <==> AttributeStands(texts, r) {
    }
    assert forall i :: 0 <= i < |p.topologyRules| ==> p.topologyRules[i] in p.topologyRules;
    assert forall i :: 0 <= i < |p.attributeRules| ==> p.attributeRules[i] in p.attributeRules;
  }

  lemma {:induction false} SectionMeans(raw: Fields, key: Key, allowed: set<Key>, section: Fields)
    ensures Section(raw, key, allowed) == Read(section) <==> SectionIs(raw, key, section) && OnlyKeys(section, allowed)
  {
    var v := Get(raw, key, Object(map[]));
    assert v.Object? ==> (v.fields.Keys <= allowed <==> OnlyKeys(v.fields, allowed));
  }

  lemma {:induction false} CrsSectionParses(texts: Texts, raw: Fields, c: Crs)
    ensures var section := Section(raw, CrsKey, CRS_KEYS);
      (section.Read? && ParseCrs(texts, section.value) == Read(c)) <==> CrsField(texts, raw, c)
  {
    var section := Section(raw, CrsKey, CRS_KEYS);
    if section.Read? {
      SectionMeans(raw, CrsKey, CRS_KEYS, section.value);
      CrsParses(texts, section.value, c);
    }
    if CrsField(texts, raw, c) {
      var fields :| SectionIs(raw, CrsKey, fields) && CrsMeans(texts, fields, c) && OnlyKeys(fields, CRS_KEYS);
      SectionMeans(raw, CrsKey, CRS_KEYS, fields);
    }
  }

  lemma {:induction false} ScoringSectionParses(texts: Texts, raw: Fields, s: Scoring)
    ensures var section := Section(raw, ScoringKey, SCORING_KEYS);
      (section.Read? && ParseScoring(texts, section.value) == Read(s)) <==>
        ScoringField(texts, raw, s) && ScoringStands(s)
  {
    var section := Section(raw, ScoringKey, SCORING_KEYS);
    if section.Read? {
      SectionMeans(raw, ScoringKey, SCORING_KEYS, section.value);
      ScoringParses(texts, section.value, s);
    }
    if ScoringField(texts, raw, s) {
      var fields :| SectionIs(raw, ScoringKey, fields) && ScoringMeans(texts, fields, s)
        && OnlyKeys(fields, SCORING_KEYS);
      SectionMeans(raw, ScoringKey, SCORING_KEYS, fields);
    }
  }

  lemma {:induction false} GateSectionParses(texts: Texts, raw: Fields, g: Gate)
    requires texts.Valid()
    ensures var section := Section(raw, QualityGateKey, GATE_KEYS);
      (section.Read? && ParseGate(texts, section.value) == Read(g)) <==>
        GateField(texts, raw, g) && 0.0 <= g.minimumScore <= 100.0
  {
    var section := Section(raw, QualityGateKey, GATE_KEYS);
    if section.Read? {
      SectionMeans(raw, QualityGateKey, GATE_KEYS, section.value);
      GateParses(texts, section.value, g);
    }
    if GateField(texts, raw, g) {
      var fields :| SectionIs(raw, QualityGateKey, fields) && GateMeans(texts, fields, g)
        && OnlyKeys(fields, GATE_KEYS);
      SectionMeans(raw, QualityGateKey, GATE_KEYS, fields);
    }
  }

  // What is read after the sections are known.
  ghost predicate BodyMeans(texts: Texts, raw: Fields, crsRaw: Fields, gateRaw: Fields, p: Profile) {
    && HeadMeans(texts, raw, HeadIn(p)) && RulesField(texts, raw, p.topologyRules)
    && AttributesField(texts, raw, p.attributeRules) && OverridesField(texts, raw, p.overrides)
    && ParseCrs(texts, crsRaw) == Read(p.crs) && ParseGate(texts, gateRaw) == Read(p.gate)
  }

  // The parts as the parser reads them.
  ghost predicate BodyReads(texts: Texts, raw: Fields, crsRaw: Fields, gateRaw: Fields, p: Profile) {
    && ParseHead(texts, raw) == Read(HeadIn(p))
    && ParseRules(texts, Get(raw, TopologyRulesKey, Array([]))) == Read(p.topologyRules)
    && ParseAttributeRules(texts, Schema(raw)) == Read(p.attributeRules)
    && ParseOverrides(texts, Get(raw, SeverityOverridesKey, Object(map[]))) == Read(p.overrides)
    && ParseCrs(texts, crsRaw) == Read(p.crs) && ParseGate(texts, gateRaw) == Read(p.gate)
  }

  lemma {:induction false} BodyReadsParts(texts: Texts, raw: Fields, crsRaw: Fields, gateRaw: Fields, p: Profile)
    ensures ParseBody(texts, raw, crsRaw, gateRaw, p.scoring) == Read(p) <==>
      BodyReads(texts, raw, crsRaw, gateRaw, p) && ValidHead(texts, p)
  {
  }

  lemma {:induction false} BodyParses(texts: Texts, raw: Fields, crsRaw: Fields, gateRaw: Fields, p: Profile)
    requires texts.Valid() && !(AttributeSchemaKey in raw && AttributeRulesKey in raw)
    ensures ParseBody(texts, raw, crsRaw, gateRaw, p.scoring) == Read(p) <==>
      BodyMeans(texts, raw, crsRaw, gateRaw, p) && HeadStands(texts, p)
  {
    BodyReadsParts(texts, raw, crsRaw, gateRaw, p);
    assert BodyReads(texts, raw, crsRaw, gateRaw, p) <==> BodyMeans(texts, raw, crsRaw, gateRaw, p) by {
      HeadParses(texts, raw, HeadIn(p));
      RulesFieldParses(texts, raw, p.topologyRules);
      AttributesFieldParses(texts, raw, p.attributeRules);
      OverridesParse(texts, raw, p.overrides);
    }
    HeadIsValid(texts, p);
  }

  lemma {:induction false} BodyKeepsScoring(texts: Texts, raw: Fields, crsRaw: Fields, gateRaw: Fields,
                                            scoring: Scoring)
    ensures var parsed := ParseBody(texts, raw, crsRaw, gateRaw, scoring);
      parsed.Read? ==> parsed.value.scoring == scoring
  {
  }

  lemma {:induction false} RulesStand(texts: Texts, raw: Fields, p: Profile)
    requires RulesField(texts, raw, p.topologyRules) && AttributesField(texts, raw, p.attributeRules)
    ensures forall i :: 0 <= i < |p.topologyRules| ==> RuleStands(texts, p.topologyRules[i])
    ensures forall i :: 0 <= i < |p.attributeRules| ==> AttributeStands(texts, p.attributeRules[i])
  {
  }

  lemma {:induction false} RootKeysMean(raw: Fields)
    ensures RejectUnknown(raw, ROOT_KEYS).Read? <==> OnlyKeys(raw, ROOT_KEYS)
  {
  }

  lemma {:induction false} MeantIsParsed(texts: Texts, raw: Fields, p: Profile)
    requires texts.Valid() && Means(texts, raw, p) && Stands(texts, p)
    ensures Parse(texts, raw) == Read(p)
  {
    RootKeysMean(raw);
    CrsSectionParses(texts, raw, p.crs);
    ScoringSectionParses(texts, raw, p.scoring);
    GateSectionParses(texts, raw, p.gate);
    BodyParses(texts, raw, Section(raw, CrsKey, CRS_KEYS).value, Section(raw, QualityGateKey, GATE_KEYS).value, p);
  }

  lemma {:induction false} ParsedIsMeant(texts: Texts, raw: Fields, p: Profile)
    requires texts.Valid() && Parse(texts, raw) == Read(p)
    ensures Means(texts, raw, p) && Stands(texts, p)
  {
    var crsRaw, gateRaw := Section(raw, CrsKey, CRS_KEYS).value, Section(raw, QualityGateKey, GATE_KEYS).value;
    var scoring := ParseScoring(texts, Section(raw, ScoringKey, SCORING_KEYS).value).value;
    RootKeysMean(raw);
    BodyKeepsScoring(texts, raw, crsRaw, gateRaw, scoring);
    BodyParses(texts, raw, crsRaw, gateRaw, p);
    CrsSectionParses(texts, raw, p.crs);
    ScoringSectionParses(texts, raw, p.scoring);
    GateSectionParses(texts, raw, p.gate);
    RulesStand(texts, raw, p);
  }

  // The parser reads a profile exactly from the mappings that mean it, when it can be constructed.
  lemma {:induction false} ParsesExactlyWhen(texts: Texts, raw: Fields, p: Profile)
    requires texts.Valid()
    ensures Parse(texts, raw) == Read(p) <==> Means(texts, raw, p) && Stands(texts, p)
  {
    if Means(texts, raw, p) && Stands(texts, p) {
      MeantIsParsed(texts, raw, p);
    }
    if Parse(texts, raw) == Read(p) {
      ParsedIsMeant(texts, raw, p);
    }
  }

  // ---- nothing but a name ------------------------------------------------------------------------------

  ghost function DefaultScoring(): Scoring {
    Scoring(map[Standard(Geometry) := 0.35, Standard(Topology) := 0.35, Standard(Network) := 0.2,
                Standard(Attribute) := 0.05, Standard(Metadata) := 0.05],
            map[Info := 1.0, Warning := 5.0, Error := 10.0, Critical := 25.0],
            map[Standard(Geometry) := 80.0, Standard(Topology) := 80.0, Standard(Network) := 80.0,
                Standard(Attribute) := 80.0, Standard(Metadata) := 80.0], 30.0)
  }

  ghost function DefaultProfile(name: Word): Profile {
    Profile(name, 1, None, 0.0, 0.0, Crs(true, false, []), None,
            [OfCheck(GeometryCheck), OfCheck(CrsCheck), OfCheck(AttributesCheck), OfCheck(TopologyCheck),
             OfCheck(SpatialCheck)], [], [], [], map[], DefaultScoring(), Gate(75.0, Error, false))
  }

  lemma {:induction false} DefaultScoringStands(texts: Texts)
    ensures ScoringMeans(texts, map[], DefaultScoring()) && ScoringStands(DefaultScoring())
  {
    var s := DefaultScoring();
    assert Standard(Geometry) in s.weights && s.weights[Standard(Geometry)] > 0.0;
    forall severity: Severity ensures severity in s.penalties && s.penalties[severity] >= 0.0 {
      match severity {
        case Info =>
        case Warning =>
        case Error =>
        case Critical =>
      }
    }
  }

  lemma {:induction false} DefaultHeadMeans(texts: Texts, raw: Fields, name: Word)
    requires texts.Valid() && raw == map[NameKey := Text(name)]
    ensures HeadMeans(texts, raw, HeadIn(DefaultProfile(texts.strip(name))))
  {
  }

  lemma {:induction false} EmptySections(texts: Texts, raw: Fields, p: Profile)
    requires CrsKey !in raw && ScoringKey !in raw && QualityGateKey !in raw
    requires CrsMeans(texts, map[], p.crs) && ScoringMeans(texts, map[], p.scoring) && GateMeans(texts, map[], p.gate)
    ensures CrsField(texts, raw, p.crs) && ScoringField(texts, raw, p.scoring) && GateField(texts, raw, p.gate)
  {
    assert SectionIs(raw, CrsKey, map[]) && SectionIs(raw, ScoringKey, map[]) && SectionIs(raw, QualityGateKey, map[]);
  }

  lemma {:induction false} DefaultHeadStands(texts: Texts, name: Word)
    requires texts.strip(name) != EMPTY
    ensures HeadStands(texts, DefaultProfile(name))
  {
  }

  // A mapping that holds nothing but a name means the default profile of that name, stripped.
  lemma {:induction false} NameAloneMeansDefaults(texts: Texts, name: Word)
    requires texts.Valid() && texts.strip(name) != EMPTY
    ensures Parse(texts, map[NameKey := Text(name)]) == Read(DefaultProfile(texts.strip(name)))
  {
    var raw, p := map[NameKey := Text(name)], DefaultProfile(texts.strip(name));
    DefaultScoringStands(texts);
    DefaultHeadStands(texts, texts.strip(name));
    DefaultHeadMeans(texts, raw, name);
    EmptySections(texts, raw, p);
    MeantIsParsed(texts, raw, p);
  }
}
