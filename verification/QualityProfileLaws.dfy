// Printing a profile and parsing it back: exactly which profiles survive, and that every parsed
// profile does.
module QualityProfileLaws {
  import opened Common
  import opened QualityProfiles

  predicate PlainRule(r: TopologyRule) {
    r.referenceLayer != Some(EMPTY)
  }

  // The profiles the parser can produce.
  predicate Canonical(texts: Texts, p: Profile) {
    && ValidProfile(texts, p) && texts.strip(p.name) == p.name
    && forall r :: r in p.topologyRules ==> PlainRule(r)
  }

  // ---- values ------------------------------------------------------------------------------

  lemma {:induction false} WordsComeBack(texts: Texts, words: seq<Word>)
    requires texts.Valid()
    ensures Words(texts, PrintWords(words)) == Read(words)
  {
    var back := Words(texts, PrintWords(words)).value;
    forall i | 0 <= i < |words| ensures back[i] == words[i] {
      assert texts.str(Text(words[i])) == words[i];
    }
    assert back == words;
  }

  lemma {:induction false} NumbersComeBack(texts: Texts, numbers: map<Key, real>)
    ensures Numbers(texts, PrintNumbers(numbers)) == Read(numbers)
  {
    var fields := PrintNumbers(numbers).fields;
    assert fields.Keys == numbers.Keys;
    assert forall k :: k in fields ==> Number(texts, fields[k]) == Read(numbers[k]);
    assert Numbers(texts, PrintNumbers(numbers)).value == numbers;
  }

  lemma {:induction false} PenaltiesComeBack(texts: Texts, penalties: map<Severity, real>)
    requires penalties.Keys <= SEVERITIES
    ensures Penalties(texts, PrintPenalties(penalties)) == Read(penalties)
  {
    var fields := PrintPenalties(penalties).fields;
    forall k | k in fields
      ensures k.Level? && k.severity in penalties && Number(texts, fields[k]) == Read(penalties[k.severity])
    {
    }
    forall s | s in penalties ensures Level(s) in fields && fields[Level(s)] == Real(penalties[s]) {
    }
    assert Penalties(texts, PrintPenalties(penalties)).value == penalties;
  }

  lemma {:induction false} OverridesComeBack(texts: Texts, overrides: map<Key, Severity>)
    requires texts.Valid()
    ensures ParseOverrides(texts, PrintOverrides(overrides)) == Read(overrides)
  {
    var fields := PrintOverrides(overrides).fields;
    forall k | k in fields ensures ToSeverity(texts.str(fields[k])) == Read(overrides[k]) {
      assert texts.str(Text(OfSeverity(overrides[k]))) == OfSeverity(overrides[k]);
    }
    assert ParseOverrides(texts, PrintOverrides(overrides)).value == overrides;
  }

  // ---- sections -------------------------------------------------------------------------------

  // The fields a printed rule holds.
  predicate RuleFields(raw: Fields, r: TopologyRule) {
    && raw.Keys == RULE_KEYS
    && raw[TypeKey] == Text(OfRule(r.kind)) && raw[LayerKey] == Text(r.layer)
    && raw[ReferenceLayerKey] == PrintWord(r.referenceLayer) && raw[ToleranceKey] == Real(r.tolerance)
    && raw[MinimumAreaKey] == Real(r.minimumArea) && raw[MinimumLengthKey] == Real(r.minimumLength)
    && raw[MinimumDistanceKey] == Real(r.minimumDistance) && raw[MinimumAngleKey] == Real(r.minimumAngle)
    && raw[AllowedGeometryTypesKey] == PrintWords(r.allowedGeometryTypes)
    && raw[PrecisionGridSizeKey] == Real(r.precisionGridSize) && raw[AttributeColumnKey] == PrintWord(r.attributeColumn)
    && raw[OverlapPolicyKey] == Text(OfPolicy(r.overlapPolicy)) && raw[SeverityKey] == Text(OfSeverity(r.severity))
  }

  lemma {:induction false} PrintedRule(r: TopologyRule)
    ensures RuleFields(PrintRule(r).fields, r)
  {
  }

  lemma {:induction false} OptionalComesBack(texts: Texts, w: Option<Word>)
    requires texts.Valid()
    ensures OptionalWord(texts, PrintWord(w)) == w
    ensures w.Some? && w.value != EMPTY ==> Truthy(PrintWord(w))
  {
  }

  lemma {:induction false} RuleFromFields(texts: Texts, raw: Fields, r: TopologyRule)
    requires texts.Valid() && ValidRule(texts, r) && PlainRule(r) && RuleFields(raw, r)
    ensures ParseRule(texts, Object(raw)) == Read(r)
  {
    WordsComeBack(texts, r.allowedGeometryTypes);
    OptionalComesBack(texts, r.attributeColumn);
    OptionalComesBack(texts, r.referenceLayer);
  }

  lemma {:induction false} RuleComesBack(texts: Texts, r: TopologyRule)
    requires texts.Valid() && ValidRule(texts, r) && PlainRule(r)
    ensures ParseRule(texts, PrintRule(r)) == Read(r)
  {
    PrintedRule(r);
    RuleFromFields(texts, PrintRule(r).fields, r);
  }

  lemma {:induction false} AttributeRuleComesBack(texts: Texts, r: AttributeRule)
    requires texts.Valid() && ValidAttributeRule(texts, r)
    ensures ParseAttributeRule(texts, PrintAttributeRule(r)) == Read(r)
  {
    var raw := PrintAttributeRule(r).fields;
    assert texts.str(raw[TypeKey]) == OfAttribute(r.kind);
    assert texts.str(raw[ColumnKey]) == r.column;
    assert texts.str(raw[SeverityKey]) == OfSeverity(r.severity);
  }

  // A printed scoring section holds its four fields.
  predicate ScoringFields(raw: Fields, s: Scoring) {
    && SCORING_KEYS <= raw.Keys
    && raw[CategoryWeightsKey] == PrintNumbers(s.weights) && raw[SeverityPenaltiesKey] == PrintPenalties(s.penalties)
    && raw[CategoryCapsKey] == PrintNumbers(s.caps) && raw[RepeatedFeatureCapKey] == Real(s.repeatedFeatureCap)
  }

  lemma {:induction false} PrintedScoring(s: Scoring)
    ensures ScoringFields(PrintScoring(s), s)
  {
  }

  lemma {:induction false} CapsOfItsOwn(s: Scoring)
    requires ValidScoring(s)
    ensures WithCaps(s.weights, s.caps) == s.caps
  {
    var k :| k in s.weights && s.weights[k] > 0.0;
    assert k in s.caps;
  }

  lemma {:induction false} ScoringFromFields(texts: Texts, raw: Fields, s: Scoring)
    requires ScoringFields(raw, s) && ValidScoring(s) && WithCaps(s.weights, s.caps) == s.caps
    requires Numbers(texts, raw[CategoryWeightsKey]) == Read(s.weights)
    requires Numbers(texts, raw[CategoryCapsKey]) == Read(s.caps)
    requires Penalties(texts, raw[SeverityPenaltiesKey]) == Read(s.penalties)
    ensures ParseScoring(texts, raw) == Read(s)
  {
  }

  lemma {:induction false} ScoringComesBack(texts: Texts, s: Scoring)
    requires ValidScoring(s)
    ensures ParseScoring(texts, PrintScoring(s)) == Read(s)
  {
    var raw := PrintScoring(s);
    assert ScoringFields(raw, s) by {
      PrintedScoring(s);
    }
    assert Numbers(texts, raw[CategoryWeightsKey]) == Read(s.weights) by {
      NumbersComeBack(texts, s.weights);
    }
    assert Numbers(texts, raw[CategoryCapsKey]) == Read(s.caps) by {
      NumbersComeBack(texts, s.caps);
    }
    assert Penalties(texts, raw[SeverityPenaltiesKey]) == Read(s.penalties) by {
      PenaltiesComeBack(texts, s.penalties);
    }
    CapsOfItsOwn(s);
    ScoringFromFields(texts, raw, s);
  }

  lemma {:induction false} GateComesBack(texts: Texts, g: Gate)
    requires texts.Valid() && ValidGate(g)
    ensures ParseGate(texts, PrintGate(g)) == Read(g)
  {
    assert texts.str(Text(OfSeverity(g.failOn))) == OfSeverity(g.failOn);
  }

  lemma {:induction false} CrsComesBack(texts: Texts, c: Crs)
    requires texts.Valid()
    ensures ParseCrs(texts, PrintCrs(c)) == Read(c)
  {
    WordsComeBack(texts, c.allowed);
  }

  function HeadOf(p: Profile): Head {
    Head(p.name, p.version, p.preset, p.tolerance, p.minimumArea, p.idColumn, p.enabledChecks, p.expectedGeometryTypes)
  }

  const HEAD_KEYS: set<Key> := {
    NameKey, VersionKey, PresetKey, ToleranceKey, MinimumAreaKey, IdColumnKey, EnabledChecksKey,
    ExpectedGeometryTypesKey}

  predicate HeadFields(raw: Fields, p: Profile) {
    && HEAD_KEYS <= raw.Keys
    && raw[NameKey] == Text(p.name) && raw[VersionKey] == Int(p.version) && raw[PresetKey] == PrintPreset(p.preset)
    && raw[ToleranceKey] == Real(p.tolerance) && raw[MinimumAreaKey] == Real(p.minimumArea)
    && raw[IdColumnKey] == PrintWord(p.idColumn) && raw[EnabledChecksKey] == PrintWords(p.enabledChecks)
    && raw[ExpectedGeometryTypesKey] == PrintWords(p.expectedGeometryTypes)
  }

  lemma {:induction false} PresetComesBack(texts: Texts, preset: Option<Preset>)
    requires texts.Valid()
    ensures ParsePreset(texts, PrintPreset(preset)) == Read(preset)
  {
    if preset.Some? {
      assert texts.str(Text(OfPreset(preset.value))) == OfPreset(preset.value);
    }
  }

  lemma {:induction false} HeadComesBack(texts: Texts, raw: Fields, p: Profile)
    requires texts.Valid() && texts.strip(p.name) == p.name && HeadFields(raw, p)
    ensures ParseHead(texts, raw) == Read(HeadOf(p))
  {
    WordsComeBack(texts, p.enabledChecks);
    WordsComeBack(texts, p.expectedGeometryTypes);
    OptionalComesBack(texts, p.idColumn);
    PresetComesBack(texts, p.preset);
    assert texts.str(Text(p.name)) == p.name;
    assert (p.version as real).Floor == p.version;
  }

  lemma {:induction false} RulesComeBack(texts: Texts, rules: seq<TopologyRule>)
    requires texts.Valid() && forall r :: r in rules ==> ValidRule(texts, r) && PlainRule(r)
    ensures ParseRules(texts, PrintRules(rules)) == Read(rules)
  {
    var parse := v => ParseRule(texts, v);
    var items := PrintRules(rules).items;
    forall i | 0 <= i < |items| ensures parse(items[i]) == Read(rules[i]) {
      RuleComesBack(texts, rules[i]);
    }
    assert All(items, parse).value == rules;
  }

  lemma {:induction false} AttributeRulesComeBack(texts: Texts, rules: seq<AttributeRule>)
    requires texts.Valid() && forall r :: r in rules ==> ValidAttributeRule(texts, r)
    ensures ParseAttributeRules(texts, PrintAttributeRules(rules)) == Read(rules)
  {
    var parse := v => ParseAttributeRule(texts, v);
    var items := PrintAttributeRules(rules).items;
    forall i | 0 <= i < |items| ensures parse(items[i]) == Read(rules[i]) {
      AttributeRuleComesBack(texts, rules[i]);
    }
    assert All(items, parse).value == rules;
  }

  // ---- profiles -----------------------------------------------------------------------------------

  const SECTION_KEYS: set<Key> := {
    CrsKey, TopologyRulesKey, AttributeSchemaKey, ScoringKey, SeverityOverridesKey, QualityGateKey}

  predicate SectionFields(raw: Fields, p: Profile) {
    && SECTION_KEYS <= raw.Keys
    && raw[CrsKey] == Object(PrintCrs(p.crs)) && raw[TopologyRulesKey] == PrintRules(p.topologyRules)
    && raw[AttributeSchemaKey] == PrintAttributeRules(p.attributeRules)
    && raw[ScoringKey] == Object(PrintScoring(p.scoring))
    && raw[SeverityOverridesKey] == PrintOverrides(p.overrides) && raw[QualityGateKey] == Object(PrintGate(p.gate))
  }

  predicate ProfileFields(raw: Fields, p: Profile) {
    raw.Keys == ROOT_KEYS - {AttributeRulesKey} && HeadFields(raw, p) && SectionFields(raw, p)
  }

  lemma {:induction false} PrintedHead(p: Profile)
    ensures PrintHead(p).Keys == HEAD_KEYS && HeadFields(PrintHead(p), p)
  {
  }

  lemma {:induction false} PrintedSections(p: Profile)
    ensures PrintSections(p).Keys == SECTION_KEYS && SectionFields(PrintSections(p), p)
  {
  }

  lemma {:induction false} JoinedKeys(head: Fields, sections: Fields)
    requires head.Keys == HEAD_KEYS && sections.Keys == SECTION_KEYS
    ensures (head + sections).Keys == ROOT_KEYS - {AttributeRulesKey}
  {
    assert HEAD_KEYS + SECTION_KEYS == ROOT_KEYS - {AttributeRulesKey};
  }

  lemma {:induction false} JoinedHead(head: Fields, sections: Fields, p: Profile)
    requires head.Keys == HEAD_KEYS && HeadFields(head, p) && HEAD_KEYS !! sections.Keys
    ensures HeadFields(head + sections, p)
  {
    assert forall k :: k in HEAD_KEYS ==> (head + sections)[k] == head[k];
  }

  lemma {:induction false} JoinedSections(head: Fields, sections: Fields, p: Profile)
    requires sections.Keys == SECTION_KEYS && SectionFields(sections, p)
    ensures SectionFields(head + sections, p)
  {
    assert forall k :: k in SECTION_KEYS ==> (head + sections)[k] == sections[k];
  }

  lemma {:induction false} JoinedFields(head: Fields, sections: Fields, p: Profile)
    requires head.Keys == HEAD_KEYS && HeadFields(head, p)
    requires sections.Keys == SECTION_KEYS && SectionFields(sections, p)
    ensures ProfileFields(head + sections, p)
  {
    assert HEAD_KEYS !! sections.Keys;
    JoinedKeys(head, sections);
    JoinedHead(head, sections, p);
    JoinedSections(head, sections, p);
  }

  lemma {:induction false} PrintedProfile(p: Profile)
    ensures ProfileFields(Print(p), p)
  {
    PrintedHead(p);
    PrintedSections(p);
    JoinedFields(PrintHead(p), PrintSections(p), p);
  }

  lemma {:induction false} SectionsComeBack(raw: Fields, p: Profile)
    requires ProfileFields(raw, p)
    ensures Section(raw, CrsKey, CRS_KEYS) == Read(PrintCrs(p.crs))
    ensures Section(raw, ScoringKey, SCORING_KEYS) == Read(PrintScoring(p.scoring))
    ensures Section(raw, QualityGateKey, GATE_KEYS) == Read(PrintGate(p.gate))
  {
  }

  lemma {:induction false} ProfileFromFields(texts: Texts, raw: Fields, p: Profile)
    requires texts.Valid() && Canonical(texts, p) && ProfileFields(raw, p)
    ensures Parse(texts, raw) == Read(p)
  {
    var crs, scoring, gate := PrintCrs(p.crs), PrintScoring(p.scoring), PrintGate(p.gate);
    SectionsComeBack(raw, p);
    HeadComesBack(texts, raw, p);
    CrsComesBack(texts, p.crs);
    RulesComeBack(texts, p.topologyRules);
    AttributeRulesComeBack(texts, p.attributeRules);
    OverridesComeBack(texts, p.overrides);
    ScoringComesBack(texts, p.scoring);
    GateComesBack(texts, p.gate);
    assert ParseCrs(texts, crs) == Read(p.crs) && ParseScoring(texts, scoring) == Read(p.scoring);
  }

  lemma {:induction false} CanonicalComesBack(texts: Texts, p: Profile)
    requires texts.Valid() && Canonical(texts, p)
    ensures Parse(texts, Print(p)) == Read(p)
  {
    PrintedProfile(p);
    ProfileFromFields(texts, Print(p), p);
  }

  lemma {:induction false} ParsedRuleIsCanonical(texts: Texts, v: Value)
    requires texts.Valid() && ParseRule(texts, v).Read?
    ensures ValidRule(texts, ParseRule(texts, v).value) && PlainRule(ParseRule(texts, v).value)
  {
  }

  lemma {:induction false} ParsedRulesAreCanonical(texts: Texts, raw: Value, rules: seq<TopologyRule>)
    requires texts.Valid() && ParseRules(texts, raw) == Read(rules)
    ensures forall r :: r in rules ==> ValidRule(texts, r) && PlainRule(r)
  {
    forall r | r in rules ensures ValidRule(texts, r) && PlainRule(r) {
      var i :| 0 <= i < |rules| && rules[i] == r;
      ParsedRuleIsCanonical(texts, raw.items[i]);
    }
  }

  lemma {:induction false} ParsedAttributeRulesAreValid(texts: Texts, raw: Value, rules: seq<AttributeRule>)
    requires ParseAttributeRules(texts, raw) == Read(rules)
    ensures forall r :: r in rules ==> ValidAttributeRule(texts, r)
  {
    forall r | r in rules ensures ValidAttributeRule(texts, r) {
      var i :| 0 <= i < |rules| && rules[i] == r;
      assert ParseAttributeRule(texts, raw.items[i]) == Read(r);
    }
  }

  // What the parser reads each part of a profile from.
  ghost predicate ReadFrom(texts: Texts, raw: Fields, scoring: Fields, gate: Fields, p: Profile) {
    && ParseHead(texts, raw) == Read(HeadOf(p)) && ValidHead(texts, p)
    && ParseRules(texts, Get(raw, TopologyRulesKey, Array([]))) == Read(p.topologyRules)
    && ParseAttributeRules(texts, Schema(raw)) == Read(p.attributeRules)
    && ParseScoring(texts, scoring) == Read(p.scoring) && ParseGate(texts, gate) == Read(p.gate)
  }

  lemma {:induction false} BodyHead(texts: Texts, raw: Fields, crs: Fields, gate: Fields, s: Scoring, p: Profile)
    requires ParseBody(texts, raw, crs, gate, s) == Read(p)
    ensures ParseHead(texts, raw) == Read(HeadOf(p)) && ValidHead(texts, p)
  {
  }

  lemma {:induction false} BodyRules(texts: Texts, raw: Fields, crs: Fields, gate: Fields, s: Scoring, p: Profile)
    requires ParseBody(texts, raw, crs, gate, s) == Read(p)
    ensures ParseRules(texts, Get(raw, TopologyRulesKey, Array([]))) == Read(p.topologyRules)
    ensures ParseAttributeRules(texts, Schema(raw)) == Read(p.attributeRules)
    ensures ParseGate(texts, gate) == Read(p.gate) && p.scoring == s
  {
  }

  lemma {:induction false} BodyFrom(texts: Texts, raw: Fields, crs: Fields, scoring: Fields, gate: Fields, s: Scoring,
                                    p: Profile)
    requires ParseScoring(texts, scoring) == Read(s) && ParseBody(texts, raw, crs, gate, s) == Read(p)
    ensures ReadFrom(texts, raw, scoring, gate, p)
  {
    BodyHead(texts, raw, crs, gate, s, p);
    BodyRules(texts, raw, crs, gate, s, p);
  }

  lemma {:induction false} ParsedFrom(texts: Texts, raw: Fields, p: Profile) returns (scoring: Fields, gate: Fields)
    requires Parse(texts, raw) == Read(p)
    ensures ReadFrom(texts, raw, scoring, gate, p)
  {
    var crs := Section(raw, CrsKey, CRS_KEYS).value;
    scoring, gate := Section(raw, ScoringKey, SCORING_KEYS).value, Section(raw, QualityGateKey, GATE_KEYS).value;
    BodyFrom(texts, raw, crs, scoring, gate, ParseScoring(texts, scoring).value, p);
  }

  lemma {:induction false} ParsedNameIsStripped(texts: Texts, raw: Fields, head: Head)
    requires texts.Valid() && ParseHead(texts, raw) == Read(head)
    ensures texts.strip(head.name) == head.name
  {
  }

  lemma {:induction false} ParsedScoringIsValid(texts: Texts, raw: Fields, s: Scoring)
    requires ParseScoring(texts, raw) == Read(s)
    ensures ValidScoring(s)
  {
  }

  lemma {:induction false} ParsedGateIsValid(texts: Texts, raw: Fields, g: Gate)
    requires ParseGate(texts, raw) == Read(g)
    ensures ValidGate(g)
  {
  }

  lemma {:induction false} ReadFromIsCanonical(texts: Texts, raw: Fields, scoring: Fields, gate: Fields, p: Profile)
    requires texts.Valid() && ReadFrom(texts, raw, scoring, gate, p)
    ensures Canonical(texts, p)
  {
    ParsedNameIsStripped(texts, raw, HeadOf(p));
    ParsedScoringIsValid(texts, scoring, p.scoring);
    ParsedGateIsValid(texts, gate, p.gate);
    ParsedRulesAreCanonical(texts, Get(raw, TopologyRulesKey, Array([])), p.topologyRules);
    ParsedAttributeRulesAreValid(texts, Schema(raw), p.attributeRules);
  }

  // Nothing else comes out of the parser.
  lemma {:induction false} ParsedIsCanonical(texts: Texts, raw: Fields)
    requires texts.Valid() && Parse(texts, raw).Read?
    ensures Canonical(texts, Parse(texts, raw).value)
  {
    var p := Parse(texts, raw).value;
    var scoring, gate := ParsedFrom(texts, raw, p);
    ReadFromIsCanonical(texts, raw, scoring, gate, p);
  }

  // A constructible profile survives printing and parsing exactly when its name has no spaces
  // around it and no rule carries an empty reference layer.
  lemma {:induction false} RoundTripExactlyWhen(texts: Texts, p: Profile)
    requires texts.Valid() && ValidProfile(texts, p)
    ensures Parse(texts, Print(p)) == Read(p) <==>
      texts.strip(p.name) == p.name && forall r :: r in p.topologyRules ==> PlainRule(r)
  {
    if Parse(texts, Print(p)) == Read(p) {
      ParsedIsCanonical(texts, Print(p));
    }
    if Canonical(texts, p) {
      CanonicalComesBack(texts, p);
    }
  }

  // Every accepted mapping: parsing what was printed gives the parsed profile again.
  lemma {:induction false} ParsedProfilesRoundTrip(texts: Texts, raw: Fields)
    requires texts.Valid() && Parse(texts, raw).Read?
    ensures Parse(texts, Print(Parse(texts, raw).value)) == Parse(texts, raw)
  {
    ParsedIsCanonical(texts, raw);
    CanonicalComesBack(texts, Parse(texts, raw).value);
  }

  // ---- samples ---------------------------------------------------------------------------------

  function TrimFront(s: string): (r: string)
    ensures r == [] || r[0] != ' '
    ensures s == [] || s[0] != ' ' ==> r == s
  {
    if s == [] || s[0] != ' ' then s else TrimFront(s[1..])
  }

  function TrimBack(s: string): (r: string)
    ensures r <= s
    ensures r == [] || r[|r| - 1] != ' '
    ensures s == [] || s[|s| - 1] != ' ' ==> r == s
  {
    if s == [] || s[|s| - 1] != ' ' then s else TrimBack(s[..|s| - 1])
  }

  function Strip(w: Word): Word {
    if w.Plain? then Plain(TrimBack(TrimFront(w.text))) else w
  }

  // Texts are themselves, every other value reads the same, and no text is numeric.
  function SampleTexts(): Texts {
    Texts((v: Value) => if v.Text? then v.word else Plain(['?']), _ => None, Strip)
  }

  lemma {:induction false} StripTwice(w: Word)
    ensures Strip(Strip(w)) == Strip(w)
  {
    if w.Plain? {
      var front := TrimFront(w.text);
      var r := TrimBack(front);
      assert r != [] ==> r[0] == front[0];
      assert TrimFront(r) == r && TrimBack(r) == r;
    }
  }

  lemma {:induction false} SampleTextsAreValid()
    ensures SampleTexts().Valid()
  {
    forall w ensures SampleTexts().strip(SampleTexts().strip(w)) == SampleTexts().strip(w) {
      StripTwice(w);
    }
  }

  function SampleScoring(): Scoring {
    Scoring(map[Standard(Geometry) := 1.0], DEFAULT_PENALTIES, map[Standard(Geometry) := 80.0], 30.0)
  }

  function SampleProfile(name: Word, rules: seq<TopologyRule>): Profile {
    Profile(name, 1, None, 0.0, 0.0, Crs(true, false, []), None, [OfCheck(GeometryCheck)], [], rules, [], map[],
            SampleScoring(), Gate(75.0, Error, false))
  }

  // A rule that names an empty reference layer it does not need.
  function SampleRule(layer: Word): TopologyRule {
    TopologyRule(NoOverlap, layer, Some(EMPTY), 0.0, 0.0, 0.0, 0.0, 0.0, [], 0.0, None, DenyAll, Error)
  }

  lemma {:induction false} SampleScoringIsValid()
    ensures ValidScoring(SampleScoring())
  {
    assert SampleScoring().weights[Standard(Geometry)] > 0.0;
  }

  lemma {:induction false} SampleProfileIsValid(texts: Texts, name: Word, rules: seq<TopologyRule>)
    requires !texts.Blank(name) && forall r :: r in rules ==> ValidRule(texts, r)
    ensures ValidProfile(texts, SampleProfile(name, rules))
  {
    SampleScoringIsValid();
  }

  lemma {:induction false} SampleStrips()
    ensures var texts, spaced, plain := SampleTexts(), Plain([' ', 'a']), Plain(['a']);
      texts.strip(spaced) == plain && texts.strip(plain) == plain && spaced != plain
  {
    assert TrimFront([' ', 'a']) == TrimFront(['a']) by {
      assert [' ', 'a'][1..] == ['a'];
    }
  }

  // A valid profile with a space before its name does not come back.
  lemma {:induction false} SpacedNameIsLost()
    ensures var texts, p := SampleTexts(), SampleProfile(Plain([' ', 'a']), []);
      texts.Valid() && ValidProfile(texts, p) && Parse(texts, Print(p)) != Read(p)
  {
    var texts, name := SampleTexts(), Plain([' ', 'a']);
    SampleTextsAreValid();
    SampleStrips();
    SampleProfileIsValid(texts, name, []);
    RoundTripExactlyWhen(texts, SampleProfile(name, []));
  }

  // Nor does a valid profile with an empty reference layer.
  lemma {:induction false} EmptyReferenceIsLost()
    ensures var texts, name := SampleTexts(), Plain(['a']);
      var p := SampleProfile(name, [SampleRule(name)]);
      texts.Valid() && ValidProfile(texts, p) && Parse(texts, Print(p)) != Read(p)
  {
    var texts, name := SampleTexts(), Plain(['a']);
    var rules := [SampleRule(name)];
    SampleTextsAreValid();
    SampleStrips();
    SampleProfileIsValid(texts, name, rules);
    RoundTripExactlyWhen(texts, SampleProfile(name, rules));
    assert rules[0] in rules && !PlainRule(rules[0]);
  }

  // An accepted mapping.
  lemma {:induction false} SomeMappingIsAccepted()
    ensures var texts, p := SampleTexts(), SampleProfile(Plain(['a']), []);
      texts.Valid() && Parse(texts, Print(p)) == Read(p)
  {
    var texts, plain := SampleTexts(), Plain(['a']);
    SampleTextsAreValid();
    SampleStrips();
    SampleProfileIsValid(texts, plain, []);
    CanonicalComesBack(texts, SampleProfile(plain, []));
  }
}
