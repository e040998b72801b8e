// The geometry audit twice: chunk by chunk through a bounded collector, and in one pass over
// the dataset in memory.
module StreamingAudit {
  import opened Common

  // Geometries are opaque to the audit; only the validator looks inside.
  type Geometry = string

  // A stored geometry as a reader finds it.
  datatype Stored = Missing | Unreadable(reason: string) | Shape(geometry: Geometry)

  datatype Kind = InvalidGeometry | EmptyGeometry | SelfIntersection | RingError | DuplicateVertex

  datatype Message = GeometryMissing | NotParsed(reason: string) | Other(text: string)

  datatype Issue = Issue(kind: Kind, message: Message)

  datatype Finding = Finding(index: nat, issues: seq<Issue>)

  // A Counter is a multiset of issue kinds.
  datatype ChunkResult = ChunkResult(features: nat, invalid: nat, counts: multiset<Kind>, findings: seq<Finding>)

  datatype AuditResult = AuditResult(features: nat, invalid: nat, counts: multiset<Kind>, findings: seq<Finding>)

  datatype Metadata = Metadata(crs: Option<string>, featureCount: Option<nat>)

  datatype Chunk = Chunk(offset: nat, features: seq<Stored>, size: nat)

  datatype StreamingResult = StreamingResult(result: AuditResult, features: nat, chunks: nat)

  // A missing geometry counts as empty, one that cannot be read as invalid; any other has the
  // issues the validator finds.
  ghost predicate ReportsOn(validate: Geometry -> seq<Issue>, item: Stored, issues: seq<Issue>) {
    match item
    case Missing => issues == [Issue(EmptyGeometry, GeometryMissing)]
    case Unreadable(reason) => issues == [Issue(InvalidGeometry, NotParsed(reason))]
    case Shape(g) => issues == validate(g)
  }

  function IssuesOf(validate: Geometry -> seq<Issue>, item: Stored): seq<Issue> {
    match item
    case Missing => [Issue(EmptyGeometry, GeometryMissing)]
    case Unreadable(reason) => [Issue(InvalidGeometry, NotParsed(reason))]
    case Shape(g) => validate(g)
  }

  // ---- what an audit is ----------------------------------------------------------------

  function KindsOf(issues: seq<Issue>): (r: seq<Kind>)
    ensures |r| == |issues|
  {
    seq(|issues|, i requires 0 <= i < |issues| => issues[i].kind)
  }

  // The issues of every feature, in dataset order.
  ghost function Reports(validate: Geometry -> seq<Issue>, items: seq<Stored>): (r: seq<seq<Issue>>)
    ensures |r| == |items|
    ensures forall i :: 0 <= i < |items| ==> r[i] == IssuesOf(validate, items[i])
  {
    seq(|items|, i requires 0 <= i < |items| => IssuesOf(validate, items[i]))
  }

  // What is reported about each feature.
  lemma {:induction false} ReportsTell(validate: Geometry -> seq<Issue>, items: seq<Stored>, i: nat)
    requires i < |items|
    ensures ReportsOn(validate, items[i], Reports(validate, items)[i])
    ensures var kinds := KindsOf(Reports(validate, items)[i]);
      forall k :: 0 <= k < |kinds| ==> kinds[k] == Reports(validate, items)[i][k].kind
  {
  }

  ghost function Bags(reports: seq<seq<Issue>>): (r: seq<multiset<Kind>>)
    ensures |r| == |reports|
    ensures forall i :: 0 <= i < |reports| ==> r[i] == multiset(KindsOf(reports[i]))
  {
    seq(|reports|, i requires 0 <= i < |reports| => multiset(KindsOf(reports[i])))
  }

  // How often the first k features raise each kind of issue.
  ghost function Tally(bags: seq<multiset<Kind>>, k: nat): multiset<Kind>
    requires k <= |bags|
  {
    if k == 0 then multiset{} else Tally(bags, k - 1) + bags[k - 1]
  }

  // One finding per feature with issues among the first k, numbered from `offset`.
  ghost function Findings(reports: seq<seq<Issue>>, k: nat, offset: nat): seq<Finding>
    requires k <= |reports|
  {
    if k == 0 then []
    else if reports[k - 1] == [] then Findings(reports, k - 1, offset)
    else Findings(reports, k - 1, offset) + [Finding(offset + k - 1, reports[k - 1])]
  }

  // What the collector lists: at most `maximum` findings, none if it is negative.
  function Prefix<T>(s: seq<T>, maximum: int): seq<T> {
    if maximum <= 0 then [] else if maximum < |s| then s[..maximum] else s
  }

  lemma {:induction false} PrefixIsBounded<T>(s: seq<T>, maximum: int)
    ensures Prefix(s, maximum) <= s
    ensures |Prefix(s, maximum)| == if maximum <= 0 then 0 else if maximum < |s| then maximum else |s|
  {
  }

  // The audit of the first k features.
  ghost function Audit(reports: seq<seq<Issue>>, k: nat, maximum: int): AuditResult
    requires k <= |reports|
  {
    var findings := Findings(reports, k, 0);
    AuditResult(k, |findings|, Tally(Bags(reports), k), Prefix(findings, maximum))
  }

  ghost predicate FindingFits(reports: seq<seq<Issue>>, k: nat, offset: nat, finding: Finding)
    requires k <= |reports|
  {
    offset <= finding.index < offset + k && finding.issues == reports[finding.index - offset] != []
  }

  // Exactly the features with issues among the first k, by ascending index.
  ghost predicate CompleteUpTo(reports: seq<seq<Issue>>, k: nat, offset: nat, findings: seq<Finding>)
    requires k <= |reports|
  {
    && (forall m :: 0 <= m < |findings| ==> FindingFits(reports, k, offset, findings[m]))
    && (forall m, n :: 0 <= m < n < |findings| ==> findings[m].index < findings[n].index)
    && (forall i :: 0 <= i < k && reports[i] != [] ==> Finding(offset + i, reports[i]) in findings)
  }

  lemma {:induction false} NoFindingMore(reports: seq<seq<Issue>>, k: nat, next: nat, offset: nat,
                                         findings: seq<Finding>)
    requires k < |reports| && next == k + 1 && reports[k] == [] && CompleteUpTo(reports, k, offset, findings)
    ensures CompleteUpTo(reports, next, offset, findings)
  {
    forall m | 0 <= m < |findings| ensures FindingFits(reports, next, offset, findings[m]) {
      assert FindingFits(reports, k, offset, findings[m]);
    }
  }

  lemma {:induction false} OneFindingMore(reports: seq<seq<Issue>>, k: nat, next: nat, offset: nat,
                                          findings: seq<Finding>, last: Finding, more: seq<Finding>)
    requires k < |reports| && next == k + 1 && reports[k] != [] && CompleteUpTo(reports, k, offset, findings)
    requires last == Finding(offset + k, reports[k]) && more == findings + [last]
    ensures CompleteUpTo(reports, next, offset, more)
  {
    assert last in more;
    forall m | 0 <= m < |more| ensures FindingFits(reports, next, offset, more[m]) {
      assert m < |findings| ==> FindingFits(reports, k, offset, findings[m]);
    }
    forall i | 0 <= i < next && reports[i] != [] ensures Finding(offset + i, reports[i]) in more {
      assert i < k ==> Finding(offset + i, reports[i]) in findings;
    }
  }

  lemma {:induction false} FindingsStep(reports: seq<seq<Issue>>, i: nat, offset: nat)
    requires i < |reports|
    ensures var before := Findings(reports, i, offset);
      Findings(reports, i + 1, offset)
        == if reports[i] == [] then before else before + [Finding(offset + i, reports[i])]
  {
  }

  lemma {:induction false} CompleteNext(reports: seq<seq<Issue>>, k: nat, next: nat, offset: nat)
    requires k < |reports| && next == k + 1 && CompleteUpTo(reports, k, offset, Findings(reports, k, offset))
    ensures CompleteUpTo(reports, next, offset, Findings(reports, next, offset))
  {
    var before := Findings(reports, k, offset);
    FindingsStep(reports, k, offset);
    if reports[k] == [] {
      NoFindingMore(reports, k, next, offset, before);
    } else {
      var last := Finding(offset + k, reports[k]);
      OneFindingMore(reports, k, next, offset, before, last, Findings(reports, next, offset));
    }
  }

  // What the findings list means: exactly the features with issues, by ascending index.
  lemma {:induction false} FindingsAreComplete(reports: seq<seq<Issue>>, k: nat, offset: nat)
    requires k <= |reports|
    ensures CompleteUpTo(reports, k, offset, Findings(reports, k, offset))
  {
    if k > 0 {
      FindingsAreComplete(reports, k - 1, offset);
      CompleteNext(reports, k - 1, k, offset);
    }
  }

  // ---- an audit in parts --------------------------------------------------------------------

  // Chunks that cover the dataset in order, without gaps.
  ghost function SizeSum(chunks: seq<Chunk>, n: nat): nat
    requires n <= |chunks|
  {
    if n == 0 then 0 else SizeSum(chunks, n - 1) + chunks[n - 1].size
  }

  ghost predicate PartOf<T>(part: seq<T>, offset: nat, whole: seq<T>) {
    && offset + |part| <= |whole|
    && forall k :: 0 <= k < |part| ==> part[k] == whole[offset + k]
  }

  ghost predicate ChunkFits(chunks: seq<Chunk>, items: seq<Stored>, i: nat)
    requires i < |chunks|
  {
    var chunk := chunks[i];
    chunk.size == |chunk.features| && chunk.offset == SizeSum(chunks, i) && PartOf(chunk.features, chunk.offset, items)
  }

  ghost predicate Tiles(chunks: seq<Chunk>, items: seq<Stored>) {
    && SizeSum(chunks, |chunks|) == |items|
    && forall i :: 0 <= i < |chunks| ==> ChunkFits(chunks, items, i)
  }

  lemma {:induction false} SumsAssociate(a: multiset<Kind>, b: multiset<Kind>, c: multiset<Kind>)
    ensures (a + b) + c == a + (b + c)
  {
  }

  lemma {:induction false} TallyInParts(bags: seq<multiset<Kind>>, part: seq<multiset<Kind>>, offset: nat, k: nat,
                                        end: nat)
    requires PartOf(part, offset, bags) && k <= |part| && end == offset + k
    ensures Tally(bags, end) == Tally(bags, offset) + Tally(part, k)
  {
    if k > 0 {
      TallyInParts(bags, part, offset, k - 1, end - 1);
      assert part[k - 1] == bags[end - 1];
      SumsAssociate(Tally(bags, offset), Tally(part, k - 1), part[k - 1]);
    }
  }

  lemma {:induction false} FindingsInParts(reports: seq<seq<Issue>>, part: seq<seq<Issue>>, offset: nat, k: nat,
                                           end: nat)
    requires PartOf(part, offset, reports) && k <= |part| && end == offset + k
    ensures Findings(reports, end, 0) == Findings(reports, offset, 0) + Findings(part, k, offset)
  {
    if k > 0 {
      FindingsInParts(reports, part, offset, k - 1, end - 1);
      assert part[k - 1] == reports[end - 1];
    }
  }

  lemma {:induction false} PrefixAppend<T>(a: seq<T>, b: seq<T>, maximum: int)
    ensures Prefix(a + b, maximum) == Prefix(a, maximum) + Prefix(b, maximum - |Prefix(a, maximum)|)
  {
  }

  ghost function PartUpTo(reports: seq<seq<Issue>>, k: nat, offset: nat): ChunkResult
    requires k <= |reports|
  {
    var findings := Findings(reports, k, offset);
    ChunkResult(k, |findings|, Tally(Bags(reports), k), findings)
  }

  // What a chunk contributes.
  ghost function Part(reports: seq<seq<Issue>>, offset: nat): ChunkResult {
    PartUpTo(reports, |reports|, offset)
  }

  ghost function Added(total: AuditResult, part: ChunkResult, maximum: int): AuditResult {
    AuditResult(total.features + part.features, total.invalid + part.invalid, total.counts + part.counts,
                total.findings + Prefix(part.findings, maximum - |total.findings|))
  }

  const NOTHING := AuditResult(0, 0, multiset{}, [])

  ghost function PartAt(validate: Geometry -> seq<Issue>, chunk: Chunk): ChunkResult {
    Part(Reports(validate, chunk.features), chunk.offset)
  }

  // Left fold over the first n entries.
  ghost function Fold<A, B>(add: (A, B) -> A, start: A, parts: seq<B>, n: nat): A
    requires n <= |parts|
  {
    if n == 0 then start else add(Fold(add, start, parts, n - 1), parts[n - 1])
  }

  ghost predicate StepsTo<A, B>(add: (A, B) -> A, parts: seq<B>, states: seq<A>, i: nat)
    requires i < |parts| && |states| == |parts| + 1
  {
    states[i + 1] == add(states[i], parts[i])
  }

  lemma {:induction false} FoldReaches<A, B>(add: (A, B) -> A, start: A, parts: seq<B>, states: seq<A>, n: nat)
    requires n <= |parts| && |states| == |parts| + 1 && states[0] == start
    requires forall i: nat :: i < |parts| ==> StepsTo(add, parts, states, i)
    ensures Fold(add, start, parts, n) == states[n]
  {
    if n > 0 {
      FoldReaches(add, start, parts, states, n - 1);
      assert StepsTo(add, parts, states, n - 1);
    }
  }

  ghost function Adder(maximum: int): (AuditResult, ChunkResult) -> AuditResult {
    (total: AuditResult, part: ChunkResult) => Added(total, part, maximum)
  }

  ghost function Parts(validate: Geometry -> seq<Issue>, chunks: seq<Chunk>): (r: seq<ChunkResult>)
    ensures |r| == |chunks|
  {
    seq(|chunks|, i requires 0 <= i < |chunks| => PartAt(validate, chunks[i]))
  }

  // The total of a collector that began with `start`, after the first n chunks.
  ghost function Gathered(start: AuditResult, validate: Geometry -> seq<Issue>, chunks: seq<Chunk>, n: nat,
                          maximum: int): AuditResult
    requires n <= |chunks|
  {
    Fold(Adder(maximum), start, Parts(validate, chunks), n)
  }

  ghost function Collected(validate: Geometry -> seq<Issue>, chunks: seq<Chunk>, n: nat, maximum: int): AuditResult
    requires n <= |chunks|
  {
    Gathered(NOTHING, validate, chunks, n, maximum)
  }

  lemma {:induction false} AddedParts(n: nat, m: nat, end: nat, a: seq<Finding>, b: seq<Finding>, all: seq<Finding>,
                                      s: multiset<Kind>, t: multiset<Kind>, sum: multiset<Kind>, maximum: int)
    requires end == n + m && all == a + b && sum == s + t
    ensures AuditResult(end, |all|, sum, Prefix(all, maximum))
         == Added(AuditResult(n, |a|, s, Prefix(a, maximum)), ChunkResult(m, |b|, t, b), maximum)
  {
    PrefixAppend(a, b, maximum);
  }

  lemma {:induction false} AuditInParts(reports: seq<seq<Issue>>, part: seq<seq<Issue>>, offset: nat, end: nat,
                                        maximum: int)
    requires PartOf(part, offset, reports) && end == offset + |part|
    ensures Audit(reports, end, maximum) == Added(Audit(reports, offset, maximum), Part(part, offset), maximum)
  {
    var bags, more, n := Bags(reports), Bags(part), |part|;
    var a, b, all := Findings(reports, offset, 0), Findings(part, n, offset), Findings(reports, end, 0);
    var s, t, sum := Tally(bags, offset), Tally(more, n), Tally(bags, end);
    assert sum == s + t by {
      TallyInParts(bags, more, offset, n, end);
    }
    assert all == a + b by {
      FindingsInParts(reports, part, offset, n, end);
    }
    AddedParts(offset, n, end, a, b, all, s, t, sum, maximum);
  }

  lemma {:induction false} SizesAddUp(chunks: seq<Chunk>, n: nat)
    requires n <= |chunks|
    ensures SizeSum(chunks, n) <= SizeSum(chunks, |chunks|)
    decreases |chunks| - n
  {
    if n < |chunks| {
      SizesAddUp(chunks, n + 1);
    }
  }

  lemma {:induction false} IsStep<A, B>(add: (A, B) -> A, parts: seq<B>, states: seq<A>, i: nat, was: A, now: A,
                                        part: B)
    requires i < |parts| && |states| == |parts| + 1
    requires was == states[i] && now == states[i + 1] && part == parts[i] && now == add(was, part)
    ensures StepsTo(add, parts, states, i)
  {
  }

  lemma {:induction false} AddsUp(maximum: int, was: AuditResult, more: ChunkResult, now: AuditResult)
    requires now == Added(was, more, maximum)
    ensures now == Adder(maximum)(was, more)
  {
  }

  lemma {:induction false} AuditStep(reports: seq<seq<Issue>>, part: seq<seq<Issue>>, offset: nat, end: nat,
                                     maximum: int)
    requires PartOf(part, offset, reports) && end == offset + |part|
    ensures Audit(reports, end, maximum) == Adder(maximum)(Audit(reports, offset, maximum), Part(part, offset))
  {
    var before, more := Audit(reports, offset, maximum), Part(part, offset);
    var after := Audit(reports, end, maximum);
    assert after == Added(before, more, maximum) by {
      AuditInParts(reports, part, offset, end, maximum);
    }
    AddsUp(maximum, before, more, after);
  }

  // The audits of the stretches that end where a chunk ends.
  ghost function Stretches(reports: seq<seq<Issue>>, chunks: seq<Chunk>, maximum: int): (r: seq<AuditResult>)
    requires forall n :: 0 <= n <= |chunks| ==> SizeSum(chunks, n) <= |reports|
    ensures |r| == |chunks| + 1
  {
    seq(|chunks| + 1, n requires 0 <= n <= |chunks| => Audit(reports, SizeSum(chunks, n), maximum))
  }

  lemma {:induction false} StretchStep(validate: Geometry -> seq<Issue>, chunks: seq<Chunk>, items: seq<Stored>,
                                       maximum: int, i: nat)
    requires Tiles(chunks, items) && i < |chunks|
    requires forall n :: 0 <= n <= |chunks| ==> SizeSum(chunks, n) <= |items|
    ensures StepsTo(Adder(maximum), Parts(validate, chunks), Stretches(Reports(validate, items), chunks, maximum), i)
  {
    var reports, chunk := Reports(validate, items), chunks[i];
    var states, part := Stretches(reports, chunks, maximum), Reports(validate, chunk.features);
    assert ChunkFits(chunks, items, i);
    AuditStep(reports, part, chunk.offset, SizeSum(chunks, i + 1), maximum);
    IsStep(Adder(maximum), Parts(validate, chunks), states, i, states[i], states[i + 1], PartAt(validate, chunk));
  }

  // However the dataset is cut, the collected chunks are the audit of the whole.
  lemma {:induction false} EveryChunkingAgrees(validate: Geometry -> seq<Issue>, chunks: seq<Chunk>,
                                               items: seq<Stored>, maximum: int)
    requires Tiles(chunks, items)
    ensures Collected(validate, chunks, |chunks|, maximum) == Audit(Reports(validate, items), |items|, maximum)
  {
    forall n | 0 <= n <= |chunks| ensures SizeSum(chunks, n) <= |items| {
      SizesAddUp(chunks, n);
    }
    var add, parts := Adder(maximum), Parts(validate, chunks);
    var states := Stretches(Reports(validate, items), chunks, maximum);
    forall i: nat | i < |chunks| ensures StepsTo(add, parts, states, i) {
      StretchStep(validate, chunks, items, maximum, i);
    }
    FoldReaches(add, NOTHING, parts, states, |chunks|);
  }

  // ---- the streaming side --------------------------------------------------------------------

  class Collector {
    const maximum: int
    var features: nat
    var invalid: nat
    var counts: multiset<Kind>
    var findings: seq<Finding>

    ghost function Total(): AuditResult
      reads this
    {
      AuditResult(features, invalid, counts, findings)
    }

    constructor (maximum: int)
      ensures this.maximum == maximum && Total() == NOTHING
    {
      this.maximum := maximum;
      features, invalid, counts, findings := 0, 0, multiset{}, [];
    }

    method Add(part: ChunkResult)
      modifies this
      ensures Total() == Added(old(Total()), part, maximum)
    {
      features := features + part.features;
      invalid := invalid + part.invalid;
      counts := counts + part.counts;
      var remaining := maximum - |findings|;
      if remaining > 0 {
        findings := findings + Prefix(part.findings, remaining);
      }
    }

    method Finish() returns (r: AuditResult)
      ensures r == Total()
    {
      r := AuditResult(features, invalid, counts, findings);
    }
  }

  lemma {:induction false} TallyStep(reports: seq<seq<Issue>>, i: nat)
    requires i < |reports|
    ensures var bags := Bags(reports);
      Tally(bags, i + 1)
        == if reports[i] == [] then Tally(bags, i) else Tally(bags, i) + multiset(KindsOf(reports[i]))
  {
    if reports[i] == [] {
      assert KindsOf(reports[i]) == [];
    }
  }

  // What one more feature does to a part.
  ghost function WithFeature(was: ChunkResult, index: nat, issues: seq<Issue>): ChunkResult {
    if issues == [] then was.(features := was.features + 1)
    else ChunkResult(was.features + 1, was.invalid + 1, was.counts + multiset(KindsOf(issues)),
                     was.findings + [Finding(index, issues)])
  }

  lemma {:induction false} PartGrows(reports: seq<seq<Issue>>, i: nat, offset: nat, was: ChunkResult)
    requires i < |reports| && was == PartUpTo(reports, i, offset)
    ensures PartUpTo(reports, i + 1, offset) == WithFeature(was, offset + i, reports[i])
  {
    TallyStep(reports, i);
    FindingsStep(reports, i, offset);
  }

  // One turn of the loop over a chunk.
  method TakeFeature(validate: Geometry -> seq<Issue>, item: Stored, index: nat, ghost before: nat,
                     counts: multiset<Kind>, findings: seq<Finding>)
    returns (more: multiset<Kind>, listed: seq<Finding>)
    ensures ChunkResult(before + 1, |listed|, more, listed)
      == WithFeature(ChunkResult(before, |findings|, counts, findings), index, IssuesOf(validate, item))
  {
    more, listed := counts, findings;
    var issues := IssuesOf(validate, item);
    if issues != [] {
      more := more + multiset(KindsOf(issues));
      listed := listed + [Finding(index, issues)];
    }
  }

  method TakeNext(validate: Geometry -> seq<Issue>, features: seq<Stored>, i: nat, offset: nat, ghost next: nat,
                  counts: multiset<Kind>, findings: seq<Finding>)
    returns (more: multiset<Kind>, listed: seq<Finding>)
    requires i < |features| && next == i + 1
    requires ChunkResult(i, |findings|, counts, findings) == PartUpTo(Reports(validate, features), i, offset)
    ensures ChunkResult(next, |listed|, more, listed) == PartUpTo(Reports(validate, features), next, offset)
  {
    PartGrows(Reports(validate, features), i, offset, ChunkResult(i, |findings|, counts, findings));
    more, listed := TakeFeature(validate, features[i], offset + i, i, counts, findings);
  }

  // The issues of every feature of a chunk.
  method ChunkIssues(validate: Geometry -> seq<Issue>, features: seq<Stored>, offset: nat)
    returns (counts: multiset<Kind>, findings: seq<Finding>)
    ensures ChunkResult(|features|, |findings|, counts, findings)
      == PartUpTo(Reports(validate, features), |features|, offset)
  {
    counts, findings := multiset{}, [];
    for i := 0 to |features|
      invariant ChunkResult(i, |findings|, counts, findings) == PartUpTo(Reports(validate, features), i, offset)
    {
      counts, findings := TakeNext(validate, features, i, offset, i + 1, counts, findings);
    }
  }

  method Process(validate: Geometry -> seq<Issue>, chunk: Chunk) returns (r: ChunkResult)
    ensures r == PartAt(validate, chunk)
  {
    var counts, findings := ChunkIssues(validate, chunk.features, chunk.offset);
    r := ChunkResult(|chunk.features|, |findings|, counts, findings);
  }

  lemma {:induction false} GatheredStep(start: AuditResult, validate: Geometry -> seq<Issue>, chunks: seq<Chunk>,
                                        n: nat, maximum: int)
    requires n < |chunks|
    ensures Gathered(start, validate, chunks, n + 1, maximum)
      == Added(Gathered(start, validate, chunks, n, maximum), PartAt(validate, chunks[n]), maximum)
  {
  }

  // Feed every chunk to the collector, which keeps what it already held.
  method Feed(validate: Geometry -> seq<Issue>, chunks: seq<Chunk>, collector: Collector)
    returns (features: nat, count: nat)
    modifies collector
    ensures features == SizeSum(chunks, |chunks|) && count == |chunks|
    ensures collector.Total() == Gathered(old(collector.Total()), validate, chunks, |chunks|, collector.maximum)
  {
    features, count := 0, 0;
    ghost var start := collector.Total();
    while count < |chunks|
      invariant count <= |chunks| && features == SizeSum(chunks, count)
      invariant collector.Total() == Gathered(start, validate, chunks, count, collector.maximum)
    {
      var part := Process(validate, chunks[count]);
      GatheredStep(start, validate, chunks, count, collector.maximum);
      collector.Add(part);
      features := features + chunks[count].size;
      count := count + 1;
    }
  }

  // The chunks are those the reader yields.
  method Stream(validate: Geometry -> seq<Issue>, metadata: Metadata, chunks: seq<Chunk>, requireCrs: bool,
                   collector: Collector)
    returns (r: Result<StreamingResult>)
    modifies collector
    ensures r.Ok? <==> !(requireCrs && metadata.crs.None?) && metadata.featureCount != Some(0) && chunks != []
    ensures r.Ok? ==>
      && r.value.result == collector.Total()
      && r.value.features == SizeSum(chunks, |chunks|) && r.value.chunks == |chunks|
    ensures r.Ok? ==>
      r.value.result == Gathered(old(collector.Total()), validate, chunks, |chunks|, collector.maximum)
    ensures r.Err? ==> collector.Total() == old(collector.Total())
  {
    if requireCrs && metadata.crs.None? {
      return Err("missing coordinate reference system");
    }
    if metadata.featureCount == Some(0) {
      return Err("empty layer");
    }
    var features, count := Feed(validate, chunks, collector);
    if count == 0 {
      return Err("empty layer");
    }
    var result := collector.Finish();
    r := Ok(StreamingResult(result, features, count));
  }

  // ---- the in-memory side ------------------------------------------------------------------

  ghost predicate AllReadable(items: seq<Stored>) {
    forall item :: item in items ==> !item.Unreadable?
  }

  lemma {:induction false} PrefixOneMore<T>(s: seq<T>, x: T, maximum: int)
    ensures Prefix(s + [x], maximum)
      == if |Prefix(s, maximum)| < maximum then Prefix(s, maximum) + [x] else Prefix(s, maximum)
  {
  }

  // What one more feature does to an audit.
  ghost function OneMore(was: AuditResult, i: nat, issues: seq<Issue>, maximum: int): AuditResult {
    if issues == [] then was.(features := i + 1)
    else AuditResult(i + 1, was.invalid + 1, was.counts + multiset(KindsOf(issues)),
                     if |was.findings| < maximum then was.findings + [Finding(i, issues)] else was.findings)
  }

  lemma {:induction false} AuditGrows(reports: seq<seq<Issue>>, i: nat, maximum: int, was: AuditResult)
    requires i < |reports| && was == Audit(reports, i, maximum)
    ensures Audit(reports, i + 1, maximum) == OneMore(was, i, reports[i], maximum)
  {
    TallyStep(reports, i);
    FindingsStep(reports, i, 0);
    PrefixOneMore(Findings(reports, i, 0), Finding(i, reports[i]), maximum);
  }

  // One turn of the loop over the dataset.
  method AuditNext(validate: Geometry -> seq<Issue>, items: seq<Stored>, i: nat, maximum: int, was: AuditResult)
    returns (r: AuditResult)
    requires i < |items| && was == Audit(Reports(validate, items), i, maximum)
    ensures r == Audit(Reports(validate, items), i + 1, maximum)
  {
    AuditGrows(Reports(validate, items), i, maximum, was);
    r := was.(features := i + 1);
    var issues := IssuesOf(validate, items[i]);
    if issues != [] {
      r := r.(invalid := r.invalid + 1, counts := r.counts + multiset(KindsOf(issues)));
      if |r.findings| < maximum {
        r := r.(findings := r.findings + [Finding(i, issues)]);
      }
    }
  }

  method AuditAll(validate: Geometry -> seq<Issue>, items: seq<Stored>, maximum: int) returns (r: AuditResult)
    ensures r == Audit(Reports(validate, items), |items|, maximum)
  {
    r := NOTHING;
    for i := 0 to |items|
      invariant r == Audit(Reports(validate, items), i, maximum)
    {
      r := AuditNext(validate, items, i, maximum, r);
    }
  }

  // Loading the whole dataset fails when one geometry cannot be read.
  method RunInMemory(validate: Geometry -> seq<Issue>, items: seq<Stored>, maximum: int)
    returns (r: Result<AuditResult>)
    ensures r.Ok? <==> AllReadable(items)
    ensures r.Ok? ==> r.value == Audit(Reports(validate, items), |items|, maximum)
  {
    for i := 0 to |items|
      invariant AllReadable(items[..i])
    {
      if items[i].Unreadable? {
        assert items[i] in items;
        return Err(items[i].reason);
      }
    }
    assert items[..|items|] == items;
    var result := AuditAll(validate, items, maximum);
    r := Ok(result);
  }

  // ---- both sides ---------------------------------------------------------------------------

  // The two engines give the same answer exactly when the dataset is not empty, by its metadata
  // or by its chunks, a required reference system is present, and every geometry can be read.
  method Compare(validate: Geometry -> seq<Issue>, metadata: Metadata, chunks: seq<Chunk>, items: seq<Stored>,
                          requireCrs: bool, maximum: int)
    returns (streamed: Result<StreamingResult>, whole: Result<AuditResult>)
    requires Tiles(chunks, items)
    ensures (streamed.Ok? && whole.Ok? && streamed.value.result == whole.value) <==>
      && !(requireCrs && metadata.crs.None?) && metadata.featureCount != Some(0) && chunks != []
      && AllReadable(items)
    ensures streamed.Ok? ==> streamed.value.features == |items| == streamed.value.result.features
    ensures items == [] && chunks == [] ==> streamed.Err? && whole == Ok(NOTHING)
  {
    var collector := new Collector(maximum);
    streamed := Stream(validate, metadata, chunks, requireCrs, collector);
    whole := RunInMemory(validate, items, maximum);
    EveryChunkingAgrees(validate, chunks, items, maximum);
  }
}
