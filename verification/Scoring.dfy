// Quality scores: size-normalised penalties under a cap per entity and a cap per category.
module Scoring {
  import opened Common
  import Rounding

  datatype Severity = Info | Warning | Error | Critical

  datatype Issue = Issue(
    category: string, severity: Severity, feature: Option<int>, related: Option<int>, fingerprint: string)

  type Entity = (Option<int>, Option<int>)

  datatype Category = Category(name: string, weight: real, cap: real)

  ghost function WeightTotal(categories: seq<Category>): real {
    if categories == [] then 0.0
    else WeightTotal(categories[..|categories| - 1]) + categories[|categories| - 1].weight
  }

  datatype Policy = Policy(categories: seq<Category>, penalty: Severity -> real, repeatedCap: real) {
    ghost predicate Valid() {
      && (forall i, j :: 0 <= i < j < |categories| ==> categories[i].name != categories[j].name)
      && (forall i :: 0 <= i < |categories| ==> categories[i].weight >= 0.0 && 0.0 <= categories[i].cap <= 100.0)
      && WeightTotal(categories) > 0.0
      && (forall s :: penalty(s) >= 0.0)
      && 0.0 <= repeatedCap <= 100.0
    }
  }

  function Min(a: real, b: real): real {
    if a <= b then a else b
  }

  function Max(a: real, b: real): real {
    if a >= b then a else b
  }

  function EntityOf(issue: Issue): Entity {
    (issue.feature, issue.related)
  }

  // The number of distinct features an issue names.
  function Touched(issue: Issue): nat {
    match EntityOf(issue)
    case (None, None) => 0
    case (Some(a), Some(b)) => if a == b then 1 else 2
    case _ => 1
  }

  // The part of the dataset an issue affects; an issue without features affects all of it.
  function Affected(issue: Issue, denominator: nat): real
    requires denominator > 0
  {
    if Touched(issue) == 0 then 1.0 else Touched(issue) as real / denominator as real
  }

  // The features an issue names.
  ghost function Named(issue: Issue): set<int> {
    (if issue.feature.Some? then {issue.feature.value} else {})
    + (if issue.related.Some? then {issue.related.value} else {})
  }

  // The whole penalty for an issue that names no feature, or as many as there are; otherwise the
  // share of it that its features are of the dataset.
  ghost predicate Weighs(policy: Policy, denominator: nat, issue: Issue, r: real)
    requires denominator > 0
  {
    var penalty, named := policy.penalty(issue.severity), |Named(issue)|;
    r == if named == 0 || named >= denominator then penalty else penalty * (named as real / denominator as real)
  }

  lemma {:induction false} TouchedIsNamed(issue: Issue)
    ensures Touched(issue) == |Named(issue)|
  {
    match (issue.feature, issue.related) {
      case (None, None) =>
        assert Named(issue) == {};
      case (Some(a), Some(b)) =>
        assert Named(issue) == {a} + {b};
        assert a != b ==> |{a} + {b}| == 2;
        assert a == b ==> {a} + {b} == {a};
      case (Some(a), None) =>
        assert Named(issue) == {a};
      case (None, Some(b)) =>
        assert Named(issue) == {b};
    }
  }

  lemma {:induction false} ShareIsPart(part: nat, whole: nat)
    requires whole > 0
    ensures part >= whole <==> part as real / whole as real >= 1.0
  {
    var ratio := part as real / whole as real;
    assert ratio * whole as real == part as real;
    if part >= whole {
      assert (ratio - 1.0) * whole as real >= 0.0;
    } else {
      assert (1.0 - ratio) * whole as real > 0.0;
    }
  }

  function Raw(policy: Policy, denominator: nat, issue: Issue): (r: real)
    requires denominator > 0
    ensures Weighs(policy, denominator, issue, r)
  {
    TouchedIsNamed(issue);
    ShareIsPart(Touched(issue), denominator);
    policy.penalty(issue.severity) * Min(1.0, Affected(issue, denominator))
  }

  lemma {:induction false} ProductNonNegative(a: real, b: real)
    requires a >= 0.0 && b >= 0.0
    ensures a * b >= 0.0
  {
  }

  lemma {:induction false} RawNonNegative(policy: Policy, denominator: nat, issue: Issue)
    requires denominator > 0 && policy.penalty(issue.severity) >= 0.0
    ensures Raw(policy, denominator, issue) >= 0.0
  {
    var share := Min(1.0, Affected(issue, denominator));
    assert share >= 0.0;
    ProductNonNegative(policy.penalty(issue.severity), share);
  }

  // ---- sums over entities --------------------------------------------------------

  // `w` gives the raw penalty of an issue.
  ghost function RawSum(issues: seq<Issue>, w: Issue -> real, e: Entity): real {
    if issues == [] then 0.0
    else
      var last := issues[|issues| - 1];
      RawSum(issues[..|issues| - 1], w, e) + (if (last.feature, last.related) == e then w(last) else 0.0)
  }

  ghost function Entities(issues: seq<Issue>): set<Entity> {
    set issue | issue in issues :: (issue.feature, issue.related)
  }

  ghost function CappedSum(issues: seq<Issue>, w: Issue -> real, cap: real): Entity -> real {
    (e: Entity) => Min(cap, RawSum(issues, w, e))
  }

  ghost function SumOver(s: set<Entity>, f: Entity -> real): real
    decreases |s|
  {
    if s == {} then 0.0
    else
      var e :| e in s;
      f(e) + SumOver(s - {e}, f)
  }

  // The order in which a set is summed does not matter.
  lemma {:induction false} SumOverPick(s: set<Entity>, f: Entity -> real, x: Entity)
    requires x in s
    ensures SumOver(s, f) == f(x) + SumOver(s - {x}, f)
    decreases |s|
  {
    var e :| e in s && SumOver(s, f) == f(e) + SumOver(s - {e}, f);
    if e != x {
      SumOverPick(s - {e}, f, x);
      SumOverPick(s - {x}, f, e);
      assert s - {e} - {x} == s - {x} - {e};
    }
  }

  lemma {:induction false} SumOverMonotone(s: set<Entity>, t: set<Entity>, f: Entity -> real, g: Entity -> real)
    requires s <= t && (forall e :: e in s ==> f(e) <= g(e)) && (forall e :: e in t ==> g(e) >= 0.0)
    ensures SumOver(s, f) <= SumOver(t, g)
    decreases |t|
  {
    if t != {} {
      var e :| e in t;
      SumOverPick(t, g, e);
      SumOverMonotone(s - {e}, t - {e}, f, g);
      if e in s {
        SumOverPick(s, f, e);
      } else {
        assert s - {e} == s;
      }
    }
  }

  lemma {:induction false} SumOverSame(s: set<Entity>, f: Entity -> real, g: Entity -> real)
    requires forall e :: e in s ==> f(e) == g(e)
    ensures SumOver(s, f) == SumOver(s, g)
    decreases |s|
  {
    if s != {} {
      var e :| e in s;
      SumOverPick(s, f, e);
      SumOverPick(s, g, e);
      SumOverSame(s - {e}, f, g);
    }
  }

  // Both caps applied without regard to order: each entity's penalties up to the repeated
  // feature cap, their total up to the category cap.
  ghost function EntityTotal(issues: seq<Issue>, w: Issue -> real, repeatedCap: real): real {
    SumOver(Entities(issues), CappedSum(issues, w, repeatedCap))
  }

  ghost function ClosedForm(issues: seq<Issue>, w: Issue -> real, repeatedCap: real, categoryCap: real): real {
    Min(categoryCap, EntityTotal(issues, w, repeatedCap))
  }

  ghost predicate NonNegative(w: Issue -> real) {
    forall issue :: w(issue) >= 0.0
  }

  lemma {:induction false} RawSumNonNegative(issues: seq<Issue>, w: Issue -> real, e: Entity)
    requires NonNegative(w)
    ensures RawSum(issues, w, e) >= 0.0
    ensures e !in Entities(issues) ==> RawSum(issues, w, e) == 0.0
    decreases |issues|
  {
    if issues != [] {
      var front, last := issues[..|issues| - 1], issues[|issues| - 1];
      RawSumNonNegative(front, w, e);
      assert last in issues && forall i :: i in front ==> i in issues;
    }
  }

  lemma {:induction false} EntitiesAppend(issues: seq<Issue>, x: Issue)
    ensures Entities(issues + [x]) == Entities(issues) + {EntityOf(x)}
  {
    assert forall i :: i in issues + [x] <==> i in issues || i == x;
  }

  lemma {:induction false} RawSumAppend(issues: seq<Issue>, w: Issue -> real, x: Issue, e: Entity)
    ensures RawSum(issues + [x], w, e) == RawSum(issues, w, e) + (if EntityOf(x) == e then w(x) else 0.0)
  {
    assert (issues + [x])[..|issues|] == issues;
  }

  lemma {:induction false} CappedAppend(issues: seq<Issue>, w: Issue -> real, cap: real, x: Issue)
    ensures var e, f, g := EntityOf(x), CappedSum(issues, w, cap), CappedSum(issues + [x], w, cap);
      && (forall d :: d != e ==> f(d) == g(d))
      && f(e) == Min(cap, RawSum(issues, w, e)) && g(e) == Min(cap, RawSum(issues, w, e) + w(x))
  {
    var e, f, g := EntityOf(x), CappedSum(issues, w, cap), CappedSum(issues + [x], w, cap);
    forall d ensures d != e ==> f(d) == g(d) {
      RawSumAppend(issues, w, x, d);
    }
    RawSumAppend(issues, w, x, e);
  }

  lemma {:induction false} SumOverReplace(s: set<Entity>, e: Entity, f: Entity -> real, g: Entity -> real)
    requires forall d :: d != e ==> f(d) == g(d)
    requires e !in s ==> f(e) == 0.0
    ensures SumOver(s + {e}, g) == SumOver(s, f) - f(e) + g(e)
  {
    var others := s - {e};
    SumOverPick(s + {e}, g, e);
    assert s + {e} - {e} == others;
    SumOverSame(others, f, g);
    if e in s {
      SumOverPick(s, f, e);
    } else {
      assert others == s;
    }
  }

  // One more issue changes the total by what its own entity may still take.
  lemma {:induction false} TotalAppend(issues: seq<Issue>, w: Issue -> real, cap: real, x: Issue)
    requires NonNegative(w) && cap >= 0.0
    ensures var r := RawSum(issues, w, EntityOf(x));
      EntityTotal(issues + [x], w, cap) == EntityTotal(issues, w, cap) - Min(cap, r) + Min(cap, r + w(x))
  {
    var e, more := EntityOf(x), issues + [x];
    var f, g := CappedSum(issues, w, cap), CappedSum(more, w, cap);
    CappedAppend(issues, w, cap, x);
    EntitiesAppend(issues, x);
    RawSumNonNegative(issues, w, e);
    SumOverReplace(Entities(issues), e, f, g);
    var before, after := SumOver(Entities(issues), f), SumOver(Entities(issues) + {e}, g);
    assert EntityTotal(issues, w, cap) == before;
    assert EntityTotal(more, w, cap) == after;
  }

  // ---- the scoring loop ------------------------------------------------------------

  function Points(points: map<Entity, real>, e: Entity): real {
    if e in points then points[e] else 0.0
  }

  // The running totals are the closed form of the issues seen; each entity's share is exact
  // until the category cap is reached.
  ghost predicate LoopState(seen: seq<Issue>, w: Issue -> real, repeatedCap: real, cap: real,
                            points: real, entityPoints: map<Entity, real>)
  {
    && points == ClosedForm(seen, w, repeatedCap, cap)
    && (points < cap ==> forall e :: Points(entityPoints, e) == Min(repeatedCap, RawSum(seen, w, e)))
  }

  // The deduction is what the closed form grows by: `total` over all entities, `raw` of this
  // entity, `taken` of it so far.
  lemma {:induction false} DeductionFits(total: real, raw: real, weight: real, repeatedCap: real, cap: real,
                                         taken: real)
    requires weight >= 0.0 && raw >= 0.0 && repeatedCap >= 0.0 && cap >= 0.0
    requires total < cap ==> taken == Min(repeatedCap, raw)
    ensures var points, grown := Min(cap, total), total - Min(repeatedCap, raw) + Min(repeatedCap, raw + weight);
      var deduction := Min(weight, Min(Max(0.0, repeatedCap - taken), Max(0.0, cap - points)));
      && points + deduction == Min(cap, grown)
      && (points + deduction < cap ==> taken + deduction == Min(repeatedCap, raw + weight))
  {
  }

  lemma {:induction false} SharesStep(seen: seq<Issue>, w: Issue -> real, repeatedCap: real,
                                      entityPoints: map<Entity, real>, x: Issue, share: real)
    requires forall e :: Points(entityPoints, e) == Min(repeatedCap, RawSum(seen, w, e))
    requires share == Min(repeatedCap, RawSum(seen, w, EntityOf(x)) + w(x))
    ensures forall d :: Points(entityPoints[EntityOf(x) := share], d) == Min(repeatedCap, RawSum(seen + [x], w, d))
  {
    var after := entityPoints[EntityOf(x) := share];
    forall d ensures Points(after, d) == Min(repeatedCap, RawSum(seen + [x], w, d)) {
      RawSumAppend(seen, w, x, d);
      assert d != EntityOf(x) ==> Points(after, d) == Points(entityPoints, d);
    }
  }

  lemma {:induction false} LoopStep(seen: seq<Issue>, w: Issue -> real, repeatedCap: real, cap: real,
                                    points: real, entityPoints: map<Entity, real>, x: Issue)
    requires NonNegative(w) && repeatedCap >= 0.0 && cap >= 0.0
    requires LoopState(seen, w, repeatedCap, cap, points, entityPoints)
    ensures var e := EntityOf(x);
      var taken := Points(entityPoints, e);
      var deduction := Min(w(x), Min(Max(0.0, repeatedCap - taken), Max(0.0, cap - points)));
      LoopState(seen + [x], w, repeatedCap, cap, points + deduction, entityPoints[e := taken + deduction])
  {
    var e := EntityOf(x);
    var taken := Points(entityPoints, e);
    var deduction := Min(w(x), Min(Max(0.0, repeatedCap - taken), Max(0.0, cap - points)));
    RawSumNonNegative(seen, w, e);
    DeductionFits(EntityTotal(seen, w, repeatedCap), RawSum(seen, w, e), w(x), repeatedCap, cap, taken);
    assert points + deduction == ClosedForm(seen + [x], w, repeatedCap, cap) by {
      TotalAppend(seen, w, repeatedCap, x);
    }
    if points + deduction < cap {
      SharesStep(seen, w, repeatedCap, entityPoints, x, taken + deduction);
    }
  }

  lemma {:induction false} LoopStart(w: Issue -> real, repeatedCap: real, cap: real)
    requires repeatedCap >= 0.0 && cap >= 0.0
    ensures LoopState([], w, repeatedCap, cap, 0.0, map[])
  {
    assert Entities([]) == {};
  }

  datatype Deduction = Deduction(category: string, fingerprint: string, severity: Severity, points: real)

  function InCategory(issues: seq<Issue>, name: string): (r: seq<Issue>)
    ensures forall x :: x in r <==> x in issues && x.category == name
    ensures |r| <= |issues|
  {
    if issues == [] then []
    else
      var rest := InCategory(issues[..|issues| - 1], name);
      var last := issues[|issues| - 1];
      assert forall x :: x in issues <==> x in issues[..|issues| - 1] || x == last;
      if last.category == name then rest + [last] else rest
  }

  // The issues of the category, each once, in the order they come.
  ghost predicate Picks(issues: seq<Issue>, name: string, picked: seq<Issue>, at: seq<nat>) {
    && |at| == |picked| && (forall k :: 0 <= k < |at| ==> at[k] < |issues| && picked[k] == issues[at[k]])
    && (forall j, k :: 0 <= j < k < |at| ==> at[j] < at[k])
    && (forall i: nat :: i < |issues| ==> (issues[i].category == name <==> i in at))
  }

  lemma {:induction false} PickLast(issues: seq<Issue>, x: Issue, name: string, picked: seq<Issue>, at: seq<nat>)
    requires Picks(issues, name, picked, at)
    ensures if x.category == name then Picks(issues + [x], name, picked + [x], at + [|issues|])
            else Picks(issues + [x], name, picked, at)
  {
    var more, last := issues + [x], |issues|;
    if x.category == name {
      var there := at + [last];
      assert there[|at|] == last;
      forall i: nat | i < |more| ensures more[i].category == name <==> i in there {
        assert i in there <==> i in at || i == last;
        assert i < last ==> more[i] == issues[i];
      }
    } else {
      forall i: nat | i < |more| ensures more[i].category == name <==> i in at {
        assert i < last ==> more[i] == issues[i];
      }
    }
  }

  lemma {:induction false} InCategoryPicks(issues: seq<Issue>, name: string) returns (at: seq<nat>)
    ensures Picks(issues, name, InCategory(issues, name), at)
    decreases |issues|
  {
    if issues == [] {
      at := [];
    } else {
      var front, x := issues[..|issues| - 1], issues[|issues| - 1];
      at := InCategoryPicks(front, name);
      PickLast(front, x, name, InCategory(front, name), at);
      assert front + [x] == issues;
      at := if x.category == name then at + [|front|] else at;
    }
  }

  ghost function Total(deductions: seq<real>): real {
    if deductions == [] then 0.0 else Total(deductions[..|deductions| - 1]) + deductions[|deductions| - 1]
  }

  lemma {:induction false} TotalAppendOne(deductions: seq<real>, d: real)
    ensures Total(deductions + [d]) == Total(deductions) + d
  {
    assert (deductions + [d])[..|deductions|] == deductions;
  }

  ghost function Weight(policy: Policy, denominator: nat): Issue -> real
    requires denominator > 0
  {
    (issue: Issue) => Raw(policy, denominator, issue)
  }

  lemma {:induction false} WeightNonNegative(policy: Policy, denominator: nat)
    requires denominator > 0 && policy.Valid()
    ensures NonNegative(Weight(policy, denominator))
  {
    forall issue ensures Weight(policy, denominator)(issue) >= 0.0 {
      RawNonNegative(policy, denominator, issue);
    }
  }

  // What each issue adds to the points already lost by the issues before it.
  ghost function Marginals(issues: seq<Issue>, w: Issue -> real, repeatedCap: real, cap: real): (r: seq<real>)
    ensures |r| == |issues|
  {
    if issues == [] then []
    else
      var front := issues[..|issues| - 1];
      Marginals(front, w, repeatedCap, cap)
        + [ClosedForm(issues, w, repeatedCap, cap) - ClosedForm(front, w, repeatedCap, cap)]
  }

  lemma {:induction false} MarginalsAppend(issues: seq<Issue>, w: Issue -> real, repeatedCap: real, cap: real,
                                           x: Issue, d: real)
    requires d == ClosedForm(issues + [x], w, repeatedCap, cap) - ClosedForm(issues, w, repeatedCap, cap)
    ensures Marginals(issues + [x], w, repeatedCap, cap) == Marginals(issues, w, repeatedCap, cap) + [d]
  {
    var more := issues + [x];
    var front := more[..|more| - 1];
    assert front == issues;
    var earlier, all := Marginals(front, w, repeatedCap, cap), Marginals(more, w, repeatedCap, cap);
    assert all == earlier + [d];
  }

  // The deductions of a category add up to the points it loses.
  lemma {:induction false} MarginalsSum(issues: seq<Issue>, w: Issue -> real, repeatedCap: real, cap: real)
    requires cap >= 0.0
    ensures Total(Marginals(issues, w, repeatedCap, cap)) == ClosedForm(issues, w, repeatedCap, cap)
    decreases |issues|
  {
    if issues == [] {
      assert Entities([]) == {};
    } else {
      var front := issues[..|issues| - 1];
      MarginalsSum(front, w, repeatedCap, cap);
      TotalAppendOne(Marginals(front, w, repeatedCap, cap),
                     ClosedForm(issues, w, repeatedCap, cap) - ClosedForm(front, w, repeatedCap, cap));
    }
  }

  // One explained deduction per issue, in order.
  ghost function Explained(issues: seq<Issue>, exact: seq<real>, name: string): seq<Deduction>
    requires |exact| <= |issues|
  {
    seq(|exact|, i requires 0 <= i < |exact| =>
      Deduction(name, issues[i].fingerprint, issues[i].severity, Rounding.Round4(exact[i])))
  }

  lemma {:induction false} ExplainedAppend(issues: seq<Issue>, exact: seq<real>, name: string, d: real)
    requires |exact| < |issues|
    ensures var issue := issues[|exact|];
      Explained(issues, exact + [d], name)
        == Explained(issues, exact, name) + [Deduction(name, issue.fingerprint, issue.severity, Rounding.Round4(d))]
  {
  }

  // One turn of the loop: what this issue may still take, and what its entity then has.
  method DeductIssue(issue: Issue, policy: Policy, category: Category, denominator: nat,
                     points: real, entityPoints: map<Entity, real>, ghost seen: seq<Issue>)
    returns (deduction: real, after: map<Entity, real>)
    requires policy.Valid() && denominator > 0 && category.cap >= 0.0
    requires LoopState(seen, Weight(policy, denominator), policy.repeatedCap, category.cap, points, entityPoints)
    ensures LoopState(seen + [issue], Weight(policy, denominator), policy.repeatedCap, category.cap,
                      points + deduction, after)
  {
    var e := EntityOf(issue);
    var raw := Raw(policy, denominator, issue);
    var entityRemaining := Max(0.0, policy.repeatedCap - Points(entityPoints, e));
    var categoryRemaining := Max(0.0, category.cap - points);
    deduction := Min(raw, Min(entityRemaining, categoryRemaining));
    after := entityPoints[e := Points(entityPoints, e) + deduction];
    WeightNonNegative(policy, denominator);
    LoopStep(seen, Weight(policy, denominator), policy.repeatedCap, category.cap, points, entityPoints, issue);
  }

  // The points lost in one category are the order-free closed form, and each issue's
  // deduction is its marginal share of them.
  method DeductCategory(issues: seq<Issue>, policy: Policy, category: Category, denominator: nat)
    returns (points: real, deductions: seq<Deduction>)
    requires policy.Valid() && denominator > 0 && category.cap >= 0.0
    ensures var w := Weight(policy, denominator);
      && points == ClosedForm(issues, w, policy.repeatedCap, category.cap)
      && deductions == Explained(issues, Marginals(issues, w, policy.repeatedCap, category.cap), category.name)
  {
    points, deductions := 0.0, [];
    var entityPoints: map<Entity, real> := map[];
    ghost var w, r := Weight(policy, denominator), policy.repeatedCap;
    LoopStart(w, r, category.cap);
    ghost var seen: seq<Issue>, exact: seq<real> := [], [];
    for i := 0 to |issues|
      invariant seen == issues[..i] && LoopState(seen, w, r, category.cap, points, entityPoints)
      invariant |exact| == i && exact == Marginals(seen, w, r, category.cap)
      invariant deductions == Explained(issues, exact, category.name)
    {
      var issue := issues[i];
      var deduction, after := DeductIssue(issue, policy, category, denominator, points, entityPoints, seen);
      MarginalsAppend(seen, w, r, category.cap, issue, deduction);
      ExplainedAppend(issues, exact, category.name, deduction);
      entityPoints := after;
      points := points + deduction;
      deductions := deductions
        + [Deduction(category.name, issue.fingerprint, issue.severity, Rounding.Round4(deduction))];
      exact := exact + [deduction];
      seen := seen + [issue];
    }
    assert seen == issues;
  }

  // ---- category scores and the overall score -----------------------------------------

  datatype CategoryScore = CategoryScore(category: string, score: real, issueCount: nat)

  datatype Report = Report(scores: seq<CategoryScore>, deductions: seq<Deduction>, overall: real)

  function ScoreOfPoints(points: real): real {
    Rounding.Round2(Max(0.0, 100.0 - points))
  }

  // The points a category loses, without the loop.
  ghost function PointsLost(issues: seq<Issue>, policy: Policy, category: Category, denominator: nat): real
    requires denominator > 0
  {
    ClosedForm(InCategory(issues, category.name), Weight(policy, denominator), policy.repeatedCap, category.cap)
  }

  // The score of a category, without the loop.
  ghost function CategoryScoreOf(issues: seq<Issue>, policy: Policy, category: Category, denominator: nat): real
    requires denominator > 0
  {
    ScoreOfPoints(PointsLost(issues, policy, category, denominator))
  }

  lemma {:induction false} ScoreIsRest(issues: seq<Issue>, policy: Policy, category: Category, denominator: nat)
    requires denominator > 0 && category.cap <= 100.0
    ensures Rounding.Rounds(100.0 - PointsLost(issues, policy, category, denominator), 100.0,
                            CategoryScoreOf(issues, policy, category, denominator))
  {
    assert PointsLost(issues, policy, category, denominator) <= category.cap;
  }

  ghost function ScoresOf(issues: seq<Issue>, policy: Policy, denominator: nat): (r: seq<real>)
    requires denominator > 0
    ensures |r| == |policy.categories|
  {
    seq(|policy.categories|, i requires 0 <= i < |policy.categories| =>
      CategoryScoreOf(issues, policy, policy.categories[i], denominator))
  }

  ghost function WeightedSum(scores: seq<real>, categories: seq<Category>): real
    requires |scores| == |categories|
  {
    if scores == [] then 0.0
    else
      var last := |scores| - 1;
      WeightedSum(scores[..last], categories[..last]) + scores[last] * categories[last].weight
  }

  predicate Severe(issues: seq<Issue>) {
    exists i :: 0 <= i < |issues| && (issues[i].severity == Error || issues[i].severity == Critical)
  }

  function Capped(rounded: real, severe: bool): real {
    if rounded >= 100.0 && severe then 99.9 else rounded
  }

  ghost function OverallOf(scores: seq<real>, categories: seq<Category>, severe: bool): real
    requires |scores| == |categories| && WeightTotal(categories) > 0.0
  {
    Capped(Rounding.Round1(WeightedSum(scores, categories) / WeightTotal(categories)), severe)
  }

  ghost function CategoryScores(issues: seq<Issue>, policy: Policy, denominator: nat, k: nat): seq<CategoryScore>
    requires denominator > 0 && k <= |policy.categories|
  {
    seq(k, i requires 0 <= i < k =>
      CategoryScore(policy.categories[i].name,
                    CategoryScoreOf(issues, policy, policy.categories[i], denominator),
                    |InCategory(issues, policy.categories[i].name)|))
  }

  lemma {:induction false} CategoryScoresAppend(issues: seq<Issue>, policy: Policy, denominator: nat, k: nat)
    requires denominator > 0 && k < |policy.categories|
    ensures var category := policy.categories[k];
      CategoryScores(issues, policy, denominator, k + 1)
        == CategoryScores(issues, policy, denominator, k)
           + [CategoryScore(category.name, CategoryScoreOf(issues, policy, category, denominator),
                            |InCategory(issues, category.name)|)]
  {
    var before, after := CategoryScores(issues, policy, denominator, k),
                         CategoryScores(issues, policy, denominator, k + 1);
    assert |after| == k + 1 && after[..k] == before;
    assert after == after[..k] + [after[k]];
  }

  ghost function AllDeductions(issues: seq<Issue>, policy: Policy, denominator: nat, k: nat): seq<Deduction>
    requires denominator > 0 && k <= |policy.categories|
  {
    if k == 0 then []
    else
      var category := policy.categories[k - 1];
      var mine := InCategory(issues, category.name);
      AllDeductions(issues, policy, denominator, k - 1)
        + Explained(mine, Marginals(mine, Weight(policy, denominator), policy.repeatedCap, category.cap), category.name)
  }

  method ScoreCategories(issues: seq<Issue>, policy: Policy, denominator: nat)
    returns (scores: seq<CategoryScore>, deductions: seq<Deduction>)
    requires policy.Valid() && denominator > 0
    ensures scores == CategoryScores(issues, policy, denominator, |policy.categories|)
    ensures deductions == AllDeductions(issues, policy, denominator, |policy.categories|)
  {
    scores, deductions := [], [];
    for i := 0 to |policy.categories|
      invariant scores == CategoryScores(issues, policy, denominator, i)
      invariant deductions == AllDeductions(issues, policy, denominator, i)
    {
      var category := policy.categories[i];
      var mine := InCategory(issues, category.name);
      var points, found := DeductCategory(mine, policy, category, denominator);
      deductions := deductions + found;
      var score := CategoryScore(category.name, ScoreOfPoints(points), |mine|);
      assert score.score == CategoryScoreOf(issues, policy, category, denominator);
      CategoryScoresAppend(issues, policy, denominator, i);
      scores := scores + [score];
    }
  }

  method WeightedMean(scores: seq<real>, categories: seq<Category>) returns (mean: real)
    requires |scores| == |categories| && WeightTotal(categories) > 0.0
    ensures mean == WeightedSum(scores, categories) / WeightTotal(categories)
  {
    var sum, weights := 0.0, 0.0;
    for i := 0 to |scores|
      invariant sum == WeightedSum(scores[..i], categories[..i])
      invariant weights == WeightTotal(categories[..i])
    {
      assert scores[..i + 1][..i] == scores[..i] && categories[..i + 1][..i] == categories[..i];
      sum := sum + scores[i] * categories[i].weight;
      weights := weights + categories[i].weight;
    }
    assert scores[..|scores|] == scores && categories[..|scores|] == categories;
    mean := sum / weights;
  }

  method OverallScore(scores: seq<real>, categories: seq<Category>, severe: bool) returns (overall: real)
    requires |scores| == |categories| && WeightTotal(categories) > 0.0
    ensures overall == OverallOf(scores, categories, severe)
  {
    var mean := WeightedMean(scores, categories);
    overall := Capped(Rounding.Round1(mean), severe);
  }

  // The rounded mean, which an error or a critical issue keeps below 100.
  ghost predicate OverallIs(overall: real, mean: real, issues: seq<Issue>) {
    exists rounded ::
      && Rounding.Rounds(mean, 10.0, rounded)
      && overall == if rounded >= 100.0 && exists x :: x in issues && (x.severity == Error || x.severity == Critical)
                    then 99.9 else rounded
  }

  lemma {:induction false} OverallIsCapped(scores: seq<real>, categories: seq<Category>, issues: seq<Issue>)
    requires |scores| == |categories| && WeightTotal(categories) > 0.0
    ensures OverallIs(OverallOf(scores, categories, Severe(issues)),
                      WeightedSum(scores, categories) / WeightTotal(categories), issues)
  {
    var mean := WeightedSum(scores, categories) / WeightTotal(categories);
    var rounded := Rounding.Round1(mean);
    assert Rounding.Rounds(mean, 10.0, rounded);
    if x :| x in issues && (x.severity == Error || x.severity == Critical) {
      var i :| 0 <= i < |issues| && issues[i] == x;
    }
  }

  // What the report says about the categories: their scores to two decimals, from the points
  // they lose, and how many issues they have.
  ghost predicate ScoresTell(issues: seq<Issue>, policy: Policy, denominator: nat, scores: seq<CategoryScore>)
    requires denominator > 0
  {
    && |scores| == |policy.categories|
    && forall i :: 0 <= i < |scores| ==>
         && scores[i].category == policy.categories[i].name
         && scores[i].score == ScoresOf(issues, policy, denominator)[i]
         && Rounding.Rounds(100.0 - PointsLost(issues, policy, policy.categories[i], denominator), 100.0,
                            scores[i].score)
         && scores[i].issueCount == |InCategory(issues, policy.categories[i].name)|
  }

  lemma {:induction false} CategoryScoresTell(issues: seq<Issue>, policy: Policy, denominator: nat)
    requires policy.Valid() && denominator > 0
    ensures ScoresTell(issues, policy, denominator,
                       CategoryScores(issues, policy, denominator, |policy.categories|))
  {
    forall i | 0 <= i < |policy.categories|
      ensures Rounding.Rounds(100.0 - PointsLost(issues, policy, policy.categories[i], denominator), 100.0,
                              CategoryScoreOf(issues, policy, policy.categories[i], denominator))
    {
      ScoreIsRest(issues, policy, policy.categories[i], denominator);
    }
  }

  lemma {:induction false} ScoreValues(issues: seq<Issue>, policy: Policy, denominator: nat, scores: seq<CategoryScore>)
    requires denominator > 0 && ScoresTell(issues, policy, denominator, scores)
    ensures seq(|scores|, i requires 0 <= i < |scores| => scores[i].score) == ScoresOf(issues, policy, denominator)
  {
  }

  method ScoreIssues(issues: seq<Issue>, featureCount: int, policy: Policy) returns (result: Result<Report>)
    requires policy.Valid()
    ensures result.Err? <==> featureCount < 0
    ensures result.Ok? ==>
      var denominator := if featureCount < 1 then 1 else featureCount;
      var scores := ScoresOf(issues, policy, denominator);
      && ScoresTell(issues, policy, denominator, result.value.scores)
      && result.value.deductions == AllDeductions(issues, policy, denominator, |policy.categories|)
      && result.value.overall == OverallOf(scores, policy.categories, Severe(issues))
      && OverallIs(result.value.overall, WeightedSum(scores, policy.categories) / WeightTotal(policy.categories),
                   issues)
  {
    if featureCount < 0 {
      return Err("feature_count must be non-negative");
    }
    var denominator := if featureCount < 1 then 1 else featureCount;
    var scores, deductions := ScoreCategories(issues, policy, denominator);
    var values := seq(|scores|, i requires 0 <= i < |scores| => scores[i].score);
    CategoryScoresTell(issues, policy, denominator);
    ScoreValues(issues, policy, denominator, scores);
    var overall := OverallScore(values, policy.categories, Severe(issues));
    OverallIsCapped(values, policy.categories, issues);
    result := Ok(Report(scores, deductions, overall));
  }
}
