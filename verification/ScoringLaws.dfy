// What the scores promise: no dependence on the order of the findings, no gain from an
// added finding, bounds, and a perfect score only without errors.
module ScoringLaws {
  import opened Common
  import opened Scoring
  import Rounding
  import Sorting

  // ---- order ---------------------------------------------------------------------

  lemma {:induction false} RawSumRemove(issues: seq<Issue>, w: Issue -> real, e: Entity, i: nat)
    requires i < |issues|
    ensures RawSum(issues, w, e)
         == RawSum(issues[..i] + issues[i + 1..], w, e) + (if EntityOf(issues[i]) == e then w(issues[i]) else 0.0)
    decreases |issues|
  {
    var last := |issues| - 1;
    RemoveOne(issues, i);
    if i < last {
      var front := issues[..last];
      RawSumRemove(front, w, e, i);
      RawSumAppend(front[..i] + front[i + 1..], w, issues[last], e);
    }
  }

  lemma {:induction false} RawSumAnyOrder(issues: seq<Issue>, other: seq<Issue>, w: Issue -> real, e: Entity)
    requires multiset(issues) == multiset(other)
    ensures RawSum(issues, w, e) == RawSum(other, w, e)
    decreases |issues|
  {
    if issues == [] {
      Sorting.SameMembers(issues, other);
    } else {
      var i := Sorting.MatchLast(issues, other);
      RawSumAnyOrder(issues[..|issues| - 1], other[..i] + other[i + 1..], w, e);
      RawSumRemove(other, w, e, i);
    }
  }

  lemma {:induction false} ClosedFormAnyOrder(issues: seq<Issue>, other: seq<Issue>, w: Issue -> real,
                                              repeatedCap: real, cap: real)
    requires multiset(issues) == multiset(other)
    ensures ClosedForm(issues, w, repeatedCap, cap) == ClosedForm(other, w, repeatedCap, cap)
  {
    Sorting.SameMembers(issues, other);
    assert Entities(issues) == Entities(other);
    var f, g := CappedSum(issues, w, repeatedCap), CappedSum(other, w, repeatedCap);
    forall e | e in Entities(issues) ensures f(e) == g(e) {
      RawSumAnyOrder(issues, other, w, e);
    }
    SumOverSame(Entities(issues), f, g);
  }

  lemma {:induction false} InCategoryMultiset(issues: seq<Issue>, name: string, x: Issue)
    ensures multiset(InCategory(issues, name))[x] == if x.category == name then multiset(issues)[x] else 0
    decreases |issues|
  {
    if issues != [] {
      var front, last := issues[..|issues| - 1], issues[|issues| - 1];
      InCategoryMultiset(front, name, x);
      assert issues == front + [last];
      assert multiset(issues) == multiset(front) + multiset{last};
    }
  }

  lemma {:induction false} InCategoryAnyOrder(issues: seq<Issue>, other: seq<Issue>, name: string)
    requires multiset(issues) == multiset(other)
    ensures multiset(InCategory(issues, name)) == multiset(InCategory(other, name))
  {
    forall x ensures multiset(InCategory(issues, name))[x] == multiset(InCategory(other, name))[x] {
      InCategoryMultiset(issues, name, x);
      InCategoryMultiset(other, name, x);
    }
  }

  lemma {:induction false} SevereByMembership(issues: seq<Issue>)
    ensures Severe(issues) <==> exists x :: x in issues && (x.severity == Error || x.severity == Critical)
  {
    if Severe(issues) {
      var i :| 0 <= i < |issues| && (issues[i].severity == Error || issues[i].severity == Critical);
      assert issues[i] in issues;
    }
  }

  lemma {:induction false} SevereAnyOrder(issues: seq<Issue>, other: seq<Issue>)
    requires multiset(issues) == multiset(other)
    ensures Severe(issues) == Severe(other)
  {
    Sorting.SameMembers(issues, other);
    SevereByMembership(issues);
    SevereByMembership(other);
  }

  // Permuting the findings changes no category score, no issue count and no overall score.
  lemma {:induction false} ScoresIgnoreOrder(issues: seq<Issue>, other: seq<Issue>, policy: Policy, denominator: nat)
    requires policy.Valid() && denominator > 0 && multiset(issues) == multiset(other)
    ensures ScoresOf(issues, policy, denominator) == ScoresOf(other, policy, denominator)
    ensures forall name :: |InCategory(issues, name)| == |InCategory(other, name)|
    ensures OverallOf(ScoresOf(issues, policy, denominator), policy.categories, Severe(issues))
         == OverallOf(ScoresOf(other, policy, denominator), policy.categories, Severe(other))
  {
    var w := Weight(policy, denominator);
    forall i | 0 <= i < |policy.categories|
      ensures ScoresOf(issues, policy, denominator)[i] == ScoresOf(other, policy, denominator)[i]
    {
      var category := policy.categories[i];
      InCategoryAnyOrder(issues, other, category.name);
      ClosedFormAnyOrder(InCategory(issues, category.name), InCategory(other, category.name),
                         w, policy.repeatedCap, category.cap);
    }
    forall name ensures |InCategory(issues, name)| == |InCategory(other, name)| {
      InCategoryAnyOrder(issues, other, name);
      Sorting.SameMembers(InCategory(issues, name), InCategory(other, name));
    }
    SevereAnyOrder(issues, other);
  }

  // ---- adding a finding ------------------------------------------------------------

  lemma {:induction false} ClosedFormGrows(issues: seq<Issue>, w: Issue -> real, repeatedCap: real, cap: real, x: Issue)
    requires NonNegative(w) && repeatedCap >= 0.0
    ensures ClosedForm(issues, w, repeatedCap, cap) <= ClosedForm(issues + [x], w, repeatedCap, cap)
  {
    TotalAppend(issues, w, repeatedCap, x);
  }

  lemma {:induction false} InCategoryAppend(issues: seq<Issue>, name: string, x: Issue)
    ensures InCategory(issues + [x], name)
         == if x.category == name then InCategory(issues, name) + [x] else InCategory(issues, name)
  {
    assert (issues + [x])[..|issues|] == issues;
  }

  lemma {:induction false} MorePointsLowerScore(fewer: real, more: real)
    requires fewer <= more
    ensures ScoreOfPoints(more) <= ScoreOfPoints(fewer)
  {
    Rounding.RoundMonotone(Max(0.0, 100.0 - more), Max(0.0, 100.0 - fewer));
  }

  lemma {:induction false} AppendLowersScore(issues: seq<Issue>, policy: Policy, category: Category, denominator: nat,
                                             x: Issue)
    requires policy.Valid() && denominator > 0
    ensures CategoryScoreOf(issues + [x], policy, category, denominator)
         <= CategoryScoreOf(issues, policy, category, denominator)
  {
    var w, mine := Weight(policy, denominator), InCategory(issues, category.name);
    var more := InCategory(issues + [x], category.name);
    WeightNonNegative(policy, denominator);
    InCategoryAppend(issues, category.name, x);
    ClosedFormGrows(mine, w, policy.repeatedCap, category.cap, x);
    var before := ClosedForm(mine, w, policy.repeatedCap, category.cap);
    var after := ClosedForm(more, w, policy.repeatedCap, category.cap);
    assert before <= after;
    MorePointsLowerScore(before, after);
  }

  lemma {:induction false} ProductMonotone(low: real, high: real, weight: real)
    requires low <= high && weight >= 0.0
    ensures low * weight <= high * weight
  {
  }

  lemma {:induction false} WeightedSumMonotone(low: seq<real>, high: seq<real>, categories: seq<Category>)
    requires |low| == |high| == |categories|
    requires forall i :: 0 <= i < |low| ==> low[i] <= high[i] && categories[i].weight >= 0.0
    ensures WeightedSum(low, categories) <= WeightedSum(high, categories)
    decreases |low|
  {
    if low != [] {
      var last := |low| - 1;
      WeightedSumMonotone(low[..last], high[..last], categories[..last]);
      ProductMonotone(low[last], high[last], categories[last].weight);
    }
  }

  lemma {:induction false} QuotientMonotone(low: real, high: real, total: real)
    requires low <= high && total > 0.0
    ensures low / total <= high / total
  {
  }

  lemma {:induction false} CappedMonotone(low: real, high: real, severe: bool, lowSevere: bool)
    requires low <= high && (severe ==> lowSevere)
    ensures Capped(Rounding.Round1(low), lowSevere) <= Capped(Rounding.Round1(high), severe)
  {
    Rounding.RoundMonotone(low, high);
    assert Rounding.Round1(low) < 100.0 ==> Rounding.Nearest(low * 10.0) <= 999;
  }

  lemma {:induction false} InsertIsAppend(issues: seq<Issue>, k: nat, x: Issue)
    requires k <= |issues|
    ensures multiset(issues[..k] + [x] + issues[k..]) == multiset(issues + [x])
  {
    assert issues == issues[..k] + issues[k..];
  }

  lemma {:induction false} SevereAppend(issues: seq<Issue>, x: Issue)
    ensures Severe(issues) ==> Severe(issues + [x])
  {
    if Severe(issues) {
      var i :| 0 <= i < |issues| && (issues[i].severity == Error || issues[i].severity == Critical);
      assert (issues + [x])[i] == issues[i];
    }
  }

  // Adding any finding at any position raises neither a category score nor the overall score.
  lemma {:induction false} AddedFindingNeverRaises(issues: seq<Issue>, k: nat, x: Issue, policy: Policy,
                                                   denominator: nat)
    requires policy.Valid() && denominator > 0 && k <= |issues|
    ensures var more := issues[..k] + [x] + issues[k..];
      var before, after := ScoresOf(issues, policy, denominator), ScoresOf(more, policy, denominator);
      && (forall i :: 0 <= i < |before| ==> after[i] <= before[i])
      && OverallOf(after, policy.categories, Severe(more)) <= OverallOf(before, policy.categories, Severe(issues))
  {
    var more, appended := issues[..k] + [x] + issues[k..], issues + [x];
    InsertIsAppend(issues, k, x);
    ScoresIgnoreOrder(more, appended, policy, denominator);
    var before, after := ScoresOf(issues, policy, denominator), ScoresOf(appended, policy, denominator);
    forall i | 0 <= i < |before| ensures after[i] <= before[i] {
      AppendLowersScore(issues, policy, policy.categories[i], denominator, x);
    }
    WeightedSumMonotone(after, before, policy.categories);
    var total := WeightTotal(policy.categories);
    QuotientMonotone(WeightedSum(after, policy.categories), WeightedSum(before, policy.categories), total);
    SevereAppend(issues, x);
    CappedMonotone(WeightedSum(after, policy.categories) / total, WeightedSum(before, policy.categories) / total,
                   Severe(issues), Severe(appended));
  }

  // ---- bounds ------------------------------------------------------------------------

  lemma {:induction false} SumOverZero(s: set<Entity>, f: Entity -> real)
    requires forall e :: f(e) == 0.0
    ensures SumOver(s, f) == 0.0
    decreases |s|
  {
    if s != {} {
      var e :| e in s;
      SumOverPick(s, f, e);
      SumOverZero(s - {e}, f);
    }
  }

  lemma {:induction false} ClosedFormBounds(issues: seq<Issue>, w: Issue -> real, repeatedCap: real, cap: real)
    requires NonNegative(w) && repeatedCap >= 0.0 && cap >= 0.0
    ensures 0.0 <= ClosedForm(issues, w, repeatedCap, cap) <= cap
  {
    var zero: Entity -> real := (e: Entity) => 0.0;
    var f := CappedSum(issues, w, repeatedCap);
    forall e | e in Entities(issues) ensures zero(e) <= f(e) {
      RawSumNonNegative(issues, w, e);
    }
    SumOverZero(Entities(issues), zero);
    SumOverMonotone(Entities(issues), Entities(issues), zero, f);
  }

  lemma {:induction false} HundredIsKept()
    ensures Rounding.Round2(100.0) == 100.0 && Rounding.Round1(100.0) == 100.0 && Rounding.Round1(0.0) == 0.0
  {
    Rounding.NearestOfInteger(10000);
    Rounding.NearestOfInteger(1000);
    Rounding.NearestOfInteger(0);
  }

  // A category score lies between the rounded complement of its cap and 100.
  lemma {:induction false} CategoryScoreBounds(issues: seq<Issue>, policy: Policy, category: Category, denominator: nat)
    requires policy.Valid() && denominator > 0 && 0.0 <= category.cap <= 100.0
    ensures Rounding.Round2(100.0 - category.cap)
      <= CategoryScoreOf(issues, policy, category, denominator) <= 100.0
  {
    var w, mine := Weight(policy, denominator), InCategory(issues, category.name);
    WeightNonNegative(policy, denominator);
    ClosedFormBounds(mine, w, policy.repeatedCap, category.cap);
    var points := ClosedForm(mine, w, policy.repeatedCap, category.cap);
    Rounding.RoundMonotone(100.0 - category.cap, Max(0.0, 100.0 - points));
    Rounding.RoundMonotone(Max(0.0, 100.0 - points), 100.0);
    HundredIsKept();
  }

  lemma {:induction false} WeightedSumBounds(scores: seq<real>, categories: seq<Category>)
    requires |scores| == |categories|
    requires forall i :: 0 <= i < |scores| ==> 0.0 <= scores[i] <= 100.0 && categories[i].weight >= 0.0
    ensures 0.0 <= WeightedSum(scores, categories) <= 100.0 * WeightTotal(categories)
    decreases |scores|
  {
    if scores != [] {
      var last := |scores| - 1;
      WeightedSumBounds(scores[..last], categories[..last]);
      ProductMonotone(0.0, scores[last], categories[last].weight);
      ProductMonotone(scores[last], 100.0, categories[last].weight);
      var before, weight, gain := WeightTotal(categories[..last]), categories[last].weight,
                                  scores[last] * categories[last].weight;
      assert WeightTotal(categories) == before + weight;
      assert WeightedSum(scores, categories) == WeightedSum(scores[..last], categories[..last]) + gain;
      assert gain <= 100.0 * weight;
    }
  }

  lemma {:induction false} ComplementNonNegative(cap: real)
    requires 0.0 <= cap <= 100.0
    ensures Rounding.Round2(100.0 - cap) >= 0.0
  {
    Rounding.RoundMonotone(0.0, 100.0 - cap);
    Rounding.NearestOfInteger(0);
  }

  lemma {:induction false} MeanBounds(sum: real, total: real)
    requires total > 0.0 && 0.0 <= sum <= 100.0 * total
    ensures 0.0 <= sum / total <= 100.0
  {
    QuotientMonotone(0.0, sum, total);
    QuotientMonotone(sum, 100.0 * total, total);
  }

  // The overall score lies in [0, 100] and reaches 100 only without errors.
  lemma {:induction false} OverallBounds(issues: seq<Issue>, policy: Policy, denominator: nat)
    requires policy.Valid() && denominator > 0
    ensures var overall := OverallOf(ScoresOf(issues, policy, denominator), policy.categories, Severe(issues));
      && 0.0 <= overall <= 100.0
      && (overall == 100.0 ==> forall x :: x in issues ==> x.severity != Error && x.severity != Critical)
  {
    var scores, total := ScoresOf(issues, policy, denominator), WeightTotal(policy.categories);
    forall i | 0 <= i < |scores| ensures 0.0 <= scores[i] <= 100.0 {
      CategoryScoreBounds(issues, policy, policy.categories[i], denominator);
      ComplementNonNegative(policy.categories[i].cap);
    }
    WeightedSumBounds(scores, policy.categories);
    var mean := WeightedSum(scores, policy.categories) / total;
    MeanBounds(WeightedSum(scores, policy.categories), total);
    Rounding.RoundMonotone(0.0, mean);
    Rounding.RoundMonotone(mean, 100.0);
    HundredIsKept();
    SevereByMembership(issues);
  }

  // ---- when the complement of the cap is a true floor --------------------------------

  // n findings of one severity, each on a feature of its own.
  ghost function Spread(n: nat, name: string, severity: Severity): (r: seq<Issue>)
    ensures |r| == n && forall i :: 0 <= i < n ==> r[i] == Issue(name, severity, Some(i), None, "")
  {
    seq(n, i requires 0 <= i < n => Issue(name, severity, Some(i), None, ""))
  }

  lemma {:induction false} SpreadGrows(n: nat, name: string, severity: Severity)
    requires n > 0
    ensures var front, x := Spread(n - 1, name, severity), Issue(name, severity, Some(n - 1), None, "");
      Spread(n, name, severity) == front + [x] && EntityOf(x) !in Entities(front)
  {
  }

  lemma {:induction false} SpreadTotal(n: nat, name: string, severity: Severity, w: Issue -> real, repeatedCap: real,
                                       each: real)
    requires NonNegative(w) && repeatedCap >= 0.0
    requires forall i: int :: w(Issue(name, severity, Some(i), None, "")) == each
    ensures EntityTotal(Spread(n, name, severity), w, repeatedCap) == Times(n, Min(repeatedCap, each))
  {
    var all := Spread(n, name, severity);
    if n == 0 {
      assert Entities(all) == {};
    } else {
      var front, x := Spread(n - 1, name, severity), Issue(name, severity, Some(n - 1), None, "");
      SpreadTotal(n - 1, name, severity, w, repeatedCap, each);
      TotalAppend(front, w, repeatedCap, x);
      SpreadGrows(n, name, severity);
      RawSumNonNegative(front, w, EntityOf(x));
      var before, after := EntityTotal(front, w, repeatedCap), EntityTotal(all, w, repeatedCap);
      assert after == before + Min(repeatedCap, each);
    }
  }

  lemma {:induction false} AllInCategory(issues: seq<Issue>, name: string)
    requires forall i :: 0 <= i < |issues| ==> issues[i].category == name
    ensures InCategory(issues, name) == issues
    decreases |issues|
  {
    if issues != [] {
      var front := issues[..|issues| - 1];
      AllInCategory(front, name);
      assert issues == front + [issues[|issues| - 1]];
    }
  }

  lemma {:induction false} PositiveShare(penalty: real, denominator: nat)
    requires penalty > 0.0 && denominator > 0
    ensures penalty * Min(1.0, 1.0 / denominator as real) > 0.0
  {
    assert 1.0 / denominator as real > 0.0;
  }

  lemma {:induction false} EachShare(policy: Policy, name: string, severity: Severity, denominator: nat)
    returns (each: real)
    requires denominator > 0 && policy.penalty(severity) > 0.0
    ensures each > 0.0
    ensures forall i: int :: Weight(policy, denominator)(Issue(name, severity, Some(i), None, "")) == each
  {
    each := policy.penalty(severity) * Min(1.0, 1.0 / denominator as real);
    PositiveShare(policy.penalty(severity), denominator);
  }

  lemma {:induction false} EnoughShares(cap: real, share: real, n: int)
    requires cap >= 0.0 && share > 0.0 && n == Rounding.Floor(cap / share) + 1
    ensures n >= 0 && n as real * share >= cap
  {
    var q := cap / share;
    assert q >= 0.0;
    assert n as real >= q;
    ProductMonotone(q, n as real, share);
  }

  lemma {:induction false} SharesNeeded(cap: real, share: real) returns (n: nat)
    requires cap >= 0.0 && share > 0.0
    ensures Times(n, share) >= cap
  {
    n := Rounding.Floor(cap / share) + 1;
    EnoughShares(cap, share, n);
    TimesIsProduct(n, share);
  }

  lemma {:induction false} SpreadReaches(policy: Policy, category: Category, denominator: nat, severity: Severity,
                                         each: real, n: nat)
    requires policy.Valid() && denominator > 0
    requires forall i: int :: Weight(policy, denominator)(Issue(category.name, severity, Some(i), None, "")) == each
    requires Times(n, Min(policy.repeatedCap, each)) >= category.cap
    ensures EntityTotal(Spread(n, category.name, severity), Weight(policy, denominator), policy.repeatedCap)
         >= category.cap
  {
    WeightNonNegative(policy, denominator);
    SpreadTotal(n, category.name, severity, Weight(policy, denominator), policy.repeatedCap, each);
  }

  lemma {:induction false} FullCap(policy: Policy, category: Category, denominator: nat, issues: seq<Issue>)
    requires denominator > 0 && 0.0 <= category.cap <= 100.0 && InCategory(issues, category.name) == issues
    requires EntityTotal(issues, Weight(policy, denominator), policy.repeatedCap) >= category.cap
    ensures CategoryScoreOf(issues, policy, category, denominator) == Rounding.Round2(100.0 - category.cap)
  {
  }

  // Enough findings exhaust the category cap.
  lemma {:induction false} CapCanBeReached(policy: Policy, category: Category, denominator: nat,
                                           severity: Severity) returns (issues: seq<Issue>)
    requires policy.Valid() && denominator > 0 && 0.0 <= category.cap <= 100.0
    requires policy.penalty(severity) > 0.0 && policy.repeatedCap > 0.0
    ensures CategoryScoreOf(issues, policy, category, denominator) == Rounding.Round2(100.0 - category.cap)
  {
    var each := EachShare(policy, category.name, severity, denominator);
    var n := SharesNeeded(category.cap, Min(policy.repeatedCap, each));
    issues := Spread(n, category.name, severity);
    SpreadReaches(policy, category, denominator, severity, each, n);
    AllInCategory(issues, category.name);
    FullCap(policy, category, denominator, issues);
  }

  lemma {:induction false} NothingRaw(issues: seq<Issue>, w: Issue -> real, e: Entity)
    requires forall x :: w(x) == 0.0
    ensures RawSum(issues, w, e) == 0.0
    decreases |issues|
  {
    if issues != [] {
      NothingRaw(issues[..|issues| - 1], w, e);
    }
  }

  lemma {:induction false} NoPenaltyNoLoss(issues: seq<Issue>, w: Issue -> real, repeatedCap: real, cap: real)
    requires NonNegative(w) && repeatedCap >= 0.0 && cap >= 0.0
    requires repeatedCap == 0.0 || forall x :: w(x) == 0.0
    ensures ClosedForm(issues, w, repeatedCap, cap) == 0.0
  {
    var zero: Entity -> real := (e: Entity) => 0.0;
    var f := CappedSum(issues, w, repeatedCap);
    forall e ensures f(e) == zero(e) {
      RawSumNonNegative(issues, w, e);
      if forall x :: w(x) == 0.0 {
        NothingRaw(issues, w, e);
      }
    }
    SumOverSame(Entities(issues), f, zero);
    SumOverZero(Entities(issues), zero);
  }

  ghost predicate FloorHolds(policy: Policy, category: Category, denominator: nat)
    requires denominator > 0
  {
    forall issues :: CategoryScoreOf(issues, policy, category, denominator) >= 100.0 - category.cap
  }

  // Rounding can push a category score below 100 - cap. It never does exactly when two
  // decimals do not round that complement down, or when the policy deducts nothing at all.
  lemma {:induction false} FloorExactlyWhen(policy: Policy, category: Category, denominator: nat)
    requires policy.Valid() && denominator > 0 && 0.0 <= category.cap <= 100.0
    ensures FloorHolds(policy, category, denominator) <==>
      || Rounding.Round2(100.0 - category.cap) >= 100.0 - category.cap
      || policy.repeatedCap == 0.0
      || forall severity :: policy.penalty(severity) == 0.0
  {
    var w := Weight(policy, denominator);
    WeightNonNegative(policy, denominator);
    if Rounding.Round2(100.0 - category.cap) >= 100.0 - category.cap {
      forall issues ensures CategoryScoreOf(issues, policy, category, denominator) >= 100.0 - category.cap {
        CategoryScoreBounds(issues, policy, category, denominator);
      }
    } else if policy.repeatedCap == 0.0 || forall severity :: policy.penalty(severity) == 0.0 {
      HundredIsKept();
      forall issues ensures CategoryScoreOf(issues, policy, category, denominator) >= 100.0 - category.cap {
        NoPenaltyNoLoss(InCategory(issues, category.name), w, policy.repeatedCap, category.cap);
      }
    } else {
      var severity :| policy.penalty(severity) != 0.0;
      var issues := CapCanBeReached(policy, category, denominator, severity);
      assert !(CategoryScoreOf(issues, policy, category, denominator) >= 100.0 - category.cap);
    }
  }

  // A cap with three decimals for which the floor fails: 100 - 33.336 rounds to 66.66.
  lemma {:induction false} FloorFails(policy: Policy, denominator: nat, category: Category)
    requires policy.Valid() && denominator > 0 && category.cap == 33.336
    requires policy.repeatedCap > 0.0 && policy.penalty(Error) > 0.0
    ensures !FloorHolds(policy, category, denominator)
  {
    assert Rounding.Floor(6666.4) == 6666;
    assert Rounding.Round2(66.664) == 66.66;
    FloorExactlyWhen(policy, category, denominator);
  }
}
