// What a coverage repair promises about the cells: who keeps a disputed cell, what is gained,
// and exactly when the features end up disjoint.
module CoverageLaws {
  import opened Common
  import opened CoverageRepair
  import opened CoverageRun

  // ---- handing out holes -------------------------------------------------------------------

  ghost predicate IsPlan(p: RawPlan) {
    && |p.receivers| == |p.holes|
    && forall j :: 0 <= j < |p.receivers| && p.receivers[j].Some? ==> p.receivers[j].value < |p.before|
  }

  type Plan = p: RawPlan | IsPlan(p) ghost witness Plan([], [], [])

  // What the gap stage works from: the cells of every feature before it, the cells of every
  // hole, and the feature each hole goes to.
  datatype RawPlan = Plan(before: seq<set<nat>>, holes: seq<set<nat>>, receivers: seq<Option<nat>>)

  // Hole j goes to feature i and holds cell c.
  ghost predicate Gives(p: Plan, j: nat, i: nat, c: nat) {
    j < |p.holes| && p.receivers[j] == Some(i) && c in p.holes[j]
  }

  ghost predicate Gains(p: Plan, i: nat, c: nat) {
    exists j: nat :: Gives(p, j, i, c)
  }

  // Some feature receives a hole that holds cell c.
  ghost predicate Fills(p: Plan, c: nat) {
    exists i: nat :: Gains(p, i, c)
  }

  // Hole j, if it goes to a feature, meets no other feature and no hole of another feature.
  ghost predicate HoleApart(p: Plan, j: nat)
    requires j < |p.holes|
  {
    p.receivers[j].Some? ==>
      && (forall i: nat :: i < |p.before| && i != p.receivers[j].value ==> p.holes[j] !! p.before[i])
      && (forall k :: 0 <= k < |p.holes| && p.receivers[k].Some? && p.receivers[k] != p.receivers[j] ==>
            p.holes[j] !! p.holes[k])
  }

  ghost predicate HolesApart(p: Plan) {
    forall j :: 0 <= j < |p.holes| ==> HoleApart(p, j)
  }

  ghost predicate Disjoint(s: seq<set<nat>>) {
    forall i, k :: 0 <= i < |s| && 0 <= k < |s| && i != k ==> s[i] !! s[k]
  }

  // No hole meets any feature, and no two holes meet.
  ghost predicate HolesClear(p: Plan) {
    && (forall j, i :: 0 <= j < |p.holes| && 0 <= i < |p.before| ==> p.holes[j] !! p.before[i])
    && Disjoint(p.holes)
  }

  ghost predicate CellFollows(p: Plan, after: seq<set<nat>>, i: nat, c: nat)
    requires i < |after| == |p.before|
  {
    c in after[i] <==> c in p.before[i] || Gains(p, i, c)
  }

  // These are the cells of the features once the holes are handed out.
  ghost predicate Outcome(p: Plan, after: seq<set<nat>>) {
    |after| == |p.before| && forall i: nat, c: nat :: i < |after| ==> CellFollows(p, after, i, c)
  }

  lemma {:induction false} Grows(p: Plan, after: seq<set<nat>>, i: nat)
    requires Outcome(p, after) && i < |after|
    ensures p.before[i] <= after[i]
  {
    forall c | c in p.before[i] ensures c in after[i] {
      assert CellFollows(p, after, i, c);
    }
  }

  lemma {:induction false} HoldsHole(p: Plan, after: seq<set<nat>>, j: nat)
    requires Outcome(p, after) && j < |p.holes| && p.receivers[j].Some?
    ensures p.holes[j] <= after[p.receivers[j].value]
  {
    var i := p.receivers[j].value;
    forall c | c in p.holes[j] ensures c in after[i] {
      assert CellFollows(p, after, i, c);
      assert Gives(p, j, i, c);
    }
  }

  lemma {:induction false} DisjointBefore(p: Plan, after: seq<set<nat>>)
    requires Outcome(p, after) && Disjoint(after)
    ensures Disjoint(p.before)
  {
    forall i, k | 0 <= i < |after| && 0 <= k < |after| && i != k ensures p.before[i] !! p.before[k] {
      Grows(p, after, i);
      Grows(p, after, k);
      assert after[i] !! after[k];
    }
  }

  lemma {:induction false} ApartFromDisjoint(p: Plan, after: seq<set<nat>>, j: nat)
    requires Outcome(p, after) && Disjoint(after) && j < |p.holes|
    ensures HoleApart(p, j)
  {
    if p.receivers[j].Some? {
      var target := p.receivers[j].value;
      HoldsHole(p, after, j);
      forall i: nat | i < |p.before| && i != target ensures p.holes[j] !! p.before[i] {
        Grows(p, after, i);
        assert after[target] !! after[i];
      }
      forall k | 0 <= k < |p.holes| && p.receivers[k].Some? && p.receivers[k] != p.receivers[j]
        ensures p.holes[j] !! p.holes[k]
      {
        HoldsHole(p, after, k);
        assert after[target] !! after[p.receivers[k].value];
      }
    }
  }

  // A cell that feature k gains is no other feature's, before or after.
  lemma {:induction false} GainedAlone(p: Plan, i: nat, k: nat, c: nat)
    requires HolesApart(p) && i < |p.before| && i != k && Gains(p, k, c)
    ensures c !in p.before[i] && !Gains(p, i, c)
  {
    var j: nat :| Gives(p, j, k, c);
    assert HoleApart(p, j) && p.holes[j] !! p.before[i];
    forall m: nat ensures !Gives(p, m, i, c) {
      assert m < |p.holes| && p.receivers[m] == Some(i) ==> p.holes[j] !! p.holes[m];
    }
  }

  lemma {:induction false} DisjointFromApart(p: Plan, after: seq<set<nat>>)
    requires Outcome(p, after) && Disjoint(p.before) && HolesApart(p)
    ensures Disjoint(after)
  {
    forall i, k | 0 <= i < |after| && 0 <= k < |after| && i != k ensures after[i] !! after[k] {
      forall c | c in after[i] ensures c !in after[k] {
        assert CellFollows(p, after, i, c) && CellFollows(p, after, k, c) && p.before[i] !! p.before[k];
        if Gains(p, k, c) {
          GainedAlone(p, i, k, c);
        } else if Gains(p, i, c) {
          GainedAlone(p, k, i, c);
        }
      }
    }
  }

  // Handing out keeps disjoint features disjoint exactly when the holes are apart.
  lemma {:induction false} OutcomeDisjoint(p: Plan, after: seq<set<nat>>)
    requires Outcome(p, after)
    ensures Disjoint(after) <==> Disjoint(p.before) && HolesApart(p)
  {
    if Disjoint(after) {
      DisjointBefore(p, after);
      forall j | 0 <= j < |p.holes| ensures HoleApart(p, j) {
        ApartFromDisjoint(p, after, j);
      }
    }
    if Disjoint(p.before) && HolesApart(p) {
      DisjointFromApart(p, after);
    }
  }

  lemma {:induction false} ClearHolesAreApart(p: Plan)
    requires HolesClear(p)
    ensures HolesApart(p)
  {
  }

  // Nothing is lost and nothing but the handed-out holes is added.
  lemma {:induction false} OutcomeGrowth(p: Plan, after: seq<set<nat>>, c: nat)
    requires Outcome(p, after)
    ensures (exists i: nat :: i < |after| && c in after[i])
      <==> (exists i: nat :: i < |p.before| && c in p.before[i]) || Fills(p, c)
  {
    if i: nat :| i < |after| && c in after[i] {
      assert CellFollows(p, after, i, c);
    }
    if i: nat :| i < |p.before| && c in p.before[i] {
      Grows(p, after, i);
    }
    if Fills(p, c) {
      var i: nat :| Gains(p, i, c);
      var j: nat :| Gives(p, j, i, c);
      HoldsHole(p, after, j);
    }
  }

  // ---- the plan of a run -------------------------------------------------------------------

  ghost function Cells(s: seq<Geometry>): (r: seq<set<nat>>)
    ensures |r| == |s| && forall i :: 0 <= i < |s| ==> r[i] == s[i].cells
  {
    seq(|s|, i requires 0 <= i < |s| => s[i].cells)
  }

  lemma {:induction false} DisjointCells(s: seq<Geometry>)
    ensures PairwiseDisjoint(s) <==> Disjoint(Cells(s))
  {
    var cells := Cells(s);
    if PairwiseDisjoint(s) {
      forall i, k | 0 <= i < |s| && 0 <= k < |s| && i != k ensures cells[i] !! cells[k] {
        assert if i < k then s[i].cells !! s[k].cells else s[k].cells !! s[i].cells;
      }
    }
  }

  // The holes of the gap stage; none when it is switched off.
  ghost function Holes(lib: Library, config: Config, s: seq<Geometry>): seq<Geometry> {
    if config.fillGaps then HolesOf(lib, config, s) else []
  }

  ghost function Receivers(lib: Library, s: seq<Geometry>, holes: seq<Geometry>): (r: seq<Option<nat>>)
    ensures |r| == |holes|
    ensures forall j :: 0 <= j < |r| ==> r[j] == Receiver(lib, s, holes, PolygonIndices(s, |s|), j)
  {
    seq(|holes|, j requires 0 <= j < |holes| => Receiver(lib, s, holes, PolygonIndices(s, |s|), j))
  }

  // What the gap stage of this input works from.
  ghost function PlanOf(lib: Library, config: Config, originals: seq<Geometry>): (p: Plan) {
    var s := Erasures(lib, config, originals);
    var holes := Holes(lib, config, s);
    Plan(Cells(s), Cells(holes), Receivers(lib, s, holes))
  }

  ghost predicate NoFailures(failures: seq<Option<Reason>>) {
    forall i :: 0 <= i < |failures| ==> failures[i] == None
  }

  // No feature is rejected.
  ghost predicate Clean(lib: Library, config: Config, originals: seq<Geometry>) {
    lib.Valid() && NoFailures(Failures(lib, config, originals))
  }

  lemma {:induction false} CleanKeepsCrossed(lib: Library, config: Config, originals: seq<Geometry>)
    requires Clean(lib, config, originals)
    ensures Final(lib, config, originals) == Crossed(lib, config, originals)
  {
    var final, crossed := Final(lib, config, originals), Crossed(lib, config, originals);
    var failures := Failures(lib, config, originals);
    forall i: nat | i < |originals| ensures final[i] == crossed[i] {
      assert failures[i] == FailureAt(lib, config, originals, i) == None;
    }
  }

  lemma {:induction false} ReceivedIsGained(lib: Library, s: seq<Geometry>, holes: seq<Geometry>, p: Plan,
                                            i: nat, c: nat)
    requires p == Plan(Cells(s), Cells(holes), Receivers(lib, s, holes))
    ensures ReceivedBy(lib, s, holes, PolygonIndices(s, |s|), |holes|, i, c) <==> Gains(p, i, c)
  {
    var indices := PolygonIndices(s, |s|);
    if ReceivedBy(lib, s, holes, indices, |holes|, i, c) {
      var j :| 0 <= j < |holes| && Receives(lib, s, holes, indices, j, i, c);
      assert Gives(p, j, i, c);
    }
    if Gains(p, i, c) {
      var j: nat :| Gives(p, j, i, c);
      assert Receives(lib, s, holes, indices, j, i, c);
    }
  }

  lemma {:induction false} HolesAreAreal(lib: Library, config: Config, s: seq<Geometry>, j: nat)
    requires lib.Valid() && j < |HolesOf(lib, config, s)|
    ensures HolesOf(lib, config, s)[j].areal
  {
    var indices := PolygonIndices(s, |s|);
    var rings := lib.rings(lib.unionAll(Select(s, indices)));
    var hole := HolesOf(lib, config, s)[j];
    assert hole in rings;
    var k :| 0 <= k < |rings| && rings[k] == hole;
  }

  lemma {:induction false} FilledFollows(lib: Library, config: Config, s: seq<Geometry>, p: Plan, i: nat, c: nat)
    requires lib.Valid() && i < |s|
    requires p == Plan(Cells(s), Cells(HolesOf(lib, config, s)), Receivers(lib, s, HolesOf(lib, config, s)))
    ensures c in GapsFilled(lib, config, s)[i].cells <==> c in s[i].cells || Gains(p, i, c)
  {
    var holes, indices := HolesOf(lib, config, s), PolygonIndices(s, |s|);
    forall j | 0 <= j < |holes| ensures holes[j].areal {
      HolesAreAreal(lib, config, s, j);
    }
    FilledCells(lib, s, holes, indices, |holes|, i);
    ReceivedIsGained(lib, s, holes, p, i, c);
  }

  // A feature ends with what erasure left it and the holes it receives.
  lemma {:induction false} FinalCells(lib: Library, config: Config, originals: seq<Geometry>, i: nat, c: nat)
    requires Clean(lib, config, originals) && i < |originals|
    ensures c in Final(lib, config, originals)[i].cells
      <==> c in Erasures(lib, config, originals)[i].cells || Gains(PlanOf(lib, config, originals), i, c)
  {
    CleanKeepsCrossed(lib, config, originals);
    if config.fillGaps {
      FilledFollows(lib, config, Erasures(lib, config, originals), PlanOf(lib, config, originals), i, c);
    }
  }

  lemma {:induction false} FinalIsOutcome(lib: Library, config: Config, originals: seq<Geometry>)
    requires Clean(lib, config, originals)
    ensures Outcome(PlanOf(lib, config, originals), Cells(Final(lib, config, originals)))
  {
    var p, after := PlanOf(lib, config, originals), Cells(Final(lib, config, originals));
    forall i: nat, c: nat | i < |after| ensures CellFollows(p, after, i, c) {
      FinalCells(lib, config, originals, i, c);
    }
  }

  // ---- disjointness ------------------------------------------------------------------------

  lemma {:induction false} DisjointByPlan(lib: Library, config: Config, originals: seq<Geometry>)
    requires Clean(lib, config, originals)
    ensures PairwiseDisjoint(Final(lib, config, originals))
      <==> PairwiseDisjoint(Erasures(lib, config, originals)) && HolesApart(PlanOf(lib, config, originals))
  {
    var s, final := Erasures(lib, config, originals), Final(lib, config, originals);
    var p, after := PlanOf(lib, config, originals), Cells(final);
    assert Outcome(p, after) by {
      FinalIsOutcome(lib, config, originals);
    }
    OutcomeDisjoint(p, after);
    DisjointCells(final);
    DisjointCells(s);
    assert p.before == Cells(s);
  }

  lemma {:induction false} ErasedDisjoint(lib: Library, config: Config, originals: seq<Geometry>)
    requires lib.Valid() && config.resolveOverlaps && lib.Coarse()
    ensures PairwiseDisjoint(Erasures(lib, config, originals)) <==> CollectionsApart(FirstAll(lib, config, originals))
  {
    ResolvedDisjoint(lib, FirstAll(lib, config, originals));
  }

  lemma {:induction false} NoGapsNoHoles(lib: Library, config: Config, originals: seq<Geometry>)
    requires !config.fillGaps
    ensures HolesApart(PlanOf(lib, config, originals))
  {
  }

  // The features end up disjoint exactly when erasure leaves them disjoint and no hole that is
  // filled covers part of a feature, or of a hole, other than its receiver's. Above the epsilon
  // erasure leaves them disjoint exactly when the features that are not polygonal, which it
  // does not touch, share no cell with any other.
  lemma {:induction false} DisjointExactlyWhen(lib: Library, config: Config, originals: seq<Geometry>)
    requires Clean(lib, config, originals)
    ensures PairwiseDisjoint(Final(lib, config, originals))
      <==> PairwiseDisjoint(Erasures(lib, config, originals)) && HolesApart(PlanOf(lib, config, originals))
    ensures config.resolveOverlaps && lib.Coarse() ==>
      (PairwiseDisjoint(Erasures(lib, config, originals)) <==> CollectionsApart(FirstAll(lib, config, originals)))
    ensures !config.fillGaps ==> HolesApart(PlanOf(lib, config, originals))
  {
    DisjointByPlan(lib, config, originals);
    if config.resolveOverlaps && lib.Coarse() {
      ErasedDisjoint(lib, config, originals);
    }
    if !config.fillGaps {
      NoGapsNoHoles(lib, config, originals);
    }
  }

  // The small rings of the erased coverage meet no feature and not each other.
  ghost predicate RingsClear(lib: Library, config: Config, s: seq<Geometry>) {
    var holes := HolesOf(lib, config, s);
    && Disjoint(Cells(holes))
    && forall j, i :: 0 <= j < |holes| && 0 <= i < |s| ==> holes[j].cells !! s[i].cells
  }

  lemma {:induction false} ClearRingsAreApart(lib: Library, config: Config, originals: seq<Geometry>)
    requires RingsClear(lib, config, Erasures(lib, config, originals))
    ensures HolesApart(PlanOf(lib, config, originals))
  {
    ClearHolesAreApart(PlanOf(lib, config, originals));
  }

  // A plain test before the call: with clear rings the features end up disjoint, whoever
  // receives the holes, exactly when those that are not polygonal share no cell with any other.
  lemma {:induction false} DisjointWhenRingsAreClear(lib: Library, config: Config, originals: seq<Geometry>)
    requires Clean(lib, config, originals) && config.resolveOverlaps && lib.Coarse()
    requires RingsClear(lib, config, Erasures(lib, config, originals))
    ensures PairwiseDisjoint(Final(lib, config, originals)) <==> CollectionsApart(FirstAll(lib, config, originals))
  {
    DisjointByPlan(lib, config, originals);
    ErasedDisjoint(lib, config, originals);
    ClearRingsAreApart(lib, config, originals);
  }

  // ---- conservation ------------------------------------------------------------------------

  lemma {:induction false} CoveredMembers(s: seq<Geometry>, k: nat, c: nat)
    requires k <= |s|
    ensures c in Covered(s, k) <==> exists i: nat :: i < k && c in s[i].cells
  {
    if k > 0 {
      CoveredMembers(s, k - 1, c);
    }
  }

  lemma {:induction false} CoveredCells(s: seq<Geometry>, c: nat)
    ensures c in Covered(s, |s|) <==> exists i: nat :: i < |Cells(s)| && c in Cells(s)[i]
  {
    CoveredMembers(s, |s|, c);
    if i: nat :| i < |s| && c in s[i].cells {
      assert c in Cells(s)[i];
    }
  }

  lemma {:induction false} ErasuresCover(lib: Library, config: Config, originals: seq<Geometry>)
    requires lib.Valid()
    ensures Covered(Erasures(lib, config, originals), |originals|)
      == Covered(FirstAll(lib, config, originals), |originals|)
  {
    if config.resolveOverlaps {
      ResolvedCovers(lib, FirstAll(lib, config, originals), |originals|);
    }
  }

  // The covered area grows by exactly the filled holes: nothing is lost, nothing else is added.
  lemma {:induction false} CoverageGrowsByFilledHoles(lib: Library, config: Config, originals: seq<Geometry>, c: nat)
    requires Clean(lib, config, originals)
    ensures c in Covered(Final(lib, config, originals), |originals|)
      <==> c in Covered(FirstAll(lib, config, originals), |originals|) || Fills(PlanOf(lib, config, originals), c)
  {
    ErasuresCover(lib, config, originals);
    FinalIsOutcome(lib, config, originals);
    var final := Final(lib, config, originals);
    OutcomeGrowth(PlanOf(lib, config, originals), Cells(final), c);
    CoveredCells(Erasures(lib, config, originals), c);
    CoveredCells(final, c);
  }

  lemma {:induction false} AloneWhenDisjoint(s: seq<Geometry>, i: nat, c: nat)
    requires PairwiseDisjoint(s) && i < |s| && c in s[i].cells
    ensures forall j :: 0 <= j < |s| && j != i ==> c !in s[j].cells
  {
    forall j | 0 <= j < |s| && j != i ensures c !in s[j].cells {
      assert if i < j then s[i].cells !! s[j].cells else s[j].cells !! s[i].cells;
    }
  }

  // Erasure cannot take cell c from feature i: no polygonal feature before it covers c, or
  // feature i is not polygonal itself.
  ghost predicate Earliest(s: seq<Geometry>, i: nat, c: nat) {
    && i < |s| && c in s[i].cells
    && (Polygonal(s[i]) ==> forall j :: 0 <= j < i && Polygonal(s[j]) ==> c !in s[j].cells)
  }

  lemma {:induction false} EarliestAfterErasure(lib: Library, config: Config, originals: seq<Geometry>, i: nat, c: nat)
    requires lib.Valid() && Earliest(FirstAll(lib, config, originals), i, c)
    ensures c in Erasures(lib, config, originals)[i].cells
  {
    if config.resolveOverlaps {
      EarliestKeeps(lib, FirstAll(lib, config, originals), i, c);
    }
  }

  // What keeps the features disjoint, all of it read from the input.
  ghost predicate StaysApart(lib: Library, config: Config, originals: seq<Geometry>) {
    && config.resolveOverlaps && lib.Coarse() && CollectionsApart(FirstAll(lib, config, originals))
    && HolesApart(PlanOf(lib, config, originals))
  }

  // A cell stays with the earliest polygonal feature that covered it after its own repair, and
  // with every feature that is not polygonal; when such features and the holes are apart from
  // the others, no other feature ends up with it.
  lemma {:induction false} EarliestFeatureKeepsCell(lib: Library, config: Config, originals: seq<Geometry>,
                                                    i: nat, c: nat)
    requires Clean(lib, config, originals) && Earliest(FirstAll(lib, config, originals), i, c)
    ensures c in Final(lib, config, originals)[i].cells
    ensures StaysApart(lib, config, originals) ==>
      forall j :: 0 <= j < |originals| && j != i ==> c !in Final(lib, config, originals)[j].cells
  {
    EarliestAfterErasure(lib, config, originals, i, c);
    FinalCells(lib, config, originals, i, c);
    if StaysApart(lib, config, originals) {
      DisjointByPlan(lib, config, originals);
      ErasedDisjoint(lib, config, originals);
      AloneWhenDisjoint(Final(lib, config, originals), i, c);
    }
  }

  // ---- collections ---------------------------------------------------------------------------

  // The feature's own repair and the safety checks leave it as it is.
  ghost predicate KeptAsIs(lib: Library, config: Config, g: Geometry) {
    First(lib, config, g) == (g, [], None) && SafetyFailure(lib, config, g, g) == None
  }

  lemma {:induction false} NoPolygons(s: seq<Geometry>, k: nat)
    requires k <= |s| && forall i :: 0 <= i < |s| ==> !Polygonal(s[i])
    ensures PolygonIndices(s, k) == []
  {
    if k > 0 {
      NoPolygons(s, k - 1);
    }
  }

  lemma {:induction false} CollectionsAreErased(lib: Library, config: Config, s: seq<Geometry>)
    requires forall i :: 0 <= i < |s| ==> !Polygonal(s[i]) && KeptAsIs(lib, config, s[i])
    ensures Erasures(lib, config, s) == s
  {
    var first, erased := FirstAll(lib, config, s), Erasures(lib, config, s);
    forall i | 0 <= i < |s| ensures first[i] == s[i] {
      assert KeptAsIs(lib, config, s[i]);
    }
    assert first == s;
    forall i | 0 <= i < |s| ensures erased[i] == s[i] {
    }
  }

  lemma {:induction false} CollectionsAreCrossed(lib: Library, config: Config, s: seq<Geometry>)
    requires forall i :: 0 <= i < |s| ==> !Polygonal(s[i]) && KeptAsIs(lib, config, s[i])
    ensures Crossed(lib, config, s) == s
  {
    CollectionsAreErased(lib, config, s);
    NoPolygons(s, |s|);
    assert HolesOf(lib, config, s) == [];
    assert Filled(lib, s, [], [], 0) == s;
  }

  // Neither stage looks at a feature that is not polygonal: such a coverage comes back as it
  // is, overlaps included, and no feature fails.
  lemma {:induction false} CollectionsStay(lib: Library, config: Config, s: seq<Geometry>)
    requires lib.Valid() && forall i :: 0 <= i < |s| ==> !Polygonal(s[i]) && KeptAsIs(lib, config, s[i])
    ensures Clean(lib, config, s) && Final(lib, config, s) == s && HolesOf(lib, config, s) == []
  {
    NoPolygons(s, |s|);
    CollectionsAreCrossed(lib, config, s);
    var failures := Failures(lib, config, s);
    forall i | 0 <= i < |s| ensures failures[i] == None {
      assert KeptAsIs(lib, config, s[i]);
      assert failures[i] == FailureAt(lib, config, s, i);
    }
    CleanKeepsCrossed(lib, config, s);
  }

  // ---- an island inside a hole -------------------------------------------------------------

  // Two disjoint features that their own repair leaves as they are.
  ghost predicate SoundPair(lib: Library, config: Config, s: seq<Geometry>) {
    && |s| == 2 && Polygonal(s[0]) && Polygonal(s[1]) && s[0].cells !! s[1].cells
    && First(lib, config, s[0]) == (s[0], [], None) && First(lib, config, s[1]) == (s[1], [], None)
  }

  // The only interior ring of the pair is small, and the first feature shares most of its boundary.
  ghost predicate OnlyHole(lib: Library, config: Config, s: seq<Geometry>, hole: Geometry)
    requires |s| == 2
  {
    var rings := lib.rings(lib.unionAll(s));
    && |rings| == 1 && rings[0] == hole && IsSmall(lib, hole, config.gapThreshold)
    && lib.shared(s[0], hole) > 0.0 && lib.shared(s[0], hole) >= lib.shared(s[1], hole)
  }

  // The second feature stands in a small hole of the first, and filling the hole passes every
  // safety check.
  ghost predicate Island(lib: Library, config: Config, s: seq<Geometry>, hole: Geometry) {
    && lib.Valid() && config.resolveOverlaps && config.fillGaps
    && SoundPair(lib, config, s) && OnlyHole(lib, config, s, hole) && hole.cells * s[1].cells != {}
    && SafetyFailure(lib, config, s[0], lib.union(s[0], hole)) == None
    && SafetyFailure(lib, config, s[1], s[1]) == None
  }

  lemma {:induction false} SamePair<T>(a: seq<T>, b: seq<T>)
    requires |a| == |b| == 2 && a[0] == b[0] && a[1] == b[1]
    ensures a == b
  {
  }

  lemma {:induction false} FirstIsPlaced(lib: Library, s: seq<Geometry>)
    requires |s| == 2 && Polygonal(s[0])
    ensures ResolvedAt(lib, s, 0) == s[0] && Placed(lib, s, 1) == Some(s[0])
  {
    assert Placed(lib, s, 0) == None;
  }

  lemma {:induction false} SecondIsPlaced(lib: Library, s: seq<Geometry>)
    requires |s| == 2 && Placed(lib, s, 1) == Some(s[0]) && s[0].cells !! s[1].cells
    ensures ResolvedAt(lib, s, 1) == s[1]
  {
    assert s[1].cells * s[0].cells == {};
  }

  lemma {:induction false} PairIsPlaced(lib: Library, s: seq<Geometry>)
    requires |s| == 2 && Polygonal(s[0]) && s[0].cells !! s[1].cells
    ensures Resolved(lib, s) == s
  {
    FirstIsPlaced(lib, s);
    SecondIsPlaced(lib, s);
    SamePair(Resolved(lib, s), s);
  }

  lemma {:induction false} PairIsErased(lib: Library, config: Config, s: seq<Geometry>)
    requires SoundPair(lib, config, s)
    ensures Erasures(lib, config, s) == s
  {
    var first := FirstAll(lib, config, s);
    assert first[0] == s[0] && first[1] == s[1];
    SamePair(first, s);
    PairIsPlaced(lib, s);
  }

  lemma {:induction false} BothPolygonal(s: seq<Geometry>)
    requires |s| == 2 && Polygonal(s[0]) && Polygonal(s[1])
    ensures PolygonIndices(s, 2) == [0, 1]
  {
    assert PolygonIndices(s, 1) == [0] by {
      assert PolygonIndices(s, 0) == [];
    }
    assert PolygonIndices(s, 2) == [0] + [1];
  }

  lemma {:induction false} OneSmallHole(lib: Library, rings: seq<Geometry>, hole: Geometry, threshold: real)
    requires |rings| == 1 && rings[0] == hole && IsSmall(lib, hole, threshold)
    ensures SmallHoles(lib, rings, threshold) == [hole]
  {
    assert SmallIndices(lib, rings, threshold, 0) == [];
    assert SmallIndices(lib, rings, threshold, 1) == [0];
  }

  lemma {:induction false} BothSelected(s: seq<Geometry>, indices: seq<nat>)
    requires |s| == 2 && indices == [0, 1]
    ensures Select(s, indices) == s
  {
  }

  lemma {:induction false} IslandHoles(lib: Library, config: Config, s: seq<Geometry>, hole: Geometry)
    requires SoundPair(lib, config, s) && OnlyHole(lib, config, s, hole)
    ensures HolesOf(lib, config, s) == [hole]
  {
    var indices := PolygonIndices(s, |s|);
    BothPolygonal(s);
    BothSelected(s, indices);
    OneSmallHole(lib, lib.rings(lib.unionAll(s)), hole, config.gapThreshold);
  }

  // The first feature shares more boundary with its hole than the island does.
  lemma {:induction false} FrameReceives(lib: Library, hole: Geometry, s: seq<Geometry>, indices: seq<nat>)
    requires |s| == 2 && |indices| == 2 && indices[0] == 0 && indices[1] == 1
    requires lib.shared(s[0], hole) > 0.0 && lib.shared(s[0], hole) >= lib.shared(s[1], hole)
    ensures Neighbour(lib, hole, s, indices) == Some(0)
  {
    var lengths := Lengths(lib, hole, s, indices);
    assert lengths[0] == lib.shared(s[0], hole) && lengths[1] == lib.shared(s[1], hole);
    FirstWidestIsWidest(lengths, Some(0));
  }

  lemma {:induction false} OneHoleFilled(lib: Library, s: seq<Geometry>, holes: seq<Geometry>, indices: seq<nat>)
    requires Within(indices, |s|) && |holes| == 1 && |s| > 0 && Neighbour(lib, holes[0], s, indices) == Some(0)
    ensures Filled(lib, s, holes, indices, 1) == s[0 := lib.union(s[0], holes[0])]
  {
    assert Filled(lib, s, holes, indices, 0) == s;
  }

  lemma {:induction false} IslandFilled(lib: Library, config: Config, s: seq<Geometry>, hole: Geometry)
    requires SoundPair(lib, config, s) && OnlyHole(lib, config, s, hole)
    ensures GapsFilled(lib, config, s) == s[0 := lib.union(s[0], hole)]
  {
    var holes, indices := HolesOf(lib, config, s), PolygonIndices(s, |s|);
    assert |holes| == 1 && holes[0] == hole by {
      IslandHoles(lib, config, s, hole);
    }
    assert |indices| == 2 && indices[0] == 0 && indices[1] == 1 by {
      BothPolygonal(s);
    }
    assert Neighbour(lib, hole, s, indices) == Some(0) by {
      FrameReceives(lib, hole, s, indices);
    }
    assert Filled(lib, s, holes, indices, |holes|) == s[0 := lib.union(s[0], hole)] by {
      OneHoleFilled(lib, s, holes, indices);
    }
  }

  lemma {:induction false} IslandCrossed(lib: Library, config: Config, s: seq<Geometry>, hole: Geometry)
    requires Island(lib, config, s, hole)
    ensures Crossed(lib, config, s) == s[0 := lib.union(s[0], hole)]
  {
    PairIsErased(lib, config, s);
    IslandFilled(lib, config, s, hole);
  }

  lemma {:induction false} SoundUnlessUnsafe(lib: Library, config: Config, s: seq<Geometry>, i: nat,
                                             candidate: Geometry)
    requires i < |s| && First(lib, config, s[i]).2 == None && candidate == Crossed(lib, config, s)[i]
    requires SafetyFailure(lib, config, s[i], candidate) == None
    ensures FailureAt(lib, config, s, i) == None
  {
  }

  lemma {:induction false} IslandIsClean(lib: Library, config: Config, s: seq<Geometry>, hole: Geometry)
    requires Island(lib, config, s, hole)
    ensures FailureAt(lib, config, s, 0) == FailureAt(lib, config, s, 1) == None
  {
    var crossed := Crossed(lib, config, s);
    assert crossed[0] == lib.union(s[0], hole) && crossed[1] == s[1] by {
      IslandCrossed(lib, config, s, hole);
    }
    SoundUnlessUnsafe(lib, config, s, 0, lib.union(s[0], hole));
    SoundUnlessUnsafe(lib, config, s, 1, s[1]);
  }

  lemma {:induction false} NeitherFails(failures: seq<Option<Reason>>)
    requires |failures| == 2 && failures[0] == failures[1] == None
    ensures NoFailures(failures)
  {
  }

  lemma {:induction false} CleanPair(lib: Library, config: Config, s: seq<Geometry>)
    requires lib.Valid() && |s| == 2 && FailureAt(lib, config, s, 0) == FailureAt(lib, config, s, 1) == None
    ensures Clean(lib, config, s)
  {
    var failures := Failures(lib, config, s);
    assert failures[0] == FailureAt(lib, config, s, 0) && failures[1] == FailureAt(lib, config, s, 1);
    NeitherFails(failures);
  }

  lemma {:induction false} IslandOverlap(lib: Library, s: seq<Geometry>, hole: Geometry)
    requires lib.Valid() && |s| == 2 && s[0].areal && hole.areal && hole.cells * s[1].cells != {}
    ensures !PairwiseDisjoint(s[0 := lib.union(s[0], hole)])
  {
    var final := s[0 := lib.union(s[0], hole)];
    var c :| c in hole.cells * s[1].cells;
    assert c in final[0].cells && c in final[1].cells;
  }

  lemma {:induction false} PairIsDisjoint(s: seq<Geometry>)
    requires |s| == 2 && s[0].cells !! s[1].cells
    ensures PairwiseDisjoint(s)
  {
  }

  lemma {:induction false} RingIsAreal(lib: Library, g: Geometry, hole: Geometry)
    requires lib.Valid() && |lib.rings(g)| == 1 && lib.rings(g)[0] == hole
    ensures hole.areal
  {
  }

  lemma {:induction false} IslandIsKept(lib: Library, config: Config, s: seq<Geometry>, hole: Geometry)
    requires Island(lib, config, s, hole)
    ensures Clean(lib, config, s) && |s| > 0 && Final(lib, config, s) == s[0 := lib.union(s[0], hole)]
  {
    assert Clean(lib, config, s) by {
      IslandIsClean(lib, config, s, hole);
      CleanPair(lib, config, s);
    }
    assert Crossed(lib, config, s) == s[0 := lib.union(s[0], hole)] by {
      IslandCrossed(lib, config, s, hole);
    }
    CleanKeepsCrossed(lib, config, s);
  }

  // Disjoint features, repaired without a failure, and still the first ends with cells of the
  // island as well.
  lemma {:induction false} IslandIsSwallowed(lib: Library, config: Config, s: seq<Geometry>, hole: Geometry)
    requires Island(lib, config, s, hole)
    ensures Clean(lib, config, s) && PairwiseDisjoint(s) && !PairwiseDisjoint(Final(lib, config, s))
  {
    IslandIsKept(lib, config, s, hole);
    RingIsAreal(lib, lib.unionAll(s), hole);
    IslandOverlap(lib, s, hole);
    PairIsDisjoint(s);
  }

  function Polygon(cells: set<nat>): Geometry {
    Geometry(true, cells, cells == {}, true, 0)
  }

  // A frame (cell 0) around a hole (cells 1 and 2) with an island (cell 2) standing in it.
  ghost function SampleLibrary(): Library {
    Library(
      _ => "", (cells: set<nat>) => |cells| as real, (_, _) => 0.0,
      (g: Geometry, _) => if g == Polygon({0}) then 4.0 else 0.0,
      (a: Geometry, b: Geometry) => Polygon(a.cells - b.cells),
      (a: Geometry, b: Geometry) => Polygon(a.cells + b.cells),
      _ => Polygon({0, 2}), _ => [Polygon({1, 2})], _ => 4, g => g, _ => false, _ => false, g => g,
      g => (g, 0), _ => None)
  }

  const SAMPLE_CONFIG := Config(true, true, true, true, true, 3.0, None, None)

  lemma {:induction false} SampleLibraryIsValid()
    ensures SampleLibrary().Valid() && SampleLibrary().Coarse()
  {
    var lib := SampleLibrary();
    forall a: set<nat>, b: set<nat> | a <= b ensures lib.area(a) <= lib.area(b) {
      SubsetCardinality(a, b);
    }
    forall s: set<nat> | s != {} ensures lib.area(s) > 0.000000000001 {
      assert |s| > 0;
      assert |s| as real >= 1.0;
    }
  }

  lemma {:induction false} SampleIsSafe(before: Geometry, after: Geometry)
    requires Polygonal(before) && before.valid && Polygonal(after) && after.valid
    ensures First(SampleLibrary(), SAMPLE_CONFIG, before) == (before, [], None)
    ensures SafetyFailure(SampleLibrary(), SAMPLE_CONFIG, before, after) == None
  {
    assert RepairGeometry(SampleLibrary(), SAMPLE_CONFIG, before) == (before, []);
  }

  lemma {:induction false} SampleHole()
    ensures var frame, island, hole := Polygon({0}), Polygon({2}), Polygon({1, 2});
      && AREA_EPSILON < SampleLibrary().area(hole.cells) < SAMPLE_CONFIG.gapThreshold
      && hole.cells * island.cells != {} && frame.cells !! island.cells
  {
    var hole := Polygon({1, 2});
    assert 2 in hole.cells * Polygon({2}).cells;
    assert |hole.cells| == 2;
  }

  lemma {:induction false} SampleOperations(s: seq<Geometry>)
    requires s == [Polygon({0}), Polygon({2})]
    ensures OnlyHole(SampleLibrary(), SAMPLE_CONFIG, s, Polygon({1, 2}))
    ensures SampleLibrary().union(s[0], Polygon({1, 2})) == Polygon({0, 1, 2})
  {
    SampleHole();
    assert 2 in s[1].cells && 2 !in Polygon({0}).cells;
    assert {0} + {1, 2} == {0, 1, 2};
  }

  // Such an island exists, in a library where every region of a cell is above the epsilon.
  lemma {:induction false} IslandInHole()
    ensures SampleLibrary().Coarse()
    ensures Island(SampleLibrary(), SAMPLE_CONFIG, [Polygon({0}), Polygon({2})], Polygon({1, 2}))
  {
    var s := [Polygon({0}), Polygon({2})];
    SampleLibraryIsValid();
    SampleIsSafe(s[0], Polygon({0, 1, 2}));
    SampleIsSafe(s[1], s[1]);
    SampleHole();
    SampleOperations(s);
  }

  // A collection whose polygons cover cell 0.
  function Collection(): Geometry {
    Geometry(false, {0}, false, true, 0)
  }

  lemma {:induction false} SampleKeepsCollection()
    ensures KeptAsIs(SampleLibrary(), SAMPLE_CONFIG, Collection())
  {
    assert RepairGeometry(SampleLibrary(), SAMPLE_CONFIG, Collection()) == (Collection(), []);
  }

  lemma {:induction false} TwiceOverlaps(g: Geometry, s: seq<Geometry>)
    requires 0 in g.cells && s == [g, g]
    ensures !PairwiseDisjoint(s)
  {
    assert 0 in s[0].cells && 0 in s[1].cells;
  }

  lemma {:induction false} SamePlaceTwice(lib: Library, config: Config, g: Geometry, s: seq<Geometry>)
    requires lib.Valid() && !Polygonal(g) && KeptAsIs(lib, config, g) && 0 in g.cells && s == [g, g]
    ensures Clean(lib, config, s) && HolesOf(lib, config, s) == []
    ensures Final(lib, config, s) == s && !PairwiseDisjoint(s)
  {
    forall i | 0 <= i < |s| ensures !Polygonal(s[i]) && KeptAsIs(lib, config, s[i]) {
      assert s[i] == g;
    }
    CollectionsStay(lib, config, s);
    TwiceOverlaps(g, s);
  }

  // The same collection twice: both features are valid and unchanged, no feature fails, there
  // is no hole, and the result overlaps itself.
  lemma {:induction false} OverlappingCollections()
    ensures var lib, s := SampleLibrary(), [Collection(), Collection()];
      && Clean(lib, SAMPLE_CONFIG, s) && lib.Coarse() && HolesOf(lib, SAMPLE_CONFIG, s) == []
      && Final(lib, SAMPLE_CONFIG, s) == s && !PairwiseDisjoint(s)
  {
    SampleLibraryIsValid();
    SampleKeepsCollection();
    SamePlaceTwice(SampleLibrary(), SAMPLE_CONFIG, Collection(), [Collection(), Collection()]);
  }
}
