// The whole coverage repair: its in-place stages, its reverts, and what the result promises.
module CoverageRun {
  import opened Common
  import opened CoverageRepair

  // Where, if anywhere, the library raises after the intrinsic repairs.
  datatype Fault = NoFault | InOverlap(step: nat) | InGap(step: nat) | InSafety(step: nat)

  // ---- the cross-feature stages ----------------------------------------------------

  // An overlap action is recorded exactly where cells are erased.
  ghost function OverlapActions(lib: Library, s: seq<Geometry>, i: nat): seq<Action>
    requires i < |s|
  {
    var placed := Placed(lib, s, i);
    if Polygonal(s[i]) && placed.Some? && Overlaps(lib, s[i], placed.value) then [Action(Overlap)] else []
  }

  ghost function Logged(lib: Library, s: seq<Geometry>, actions: seq<seq<Action>>): (r: seq<seq<Action>>)
    requires |actions| == |s|
    ensures |r| == |s|
  {
    seq(|s|, i requires 0 <= i < |s| => actions[i] + OverlapActions(lib, s, i))
  }

  // Erase from one polygonal feature what earlier ones already cover.
  method EraseOne(lib: Library, repaired: array<Geometry>, actions: array<seq<Action>>, i: nat,
                  placed: Option<Geometry>)
    returns (next: Option<Geometry>)
    requires i < repaired.Length == actions.Length && Polygonal(repaired[i])
    modifies repaired, actions
    ensures repaired[i] == Erased(lib, old(repaired[i]), placed)
    ensures actions[i] == if placed.Some? && Overlaps(lib, old(repaired[i]), placed.value)
                          then old(actions[i]) + [Action(Overlap)] else old(actions[i])
    ensures forall j :: 0 <= j < repaired.Length && j != i ==>
      repaired[j] == old(repaired[j]) && actions[j] == old(actions[j])
    ensures next == if placed.None? then Some(repaired[i]) else Some(lib.union(placed.value, repaired[i]))
  {
    var g := repaired[i];
    if placed.Some? && Overlaps(lib, g, placed.value) {
      g := lib.difference(g, placed.value);
      actions[i] := actions[i] + [Action(Overlap)];
      repaired[i] := g;
    }
    next := if placed.None? then Some(g) else Some(lib.union(placed.value, g));
  }

  lemma {:induction false} LoggedAt(lib: Library, s: seq<Geometry>, actions: seq<seq<Action>>, i: nat)
    requires |actions| == |s| && i < |s|
    ensures var placed := Placed(lib, s, i);
      Logged(lib, s, actions)[i]
        == if Polygonal(s[i]) && placed.Some? && Overlaps(lib, s[i], placed.value) then actions[i] + [Action(Overlap)]
           else actions[i]
  {
    assert actions[i] + [] == actions[i];
  }

  lemma {:induction false} PlacedStep(lib: Library, s: seq<Geometry>, i: nat)
    requires i < |s|
    ensures var before, g := Placed(lib, s, i), Resolved(lib, s)[i];
      && g == (if Polygonal(s[i]) then Erased(lib, s[i], before) else s[i])
      && Placed(lib, s, i + 1)
         == if !Polygonal(s[i]) then before
            else if before.None? then Some(g) else Some(lib.union(before.value, g))
  {
  }

  method PlaceOne(lib: Library, repaired: array<Geometry>, actions: array<seq<Action>>, i: nat,
                  placed: Option<Geometry>, ghost s: seq<Geometry>, ghost a: seq<seq<Action>>)
    returns (next: Option<Geometry>)
    requires i < repaired.Length == actions.Length == |s| == |a|
    requires repaired[i] == s[i] && actions[i] == a[i] && placed == Placed(lib, s, i)
    modifies repaired, actions
    ensures repaired[..] == old(repaired[..])[i := Resolved(lib, s)[i]]
    ensures actions[..] == old(actions[..])[i := Logged(lib, s, a)[i]]
    ensures next == Placed(lib, s, i + 1)
  {
    PlacedStep(lib, s, i);
    LoggedAt(lib, s, a, i);
    next := placed;
    if Polygonal(repaired[i]) {
      next := EraseOne(lib, repaired, actions, i, placed);
    }
  }

  // The first i entries from one list, the others from another.
  ghost function PartlyNew<T>(next: seq<T>, stale: seq<T>, i: nat): (r: seq<T>)
    requires i <= |next| == |stale|
    ensures |r| == |next|
  {
    next[..i] + stale[i..]
  }

  lemma {:induction false} FirstFromNew<T>(next: seq<T>, stale: seq<T>, i: nat)
    requires i <= |next| == |stale|
    ensures i == 0 ==> PartlyNew(next, stale, i) == stale
    ensures i == |next| ==> PartlyNew(next, stale, i) == next
    ensures i < |next| ==>
      PartlyNew(next, stale, i)[i] == stale[i]
      && PartlyNew(next, stale, i)[i := next[i]] == PartlyNew(next, stale, i + 1)
  {
  }

  // Features are placed in order; the work is lost as a whole when the library raises.
  method ResolveOverlaps(lib: Library, repaired: array<Geometry>, actions: array<seq<Action>>, fault: Fault)
    returns (raised: bool)
    requires repaired.Length == actions.Length
    modifies repaired, actions
    ensures raised ==> fault.InOverlap?
    ensures !raised ==> repaired[..] == Resolved(lib, old(repaired[..]))
    ensures !raised ==> actions[..] == Logged(lib, old(repaired[..]), old(actions[..]))
  {
    ghost var s, a := repaired[..], actions[..];
    ghost var r := Resolved(lib, s);
    ghost var logged := Logged(lib, s, a);
    var placed: Option<Geometry> := None;
    FirstFromNew(r, s, 0);
    FirstFromNew(logged, a, 0);
    for i := 0 to repaired.Length
      invariant placed == Placed(lib, s, i)
      invariant repaired[..] == PartlyNew(r, s, i) && actions[..] == PartlyNew(logged, a, i)
    {
      if fault == InOverlap(i) {
        return true;
      }
      FirstFromNew(r, s, i);
      FirstFromNew(logged, a, i);
      placed := PlaceOne(lib, repaired, actions, i, placed, s, a);
    }
    FirstFromNew(r, s, repaired.Length);
    FirstFromNew(logged, a, repaired.Length);
    raised := false;
  }

  // ---- filling ------------------------------------------------------------------------

  // A gap action is recorded for every hole, exactly where it goes.
  ghost function GapActions(lib: Library, s: seq<Geometry>, holes: seq<Geometry>, indices: seq<nat>, k: nat, i: nat)
    : seq<Action>
    requires k <= |holes| && Within(indices, |s|)
  {
    if k == 0 then []
    else GapActions(lib, s, holes, indices, k - 1, i)
         + (if Receiver(lib, s, holes, indices, k - 1) == Some(i) then [Action(Gap)] else [])
  }

  ghost function GapLogged(lib: Library, s: seq<Geometry>, holes: seq<Geometry>, indices: seq<nat>, k: nat,
                           actions: seq<seq<Action>>)
    : (r: seq<seq<Action>>)
    requires k <= |holes| && Within(indices, |s|)
    ensures |r| == |actions|
    ensures forall i :: 0 <= i < |actions| ==> r[i] == actions[i] + GapActions(lib, s, holes, indices, k, i)
  {
    seq(|actions|, i requires 0 <= i < |actions| => actions[i] + GapActions(lib, s, holes, indices, k, i))
  }

  lemma {:induction false} NothingLogged(lib: Library, s: seq<Geometry>, holes: seq<Geometry>, indices: seq<nat>,
                                         actions: seq<seq<Action>>)
    requires Within(indices, |s|)
    ensures GapLogged(lib, s, holes, indices, 0, actions) == actions
  {
    var logged := GapLogged(lib, s, holes, indices, 0, actions);
    forall i | 0 <= i < |actions| ensures logged[i] == actions[i] {
      assert actions[i] + [] == actions[i];
    }
  }

  function MoreActions(actions: seq<seq<Action>>, target: Option<nat>): (r: seq<seq<Action>>)
    requires target.Some? ==> target.value < |actions|
    ensures |r| == |actions|
  {
    if target.Some? then actions[target.value := actions[target.value] + [Action(Gap)]] else actions
  }

  lemma {:induction false} OneMoreAction(actions: seq<Action>, gaps: seq<Action>)
    ensures (actions + gaps) + [Action(Gap)] == actions + (gaps + [Action(Gap)])
    ensures actions + (gaps + []) == actions + gaps
  {
    assert gaps + [] == gaps;
  }

  lemma {:induction false} GapLoggedStep(lib: Library, s: seq<Geometry>, holes: seq<Geometry>, indices: seq<nat>,
                                         k: nat, actions: seq<seq<Action>>)
    requires k < |holes| && Within(indices, |s|) && |actions| == |s|
    ensures GapLogged(lib, s, holes, indices, k + 1, actions)
         == MoreActions(GapLogged(lib, s, holes, indices, k, actions), Receiver(lib, s, holes, indices, k))
  {
    var before := GapLogged(lib, s, holes, indices, k, actions);
    var after := GapLogged(lib, s, holes, indices, k + 1, actions);
    var target := Receiver(lib, s, holes, indices, k);
    forall i | 0 <= i < |actions| ensures after[i] == MoreActions(before, target)[i] {
      OneMoreAction(actions[i], GapActions(lib, s, holes, indices, k, i));
    }
  }

  // Merge one hole into the feature it goes to.
  method FillOne(lib: Library, repaired: array<Geometry>, actions: array<seq<Action>>, hole: Geometry,
                 target: Option<nat>)
    requires repaired.Length == actions.Length && (target.Some? ==> target.value < repaired.Length)
    modifies repaired, actions
    ensures repaired[..] == Merged(lib, old(repaired[..]), hole, target)
    ensures actions[..] == MoreActions(old(actions[..]), target)
  {
    if target.Some? {
      repaired[target.value] := lib.union(repaired[target.value], hole);
      actions[target.value] := actions[target.value] + [Action(Gap)];
    }
  }

  method FillHoles(lib: Library, repaired: array<Geometry>, actions: array<seq<Action>>,
                   holes: seq<Geometry>, indices: seq<nat>, fault: Fault)
    returns (raised: bool)
    requires repaired.Length == actions.Length && Within(indices, repaired.Length)
    modifies repaired, actions
    ensures raised ==> fault.InGap?
    ensures !raised ==> repaired[..] == Filled(lib, old(repaired[..]), holes, indices, |holes|)
    ensures !raised ==>
      actions[..] == GapLogged(lib, old(repaired[..]), holes, indices, |holes|, old(actions[..]))
  {
    ghost var s, a := repaired[..], actions[..];
    NothingLogged(lib, s, holes, indices, a);
    for k := 0 to |holes|
      invariant repaired[..] == Filled(lib, s, holes, indices, k)
      invariant actions[..] == GapLogged(lib, s, holes, indices, k, a)
    {
      if fault == InGap(k) {
        return true;
      }
      GapLoggedStep(lib, s, holes, indices, k, a);
      var target := FindNeighbour(lib, holes[k], repaired, indices);
      FillOne(lib, repaired, actions, holes[k], target);
    }
    raised := false;
  }

  // The holes the gap stage considers: small interior rings of the covered area.
  function HolesOf(lib: Library, config: Config, s: seq<Geometry>): (r: seq<Geometry>)
  {
    var indices := PolygonIndices(s, |s|);
    if indices == [] then []
    else SmallHoles(lib, lib.rings(lib.unionAll(Select(s, indices))), config.gapThreshold)
  }

  // r lists the entries of s at these positions, in order.
  ghost predicate ListsAt(s: seq<Geometry>, at: seq<nat>, r: seq<Geometry>) {
    && |at| == |r| && (forall k :: 0 <= k < |at| ==> at[k] < |s| && r[k] == s[at[k]])
    && forall j, k :: 0 <= j < k < |at| ==> at[j] < at[k]
  }

  ghost predicate ArePolygons(s: seq<Geometry>, r: seq<Geometry>) {
    exists at: seq<nat> :: ListsAt(s, at, r) && forall i: nat :: i < |s| ==> (i in at <==> s[i].areal && !s[i].empty)
  }

  ghost predicate AreSmall(lib: Library, rings: seq<Geometry>, threshold: real, r: seq<Geometry>) {
    exists at: seq<nat> :: ListsAt(rings, at, r) &&
      forall i: nat :: i < |rings| ==> (i in at <==> 0.000000000001 < lib.area(rings[i].cells) < threshold)
  }

  // The holes are the small rings of what the polygons cover together, each once, in order.
  lemma {:induction false} HolesTell(lib: Library, config: Config, s: seq<Geometry>) returns (polygons: seq<Geometry>)
    ensures ArePolygons(s, polygons)
    ensures if polygons == [] then HolesOf(lib, config, s) == []
            else AreSmall(lib, lib.rings(lib.unionAll(polygons)), config.gapThreshold, HolesOf(lib, config, s))
  {
    var indices := PolygonIndices(s, |s|);
    polygons := Select(s, indices);
    assert ListsAt(s, indices, polygons);
    if polygons != [] {
      var rings := lib.rings(lib.unionAll(polygons));
      var at := SmallIndices(lib, rings, config.gapThreshold, |rings|);
      assert ListsAt(rings, at, HolesOf(lib, config, s));
    }
  }

  // The features after the gap stage.
  ghost function GapsFilled(lib: Library, config: Config, s: seq<Geometry>): (r: seq<Geometry>)
    ensures |r| == |s|
  {
    var holes := HolesOf(lib, config, s);
    Filled(lib, s, holes, PolygonIndices(s, |s|), |holes|)
  }

  ghost function GapsLogged(lib: Library, config: Config, s: seq<Geometry>, actions: seq<seq<Action>>)
    : (r: seq<seq<Action>>)
    ensures |r| == |actions|
  {
    var holes := HolesOf(lib, config, s);
    GapLogged(lib, s, holes, PolygonIndices(s, |s|), |holes|, actions)
  }

  method FillGaps(lib: Library, config: Config, repaired: array<Geometry>, actions: array<seq<Action>>, fault: Fault)
    returns (raised: bool)
    requires repaired.Length == actions.Length
    modifies repaired, actions
    ensures raised ==> fault.InGap?
    ensures !raised ==> repaired[..] == GapsFilled(lib, config, old(repaired[..]))
    ensures !raised ==> actions[..] == GapsLogged(lib, config, old(repaired[..]), old(actions[..]))
  {
    var indices := PolygonIndices(repaired[..], repaired.Length);
    var holes := HolesOf(lib, config, repaired[..]);
    raised := FillHoles(lib, repaired, actions, holes, indices, fault);
  }

  // ---- every change is recorded ---------------------------------------------------------

  // A feature without actions still has its original geometry.
  ghost predicate Recorded(originals: seq<Geometry>, s: seq<Geometry>, actions: seq<seq<Action>>) {
    && |s| == |actions| == |originals|
    && forall i :: 0 <= i < |s| ==> actions[i] == [] ==> s[i] == originals[i]
  }

  lemma {:induction false} ResolveKeepsRecorded(lib: Library, originals: seq<Geometry>, s: seq<Geometry>,
                                                actions: seq<seq<Action>>)
    requires Recorded(originals, s, actions)
    ensures Recorded(originals, Resolved(lib, s), Logged(lib, s, actions))
  {
    forall i | 0 <= i < |s| ensures Logged(lib, s, actions)[i] == [] ==> Resolved(lib, s)[i] == originals[i] {
      LoggedAt(lib, s, actions, i);
    }
  }

  lemma {:induction false} FillRecords(lib: Library, s: seq<Geometry>, holes: seq<Geometry>, indices: seq<nat>,
                                       k: nat, i: nat)
    requires k <= |holes| && Within(indices, |s|) && i < |s|
    ensures GapActions(lib, s, holes, indices, k, i) == [] ==> Filled(lib, s, holes, indices, k)[i] == s[i]
  {
    if k > 0 {
      FillRecords(lib, s, holes, indices, k - 1, i);
    }
  }

  lemma {:induction false} FillKeepsRecorded(lib: Library, config: Config, originals: seq<Geometry>, s: seq<Geometry>,
                                             actions: seq<seq<Action>>)
    requires Recorded(originals, s, actions)
    ensures Recorded(originals, GapsFilled(lib, config, s), GapsLogged(lib, config, s, actions))
  {
    var holes, indices := HolesOf(lib, config, s), PolygonIndices(s, |s|);
    var after, logged := GapsFilled(lib, config, s), GapsLogged(lib, config, s, actions);
    forall i | 0 <= i < |s| ensures logged[i] == [] ==> after[i] == originals[i] {
      FillRecords(lib, s, holes, indices, |holes|, i);
    }
  }

  // ---- the stages in order ----------------------------------------------------------------

  // What one feature is before the cross-feature stages: its intrinsic repair when the library
  // can make it and it keeps the guarantees, otherwise the original and the reason why.
  ghost predicate RepairsFirst(lib: Library, config: Config, original: Geometry, after: Geometry, actions: seq<Action>,
                               failure: Option<Reason>)
  {
    match lib.raises(original)
    case Some(message) => after == original && actions == [] && failure == Some(LibraryRaised(message))
    case None =>
      exists repaired: Geometry ::
        && Intrinsic(lib, config, original, repaired, actions)
        && (failure.None? <==> Keeps(lib, config, original, repaired))
        && (failure.None? ==> after == repaired)
        && (failure.Some? ==> after == original && Names(failure.value, lib, config, original, repaired))
  }

  // The intrinsic repair of one feature, with its own safety check.
  function First(lib: Library, config: Config, original: Geometry): (r: (Geometry, seq<Action>, Option<Reason>))
    ensures r.1 == [] ==> r.0 == original
    ensures RepairsFirst(lib, config, original, r.0, r.1, r.2)
  {
    match lib.raises(original)
    case Some(message) => (original, [], Some(LibraryRaised(message)))
    case None =>
      var repaired := RepairGeometry(lib, config, original);
      var failure := SafetyFailure(lib, config, original, repaired.0);
      (if failure.Some? then original else repaired.0, repaired.1, failure)
  }

  ghost function FirstAll(lib: Library, config: Config, originals: seq<Geometry>): (r: seq<Geometry>)
    ensures |r| == |originals|
  {
    seq(|originals|, i requires 0 <= i < |originals| => First(lib, config, originals[i]).0)
  }

  // The features after overlap erasure.
  ghost function Erasures(lib: Library, config: Config, originals: seq<Geometry>): (r: seq<Geometry>)
    ensures |r| == |originals|
  {
    var first := FirstAll(lib, config, originals);
    if config.resolveOverlaps then Resolved(lib, first) else first
  }

  // The features after both cross-feature stages.
  ghost function Crossed(lib: Library, config: Config, originals: seq<Geometry>): (r: seq<Geometry>)
    ensures |r| == |originals|
  {
    var s := Erasures(lib, config, originals);
    if config.fillGaps then GapsFilled(lib, config, s) else s
  }

  // What the features' logs say: first the intrinsic actions, then the erasure, then the gaps.
  ghost function FirstLog(lib: Library, config: Config, originals: seq<Geometry>): (r: seq<seq<Action>>)
    ensures |r| == |originals|
  {
    seq(|originals|, i requires 0 <= i < |originals| => First(lib, config, originals[i]).1)
  }

  ghost function ErasuresLog(lib: Library, config: Config, originals: seq<Geometry>): (r: seq<seq<Action>>)
    ensures |r| == |originals|
  {
    var log := FirstLog(lib, config, originals);
    if config.resolveOverlaps then Logged(lib, FirstAll(lib, config, originals), log) else log
  }

  ghost function CrossedLog(lib: Library, config: Config, originals: seq<Geometry>): (r: seq<seq<Action>>)
    ensures |r| == |originals|
  {
    var log := ErasuresLog(lib, config, originals);
    if config.fillGaps then GapsLogged(lib, config, Erasures(lib, config, originals), log) else log
  }

  // The polygon shares more than a sliver with the polygons before it.
  ghost predicate Encroaches(lib: Library, s: seq<Geometry>, i: nat)
    requires i < |s|
  {
    s[i].areal && !s[i].empty && lib.area(s[i].cells * Taken(s, i)) > 0.000000000001
  }

  lemma {:induction false} ErasureIsLogged(lib: Library, s: seq<Geometry>, i: nat, action: Action)
    requires lib.Valid() && i < |s|
    ensures action in OverlapActions(lib, s, i) <==> action == Action(Overlap) && Encroaches(lib, s, i)
  {
    PlacedCells(lib, s, i);
    var placed := Placed(lib, s, i);
    assert placed.None? ==> s[i].cells * Taken(s, i) == {};
  }

  // A hole goes to feature i.
  ghost predicate ReceivesHole(lib: Library, s: seq<Geometry>, holes: seq<Geometry>, indices: seq<nat>, k: nat, i: nat)
    requires k <= |holes| && Within(indices, |s|)
  {
    exists j :: 0 <= j < k && Receiver(lib, s, holes, indices, j) == Some(i)
  }

  lemma {:induction false} GapsAreLogged(lib: Library, s: seq<Geometry>, holes: seq<Geometry>, indices: seq<nat>,
                                         k: nat, i: nat, action: Action)
    requires k <= |holes| && Within(indices, |s|)
    ensures action in GapActions(lib, s, holes, indices, k, i) <==>
      action == Action(Gap) && ReceivesHole(lib, s, holes, indices, k, i)
  {
    if k > 0 {
      var last := k - 1;
      GapsAreLogged(lib, s, holes, indices, last, i, action);
      if ReceivesHole(lib, s, holes, indices, k, i) && !ReceivesHole(lib, s, holes, indices, last, i) {
        assert Receiver(lib, s, holes, indices, last) == Some(i);
      }
    }
  }

  lemma {:induction false} InEither(action: Action, log: seq<Action>, more: seq<Action>)
    ensures action in log + more <==> action in log || action in more
  {
  }

  // A feature's log holds its intrinsic findings, an overlap exactly when it encroached on
  // earlier polygons, and a gap exactly when it received a hole.
  lemma {:induction false} LogTells(lib: Library, config: Config, originals: seq<Geometry>, i: nat, action: Action)
    requires lib.Valid() && i < |originals|
    ensures var first, s := FirstAll(lib, config, originals), Erasures(lib, config, originals);
      var holes, indices := HolesOf(lib, config, s), PolygonIndices(s, |s|);
      action in CrossedLog(lib, config, originals)[i] <==>
        || action in First(lib, config, originals[i]).1
        || (action == Action(Overlap) && config.resolveOverlaps && Encroaches(lib, first, i))
        || (action == Action(Gap) && config.fillGaps && ReceivesHole(lib, s, holes, indices, |holes|, i))
  {
    var first, s := FirstAll(lib, config, originals), Erasures(lib, config, originals);
    var holes, indices := HolesOf(lib, config, s), PolygonIndices(s, |s|);
    var own, erased := FirstLog(lib, config, originals)[i], ErasuresLog(lib, config, originals)[i];
    ErasureIsLogged(lib, first, i, action);
    GapsAreLogged(lib, s, holes, indices, |holes|, i, action);
    InEither(action, own, OverlapActions(lib, first, i));
    InEither(action, erased, GapActions(lib, s, holes, indices, |holes|, i));
  }

  method RunCrossStages(lib: Library, config: Config, repaired: array<Geometry>, actions: array<seq<Action>>,
                        fault: Fault, ghost originals: seq<Geometry>)
    returns (raised: bool)
    requires repaired.Length == actions.Length && Recorded(originals, repaired[..], actions[..])
    requires repaired[..] == FirstAll(lib, config, originals) && actions[..] == FirstLog(lib, config, originals)
    modifies repaired, actions
    ensures raised ==> fault.InOverlap? || fault.InGap?
    ensures !raised ==>
      repaired[..] == Crossed(lib, config, originals) && actions[..] == CrossedLog(lib, config, originals)
    ensures !raised ==> Recorded(originals, repaired[..], actions[..])
  {
    raised := false;
    ghost var s, a := repaired[..], actions[..];
    if config.resolveOverlaps {
      raised := ResolveOverlaps(lib, repaired, actions, fault);
      if raised {
        return;
      }
      ResolveKeepsRecorded(lib, originals, s, a);
    }
    s, a := repaired[..], actions[..];
    if config.fillGaps {
      raised := FillGaps(lib, config, repaired, actions, fault);
      if !raised {
        FillKeepsRecorded(lib, config, originals, s, a);
      }
    }
  }

  // ---- repair_coverage ----------------------------------------------------------------------

  datatype Status = Repaired | Unchanged | Failed

  datatype FeatureResult = FeatureResult(
    status: Status, before: string, after: string, actions: seq<Action>, failure: Option<Reason>)

  datatype CoverageResult = CoverageResult(before: seq<string>, after: seq<string>, features: seq<FeatureResult>)

  function BuildResult(lib: Library, before: Geometry, after: Geometry, actions: seq<Action>, failure: Option<Reason>)
    : FeatureResult
  {
    if failure.Some? then FeatureResult(Failed, lib.text(before), lib.text(before), [], failure)
    else if actions == [] then FeatureResult(Unchanged, lib.text(before), lib.text(before), [], None)
    else FeatureResult(if after.valid then Repaired else Failed, lib.text(before), lib.text(after), actions, None)
  }

  method RepairFirst(lib: Library, config: Config, originals: seq<Geometry>)
    returns (repaired: array<Geometry>, actions: array<seq<Action>>, failures: array<Option<Reason>>)
    ensures fresh(repaired) && fresh(actions) && fresh(failures)
    ensures repaired.Length == actions.Length == failures.Length == |originals|
    ensures forall i :: 0 <= i < |originals| ==>
      (repaired[i], actions[i], failures[i]) == First(lib, config, originals[i])
  {
    repaired := new Geometry[|originals|](i requires 0 <= i < |originals| => originals[i]);
    actions := new seq<Action>[|originals|](_ => []);
    failures := new Option<Reason>[|originals|](_ => None);
    for i := 0 to |originals|
      invariant forall j :: 0 <= j < i ==> (repaired[j], actions[j], failures[j]) == First(lib, config, originals[j])
    {
      var first := First(lib, config, originals[i]);
      repaired[i], actions[i], failures[i] := first.0, first.1, first.2;
    }
  }

  lemma {:induction false} FirstIsRecorded(lib: Library, config: Config, originals: seq<Geometry>,
                                           repaired: seq<Geometry>, actions: seq<seq<Action>>,
                                           failures: seq<Option<Reason>>)
    requires |repaired| == |actions| == |failures| == |originals|
    requires forall i :: 0 <= i < |originals| ==>
      (repaired[i], actions[i], failures[i]) == First(lib, config, originals[i])
    ensures repaired == FirstAll(lib, config, originals) && Recorded(originals, repaired, actions)
    ensures actions == FirstLog(lib, config, originals)
  {
    forall i | 0 <= i < |originals|
      ensures repaired[i] == FirstAll(lib, config, originals)[i] && (actions[i] == [] ==> repaired[i] == originals[i])
      ensures actions[i] == FirstLog(lib, config, originals)[i]
    {
      assert (repaired[i], actions[i], failures[i]) == First(lib, config, originals[i]);
    }
  }

  // What the last safety check decides about one feature.
  function FinalFailure(lib: Library, config: Config, original: Geometry, candidate: Geometry, own: Option<Reason>)
    : (failure: Option<Reason>)
    ensures own.Some? ==> failure == own
    ensures own.None? ==> (failure.None? <==> Keeps(lib, config, original, candidate))
    ensures own.None? && failure.Some? ==> Names(failure.value, lib, config, original, candidate)
  {
    if own.Some? then own else SafetyFailure(lib, config, original, candidate)
  }

  // The last safety check: a rejected feature gets its original geometry back. A feature that
  // failed before is not checked again, so only the others can make the library raise.
  method RevertUnsafe(lib: Library, config: Config, originals: seq<Geometry>, repaired: array<Geometry>,
                      failures: array<Option<Reason>>, fault: Fault)
    returns (raised: bool)
    requires repaired.Length == failures.Length == |originals|
    modifies repaired, failures
    ensures raised <==> fault.InSafety? && fault.step < |originals| && old(failures[fault.step]).None?
    ensures !raised ==> forall i :: 0 <= i < |originals| ==>
      && failures[i] == FinalFailure(lib, config, originals[i], old(repaired[i]), old(failures[i]))
      && repaired[i] == if failures[i].Some? then originals[i] else old(repaired[i])
  {
    for i := 0 to |originals|
      invariant !(fault.InSafety? && fault.step < i && old(failures[fault.step]).None?)
      invariant forall j :: 0 <= j < i ==>
        && failures[j] == FinalFailure(lib, config, originals[j], old(repaired[j]), old(failures[j]))
        && repaired[j] == if failures[j].Some? then originals[j] else old(repaired[j])
      invariant forall j :: i <= j < |originals| ==> repaired[j] == old(repaired[j]) && failures[j] == old(failures[j])
    {
      if fault == InSafety(i) && failures[i].None? {
        return true;
      }
      var failure := FinalFailure(lib, config, originals[i], repaired[i], failures[i]);
      if failure.Some? {
        repaired[i] := originals[i];
        failures[i] := failure;
      }
    }
    raised := false;
  }

  method Rollback(originals: seq<Geometry>, repaired: array<Geometry>, actions: array<seq<Action>>,
                  failures: array<Option<Reason>>)
    requires repaired.Length == actions.Length == failures.Length == |originals|
    requires repaired != failures as object && repaired != actions as object && actions != failures as object
    modifies repaired, actions, failures
    ensures repaired[..] == originals
    ensures forall i :: 0 <= i < |originals| ==> actions[i] == [] && failures[i] == Some(RolledBack)
  {
    forall i | 0 <= i < |originals| {
      repaired[i] := originals[i];
    }
    forall i | 0 <= i < |originals| {
      actions[i] := [];
    }
    forall i | 0 <= i < |originals| {
      failures[i] := Some(RolledBack);
    }
  }

  method Report(lib: Library, originals: seq<Geometry>, repaired: array<Geometry>, actions: array<seq<Action>>,
                failures: array<Option<Reason>>)
    returns (result: CoverageResult)
    requires repaired.Length == actions.Length == failures.Length == |originals|
    ensures |result.before| == |result.after| == |result.features| == |originals|
    ensures forall i :: 0 <= i < |originals| ==>
      && result.before[i] == lib.text(originals[i]) && result.after[i] == lib.text(repaired[i])
      && result.features[i] == BuildResult(lib, originals[i], repaired[i], actions[i], failures[i])
  {
    result := CoverageResult(
      seq(|originals|, i requires 0 <= i < |originals| => lib.text(originals[i])),
      seq(|originals|, i requires 0 <= i < |originals| reads repaired => lib.text(repaired[i])),
      seq(|originals|, i requires 0 <= i < |originals| reads repaired, actions, failures =>
        BuildResult(lib, originals[i], repaired[i], actions[i], failures[i])));
  }

  // ---- what a run ends with ------------------------------------------------------------------

  // Why feature i fails when nothing raises in the cross-feature stages.
  ghost function FailureAt(lib: Library, config: Config, originals: seq<Geometry>, i: nat): Option<Reason>
    requires i < |originals|
  {
    var own := First(lib, config, originals[i]).2;
    FinalFailure(lib, config, originals[i], Crossed(lib, config, originals)[i], own)
  }

  // What feature i ends as, then.
  ghost function FinalAt(lib: Library, config: Config, originals: seq<Geometry>, i: nat): Geometry
    requires i < |originals|
  {
    if FailureAt(lib, config, originals, i).Some? then originals[i] else Crossed(lib, config, originals)[i]
  }

  ghost function Final(lib: Library, config: Config, originals: seq<Geometry>): (r: seq<Geometry>)
    ensures |r| == |originals|
    ensures forall i :: 0 <= i < |originals| ==> r[i] == FinalAt(lib, config, originals, i)
  {
    seq(|originals|, i requires 0 <= i < |originals| => FinalAt(lib, config, originals, i))
  }

  // How one feature ends: what the intrinsic repair did and what the cross-feature stages made of
  // it. It fails for the reason of the first check it does not pass and then keeps its original
  // geometry; otherwise it ends as the stages left it, with every guarantee kept.
  ghost predicate Explained(lib: Library, config: Config, original: Geometry, first: Geometry, own: Option<Reason>,
                            crossed: Geometry, final: Geometry, failure: Option<Reason>)
  {
    && (exists actions :: RepairsFirst(lib, config, original, first, actions, own))
    && (own.Some? ==> failure == own)
    && (own.None? ==> (failure.None? <==> Keeps(lib, config, original, crossed)))
    && (own.None? && failure.Some? ==> Names(failure.value, lib, config, original, crossed))
    && final == if failure.Some? then original else crossed
  }

  // The coverage and the report agree on one feature, and anything but a repaired feature is
  // exactly as it was.
  ghost predicate Coupled(lib: Library, config: Config, original: Geometry, final: Geometry, failure: Option<Reason>,
                          log: seq<Action>, before: string, after: string, feature: FeatureResult)
  {
    && before == feature.before == lib.text(original)
    && after == feature.after == lib.text(final)
    && feature.failure == failure
    && (feature.status == Failed <==> failure.Some?)
    && (feature.status == Unchanged <==> failure.None? && feature.actions == [])
    && (feature.status != Repaired ==> final == original && after == before && feature.actions == [])
    && (feature.status == Repaired ==>
          feature.actions == log != [] && Keeps(lib, config, original, final))
  }

  lemma {:induction false} CoupledFeature(lib: Library, config: Config, original: Geometry, crossed: Geometry,
                                          final: Geometry, own: Option<Reason>, failure: Option<Reason>,
                                          actions: seq<Action>)
    requires actions == [] ==> own.Some? || crossed == original
    requires failure == FinalFailure(lib, config, original, crossed, own)
    requires final == if failure.Some? then original else crossed
    ensures var feature := BuildResult(lib, original, final, actions, failure);
      Coupled(lib, config, original, final, failure, actions, lib.text(original), lib.text(final), feature)
  {
  }

  // The result describes these final geometries and failures.
  ghost predicate Describes(lib: Library, config: Config, originals: seq<Geometry>, final: seq<Geometry>,
                            failures: seq<Option<Reason>>, logs: seq<seq<Action>>, result: CoverageResult)
  {
    && |result.before| == |result.after| == |result.features| == |originals| == |final| == |failures| == |logs|
    && forall i :: 0 <= i < |originals| ==>
         Coupled(lib, config, originals[i], final[i], failures[i], logs[i], result.before[i], result.after[i],
                 result.features[i])
  }

  ghost function Failures(lib: Library, config: Config, originals: seq<Geometry>): (r: seq<Option<Reason>>)
    ensures |r| == |originals|
  {
    seq(|originals|, i requires 0 <= i < |originals| => FailureAt(lib, config, originals, i))
  }

  ghost predicate AllExplained(lib: Library, config: Config, originals: seq<Geometry>, final: seq<Geometry>,
                               failures: seq<Option<Reason>>)
  {
    && |final| == |failures| == |originals|
    && forall i :: 0 <= i < |originals| ==>
         Explained(lib, config, originals[i], FirstAll(lib, config, originals)[i], First(lib, config, originals[i]).2,
                   Crossed(lib, config, originals)[i], final[i], failures[i])
  }

  lemma {:induction false} FinalExplained(lib: Library, config: Config, originals: seq<Geometry>)
    ensures AllExplained(lib, config, originals, Final(lib, config, originals), Failures(lib, config, originals))
  {
    var final, failures := Final(lib, config, originals), Failures(lib, config, originals);
    forall i | 0 <= i < |originals|
      ensures Explained(lib, config, originals[i], FirstAll(lib, config, originals)[i],
                        First(lib, config, originals[i]).2, Crossed(lib, config, originals)[i], final[i], failures[i])
    {
      var first := First(lib, config, originals[i]);
      assert RepairsFirst(lib, config, originals[i], first.0, first.1, first.2);
    }
  }

  ghost function NothingDone(n: nat): (r: seq<seq<Action>>)
    ensures |r| == n
  {
    seq(n, _ => [])
  }

  ghost function AllRolledBack(n: nat): (r: seq<Option<Reason>>)
    ensures |r| == n
  {
    seq(n, _ => Some(RolledBack))
  }

  // The library raises in the last safety check, on a feature that had not failed before.
  ghost predicate RaisesInSafety(lib: Library, config: Config, originals: seq<Geometry>, fault: Fault) {
    fault.InSafety? && fault.step < |originals| && First(lib, config, originals[fault.step]).2.None?
  }

  // What the last safety check made of every feature.
  ghost predicate Checked(lib: Library, config: Config, originals: seq<Geometry>, crossed: seq<Geometry>,
                          own: seq<Option<Reason>>, final: seq<Geometry>, failures: seq<Option<Reason>>)
  {
    && |crossed| == |own| == |final| == |failures| == |originals|
    && forall i :: 0 <= i < |originals| ==>
         && failures[i] == FinalFailure(lib, config, originals[i], crossed[i], own[i])
         && final[i] == if failures[i].Some? then originals[i] else crossed[i]
  }

  // The report couples every feature.
  method ReportChecked(lib: Library, config: Config, originals: seq<Geometry>, repaired: array<Geometry>,
                       actions: array<seq<Action>>, failures: array<Option<Reason>>,
                       ghost crossed: seq<Geometry>, ghost own: seq<Option<Reason>>)
    returns (report: CoverageResult)
    requires repaired.Length == actions.Length == failures.Length == |originals|
    requires Checked(lib, config, originals, crossed, own, repaired[..], failures[..])
    requires forall i :: 0 <= i < |originals| ==> actions[i] == [] ==> own[i].Some? || crossed[i] == originals[i]
    ensures Describes(lib, config, originals, repaired[..], failures[..], actions[..], report)
  {
    report := Report(lib, originals, repaired, actions, failures);
    forall i | 0 <= i < |originals|
      ensures Coupled(lib, config, originals[i], repaired[i], failures[i], actions[i], report.before[i],
                      report.after[i], report.features[i])
    {
      CoupledFeature(lib, config, originals[i], crossed[i], repaired[i], own[i], failures[i], actions[i]);
    }
  }

  lemma {:induction false} CheckedIsFinal(lib: Library, config: Config, originals: seq<Geometry>,
                                          own: seq<Option<Reason>>, final: seq<Geometry>, failures: seq<Option<Reason>>)
    requires Checked(lib, config, originals, Crossed(lib, config, originals), own, final, failures)
    requires forall i :: 0 <= i < |originals| ==> own[i] == First(lib, config, originals[i]).2
    ensures final == Final(lib, config, originals) && failures == Failures(lib, config, originals)
  {
  }

  lemma {:induction false} CheckedRollback(lib: Library, config: Config, originals: seq<Geometry>,
                                           own: seq<Option<Reason>>, final: seq<Geometry>,
                                           failures: seq<Option<Reason>>)
    requires Checked(lib, config, originals, originals, own, final, failures)
    requires forall i :: 0 <= i < |originals| ==> own[i] == Some(RolledBack)
    ensures final == originals && failures == AllRolledBack(|originals|)
  {
  }

  // The last safety check and the report.
  method CheckAndReport(lib: Library, config: Config, originals: seq<Geometry>, repaired: array<Geometry>,
                        actions: array<seq<Action>>, failures: array<Option<Reason>>, fault: Fault)
    returns (result: Result<CoverageResult>, ghost final: seq<Geometry>, ghost reasons: seq<Option<Reason>>)
    requires repaired.Length == actions.Length == failures.Length == |originals|
    requires repaired != failures as object && repaired != actions as object && actions != failures as object
    requires forall i :: 0 <= i < |originals| ==>
      actions[i] == [] ==> failures[i].Some? || repaired[i] == originals[i]
    modifies repaired, failures
    ensures result.Err? <==> fault.InSafety? && fault.step < |originals| && old(failures[fault.step]).None?
    ensures result.Ok? ==>
      && Checked(lib, config, originals, old(repaired[..]), old(failures[..]), final, reasons)
      && Describes(lib, config, originals, final, reasons, old(actions[..]), result.value)
  {
    ghost var crossed, own := repaired[..], failures[..];
    var raised := RevertUnsafe(lib, config, originals, repaired, failures, fault);
    final, reasons := repaired[..], failures[..];
    if raised {
      return Err([]), final, reasons;
    }
    var report := ReportChecked(lib, config, originals, repaired, actions, failures, crossed, own);
    result := Ok(report);
  }

  // A raise in the cross-feature stages rolls everything back; one in the last safety check
  // goes through to the caller; otherwise the result describes the final geometries.
  method RepairCoverage(lib: Library, config: Config, originals: seq<Geometry>, fault: Fault)
    returns (result: Result<CoverageResult>, ghost rolledBack: bool)
    ensures rolledBack ==> fault.InOverlap? || fault.InGap?
    ensures result.Err? <==> RaisesInSafety(lib, config, originals, fault)
    ensures result.Ok? && rolledBack ==>
      Describes(lib, config, originals, originals, AllRolledBack(|originals|), NothingDone(|originals|), result.value)
    ensures result.Ok? && !rolledBack ==>
      && Describes(lib, config, originals, Final(lib, config, originals), Failures(lib, config, originals),
                   CrossedLog(lib, config, originals), result.value)
      && AllExplained(lib, config, originals, Final(lib, config, originals), Failures(lib, config, originals))
  {
    var repaired, actions, failures := RepairFirst(lib, config, originals);
    FirstIsRecorded(lib, config, originals, repaired[..], actions[..], failures[..]);
    var raised := RunCrossStages(lib, config, repaired, actions, fault, originals);
    rolledBack := raised;
    if raised {
      Rollback(originals, repaired, actions, failures);
    }
    ghost var own, log := failures[..], actions[..];
    ghost var final, reasons;
    result, final, reasons := CheckAndReport(lib, config, originals, repaired, actions, failures, fault);
    if result.Ok? {
      if rolledBack {
        CheckedRollback(lib, config, originals, own, final, reasons);
        assert log == NothingDone(|originals|);
      } else {
        CheckedIsFinal(lib, config, originals, own, final, reasons);
        FinalExplained(lib, config, originals);
      }
    }
  }
}
