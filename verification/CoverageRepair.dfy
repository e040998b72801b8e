// Coverage repair: intrinsic repair per feature, overlap erasure, gap filling, per-feature
// safety reverts and atomic rollback. Regions are finite sets of cells.
module CoverageRepair {
  import opened Common

  const AREA_EPSILON := 0.000000000001

  predicate WellFormed(g: RawGeometry) {
    g.empty ==> g.cells == {}
  }

  type Geometry = g: RawGeometry | WellFormed(g) witness Geometry(true, {}, true, true, 0)

  // `areal` geometries are polygons and multipolygons. Collections are not areal but may cover
  // cells all the same. `detail` tells apart geometries that cover the same cells.
  datatype RawGeometry = Geometry(areal: bool, cells: set<nat>, empty: bool, valid: bool, detail: nat)

  predicate Polygonal(g: Geometry) {
    g.areal && !g.empty
  }

  datatype IssueKind = DuplicateVertex | InvalidRing | SelfIntersection | Sliver | Overlap | Gap

  datatype Action = Action(kind: IssueKind)

  datatype Config = Config(
    removeDuplicates: bool, fixInvalid: bool, removeSlivers: bool, resolveOverlaps: bool, fillGaps: bool,
    gapThreshold: real, maxShift: Option<real>, maxAreaChange: Option<real>)

  // The geometry library, as far as this algorithm uses it.
  datatype Library = Library(
    text: Geometry -> string,
    area: set<nat> -> real,
    shift: (Geometry, Geometry) -> real,
    shared: (Geometry, Geometry) -> real,
    difference: (Geometry, Geometry) -> Geometry,
    union: (Geometry, Geometry) -> Geometry,
    unionAll: seq<Geometry> -> Geometry,
    rings: Geometry -> seq<Geometry>,
    vertices: Geometry -> nat,
    deduplicate: Geometry -> Geometry,
    ringError: Geometry -> bool,
    selfIntersection: Geometry -> bool,
    makeValid: Geometry -> Geometry,
    dropSlivers: Geometry -> (Geometry, nat),
    raises: Geometry -> Option<string>)
  {
    ghost predicate Valid() {
      && area({}) == 0.0 && (forall a, b {:trigger area(a), area(b)} :: a <= b ==> area(a) <= area(b))
      && (forall a: Geometry, b: Geometry {:trigger difference(a, b)} :: a.areal && b.areal ==>
            difference(a, b).areal && difference(a, b).cells == a.cells - b.cells)
      && (forall a: Geometry, b: Geometry {:trigger union(a, b)} :: a.areal && b.areal ==>
            union(a, b).areal && union(a, b).cells == a.cells + b.cells)
      && (forall g, k :: 0 <= k < |rings(g)| ==> rings(g)[k].areal)
    }

    // Every region of even one cell is larger than the epsilon below which overlaps are left alone.
    ghost predicate Coarse() {
      forall s :: s != {} ==> area(s) > 0.000000000001
    }
  }

  // ---- one feature ---------------------------------------------------------------

  predicate DropsVertices(lib: Library, config: Config, original: Geometry) {
    config.removeDuplicates && lib.vertices(lib.deduplicate(original)) < lib.vertices(original)
  }

  // The geometry after the first stage.
  function Slimmed(lib: Library, config: Config, original: Geometry): Geometry {
    if DropsVertices(lib, config, original) then lib.deduplicate(original) else original
  }

  predicate Broken(lib: Library, config: Config, original: Geometry) {
    config.fixInvalid && !Slimmed(lib, config, original).valid
  }

  // The geometry after the second stage.
  function Mended(lib: Library, config: Config, original: Geometry): Geometry {
    var slimmed := Slimmed(lib, config, original);
    if Broken(lib, config, original) then lib.makeValid(slimmed) else slimmed
  }

  predicate LosesSlivers(lib: Library, config: Config, original: Geometry) {
    config.removeSlivers && lib.dropSlivers(Mended(lib, config, original)).1 > 0
  }

  function Stage(action: Action): nat {
    match action.kind
    case DuplicateVertex => 0
    case InvalidRing => 1
    case SelfIntersection => 2
    case Sliver => 3
    case Overlap => 4
    case Gap => 5
  }

  // Each kind at most once, in the order of the stages.
  predicate StageOrder(actions: seq<Action>) {
    forall i, j :: 0 <= i < j < |actions| ==> Stage(actions[i]) < Stage(actions[j])
  }

  function Defects(lib: Library, g: Geometry): (r: seq<Action>)
    ensures r != [] && StageOrder(r)
    ensures Action(InvalidRing) in r <==> lib.ringError(g)
    ensures Action(SelfIntersection) in r <==> lib.selfIntersection(g) || !lib.ringError(g)
    ensures forall action :: action in r ==> action.kind == InvalidRing || action.kind == SelfIntersection
  {
    if !lib.ringError(g) then [Action(SelfIntersection)]
    else if lib.selfIntersection(g) then [Action(InvalidRing), Action(SelfIntersection)]
    else [Action(InvalidRing)]
  }

  lemma {:induction false} InStageOrder(dropped: seq<Action>, defects: seq<Action>, slivers: seq<Action>)
    requires StageOrder(dropped) && StageOrder(defects) && StageOrder(slivers)
    requires (forall x :: x in dropped ==> Stage(x) < 1) && (forall x :: x in defects ==> 1 <= Stage(x) < 3)
    requires forall x :: x in slivers ==> Stage(x) >= 3
    ensures StageOrder(dropped + defects + slivers)
  {
    var all, m, n := dropped + defects + slivers, |dropped|, |dropped| + |defects|;
    forall i, j | 0 <= i < j < |all| ensures Stage(all[i]) < Stage(all[j]) {
      assert if i < m then all[i] in dropped else if i < n then all[i] in defects else all[i] in slivers;
      assert if j < m then all[j] in dropped else if j < n then all[j] in defects else all[j] in slivers;
    }
  }

  function Dropped(lib: Library, config: Config, original: Geometry): (r: seq<Action>)
    ensures StageOrder(r) && (forall x :: x in r ==> x.kind == DuplicateVertex)
    ensures r != [] <==> DropsVertices(lib, config, original)
  {
    if DropsVertices(lib, config, original) then [Action(DuplicateVertex)] else []
  }

  function Slivers(lib: Library, config: Config, original: Geometry): (r: seq<Action>)
    ensures StageOrder(r) && (forall x :: x in r ==> x.kind == Sliver)
    ensures r != [] <==> LosesSlivers(lib, config, original)
  {
    if LosesSlivers(lib, config, original) then [Action(Sliver)] else []
  }

  function Mendings(lib: Library, config: Config, original: Geometry): (r: seq<Action>)
    ensures StageOrder(r) && (forall x :: x in r ==> x.kind == InvalidRing || x.kind == SelfIntersection)
    ensures r != [] <==> Broken(lib, config, original)
  {
    if Broken(lib, config, original) then Defects(lib, Slimmed(lib, config, original)) else []
  }

  // What the three stages record, in stage order.
  function StageActions(lib: Library, config: Config, original: Geometry): (r: seq<Action>)
    ensures StageOrder(r)
  {
    InStageOrder(Dropped(lib, config, original), Mendings(lib, config, original), Slivers(lib, config, original));
    Dropped(lib, config, original) + Mendings(lib, config, original) + Slivers(lib, config, original)
  }

  lemma {:induction false} InOneOf(x: Action, a: seq<Action>, b: seq<Action>, c: seq<Action>)
    ensures x in a + b + c <==> x in a || x in b || x in c
  {
  }

  // Every stage records its own finding, and only when it acted. A mended geometry without a
  // recognised defect counts as self-intersecting.
  lemma {:induction false} EveryStageRecords(lib: Library, config: Config, original: Geometry)
    ensures var actions, slimmed := StageActions(lib, config, original), Slimmed(lib, config, original);
      && (Action(DuplicateVertex) in actions <==> DropsVertices(lib, config, original))
      && (Action(InvalidRing) in actions <==> Broken(lib, config, original) && lib.ringError(slimmed))
      && (Action(SelfIntersection) in actions <==>
            Broken(lib, config, original) && (lib.selfIntersection(slimmed) || !lib.ringError(slimmed)))
      && (Action(Sliver) in actions <==> LosesSlivers(lib, config, original))
  {
    var dropped, mendings := Dropped(lib, config, original), Mendings(lib, config, original);
    var slivers := Slivers(lib, config, original);
    InOneOf(Action(DuplicateVertex), dropped, mendings, slivers);
    InOneOf(Action(InvalidRing), dropped, mendings, slivers);
    InOneOf(Action(SelfIntersection), dropped, mendings, slivers);
    InOneOf(Action(Sliver), dropped, mendings, slivers);
  }

  // One stage: it acts when asked to and when there is something to do.
  ghost predicate Acts(acts: bool, before: Geometry, changed: Geometry, after: Geometry) {
    after == if acts then changed else before
  }

  // The three stages written out: duplicate vertices go when that leaves fewer, an invalid
  // geometry is made valid, slivers are dropped when there are any; each records its finding.
  ghost predicate IntrinsicBy(lib: Library, config: Config, original: Geometry, slimmed: Geometry, mended: Geometry,
                              after: Geometry, actions: seq<Action>)
  {
    var fewer := config.removeDuplicates && lib.vertices(lib.deduplicate(original)) < lib.vertices(original);
    var broken := config.fixInvalid && !slimmed.valid;
    var slivers := config.removeSlivers && lib.dropSlivers(mended).1 > 0;
    && Acts(fewer, original, lib.deduplicate(original), slimmed)
    && Acts(broken, slimmed, lib.makeValid(slimmed), mended)
    && Acts(slivers, mended, lib.dropSlivers(mended).0, after)
    && (Action(DuplicateVertex) in actions <==> fewer)
    && (Action(InvalidRing) in actions <==> broken && lib.ringError(slimmed))
    && (Action(SelfIntersection) in actions <==> broken && (lib.selfIntersection(slimmed) || !lib.ringError(slimmed)))
    && (Action(Sliver) in actions <==> slivers)
    && Action(Overlap) !in actions && Action(Gap) !in actions && StageOrder(actions)
  }

  ghost predicate Intrinsic(lib: Library, config: Config, original: Geometry, after: Geometry, actions: seq<Action>) {
    exists slimmed: Geometry, mended: Geometry :: IntrinsicBy(lib, config, original, slimmed, mended, after, actions)
  }

  lemma {:induction false} NoCrossActions(lib: Library, config: Config, original: Geometry)
    ensures var actions := StageActions(lib, config, original); Action(Overlap) !in actions && Action(Gap) !in actions
  {
    var dropped, mendings := Dropped(lib, config, original), Mendings(lib, config, original);
    InOneOf(Action(Overlap), dropped, mendings, Slivers(lib, config, original));
    InOneOf(Action(Gap), dropped, mendings, Slivers(lib, config, original));
  }

  lemma {:induction false} IntrinsicSteps(lib: Library, config: Config, original: Geometry)
    ensures var mended := Mended(lib, config, original);
      Intrinsic(lib, config, original,
                if LosesSlivers(lib, config, original) then lib.dropSlivers(mended).0 else mended,
                StageActions(lib, config, original))
  {
    var slimmed, mended := Slimmed(lib, config, original), Mended(lib, config, original);
    EveryStageRecords(lib, config, original);
    NoCrossActions(lib, config, original);
    assert IntrinsicBy(lib, config, original, slimmed, mended,
                       if LosesSlivers(lib, config, original) then lib.dropSlivers(mended).0 else mended,
                       StageActions(lib, config, original));
  }

  // The intrinsic repair: a geometry that no stage changed has no action.
  function RepairGeometry(lib: Library, config: Config, original: Geometry): (r: (Geometry, seq<Action>))
    ensures r.1 == [] ==> r.0 == original
    ensures Intrinsic(lib, config, original, r.0, r.1)
  {
    IntrinsicSteps(lib, config, original);
    var mended, actions := Mended(lib, config, original), StageActions(lib, config, original);
    if LosesSlivers(lib, config, original) then (lib.dropSlivers(mended).0, actions) else (mended, actions)
  }

  // ---- what a repair must keep --------------------------------------------------------

  // Why a feature keeps its original geometry.
  datatype Reason =
    | NotValid | ErasesEverything | NotPolygonal | ShiftsTooFar | AreaChangesTooMuch
    | LibraryRaised(message: string) | RolledBack

  function Abs(x: real): real {
    if x < 0.0 then -x else x
  }

  function ShapeShift(lib: Library, before: Geometry, after: Geometry): real {
    if before.empty || after.empty then 0.0 else lib.shift(before, after)
  }

  ghost predicate KeepsSomething(before: Geometry, after: Geometry) {
    before.empty || !after.empty
  }

  ghost predicate StaysPolygonal(before: Geometry, after: Geometry) {
    before.areal && !before.empty ==> after.areal && !after.empty
  }

  ghost predicate ShiftsLittle(lib: Library, config: Config, before: Geometry, after: Geometry) {
    config.maxShift.Some? ==>
      (if before.empty || after.empty then 0.0 else lib.shift(before, after)) <= config.maxShift.value
  }

  ghost predicate KeepsArea(lib: Library, config: Config, before: Geometry, after: Geometry) {
    config.maxAreaChange.Some? && lib.area(before.cells) > 0.000000000001 ==>
      var most := config.maxAreaChange.value * lib.area(before.cells);
      -most <= lib.area(after.cells) - lib.area(before.cells) <= most
  }

  // The five guarantees.
  ghost predicate Keeps(lib: Library, config: Config, before: Geometry, after: Geometry) {
    && after.valid && KeepsSomething(before, after) && StaysPolygonal(before, after)
    && ShiftsLittle(lib, config, before, after) && KeepsArea(lib, config, before, after)
  }

  // The reason names the first guarantee that is broken.
  ghost predicate Names(reason: Reason, lib: Library, config: Config, before: Geometry, after: Geometry) {
    match reason
    case NotValid => !after.valid
    case ErasesEverything => after.valid && !KeepsSomething(before, after)
    case NotPolygonal => after.valid && KeepsSomething(before, after) && !StaysPolygonal(before, after)
    case ShiftsTooFar =>
      && after.valid && KeepsSomething(before, after) && StaysPolygonal(before, after)
      && !ShiftsLittle(lib, config, before, after)
    case AreaChangesTooMuch =>
      && after.valid && KeepsSomething(before, after) && StaysPolygonal(before, after)
      && ShiftsLittle(lib, config, before, after) && !KeepsArea(lib, config, before, after)
    case _ => false
  }

  lemma {:induction false} RatioAbove(change: real, whole: real, most: real)
    requires whole > 0.0
    ensures change / whole > most <==> change > most * whole
  {
    var ratio := change / whole;
    assert change == ratio * whole;
    if ratio > most {
      assert (ratio - most) * whole > 0.0;
    } else {
      assert (most - ratio) * whole >= 0.0;
    }
  }

  // Why a candidate is rejected, if it is.
  function SafetyFailure(lib: Library, config: Config, before: Geometry, after: Geometry): (r: Option<Reason>)
    ensures r.None? <==> Keeps(lib, config, before, after)
    ensures r.Some? ==> Names(r.value, lib, config, before, after)
  {
    ghost var whole, change := lib.area(before.cells), Abs(lib.area(after.cells) - lib.area(before.cells));
    assert config.maxAreaChange.Some? && whole > AREA_EPSILON ==>
      (change / whole > config.maxAreaChange.value <==> change > config.maxAreaChange.value * whole) by {
      if config.maxAreaChange.Some? && whole > AREA_EPSILON {
        RatioAbove(change, whole, config.maxAreaChange.value);
      }
    }
    if !after.valid then Some(NotValid)
    else if !before.empty && after.empty then Some(ErasesEverything)
    else if Polygonal(before) && !Polygonal(after) then
      Some(NotPolygonal)
    else if config.maxShift.Some? && ShapeShift(lib, before, after) > config.maxShift.value then
      Some(ShiftsTooFar)
    else if config.maxAreaChange.Some? && lib.area(before.cells) > AREA_EPSILON
            && Abs(lib.area(after.cells) - lib.area(before.cells)) / lib.area(before.cells)
               > config.maxAreaChange.value then
      Some(AreaChangesTooMuch)
    else None
  }

  // ---- overlaps --------------------------------------------------------------------

  predicate Overlaps(lib: Library, g: Geometry, placed: Geometry) {
    g.cells * placed.cells != {} && lib.area(g.cells * placed.cells) > AREA_EPSILON
  }

  // What a feature keeps once the features placed before it have taken their cells.
  function Erased(lib: Library, g: Geometry, placed: Option<Geometry>): Geometry {
    if placed.Some? && Overlaps(lib, g, placed.value) then lib.difference(g, placed.value) else g
  }

  // The union of the polygonal features placed among the first k.
  ghost function Placed(lib: Library, s: seq<Geometry>, k: nat): Option<Geometry>
    requires k <= |s|
  {
    if k == 0 then None
    else
      var before := Placed(lib, s, k - 1);
      if !Polygonal(s[k - 1]) then before
      else
        var g := Erased(lib, s[k - 1], before);
        if before.None? then Some(g) else Some(lib.union(before.value, g))
  }

  ghost function ResolvedAt(lib: Library, s: seq<Geometry>, i: nat): Geometry
    requires i < |s|
  {
    if Polygonal(s[i]) then Erased(lib, s[i], Placed(lib, s, i)) else s[i]
  }

  ghost function Resolved(lib: Library, s: seq<Geometry>): (r: seq<Geometry>)
    ensures |r| == |s|
  {
    seq(|s|, i requires 0 <= i < |s| => ResolvedAt(lib, s, i))
  }

  // The cells of the first k features.
  ghost function Covered(s: seq<Geometry>, k: nat): set<nat>
    requires k <= |s|
  {
    if k == 0 then {} else Covered(s, k - 1) + s[k - 1].cells
  }

  // The cells of the polygonal ones among the first k features.
  ghost function Taken(s: seq<Geometry>, k: nat): set<nat>
    requires k <= |s|
  {
    if k == 0 then {} else if Polygonal(s[k - 1]) then Taken(s, k - 1) + s[k - 1].cells else Taken(s, k - 1)
  }

  lemma {:induction false} TakenMembers(s: seq<Geometry>, k: nat, cell: nat)
    requires k <= |s|
    ensures cell in Taken(s, k) <==> exists i: nat :: i < k && s[i].areal && !s[i].empty && cell in s[i].cells
  {
    if k > 0 {
      TakenMembers(s, k - 1, cell);
    }
  }

  lemma {:induction false} TakenIsCovered(s: seq<Geometry>, k: nat)
    requires k <= |s|
    ensures Taken(s, k) <= Covered(s, k)
  {
    if k > 0 {
      TakenIsCovered(s, k - 1);
    }
  }

  lemma {:induction false} TakenContains(s: seq<Geometry>, i: nat, k: nat)
    requires i < k <= |s| && Polygonal(s[i])
    ensures s[i].cells <= Taken(s, k)
  {
    if i < k - 1 {
      TakenContains(s, i, k - 1);
    }
  }

  ghost function CellsOf(placed: Option<Geometry>): set<nat> {
    if placed.Some? then placed.value.cells else {}
  }

  lemma {:induction false} Untouched(a: set<nat>, b: set<nat>)
    requires a * b == {}
    ensures a == a - b
  {
    forall c | c in a ensures c !in b {
      assert c !in a * b;
    }
  }

  // Erasure takes only cells already placed; what it leaves shared is a sliver.
  lemma {:induction false} ErasedCells(lib: Library, g: Geometry, placed: Option<Geometry>)
    requires lib.Valid() && g.areal && (placed.Some? ==> placed.value.areal)
    ensures var r, taken := Erased(lib, g, placed), CellsOf(placed);
      && r.areal && r.cells <= g.cells && taken + r.cells == taken + g.cells
      && lib.area(r.cells * taken) <= AREA_EPSILON
      && (lib.Coarse() ==> r.cells == g.cells - taken)
  {
    var r, taken := Erased(lib, g, placed), CellsOf(placed);
    if placed.Some? && Overlaps(lib, g, placed.value) {
      assert r.cells * taken == {};
    } else {
      assert r == g;
      if g.cells * taken != {} {
        assert placed.Some?;
      }
      assert lib.area(g.cells * taken) <= AREA_EPSILON;
      if lib.Coarse() {
        assert g.cells * taken == {};
        Untouched(g.cells, taken);
      }
    }
  }

  lemma {:induction false} PlacedCells(lib: Library, s: seq<Geometry>, k: nat)
    requires lib.Valid() && k <= |s|
    ensures CellsOf(Placed(lib, s, k)) == Taken(s, k)
    ensures Placed(lib, s, k).Some? ==> Placed(lib, s, k).value.areal
  {
    if k > 0 {
      PlacedCells(lib, s, k - 1);
      var g, before, after := s[k - 1], Placed(lib, s, k - 1), Placed(lib, s, k);
      if Polygonal(g) {
        ErasedCells(lib, g, before);
        var erased := Erased(lib, g, before);
        assert after == if before.None? then Some(erased) else Some(lib.union(before.value, erased));
        assert CellsOf(after) == CellsOf(before) + g.cells;
      } else {
        assert after == before;
      }
    }
  }

  // Erasure gives every disputed cell to the earliest polygonal feature; any other feature
  // stays as it is.
  lemma {:induction false} ResolvedCells(lib: Library, s: seq<Geometry>, i: nat)
    requires lib.Valid() && i < |s|
    ensures var r, before := Resolved(lib, s)[i], Taken(s, i);
      && r.cells <= s[i].cells && before + r.cells == before + s[i].cells
      && (Polygonal(s[i]) ==>
            lib.area(r.cells * before) <= 0.000000000001 && (lib.Coarse() ==> r.cells == s[i].cells - before))
      && (!Polygonal(s[i]) ==> r == s[i])
  {
    PlacedCells(lib, s, i);
    if Polygonal(s[i]) {
      ErasedCells(lib, s[i], Placed(lib, s, i));
    }
  }

  ghost predicate PairwiseDisjoint(s: seq<Geometry>) {
    forall i, j :: 0 <= i < j < |s| ==> s[i].cells !! s[j].cells
  }

  // A polygon that shares more than a sliver with the polygons before it loses what they cover;
  // every other feature stays as it is.
  ghost predicate ErasedExactly(lib: Library, g: Geometry, taken: set<nat>, after: Geometry) {
    if g.areal && !g.empty && lib.area(g.cells * taken) > 0.000000000001
    then exists placed: Geometry :: placed.areal && placed.cells == taken && after == lib.difference(g, placed)
    else after == g
  }

  lemma {:induction false} ResolvedExactly(lib: Library, s: seq<Geometry>, i: nat)
    requires lib.Valid() && i < |s|
    ensures ErasedExactly(lib, s[i], Taken(s, i), Resolved(lib, s)[i])
  {
    PlacedCells(lib, s, i);
    var g, placed := s[i], Placed(lib, s, i);
    assert placed.None? ==> g.cells * Taken(s, i) == {};
  }

  // After erasure two polygonal features share at most a sliver; no two features share more
  // than before, and two that are not polygonal share exactly as much.
  lemma {:induction false} ResolvedOverlapsAreSlivers(lib: Library, s: seq<Geometry>, i: nat, j: nat)
    requires lib.Valid() && i < j < |s|
    ensures var shared := Resolved(lib, s)[i].cells * Resolved(lib, s)[j].cells;
      && shared <= s[i].cells * s[j].cells
      && (Polygonal(s[i]) && Polygonal(s[j]) ==> lib.area(shared) <= 0.000000000001)
      && (!Polygonal(s[i]) && !Polygonal(s[j]) ==> shared == s[i].cells * s[j].cells)
  {
    ResolvedCells(lib, s, i);
    ResolvedCells(lib, s, j);
    if Polygonal(s[i]) && Polygonal(s[j]) {
      TakenContains(s, i, j);
      var a, b, before := Resolved(lib, s)[i].cells, Resolved(lib, s)[j].cells, Taken(s, j);
      assert a * b <= b * before;
      assert lib.area(a * b) <= lib.area(b * before);
    }
  }

  // A feature that is not polygonal shares no cell with any other feature.
  ghost predicate CollectionsApart(s: seq<Geometry>) {
    forall i, j :: 0 <= i < |s| && 0 <= j < |s| && i != j && !Polygonal(s[i]) ==> s[i].cells !! s[j].cells
  }

  lemma {:induction false} PolygonsDisjoint(lib: Library, s: seq<Geometry>, i: nat, j: nat)
    requires lib.Valid() && lib.Coarse() && i < j < |s| && Polygonal(s[i]) && Polygonal(s[j])
    ensures Resolved(lib, s)[i].cells !! Resolved(lib, s)[j].cells
  {
    ResolvedCells(lib, s, i);
    ResolvedCells(lib, s, j);
    TakenContains(s, i, j);
  }

  lemma {:induction false} NothingShared(a: set<nat>, b: set<nat>, c: set<nat>, d: set<nat>)
    requires a * b <= c * d && c !! d
    ensures a !! b
  {
    forall x | x in a ensures x !in b {
      assert x in b ==> x in c * d;
    }
  }

  lemma {:induction false} DisjointWhenApart(lib: Library, s: seq<Geometry>)
    requires lib.Valid() && lib.Coarse() && CollectionsApart(s)
    ensures PairwiseDisjoint(Resolved(lib, s))
  {
    var r := Resolved(lib, s);
    forall i, j | 0 <= i < j < |r| ensures r[i].cells !! r[j].cells {
      if Polygonal(s[i]) && Polygonal(s[j]) {
        PolygonsDisjoint(lib, s, i, j);
      } else {
        ResolvedOverlapsAreSlivers(lib, s, i, j);
        assert if Polygonal(s[i]) then s[j].cells !! s[i].cells else s[i].cells !! s[j].cells;
        NothingShared(r[i].cells, r[j].cells, s[i].cells, s[j].cells);
      }
    }
  }

  // The cells of a polygonal feature end with some polygonal feature.
  lemma {:induction false} SomeoneKeeps(lib: Library, s: seq<Geometry>, k: nat, cell: nat) returns (i: nat)
    requires lib.Valid() && k <= |s| && cell in Taken(s, k)
    ensures i < k && Polygonal(s[i]) && cell in Resolved(lib, s)[i].cells
  {
    if cell in Taken(s, k - 1) {
      i := SomeoneKeeps(lib, s, k - 1, cell);
    } else {
      i := k - 1;
      ResolvedCells(lib, s, i);
    }
  }

  // A covered cell ends with its feature or with a polygonal one.
  lemma {:induction false} Holder(lib: Library, s: seq<Geometry>, j: nat, cell: nat) returns (k: nat)
    requires lib.Valid() && j < |s| && cell in s[j].cells
    ensures k < |s| && (k == j || Polygonal(s[k])) && cell in Resolved(lib, s)[k].cells
  {
    k := j;
    if Polygonal(s[j]) {
      TakenContains(s, j, |s|);
      k := SomeoneKeeps(lib, s, |s|, cell);
    } else {
      ResolvedCells(lib, s, j);
    }
  }

  lemma {:induction false} ApartWhenDisjoint(lib: Library, s: seq<Geometry>, i: nat, j: nat)
    requires lib.Valid() && PairwiseDisjoint(Resolved(lib, s))
    requires i < |s| && j < |s| && i != j && !Polygonal(s[i])
    ensures s[i].cells !! s[j].cells
  {
    var r := Resolved(lib, s);
    ResolvedCells(lib, s, i);
    forall cell | cell in s[j].cells ensures cell !in s[i].cells {
      var k := Holder(lib, s, j, cell);
      assert if i < k then r[i].cells !! r[k].cells else r[k].cells !! r[i].cells;
    }
  }

  // Above the epsilon erasure leaves the features disjoint exactly when those it does not
  // touch share no cell with any other.
  lemma {:induction false} ResolvedDisjoint(lib: Library, s: seq<Geometry>)
    requires lib.Valid() && lib.Coarse()
    ensures PairwiseDisjoint(Resolved(lib, s)) <==> CollectionsApart(s)
  {
    if CollectionsApart(s) {
      DisjointWhenApart(lib, s);
    }
    if PairwiseDisjoint(Resolved(lib, s)) {
      forall i, j | 0 <= i < |s| && 0 <= j < |s| && i != j && !Polygonal(s[i]) ensures s[i].cells !! s[j].cells {
        ApartWhenDisjoint(lib, s, i, j);
      }
    }
  }

  lemma {:induction false} CoverAlike(taken: set<nat>, before: set<nat>, mine: set<nat>, all: set<nat>)
    requires taken <= before && taken + mine == taken + all
    ensures before + mine == before + all
  {
    forall c ensures c in before + mine <==> c in before + all {
      assert c in taken + mine <==> c in taken + all;
    }
  }

  // Erasure loses no covered cell.
  lemma {:induction false} ResolvedCovers(lib: Library, s: seq<Geometry>, k: nat)
    requires lib.Valid() && k <= |s|
    ensures Covered(Resolved(lib, s), k) == Covered(s, k)
  {
    if k > 0 {
      var r, before := Resolved(lib, s), Covered(s, k - 1);
      var mine, all := r[k - 1].cells, s[k - 1].cells;
      assert Covered(r, k - 1) == before by {
        ResolvedCovers(lib, s, k - 1);
      }
      assert before + mine == before + all by {
        ResolvedCells(lib, s, k - 1);
        TakenIsCovered(s, k - 1);
        CoverAlike(Taken(s, k - 1), before, mine, all);
      }
    }
  }

  // The first polygonal feature that covered a cell keeps it, and so does every feature that
  // is not polygonal.
  lemma {:induction false} EarliestKeeps(lib: Library, s: seq<Geometry>, i: nat, cell: nat)
    requires lib.Valid() && i < |s| && cell in s[i].cells
    requires Polygonal(s[i]) ==> forall j :: 0 <= j < i && Polygonal(s[j]) ==> cell !in s[j].cells
    ensures cell in Resolved(lib, s)[i].cells
  {
    ResolvedCells(lib, s, i);
    TakenMembers(s, i, cell);
  }

  // ---- gaps ---------------------------------------------------------------------------

  function PolygonIndices(s: seq<Geometry>, k: nat): (r: seq<nat>)
    requires k <= |s|
    ensures forall i :: 0 <= i < |r| ==> r[i] < k && s[r[i]].areal && !s[r[i]].empty
    ensures forall i: nat :: i < k && s[i].areal && !s[i].empty ==> i in r
    ensures forall i, j :: 0 <= i < j < |r| ==> r[i] < r[j]
  {
    if k == 0 then []
    else if Polygonal(s[k - 1]) then PolygonIndices(s, k - 1) + [k - 1]
    else PolygonIndices(s, k - 1)
  }

  predicate IsSmall(lib: Library, ring: Geometry, threshold: real) {
    AREA_EPSILON < lib.area(ring.cells) < threshold
  }

  // The small rings, each once, in the order they come.
  function SmallIndices(lib: Library, rings: seq<Geometry>, threshold: real, k: nat): (r: seq<nat>)
    requires k <= |rings|
    ensures forall i :: 0 <= i < |r| ==> r[i] < k && 0.000000000001 < lib.area(rings[r[i]].cells) < threshold
    ensures forall i: nat :: i < k && 0.000000000001 < lib.area(rings[i].cells) < threshold ==> i in r
    ensures forall i, j :: 0 <= i < j < |r| ==> r[i] < r[j]
  {
    if k == 0 then []
    else if IsSmall(lib, rings[k - 1], threshold) then SmallIndices(lib, rings, threshold, k - 1) + [k - 1]
    else SmallIndices(lib, rings, threshold, k - 1)
  }

  predicate Within(indices: seq<nat>, n: nat) {
    forall k :: 0 <= k < |indices| ==> indices[k] < n
  }

  function Select(s: seq<Geometry>, indices: seq<nat>): (r: seq<Geometry>)
    requires Within(indices, |s|)
    ensures |r| == |indices| && forall k :: 0 <= k < |r| ==> r[k] == s[indices[k]]
  {
    seq(|indices|, k requires 0 <= k < |indices| => s[indices[k]])
  }

  // The interior rings worth filling, as polygons. A ring's polygon covers everything inside
  // it, islands included.
  function SmallHoles(lib: Library, rings: seq<Geometry>, threshold: real): (r: seq<Geometry>)
    ensures r == Select(rings, SmallIndices(lib, rings, threshold, |rings|))
    ensures forall h :: h in r <==> h in rings && 0.000000000001 < lib.area(h.cells) < threshold
  {
    var at := SmallIndices(lib, rings, threshold, |rings|);
    var r := Select(rings, at);
    assert forall i: nat :: i < |rings| && IsSmall(lib, rings[i], threshold) ==> rings[i] in r by {
      forall i: nat | i < |rings| && IsSmall(lib, rings[i], threshold) ensures rings[i] in r {
        var k :| 0 <= k < |at| && at[k] == i;
        assert r[k] == rings[i];
      }
    }
    r
  }

  // The first position holding the greatest value, if any value is positive.
  ghost predicate FirstWidest(lengths: seq<real>, position: Option<nat>) {
    match position
    case None => forall k :: 0 <= k < |lengths| ==> lengths[k] <= 0.0
    case Some(p) =>
      && p < |lengths| && lengths[p] > 0.0
      && (forall k :: 0 <= k < |lengths| ==> lengths[k] <= lengths[p])
      && (forall k :: 0 <= k < p ==> lengths[k] < lengths[p])
  }

  function Widest(lengths: seq<real>): (position: Option<nat>)
    ensures FirstWidest(lengths, position)
  {
    if lengths == [] then None
    else
      var last := |lengths| - 1;
      var before := Widest(lengths[..last]);
      if lengths[last] > (if before.Some? then lengths[before.value] else 0.0) then Some(last) else before
  }

  lemma {:induction false} FirstWidestIsWidest(lengths: seq<real>, position: Option<nat>)
    requires FirstWidest(lengths, position)
    ensures position == Widest(lengths)
  {
    var widest := Widest(lengths);
    if position.Some? && widest.Some? {
      assert lengths[position.value] <= lengths[widest.value] && lengths[widest.value] <= lengths[position.value];
    }
  }

  // How much boundary each candidate feature shares with the hole.
  ghost function Lengths(lib: Library, hole: Geometry, s: seq<Geometry>, indices: seq<nat>): (r: seq<real>)
    requires Within(indices, |s|)
    ensures |r| == |indices|
  {
    seq(|indices|, k requires 0 <= k < |indices| => lib.shared(s[indices[k]], hole))
  }

  // The candidate feature sharing most boundary with the hole, the first one on ties.
  ghost function Neighbour(lib: Library, hole: Geometry, s: seq<Geometry>, indices: seq<nat>): (target: Option<nat>)
    requires Within(indices, |s|)
    ensures target.Some? ==> target.value < |s| && target.value in indices
  {
    var position := Widest(Lengths(lib, hole, s, indices));
    if position.Some? then Some(indices[position.value]) else None
  }

  method FindNeighbour(lib: Library, hole: Geometry, repaired: array<Geometry>, indices: seq<nat>)
    returns (target: Option<nat>)
    requires Within(indices, repaired.Length)
    ensures target == Neighbour(lib, hole, repaired[..], indices)
  {
    target := None;
    var best := 0.0;
    ghost var lengths := Lengths(lib, hole, repaired[..], indices);
    ghost var position: Option<nat> := None;
    for k := 0 to |indices|
      invariant FirstWidest(lengths[..k], position)
      invariant best == if position.Some? then lengths[position.value] else 0.0
      invariant target == if position.Some? then Some(indices[position.value]) else None
    {
      var length := lib.shared(repaired[indices[k]], hole);
      assert lengths[..k + 1] == lengths[..k] + [length];
      if length > best {
        best, target, position := length, Some(indices[k]), Some(k);
      }
    }
    assert lengths[..|indices|] == lengths;
    FirstWidestIsWidest(lengths, position);
  }

  function Merged(lib: Library, s: seq<Geometry>, hole: Geometry, target: Option<nat>): (r: seq<Geometry>)
    requires target.Some? ==> target.value < |s|
    ensures |r| == |s|
  {
    if target.Some? then s[target.value := lib.union(s[target.value], hole)] else s
  }

  // The features after the first k holes were filled, each into its widest neighbour.
  ghost function Filled(lib: Library, s: seq<Geometry>, holes: seq<Geometry>, indices: seq<nat>, k: nat)
    : (r: seq<Geometry>)
    requires k <= |holes| && Within(indices, |s|)
    ensures |r| == |s|
  {
    if k == 0 then s
    else
      var before := Filled(lib, s, holes, indices, k - 1);
      Merged(lib, before, holes[k - 1], Neighbour(lib, holes[k - 1], before, indices))
  }

  // The feature that receives hole j, if one does.
  ghost function Receiver(lib: Library, s: seq<Geometry>, holes: seq<Geometry>, indices: seq<nat>, j: nat)
    : (target: Option<nat>)
    requires j < |holes| && Within(indices, |s|)
    ensures target.Some? ==> target.value < |s| && target.value in indices
  {
    Neighbour(lib, holes[j], Filled(lib, s, holes, indices, j), indices)
  }

  ghost predicate Receives(lib: Library, s: seq<Geometry>, holes: seq<Geometry>, indices: seq<nat>,
                           j: nat, i: nat, c: nat)
    requires j < |holes| && Within(indices, |s|)
  {
    Receiver(lib, s, holes, indices, j) == Some(i) && c in holes[j].cells
  }

  // Cell c lies in one of the first k holes and that hole goes to feature i.
  ghost predicate ReceivedBy(lib: Library, s: seq<Geometry>, holes: seq<Geometry>, indices: seq<nat>,
                             k: nat, i: nat, c: nat)
    requires k <= |holes| && Within(indices, |s|)
  {
    exists j :: 0 <= j < k && Receives(lib, s, holes, indices, j, i, c)
  }

  lemma {:induction false} MergedCells(lib: Library, s: seq<Geometry>, hole: Geometry, target: Option<nat>, i: nat)
    requires lib.Valid() && i < |s| && hole.areal
    requires target.Some? ==> target.value < |s| && s[target.value].areal
    ensures var r := Merged(lib, s, hole, target);
      && (s[i].areal ==> r[i].areal)
      && r[i].cells == if target == Some(i) then s[i].cells + hole.cells else s[i].cells
  {
  }

  lemma {:induction false} ReceivedStep(lib: Library, s: seq<Geometry>, holes: seq<Geometry>, indices: seq<nat>,
                                        k: nat, i: nat, c: nat)
    requires 0 < k <= |holes| && Within(indices, |s|)
    ensures ReceivedBy(lib, s, holes, indices, k, i, c) <==>
      ReceivedBy(lib, s, holes, indices, k - 1, i, c) || Receives(lib, s, holes, indices, k - 1, i, c)
  {
  }

  lemma {:induction false} FilledAreal(lib: Library, s: seq<Geometry>, holes: seq<Geometry>, indices: seq<nat>,
                                       k: nat, i: nat)
    requires lib.Valid() && k <= |holes| && Within(indices, |s|) && i < |s| && s[i].areal
    requires forall j :: 0 <= j < |holes| ==> holes[j].areal
    ensures Filled(lib, s, holes, indices, k)[i].areal
  {
    if k > 0 {
      var before, hole := Filled(lib, s, holes, indices, k - 1), holes[k - 1];
      assert before[i].areal by {
        FilledAreal(lib, s, holes, indices, k - 1, i);
      }
      assert lib.union(before[i], hole).areal;
    }
  }

  lemma {:induction false} ReceiverIsAreal(lib: Library, s: seq<Geometry>, holes: seq<Geometry>, indices: seq<nat>,
                                           j: nat)
    requires lib.Valid() && j < |holes| && Within(indices, |s|)
    requires forall m :: 0 <= m < |indices| ==> s[indices[m]].areal
    requires forall m :: 0 <= m < |holes| ==> holes[m].areal
    ensures var target := Receiver(lib, s, holes, indices, j);
      target.Some? ==> Filled(lib, s, holes, indices, j)[target.value].areal
  {
    var target := Receiver(lib, s, holes, indices, j);
    if target.Some? {
      var at :| 0 <= at < |indices| && indices[at] == target.value;
      FilledAreal(lib, s, holes, indices, j, target.value);
    }
  }

  // What feature i has after the first k holes.
  ghost predicate HasFilled(lib: Library, s: seq<Geometry>, holes: seq<Geometry>, indices: seq<nat>, k: nat, i: nat,
                            cells: set<nat>)
    requires k <= |holes| && Within(indices, |s|) && i < |s|
  {
    forall c :: c in cells <==> c in s[i].cells || ReceivedBy(lib, s, holes, indices, k, i, c)
  }

  lemma {:induction false} FilledMore(lib: Library, s: seq<Geometry>, holes: seq<Geometry>, indices: seq<nat>, k: nat,
                                      i: nat, before: set<nat>, after: set<nat>)
    requires k < |holes| && Within(indices, |s|) && i < |s| && HasFilled(lib, s, holes, indices, k, i, before)
    requires after == if Receiver(lib, s, holes, indices, k) == Some(i) then before + holes[k].cells else before
    ensures HasFilled(lib, s, holes, indices, k + 1, i, after)
  {
    var next := k + 1;
    forall c ensures c in after <==> c in s[i].cells || ReceivedBy(lib, s, holes, indices, next, i, c) {
      ReceivedStep(lib, s, holes, indices, next, i, c);
    }
  }

  lemma {:induction false} CellsFilled(lib: Library, s: seq<Geometry>, holes: seq<Geometry>, indices: seq<nat>,
                                       k: nat, i: nat)
    requires lib.Valid() && k <= |holes| && Within(indices, |s|) && i < |s|
    requires forall j :: 0 <= j < |indices| ==> s[indices[j]].areal
    requires forall j :: 0 <= j < |holes| ==> holes[j].areal
    ensures HasFilled(lib, s, holes, indices, k, i, Filled(lib, s, holes, indices, k)[i].cells)
  {
    if k > 0 {
      var last := k - 1;
      var before, target := Filled(lib, s, holes, indices, last), Receiver(lib, s, holes, indices, last);
      CellsFilled(lib, s, holes, indices, last, i);
      ReceiverIsAreal(lib, s, holes, indices, last);
      MergedCells(lib, before, holes[last], target, i);
      FilledMore(lib, s, holes, indices, last, i, before[i].cells, Filled(lib, s, holes, indices, k)[i].cells);
    }
  }

  // Each feature gains exactly the cells of the holes it receives.
  lemma {:induction false} FilledCells(lib: Library, s: seq<Geometry>, holes: seq<Geometry>, indices: seq<nat>,
                                       k: nat, i: nat)
    requires lib.Valid() && k <= |holes| && Within(indices, |s|) && i < |s|
    requires forall j :: 0 <= j < |indices| ==> s[indices[j]].areal
    requires forall j :: 0 <= j < |holes| ==> holes[j].areal
    ensures HasFilled(lib, s, holes, indices, k, i, Filled(lib, s, holes, indices, k)[i].cells)
    ensures s[i].areal ==> Filled(lib, s, holes, indices, k)[i].areal
  {
    if s[i].areal {
      FilledAreal(lib, s, holes, indices, k, i);
    }
    CellsFilled(lib, s, holes, indices, k, i);
  }
}
