// Snapping of road endpoints: greedy clusters of bounded radius, anchors, projection onto
// nearby lines, and how far an endpoint can move.
module RoadSnapping {
  import opened Common

  datatype Point = Point(x: real, y: real)

  // A line part: at least two vertices.
  type Line = s: seq<Point> | |s| >= 2 witness [Point(0.0, 0.0), Point(1.0, 0.0)]

  function EndOf(line: Line, position: nat): Point {
    if position == 0 then line[0] else line[|line| - 1]
  }

  // Distances are those of a metric; `nearest` is a point of the line at the line's distance,
  // and a line's ends lie on it.
  datatype Space = Space(
    distance: (Point, Point) -> real, toLine: (Point, Line) -> real, nearest: (Point, Line) -> Point)
  {
    ghost predicate Valid() {
      && (forall p :: distance(p, p) == 0.0)
      && (forall p, q :: distance(p, q) >= 0.0)
      && (forall p, q :: distance(p, q) == distance(q, p))
      && (forall p, q, r :: distance(p, r) <= distance(p, q) + distance(q, r))
      && (forall p, l :: distance(p, nearest(p, l)) == toLine(p, l))
      && (forall l: Line, position: nat {:trigger EndOf(l, position)} :: toLine(EndOf(l, position), l) == 0.0)
    }
  }

  // Endpoint 2i starts line i, endpoint 2i+1 ends it.
  function End(lines: seq<Line>, e: nat): Point
    requires e < 2 * |lines|
  {
    EndOf(lines[e / 2], e % 2)
  }

  // ---- radius of a group -----------------------------------------------------------

  // A group lists the numbers of some of the endpoints `points`.
  ghost predicate Indices(points: seq<Point>, group: seq<nat>) {
    |group| > 0 && forall k :: 0 <= k < |group| ==> group[k] < |points|
  }

  function Farthest(space: Space, points: seq<Point>, anchor: nat, group: seq<nat>): real
    requires anchor < |points| && Indices(points, group)
  {
    var d := space.distance(points[anchor], points[group[0]]);
    if |group| == 1 then d
    else
      var rest := Farthest(space, points, anchor, group[1..]);
      if d >= rest then d else rest
  }

  lemma {:induction false} FarthestBounds(space: Space, points: seq<Point>, anchor: nat, group: seq<nat>)
    requires anchor < |points| && Indices(points, group)
    ensures forall e :: e in group ==>
      space.distance(points[anchor], points[e]) <= Farthest(space, points, anchor, group)
    ensures exists e ::
      e in group && space.distance(points[anchor], points[e]) == Farthest(space, points, anchor, group)
    decreases |group|
  {
    assert group == [group[0]] + group[1..];
    assert group[0] in group;
    if |group| > 1 {
      FarthestBounds(space, points, anchor, group[1..]);
      assert forall e :: e in group <==> e == group[0] || e in group[1..];
    }
  }

  // The least, over the given anchors, of the distance to the farthest member.
  function LeastFarthest(space: Space, points: seq<Point>, anchors: seq<nat>, group: seq<nat>): real
    requires Indices(points, anchors) && Indices(points, group)
  {
    var d := Farthest(space, points, anchors[0], group);
    if |anchors| == 1 then d
    else
      var rest := LeastFarthest(space, points, anchors[1..], group);
      if d <= rest then d else rest
  }

  function Radius(space: Space, points: seq<Point>, group: seq<nat>): real
    requires Indices(points, group)
  {
    LeastFarthest(space, points, group, group)
  }

  lemma {:induction false} LeastFarthestBounds(space: Space, points: seq<Point>, anchors: seq<nat>, group: seq<nat>)
    requires Indices(points, anchors) && Indices(points, group)
    ensures forall a :: a in anchors ==>
      LeastFarthest(space, points, anchors, group) <= Farthest(space, points, a, group)
    ensures exists a ::
      a in anchors && Farthest(space, points, a, group) == LeastFarthest(space, points, anchors, group)
    decreases |anchors|
  {
    assert anchors == [anchors[0]] + anchors[1..];
    assert anchors[0] in anchors;
    if |anchors| > 1 {
      LeastFarthestBounds(space, points, anchors[1..], group);
      assert forall a :: a in anchors <==> a == anchors[0] || a in anchors[1..];
    }
  }

  // ---- which group an endpoint joins -------------------------------------------------

  // Endpoint i may join: no member belongs to its line and the radius stays in tolerance.
  ghost predicate Fits(space: Space, points: seq<Point>, tolerance: real, group: seq<nat>, i: nat)
    requires Indices(points, group) && i < |points|
  {
    && (forall e :: e in group ==> e / 2 != i / 2)
    && Radius(space, points, group + [i]) <= tolerance
  }

  ghost predicate GroupsOver(points: seq<Point>, groups: seq<seq<nat>>) {
    forall g :: 0 <= g < |groups| ==> Indices(points, groups[g])
  }

  // The radius of the group with endpoint i in it, if i may join.
  ghost function FitRadius(space: Space, points: seq<Point>, tolerance: real, group: seq<nat>, i: nat): Option<real>
    requires Indices(points, group) && i < |points|
  {
    if Fits(space, points, tolerance, group, i) then Some(Radius(space, points, group + [i])) else None
  }

  ghost function FitRadii(space: Space, points: seq<Point>, tolerance: real, groups: seq<seq<nat>>,
                          i: nat): seq<Option<real>>
    requires GroupsOver(points, groups) && i < |points|
  {
    seq(|groups|, g requires 0 <= g < |groups| => FitRadius(space, points, tolerance, groups[g], i))
  }

  // The first of the least values, if there is any value.
  ghost predicate FirstLeast(values: seq<Option<real>>, choice: Option<nat>) {
    match choice
    case None => forall g :: 0 <= g < |values| ==> values[g].None?
    case Some(c) =>
      && c < |values| && values[c].Some?
      && forall g :: 0 <= g < |values| && values[g].Some? ==>
           values[c].value < values[g].value || (values[c].value == values[g].value && c <= g)
  }

  // The choice: the first group of least radius among those that fit.
  ghost predicate Chosen(space: Space, points: seq<Point>, tolerance: real, groups: seq<seq<nat>>, i: nat,
                         choice: Option<nat>)
    requires GroupsOver(points, groups) && i < |points|
  {
    FirstLeast(FitRadii(space, points, tolerance, groups, i), choice)
  }

  // The spatial index around endpoint i; it misses no endpoint within the tolerance.
  ghost predicate IndexFindsAll(space: Space, points: seq<Point>, tolerance: real, hits: nat -> seq<nat>) {
    forall i: nat, e: nat :: i < |points| && e < |points| && space.distance(points[i], points[e]) <= tolerance ==>
      e in hits(i)
  }

  // One of the hits is an earlier endpoint of another line in group g.
  predicate Touches(hits: seq<nat>, groupOf: seq<nat>, g: nat, i: nat) {
    exists e :: e in hits && e < |groupOf| && e / 2 != i / 2 && groupOf[e] == g
  }

  // A group that fits has a member within the tolerance of the new endpoint: the anchor, or
  // any member when the new endpoint is itself the anchor.
  lemma {:induction false} NearMember(space: Space, points: seq<Point>, tolerance: real, group: seq<nat>,
                                      i: nat) returns (e: nat)
    requires space.Valid() && Indices(points, group) && i < |points|
    requires Fits(space, points, tolerance, group, i)
    ensures e in group && e < |points| && space.distance(points[i], points[e]) <= tolerance && e / 2 != i / 2
  {
    var more := group + [i];
    LeastFarthestBounds(space, points, more, more);
    var a :| a in more && Farthest(space, points, a, more) == Radius(space, points, more);
    FarthestBounds(space, points, a, more);
    e := if a in group then a else group[0];
    assert e in group && i in more && e in more;
  }

  ghost predicate DistinctLines(group: seq<nat>) {
    forall k, l :: 0 <= k < l < |group| ==> group[k] / 2 != group[l] / 2
  }

  // Each endpoint below |groupOf| is in exactly one group, no group holds two endpoints of
  // one line, and every group has an anchor within the tolerance of all its members.
  ghost predicate Clustering(space: Space, points: seq<Point>, tolerance: real,
                             groups: seq<seq<nat>>, groupOf: seq<nat>)
  {
    && GroupsOver(points, groups)
    && (forall e :: 0 <= e < |groupOf| ==> groupOf[e] < |groups|)
    && (forall g: nat, e: nat {:trigger e in groups[g]} ::
          g < |groups| ==> (e in groups[g] <==> e < |groupOf| && groupOf[e] == g))
    && (forall g :: 0 <= g < |groups| ==> DistinctLines(groups[g]))
    && (forall g :: 0 <= g < |groups| ==> Radius(space, points, groups[g]) <= tolerance)
  }

  // Looking only at the groups the index touches loses nothing.
  lemma {:induction false} FittingGroupIsTouched(space: Space, points: seq<Point>, tolerance: real,
                                                 hits: nat -> seq<nat>,
                                                 groups: seq<seq<nat>>, groupOf: seq<nat>, g: nat)
    requires space.Valid() && IndexFindsAll(space, points, tolerance, hits)
    requires |groupOf| < |points| && g < |groups| && Clustering(space, points, tolerance, groups, groupOf)
    requires Fits(space, points, tolerance, groups[g], |groupOf|)
    ensures Touches(hits(|groupOf|), groupOf, g, |groupOf|)
  {
    var e := NearMember(space, points, tolerance, groups[g], |groupOf|);
    assert e in groups[g];
  }

  // The selection loop over the candidate groups, in ascending order.
  method SelectGroup(space: Space, points: seq<Point>, tolerance: real, hits: nat -> seq<nat>,
                     groups: seq<seq<nat>>, groupOf: seq<nat>) returns (choice: Option<nat>)
    requires space.Valid() && IndexFindsAll(space, points, tolerance, hits)
    requires |groupOf| < |points| && Clustering(space, points, tolerance, groups, groupOf)
    ensures Chosen(space, points, tolerance, groups, |groupOf|, choice)
  {
    var i := |groupOf|;
    choice := None;
    var best := 0.0;
    ghost var values := FitRadii(space, points, tolerance, groups, i);
    for g := 0 to |groups|
      invariant FirstLeast(values[..g], choice)
      invariant choice.Some? ==> values[choice.value] == Some(best)
    {
      assert values[..g + 1] == values[..g] + [values[g]];
      var blocked := exists e :: e in groups[g] && e / 2 == i / 2;
      if Touches(hits(i), groupOf, g, i) && !blocked {
        var radius := Radius(space, points, groups[g] + [i]);
        if radius <= tolerance && (choice.None? || radius < best) {
          choice, best := Some(g), radius;
        }
      } else if Fits(space, points, tolerance, groups[g], i) {
        FittingGroupIsTouched(space, points, tolerance, hits, groups, groupOf, g);
      }
    }
    assert values[..|groups|] == values;
  }

  // ---- the clusters ---------------------------------------------------------------------

  function Place(groups: seq<seq<nat>>, choice: Option<nat>, i: nat): seq<seq<nat>>
    requires choice.Some? ==> choice.value < |groups|
  {
    match choice
    case None => groups + [[i]]
    case Some(g) => groups[g := groups[g] + [i]]
  }

  lemma {:induction false} SingletonRadius(space: Space, points: seq<Point>, i: nat)
    requires space.Valid() && i < |points|
    ensures Radius(space, points, [i]) == 0.0
  {
  }

  lemma {:induction false} PlaceKeepsClustering(space: Space, points: seq<Point>, tolerance: real,
                                                groups: seq<seq<nat>>, groupOf: seq<nat>, choice: Option<nat>)
    requires space.Valid() && tolerance >= 0.0 && |groupOf| < |points|
    requires Clustering(space, points, tolerance, groups, groupOf)
    requires Chosen(space, points, tolerance, groups, |groupOf|, choice)
    ensures var g := if choice.Some? then choice.value else |groups|;
      Clustering(space, points, tolerance, Place(groups, choice, |groupOf|), groupOf + [g])
  {
    var i := |groupOf|;
    var g := if choice.Some? then choice.value else |groups|;
    var after, of := Place(groups, choice, i), groupOf + [g];
    SingletonRadius(space, points, i);
    forall h: nat, e: nat | h < |after| ensures e in after[h] <==> e < |of| && of[e] == h {
      if h < |groups| {
        assert e in groups[h] <==> e < |groupOf| && groupOf[e] == h;
      }
    }
    forall h | 0 <= h < |after| ensures DistinctLines(after[h]) {
      if choice.Some? && h == g {
        forall k, l | 0 <= k < l < |after[h]| ensures after[h][k] / 2 != after[h][l] / 2 {
          assert after[h][k] in groups[h];
        }
      }
    }
  }

  ghost predicate GreedyStepAt(space: Space, points: seq<Point>, tolerance: real, history: seq<seq<seq<nat>>>, i: int)
    requires 0 <= i < |history| - 1
  {
    && i < |points| && GroupsOver(points, history[i])
    && exists choice :: Chosen(space, points, tolerance, history[i], i, choice)
                     && history[i + 1] == Place(history[i], choice, i)
  }

  // How the groups grew: endpoint by endpoint, each placed by the greedy choice.
  ghost predicate GreedyHistory(space: Space, points: seq<Point>, tolerance: real, history: seq<seq<seq<nat>>>) {
    && |history| > 0 && history[0] == []
    && forall i :: 0 <= i < |history| - 1 ==> GreedyStepAt(space, points, tolerance, history, i)
  }

  lemma {:induction false} FirstLeastIsUnique(values: seq<Option<real>>, a: Option<nat>, b: Option<nat>)
    requires FirstLeast(values, a) && FirstLeast(values, b)
    ensures a == b
  {
  }

  // The input determines the clusters: there is one greedy history.
  lemma {:induction false} OneGreedyHistory(space: Space, points: seq<Point>, tolerance: real,
                                            one: seq<seq<seq<nat>>>, two: seq<seq<seq<nat>>>, i: nat)
    requires GreedyHistory(space, points, tolerance, one) && GreedyHistory(space, points, tolerance, two)
    requires i < |one| && i < |two|
    ensures one[i] == two[i]
  {
    if i > 0 {
      var before := i - 1;
      OneGreedyHistory(space, points, tolerance, one, two, before);
      assert GreedyStepAt(space, points, tolerance, one, before) && GreedyStepAt(space, points, tolerance, two, before);
      var groups := one[before];
      var a :| Chosen(space, points, tolerance, groups, before, a) && one[i] == Place(groups, a, before);
      var b :| Chosen(space, points, tolerance, groups, before, b) && two[i] == Place(groups, b, before);
      FirstLeastIsUnique(FitRadii(space, points, tolerance, groups, before), a, b);
    }
  }

  // The clusters that placing the endpoints one by one ends with.
  ghost predicate GreedyClusters(space: Space, points: seq<Point>, tolerance: real, groups: seq<seq<nat>>,
                                 groupOf: seq<nat>)
  {
    && |groupOf| == |points| && Clustering(space, points, tolerance, groups, groupOf)
    && exists history ::
         GreedyHistory(space, points, tolerance, history)
         && |history| == |points| + 1 && history[|points|] == groups
  }

  lemma {:induction false} HistoryGrows(space: Space, points: seq<Point>, tolerance: real,
                                        history: seq<seq<seq<nat>>>, choice: Option<nat>)
    requires GreedyHistory(space, points, tolerance, history) && |history| <= |points|
    requires GroupsOver(points, history[|history| - 1])
    requires Chosen(space, points, tolerance, history[|history| - 1], |history| - 1, choice)
    ensures GreedyHistory(space, points, tolerance,
                          history + [Place(history[|history| - 1], choice, |history| - 1)])
  {
    var last := |history| - 1;
    var more := history + [Place(history[last], choice, last)];
    forall i | 0 <= i < |more| - 1 ensures GreedyStepAt(space, points, tolerance, more, i) {
      if i < last {
        assert GreedyStepAt(space, points, tolerance, history, i);
      }
    }
  }

  method Cluster(space: Space, points: seq<Point>, tolerance: real, hits: nat -> seq<nat>)
    returns (groups: seq<seq<nat>>, groupOf: seq<nat>, ghost history: seq<seq<seq<nat>>>)
    requires space.Valid() && tolerance >= 0.0 && IndexFindsAll(space, points, tolerance, hits)
    ensures |history| == |points| + 1 && history[|points|] == groups
    ensures GreedyHistory(space, points, tolerance, history)
    ensures GreedyClusters(space, points, tolerance, groups, groupOf)
  {
    groups, groupOf, history := [], [], [[]];
    for i := 0 to |points|
      invariant |groupOf| == i && Clustering(space, points, tolerance, groups, groupOf)
      invariant |history| == i + 1 && history[i] == groups
      invariant GreedyHistory(space, points, tolerance, history)
    {
      var choice := SelectGroup(space, points, tolerance, hits, groups, groupOf);
      PlaceKeepsClustering(space, points, tolerance, groups, groupOf, choice);
      HistoryGrows(space, points, tolerance, history, choice);
      groupOf := groupOf + [if choice.Some? then choice.value else |groups|];
      groups := Place(groups, choice, i);
      history := history + [groups];
    }
  }

  // ---- anchors and targets ------------------------------------------------------------

  function SumDistance(space: Space, points: seq<Point>, anchor: nat, group: seq<nat>): real
    requires anchor < |points| && Indices(points, group)
  {
    var d := space.distance(points[anchor], points[group[0]]);
    if |group| == 1 then d else d + SumDistance(space, points, anchor, group[1..])
  }

  // The tuple order of (farthest distance, sum of distances, endpoint number).
  predicate BetterAnchor(space: Space, points: seq<Point>, group: seq<nat>, a: nat, b: nat)
    requires Indices(points, group) && a < |points| && b < |points|
  {
    var fa, fb := Farthest(space, points, a, group), Farthest(space, points, b, group);
    var sa, sb := SumDistance(space, points, a, group), SumDistance(space, points, b, group);
    fa < fb || (fa == fb && (sa < sb || (sa == sb && a <= b)))
  }

  // The distances to the first n members, added up.
  ghost function TotalDistance(space: Space, points: seq<Point>, anchor: nat, group: seq<nat>, n: nat): real
    requires anchor < |points| && Indices(points, group) && n <= |group|
  {
    if n == 0 then 0.0
    else TotalDistance(space, points, anchor, group, n - 1) + space.distance(points[anchor], points[group[n - 1]])
  }

  lemma {:induction false} TotalFromFront(space: Space, points: seq<Point>, anchor: nat, group: seq<nat>, n: nat)
    requires anchor < |points| && Indices(points, group) && 0 < n <= |group|
    ensures TotalDistance(space, points, anchor, group, n)
      == space.distance(points[anchor], points[group[0]])
         + if |group| == 1 then 0.0 else TotalDistance(space, points, anchor, group[1..], n - 1)
  {
    if n > 1 {
      TotalFromFront(space, points, anchor, group, n - 1);
      assert group[1..][n - 2] == group[n - 1];
    }
  }

  lemma {:induction false} SumIsTotal(space: Space, points: seq<Point>, anchor: nat, group: seq<nat>)
    requires anchor < |points| && Indices(points, group)
    ensures SumDistance(space, points, anchor, group) == TotalDistance(space, points, anchor, group, |group|)
    decreases |group|
  {
    TotalFromFront(space, points, anchor, group, |group|);
    if |group| > 1 {
      SumIsTotal(space, points, anchor, group[1..]);
    }
  }

  // The reach of a is smaller, or it is the same and a is nearer in total, or that is the same
  // too and a has the smaller number.
  ghost predicate Precedes(space: Space, points: seq<Point>, group: seq<nat>, a: nat, b: nat)
    requires Indices(points, group) && a < |points| && b < |points|
  {
    var fa, fb := Farthest(space, points, a, group), Farthest(space, points, b, group);
    var ta := TotalDistance(space, points, a, group, |group|);
    var tb := TotalDistance(space, points, b, group, |group|);
    || fa < fb
    || (fa == fb && ta < tb)
    || (fa == fb && ta == tb && a <= b)
  }

  lemma {:induction false} BetterPrecedes(space: Space, points: seq<Point>, group: seq<nat>, a: nat, b: nat)
    requires Indices(points, group) && a < |points| && b < |points|
    ensures BetterAnchor(space, points, group, a, b) <==> Precedes(space, points, group, a, b)
  {
    SumIsTotal(space, points, a, group);
    SumIsTotal(space, points, b, group);
  }

  ghost predicate IsAnchor(space: Space, points: seq<Point>, group: seq<nat>, a: nat)
    requires Indices(points, group)
  {
    && a in group && a < |points|
    && forall k :: 0 <= k < |group| ==> Precedes(space, points, group, a, group[k])
  }

  method PickAnchor(space: Space, points: seq<Point>, group: seq<nat>) returns (anchor: nat)
    requires Indices(points, group)
    ensures IsAnchor(space, points, group, anchor)
  {
    anchor := group[0];
    for k := 1 to |group|
      invariant anchor in group && anchor < |points|
      invariant forall j :: 0 <= j < k ==> BetterAnchor(space, points, group, anchor, group[j])
    {
      if !BetterAnchor(space, points, group, anchor, group[k]) {
        anchor := group[k];
      }
    }
    forall k | 0 <= k < |group| ensures Precedes(space, points, group, anchor, group[k]) {
      BetterPrecedes(space, points, group, anchor, group[k]);
    }
  }

  // The anchor is within the tolerance of every member of its group.
  lemma {:induction false} AnchorNearAll(space: Space, points: seq<Point>, tolerance: real, group: seq<nat>,
                                         anchor: nat, e: nat)
    requires Indices(points, group) && Radius(space, points, group) <= tolerance
    requires IsAnchor(space, points, group, anchor) && e in group && e < |points|
    ensures space.distance(points[anchor], points[e]) <= tolerance
  {
    LeastFarthestBounds(space, points, group, group);
    var best :| best in group && Farthest(space, points, best, group) == Radius(space, points, group);
    var k :| 0 <= k < |group| && group[k] == best;
    assert Precedes(space, points, group, anchor, group[k]);
    FarthestBounds(space, points, anchor, group);
  }

  // Every endpoint has a group and every group an endpoint as its anchor.
  ghost predicate AnchorsFit(points: seq<Point>, anchors: seq<nat>, groupOf: seq<nat>) {
    && |groupOf| == |points|
    && (forall e :: 0 <= e < |groupOf| ==> groupOf[e] < |anchors|)
    && (forall g :: 0 <= g < |anchors| ==> anchors[g] < |points|)
  }

  // Where each endpoint is asked to go: to the anchor of its group, if that is elsewhere.
  ghost predicate TargetsOf(points: seq<Point>, anchors: seq<nat>, groupOf: seq<nat>, targets: map<nat, Point>)
    requires AnchorsFit(points, anchors, groupOf)
  {
    && (forall e: nat :: e in targets <==> e < |points| && points[e] != points[anchors[groupOf[e]]])
    && (forall e: nat :: e in targets ==> targets[e] == points[anchors[groupOf[e]]])
  }

  ghost predicate AnchorsOf(space: Space, points: seq<Point>, groups: seq<seq<nat>>, anchors: seq<nat>) {
    && GroupsOver(points, groups) && |anchors| == |groups|
    && (forall g :: 0 <= g < |groups| ==> IsAnchor(space, points, groups[g], anchors[g]))
  }

  method PickTargets(space: Space, points: seq<Point>, tolerance: real, groups: seq<seq<nat>>, groupOf: seq<nat>)
    returns (targets: map<nat, Point>, ghost anchors: seq<nat>)
    requires |groupOf| == |points| && Clustering(space, points, tolerance, groups, groupOf)
    ensures AnchorsOf(space, points, groups, anchors) && AnchorsFit(points, anchors, groupOf)
    ensures TargetsOf(points, anchors, groupOf, targets)
  {
    targets, anchors := map[], [];
    for g := 0 to |groups|
      invariant |anchors| == g
      invariant forall h :: 0 <= h < g ==> IsAnchor(space, points, groups[h], anchors[h])
      invariant forall e: nat :: e in targets <==>
        e < |points| && groupOf[e] < g && points[e] != points[anchors[groupOf[e]]]
      invariant forall e: nat :: e in targets ==> targets[e] == points[anchors[groupOf[e]]]
    {
      var anchor := PickAnchor(space, points, groups[g]);
      var moved := map e | e in groups[g] && points[e] != points[anchor] :: points[anchor];
      assert forall e: nat :: e in groups[g] <==> e < |groupOf| && groupOf[e] == g;
      targets := targets + moved;
      anchors := anchors + [anchor];
    }
  }

  lemma {:induction false} TargetsAreNear(space: Space, points: seq<Point>, tolerance: real, groups: seq<seq<nat>>,
                                          groupOf: seq<nat>,
                                          anchors: seq<nat>, targets: map<nat, Point>, e: nat)
    requires space.Valid() && |groupOf| == |points| && Clustering(space, points, tolerance, groups, groupOf)
    requires AnchorsOf(space, points, groups, anchors)
    requires AnchorsFit(points, anchors, groupOf) && TargetsOf(points, anchors, groupOf, targets)
    requires e in targets
    ensures e < |points| && space.distance(points[e], targets[e]) <= tolerance
  {
    var g := groupOf[e];
    assert e in groups[g];
    AnchorNearAll(space, points, tolerance, groups[g], anchors[g], e);
  }

  // ---- replacing endpoints ----------------------------------------------------------------

  // A line string has positive length when some segment joins two different points.
  predicate HasLength(coordinates: seq<Point>) {
    exists i :: 0 <= i < |coordinates| - 1 && coordinates[i] != coordinates[i + 1]
  }

  function Candidate(line: Line, start: Option<Point>, end: Option<Point>): Line {
    var first := if start.Some? then line[0 := start.value] else line;
    if end.Some? then first[|line| - 1 := end.value] else first
  }

  // A line that would collapse to a point is left as it was.
  function ReplaceEnds(line: Line, start: Option<Point>, end: Option<Point>): Line {
    var candidate := Candidate(line, start, end);
    if HasLength(candidate) then candidate else line
  }

  function At(targets: map<nat, Point>, e: nat): Option<Point> {
    if e in targets then Some(targets[e]) else None
  }

  function ReplaceAll(lines: seq<Line>, targets: map<nat, Point>): (r: seq<Line>)
    ensures |r| == |lines|
  {
    seq(|lines|, i requires 0 <= i < |lines| => ReplaceEnds(lines[i], At(targets, 2 * i), At(targets, 2 * i + 1)))
  }

  // Same number of vertices, same interior, ends moved by at most the bound.
  ghost predicate MovedWithin(space: Space, before: Line, after: Line, bound: real) {
    && |after| == |before|
    && (forall i :: 0 < i < |before| - 1 ==> after[i] == before[i])
    && space.distance(before[0], after[0]) <= bound
    && space.distance(before[|before| - 1], after[|after| - 1]) <= bound
  }

  lemma {:induction false} ReplaceMovesWithin(space: Space, line: Line, start: Option<Point>, end: Option<Point>,
                                              bound: real)
    requires space.Valid() && bound >= 0.0
    requires start.Some? ==> space.distance(line[0], start.value) <= bound
    requires end.Some? ==> space.distance(line[|line| - 1], end.value) <= bound
    ensures MovedWithin(space, line, ReplaceEnds(line, start, end), bound)
  {
  }

  lemma {:induction false} MovesCompose(space: Space, a: Line, b: Line, c: Line, first: real, second: real)
    requires space.Valid() && MovedWithin(space, a, b, first) && MovedWithin(space, b, c, second)
    ensures MovedWithin(space, a, c, first + second)
  {
    assert space.distance(a[0], c[0]) <= space.distance(a[0], b[0]) + space.distance(b[0], c[0]);
    var last := |a| - 1;
    assert space.distance(a[last], c[last]) <= space.distance(a[last], b[last]) + space.distance(b[last], c[last]);
  }

  function Endpoints(lines: seq<Line>): (points: seq<Point>)
    ensures |points| == 2 * |lines|
  {
    seq(2 * |lines|, e requires 0 <= e < 2 * |lines| => End(lines, e))
  }

  lemma {:induction false} EndpointAt(lines: seq<Line>, e: nat)
    requires e < 2 * |lines|
    ensures Endpoints(lines)[e] == End(lines, e)
  {
  }

  // Vertex k of line i once its ends are at their targets.
  ghost function VertexPut(lines: seq<Line>, targets: map<nat, Point>, i: nat, k: nat): Point
    requires i < |lines| && k < |lines[i]|
  {
    var start, end := 2 * i, 2 * i + 1;
    if k == 0 && start in targets then targets[start]
    else if k == |lines[i]| - 1 && end in targets then targets[end]
    else lines[i][k]
  }

  // With its ends at their targets, line i still has two different vertices.
  ghost predicate Spreads(lines: seq<Line>, targets: map<nat, Point>, i: nat)
    requires i < |lines|
  {
    exists k: nat, l: nat :: k < |lines[i]| && l < |lines[i]| &&
      VertexPut(lines, targets, i, k) != VertexPut(lines, targets, i, l)
  }

  // The ends of a line go to their targets, unless the line would collapse to a point.
  ghost predicate EndsGoTo(lines: seq<Line>, targets: map<nat, Point>, i: nat, after: Line)
    requires i < |lines|
  {
    if Spreads(lines, targets, i)
    then |after| == |lines[i]| && forall k: nat :: k < |lines[i]| ==> after[k] == VertexPut(lines, targets, i, k)
    else after == lines[i]
  }

  ghost predicate AllEndsGoTo(lines: seq<Line>, targets: map<nat, Point>, after: seq<Line>) {
    |after| == |lines| && forall i: nat :: i < |lines| ==> EndsGoTo(lines, targets, i, after[i])
  }

  lemma {:induction false} LengthMeansTwoPoints(c: seq<Point>, k: nat)
    requires k < |c| && !HasLength(c)
    ensures c[k] == c[0]
  {
    if k > 0 {
      LengthMeansTwoPoints(c, k - 1);
      assert c[k - 1] == c[k - 1 + 1];
    }
  }

  lemma {:induction false} CandidateVertices(lines: seq<Line>, targets: map<nat, Point>, i: nat, k: nat)
    requires i < |lines| && k < |lines[i]|
    ensures Candidate(lines[i], At(targets, 2 * i), At(targets, 2 * i + 1))[k] == VertexPut(lines, targets, i, k)
  {
  }

  lemma {:induction false} SpreadsExactly(lines: seq<Line>, targets: map<nat, Point>, i: nat)
    requires i < |lines|
    ensures HasLength(Candidate(lines[i], At(targets, 2 * i), At(targets, 2 * i + 1))) <==> Spreads(lines, targets, i)
  {
    var c := Candidate(lines[i], At(targets, 2 * i), At(targets, 2 * i + 1));
    if HasLength(c) {
      var k: nat :| k < |c| - 1 && c[k] != c[k + 1];
      CandidateVertices(lines, targets, i, k);
      CandidateVertices(lines, targets, i, k + 1);
    } else {
      forall k: nat | k < |c| ensures VertexPut(lines, targets, i, k) == c[0] {
        CandidateVertices(lines, targets, i, k);
        LengthMeansTwoPoints(c, k);
      }
    }
  }

  lemma {:induction false} ReplacedGoesTo(lines: seq<Line>, targets: map<nat, Point>, i: nat)
    requires i < |lines|
    ensures EndsGoTo(lines, targets, i, ReplaceAll(lines, targets)[i])
  {
    var c := Candidate(lines[i], At(targets, 2 * i), At(targets, 2 * i + 1));
    SpreadsExactly(lines, targets, i);
    forall k: nat | k < |c| ensures c[k] == VertexPut(lines, targets, i, k) {
      CandidateVertices(lines, targets, i, k);
    }
  }

  lemma {:induction false} AllReplacedGoTo(lines: seq<Line>, targets: map<nat, Point>)
    ensures AllEndsGoTo(lines, targets, ReplaceAll(lines, targets))
  {
    forall i: nat | i < |lines| ensures EndsGoTo(lines, targets, i, ReplaceAll(lines, targets)[i]) {
      ReplacedGoesTo(lines, targets, i);
    }
  }

  lemma {:induction false} TargetOrEnd(points: seq<Point>, groupOf: seq<nat>, anchors: seq<nat>,
                                       targets: map<nat, Point>, e: nat)
    requires AnchorsFit(points, anchors, groupOf) && TargetsOf(points, anchors, groupOf, targets) && e < |points|
    ensures (if e in targets then targets[e] else points[e]) == points[anchors[groupOf[e]]]
  {
  }

  lemma {:induction false} CandidateEnds(line: Line, start: Option<Point>, end: Option<Point>)
    ensures EndOf(Candidate(line, start, end), 0) == if start.Some? then start.value else EndOf(line, 0)
    ensures EndOf(Candidate(line, start, end), 1) == if end.Some? then end.value else EndOf(line, 1)
  {
  }

  lemma {:induction false} ReplacedEnd(lines: seq<Line>, targets: map<nat, Point>, e: nat)
    requires e < 2 * |lines| && Spreads(lines, targets, e / 2)
    ensures End(ReplaceAll(lines, targets), e) == if e in targets then targets[e] else End(lines, e)
  {
    var i := e / 2;
    var start, end := At(targets, 2 * i), At(targets, 2 * i + 1);
    CandidateEnds(lines[i], start, end);
    SpreadsExactly(lines, targets, i);
    var after := ReplaceAll(lines, targets)[i];
    assert after == Candidate(lines[i], start, end);
    if e % 2 == 0 {
      assert e == 2 * i;
    } else {
      assert e == 2 * i + 1;
    }
  }

  lemma {:induction false} EndsAtAnchor(lines: seq<Line>, groupOf: seq<nat>, anchors: seq<nat>,
                                        targets: map<nat, Point>, e: nat)
    requires AnchorsFit(Endpoints(lines), anchors, groupOf) && TargetsOf(Endpoints(lines), anchors, groupOf, targets)
    requires e < 2 * |lines| && Spreads(lines, targets, e / 2)
    ensures End(ReplaceAll(lines, targets), e) == Endpoints(lines)[anchors[groupOf[e]]]
  {
    EndpointAt(lines, e);
    TargetOrEnd(Endpoints(lines), groupOf, anchors, targets, e);
    ReplacedEnd(lines, targets, e);
  }

  // After clustering, two endpoints of one group coincide unless one of their lines would
  // have collapsed.
  lemma {:induction false} GroupMembersMeet(lines: seq<Line>, groupOf: seq<nat>, anchors: seq<nat>,
                                            targets: map<nat, Point>, e: nat, f: nat)
    requires AnchorsFit(Endpoints(lines), anchors, groupOf) && TargetsOf(Endpoints(lines), anchors, groupOf, targets)
    requires e < 2 * |lines| && f < 2 * |lines| && groupOf[e] == groupOf[f]
    requires Spreads(lines, targets, e / 2) && Spreads(lines, targets, f / 2)
    ensures End(ReplaceAll(lines, targets), e) == End(ReplaceAll(lines, targets), f)
  {
    EndsAtAnchor(lines, groupOf, anchors, targets, e);
    EndsAtAnchor(lines, groupOf, anchors, targets, f);
  }

  // ---- projection onto nearby lines ---------------------------------------------------

  const TOUCHING := 0.000000000001

  predicate Nearer(space: Space, lines: seq<Line>, p: Point, a: nat, b: nat)
    requires a < |lines| && b < |lines|
  {
    var da, db := space.toLine(p, lines[a]), space.toLine(p, lines[b]);
    da < db || (da == db && a <= b)
  }

  ghost predicate IsNearest(space: Space, lines: seq<Line>, p: Point, nearby: seq<nat>, t: nat)
    requires forall k :: 0 <= k < |nearby| ==> nearby[k] < |lines|
  {
    && t in nearby && t < |lines|
    && forall k :: 0 <= k < |nearby| ==>
         || space.toLine(p, lines[t]) < space.toLine(p, lines[nearby[k]])
         || (space.toLine(p, lines[t]) == space.toLine(p, lines[nearby[k]]) && t <= nearby[k])
  }

  // The other lines among the hits.
  function Others(hits: seq<nat>, own: nat): (r: seq<nat>)
    ensures forall l :: l in r <==> l in hits && l != own
  {
    if hits == [] then []
    else
      assert forall l :: l in hits <==> l == hits[0] || l in hits[1..];
      if hits[0] == own then Others(hits[1..], own) else [hits[0]] + Others(hits[1..], own)
  }

  // Endpoint e goes to the nearest other line within the tolerance, unless it touches one.
  ghost predicate ProjectionOf(space: Space, lines: seq<Line>, tolerance: real, nearby: seq<nat>, e: nat,
                               target: Option<Point>)
    requires e < 2 * |lines| && forall k :: 0 <= k < |nearby| ==> nearby[k] < |lines|
  {
    var p := End(lines, e);
    if nearby == [] || exists k :: 0 <= k < |nearby| && space.toLine(p, lines[nearby[k]]) <= 0.000000000001 then
      target == None
    else
      exists t: nat :: IsNearest(space, lines, p, nearby, t) &&
        target == if space.toLine(p, lines[t]) <= tolerance then Some(space.nearest(p, lines[t])) else None
  }

  method NearestLine(space: Space, lines: seq<Line>, p: Point, nearby: seq<nat>) returns (t: nat)
    requires nearby != [] && forall k :: 0 <= k < |nearby| ==> nearby[k] < |lines|
    ensures IsNearest(space, lines, p, nearby, t)
  {
    t := nearby[0];
    for k := 1 to |nearby|
      invariant t in nearby && t < |lines|
      invariant forall j :: 0 <= j < k ==> Nearer(space, lines, p, t, nearby[j])
    {
      if !Nearer(space, lines, p, t, nearby[k]) {
        t := nearby[k];
      }
    }
  }

  method ProjectEnd(space: Space, lines: seq<Line>, tolerance: real, nearby: seq<nat>, e: nat)
    returns (target: Option<Point>)
    requires e < 2 * |lines| && forall k :: 0 <= k < |nearby| ==> nearby[k] < |lines|
    ensures ProjectionOf(space, lines, tolerance, nearby, e, target)
  {
    var p := End(lines, e);
    if nearby == [] || exists k :: 0 <= k < |nearby| && space.toLine(p, lines[nearby[k]]) <= TOUCHING {
      return None;
    }
    var t := NearestLine(space, lines, p, nearby);
    target := if space.toLine(p, lines[t]) <= tolerance then Some(space.nearest(p, lines[t])) else None;
  }

  // `hits(e)` are the lines the index finds around endpoint e.
  ghost predicate HitsWithin(hits: nat -> seq<nat>, n: nat) {
    forall e: nat, k :: 0 <= k < |hits(e)| ==> hits(e)[k] < n
  }

  lemma {:induction false} OthersWithin(hits: seq<nat>, own: nat, n: nat)
    requires forall k :: 0 <= k < |hits| ==> hits[k] < n
    ensures forall k :: 0 <= k < |Others(hits, own)| ==> Others(hits, own)[k] < n
  {
    forall k | 0 <= k < |Others(hits, own)| ensures Others(hits, own)[k] < n {
      assert Others(hits, own)[k] in hits;
    }
  }

  ghost predicate ProjectedAt(space: Space, lines: seq<Line>, tolerance: real, hits: nat -> seq<nat>,
                              projected: map<nat, Point>, e: nat)
    requires HitsWithin(hits, |lines|) && e < 2 * |lines|
  {
    OthersWithin(hits(e), e / 2, |lines|);
    ProjectionOf(space, lines, tolerance, Others(hits(e), e / 2), e, At(projected, e))
  }

  ghost predicate ProjectionsOf(space: Space, lines: seq<Line>, tolerance: real, hits: nat -> seq<nat>,
                                projected: map<nat, Point>, done: nat)
    requires HitsWithin(hits, |lines|) && done <= 2 * |lines|
  {
    && (forall e: nat :: e in projected ==> e < done)
    && (forall e: nat :: e < done ==> ProjectedAt(space, lines, tolerance, hits, projected, e))
  }

  method Project(space: Space, lines: seq<Line>, tolerance: real, hits: nat -> seq<nat>)
    returns (projected: map<nat, Point>)
    requires HitsWithin(hits, |lines|)
    ensures ProjectionsOf(space, lines, tolerance, hits, projected, 2 * |lines|)
  {
    projected := map[];
    for e := 0 to 2 * |lines|
      invariant ProjectionsOf(space, lines, tolerance, hits, projected, e)
    {
      OthersWithin(hits(e), e / 2, |lines|);
      var target := ProjectEnd(space, lines, tolerance, Others(hits(e), e / 2), e);
      ghost var before := projected;
      if target.Some? {
        projected := projected[e := target.value];
      }
      forall d: nat | d < e + 1 ensures ProjectedAt(space, lines, tolerance, hits, projected, d) {
        if d < e {
          assert ProjectedAt(space, lines, tolerance, hits, before, d);
          assert At(projected, d) == At(before, d);
        }
      }
    }
  }

  lemma {:induction false} ProjectionIsNear(space: Space, lines: seq<Line>, tolerance: real, hits: nat -> seq<nat>,
                                            projected: map<nat, Point>, e: nat)
    requires space.Valid() && HitsWithin(hits, |lines|)
    requires ProjectionsOf(space, lines, tolerance, hits, projected, 2 * |lines|) && e in projected
    ensures e < 2 * |lines| && space.distance(End(lines, e), projected[e]) <= tolerance
  {
    assert ProjectedAt(space, lines, tolerance, hits, projected, e);
  }

  // ---- ends that meet stay together -------------------------------------------------------

  // The index around endpoint e misses no line within the tolerance.
  ghost predicate IndexFindsLines(space: Space, lines: seq<Line>, tolerance: real, hits: nat -> seq<nat>) {
    forall e: nat, l: nat :: e < 2 * |lines| && l < |lines| && space.toLine(End(lines, e), lines[l]) <= tolerance ==>
      l in hits(e)
  }

  // An end that meets the end of another line touches that line, so it is not projected.
  lemma {:induction false} MeetingEndStays(space: Space, lines: seq<Line>, tolerance: real, hits: nat -> seq<nat>,
                                           projected: map<nat, Point>, e: nat, f: nat)
    requires space.Valid() && tolerance >= 0.0 && HitsWithin(hits, |lines|)
    requires IndexFindsLines(space, lines, tolerance, hits)
    requires ProjectionsOf(space, lines, tolerance, hits, projected, 2 * |lines|)
    requires e < 2 * |lines| && f < 2 * |lines| && e / 2 != f / 2 && End(lines, e) == End(lines, f)
    ensures e !in projected
  {
    var p, other, nearby := End(lines, e), f / 2, Others(hits(e), e / 2);
    assert space.toLine(EndOf(lines[other], f % 2), lines[other]) == 0.0;
    assert other in hits(e) && other in nearby;
    var k :| 0 <= k < |nearby| && nearby[k] == other;
    assert space.toLine(p, lines[nearby[k]]) <= TOUCHING;
    assert ProjectedAt(space, lines, tolerance, hits, projected, e);
  }

  lemma {:induction false} UnprojectedEnd(lines: seq<Line>, targets: map<nat, Point>, e: nat)
    requires e < 2 * |lines| && e !in targets
    ensures End(ReplaceAll(lines, targets), e) == End(lines, e)
  {
    var i := e / 2;
    var start, end := At(targets, 2 * i), At(targets, 2 * i + 1);
    CandidateEnds(lines[i], start, end);
    assert ReplaceAll(lines, targets)[i] == ReplaceEnds(lines[i], start, end);
    if e % 2 == 0 {
      assert e == 2 * i;
    } else {
      assert e == 2 * i + 1;
    }
  }

  lemma {:induction false} MeetingEndsStayTogether(space: Space, lines: seq<Line>, tolerance: real,
                                                   hits: nat -> seq<nat>, projected: map<nat, Point>, e: nat, f: nat)
    requires space.Valid() && tolerance >= 0.0 && HitsWithin(hits, |lines|)
    requires IndexFindsLines(space, lines, tolerance, hits)
    requires ProjectionsOf(space, lines, tolerance, hits, projected, 2 * |lines|)
    requires e < 2 * |lines| && f < 2 * |lines| && e / 2 != f / 2 && End(lines, e) == End(lines, f)
    ensures End(ReplaceAll(lines, projected), e) == End(ReplaceAll(lines, projected), f) == End(lines, e)
  {
    MeetingEndStays(space, lines, tolerance, hits, projected, e, f);
    MeetingEndStays(space, lines, tolerance, hits, projected, f, e);
    UnprojectedEnd(lines, projected, e);
    UnprojectedEnd(lines, projected, f);
  }

  // Two ends of one group whose lines keep two different vertices.
  ghost predicate Grouped(lines: seq<Line>, groupOf: seq<nat>, targets: map<nat, Point>, e: nat, f: nat)
    requires |groupOf| == 2 * |lines| && e < 2 * |lines| && f < 2 * |lines|
  {
    groupOf[e] == groupOf[f] && Spreads(lines, targets, e / 2) && Spreads(lines, targets, f / 2)
  }

  // Such ends are at the same point in the result.
  ghost predicate GroupsMeet(lines: seq<Line>, groupOf: seq<nat>, targets: map<nat, Point>, result: seq<Line>)
    requires |groupOf| == 2 * |lines| && |result| == |lines|
  {
    forall e: nat, f: nat :: e < 2 * |lines| && f < 2 * |lines| && Grouped(lines, groupOf, targets, e, f) ==>
      End(result, e) == End(result, f)
  }

  lemma {:induction false} OneEndPerLine(space: Space, points: seq<Point>, tolerance: real, groups: seq<seq<nat>>,
                                         groupOf: seq<nat>, e: nat, f: nat)
    requires Clustering(space, points, tolerance, groups, groupOf) && e < |groupOf| && f < |groupOf|
    requires groupOf[e] == groupOf[f] && e != f
    ensures e / 2 != f / 2
  {
    var group := groups[groupOf[e]];
    assert e in group && f in group;
    var k :| 0 <= k < |group| && group[k] == e;
    var l :| 0 <= l < |group| && group[l] == f;
  }

  lemma {:induction false} GroupsMeetInTheEnd(space: Space, lines: seq<Line>, tolerance: real, hits: nat -> seq<nat>,
                                              groups: seq<seq<nat>>, groupOf: seq<nat>, anchors: seq<nat>,
                                              targets: map<nat, Point>, projected: map<nat, Point>)
    requires space.Valid() && tolerance >= 0.0 && HitsWithin(hits, |lines|)
    requires AnchorsFit(Endpoints(lines), anchors, groupOf) && TargetsOf(Endpoints(lines), anchors, groupOf, targets)
    requires Clustering(space, Endpoints(lines), tolerance, groups, groupOf)
    requires IndexFindsLines(space, ReplaceAll(lines, targets), tolerance, hits)
    requires ProjectionsOf(space, ReplaceAll(lines, targets), tolerance, hits, projected, 2 * |lines|)
    ensures GroupsMeet(lines, groupOf, targets, ReplaceAll(ReplaceAll(lines, targets), projected))
  {
    var clustered := ReplaceAll(lines, targets);
    var result := ReplaceAll(clustered, projected);
    forall e: nat, f: nat | e < 2 * |lines| && f < 2 * |lines| && Grouped(lines, groupOf, targets, e, f)
      ensures End(result, e) == End(result, f)
    {
      if e != f {
        OneEndPerLine(space, Endpoints(lines), tolerance, groups, groupOf, e, f);
        GroupMembersMeet(lines, groupOf, anchors, targets, e, f);
        MeetingEndsStayTogether(space, clustered, tolerance, hits, projected, e, f);
      }
    }
  }

  // ---- snapping ------------------------------------------------------------------------

  ghost predicate AllMovedWithin(space: Space, before: seq<Line>, after: seq<Line>, bound: real) {
    |after| == |before| && forall i :: 0 <= i < |before| ==> MovedWithin(space, before[i], after[i], bound)
  }

  lemma {:induction false} EndNumbers(lines: seq<Line>, i: nat, start: nat, end: nat)
    requires i < |lines| && start == 2 * i && end == 2 * i + 1
    ensures End(lines, start) == lines[i][0] && End(lines, end) == lines[i][|lines[i]| - 1]
  {
    assert start / 2 == i && start % 2 == 0 && end / 2 == i && end % 2 == 1;
  }

  lemma {:induction false} ReplaceAllMovesWithin(space: Space, lines: seq<Line>, targets: map<nat, Point>, bound: real)
    requires space.Valid() && bound >= 0.0
    requires forall e: nat :: e in targets && e < 2 * |lines| ==> space.distance(End(lines, e), targets[e]) <= bound
    ensures AllMovedWithin(space, lines, ReplaceAll(lines, targets), bound)
  {
    forall i: nat | i < |lines| ensures MovedWithin(space, lines[i], ReplaceAll(lines, targets)[i], bound) {
      var start, end := 2 * i, 2 * i + 1;
      EndNumbers(lines, i, start, end);
      ReplaceMovesWithin(space, lines[i], At(targets, start), At(targets, end), bound);
    }
  }

  lemma {:induction false} UnmovedWithin(space: Space, lines: seq<Line>)
    requires space.Valid()
    ensures AllMovedWithin(space, lines, lines, 0.0)
  {
  }

  lemma {:induction false} TwoMoves(space: Space, a: seq<Line>, b: seq<Line>, c: seq<Line>, bound: real)
    requires space.Valid() && AllMovedWithin(space, a, b, bound) && AllMovedWithin(space, b, c, bound)
    ensures AllMovedWithin(space, a, c, 2.0 * bound)
  {
    forall i | 0 <= i < |a| ensures MovedWithin(space, a[i], c[i], 2.0 * bound) {
      MovesCompose(space, a[i], b[i], c[i], bound, bound);
    }
  }

  // The targets are the anchors of the greedy clusters, and the ends of one cluster meet in the
  // result when the index misses no line.
  ghost predicate SnappedBy(space: Space, lines: seq<Line>, tolerance: real, hits: nat -> seq<nat>,
                            groups: seq<seq<nat>>, groupOf: seq<nat>, anchors: seq<nat>, targets: map<nat, Point>,
                            clustered: seq<Line>, result: seq<Line>)
  {
    && GreedyClusters(space, Endpoints(lines), tolerance, groups, groupOf)
    && AnchorsOf(space, Endpoints(lines), groups, anchors) && AnchorsFit(Endpoints(lines), anchors, groupOf)
    && TargetsOf(Endpoints(lines), anchors, groupOf, targets) && |result| == |lines|
    && (IndexFindsLines(space, clustered, tolerance, hits) ==>
          GroupsMeet(lines, groupOf, targets, result))
  }

  lemma {:induction false} NothingToSnap(space: Space, tolerance: real, hits: nat -> seq<nat>)
    ensures SnappedBy(space, [], tolerance, hits, [], [], [], map[], [], [])
  {
    assert GreedyHistory(space, Endpoints([]), tolerance, [[]]);
  }

  lemma {:induction false} SnappedToClusters(space: Space, lines: seq<Line>, tolerance: real, hits: nat -> seq<nat>,
                                             groups: seq<seq<nat>>, groupOf: seq<nat>, anchors: seq<nat>,
                                             targets: map<nat, Point>, projected: map<nat, Point>)
    requires space.Valid() && tolerance >= 0.0 && HitsWithin(hits, |lines|)
    requires GreedyClusters(space, Endpoints(lines), tolerance, groups, groupOf)
    requires AnchorsOf(space, Endpoints(lines), groups, anchors) && AnchorsFit(Endpoints(lines), anchors, groupOf)
    requires TargetsOf(Endpoints(lines), anchors, groupOf, targets)
    requires ProjectionsOf(space, ReplaceAll(lines, targets), tolerance, hits, projected, 2 * |lines|)
    ensures SnappedBy(space, lines, tolerance, hits, groups, groupOf, anchors, targets, ReplaceAll(lines, targets),
                      ReplaceAll(ReplaceAll(lines, targets), projected))
  {
    if IndexFindsLines(space, ReplaceAll(lines, targets), tolerance, hits) {
      GroupsMeetInTheEnd(space, lines, tolerance, hits, groups, groupOf, anchors, targets, projected);
    }
  }

  lemma {:induction false} BothMovesWithin(space: Space, lines: seq<Line>, tolerance: real, hits: nat -> seq<nat>,
                                           groups: seq<seq<nat>>, groupOf: seq<nat>, anchors: seq<nat>,
                                           targets: map<nat, Point>, projected: map<nat, Point>)
    requires space.Valid() && tolerance >= 0.0 && HitsWithin(hits, |lines|)
    requires GreedyClusters(space, Endpoints(lines), tolerance, groups, groupOf)
    requires AnchorsOf(space, Endpoints(lines), groups, anchors) && AnchorsFit(Endpoints(lines), anchors, groupOf)
    requires TargetsOf(Endpoints(lines), anchors, groupOf, targets)
    requires ProjectionsOf(space, ReplaceAll(lines, targets), tolerance, hits, projected, 2 * |lines|)
    ensures AllMovedWithin(space, lines, ReplaceAll(ReplaceAll(lines, targets), projected), 2.0 * tolerance)
  {
    var clustered := ReplaceAll(lines, targets);
    forall e: nat | e in targets && e < 2 * |lines| ensures space.distance(End(lines, e), targets[e]) <= tolerance {
      EndpointAt(lines, e);
      TargetsAreNear(space, Endpoints(lines), tolerance, groups, groupOf, anchors, targets, e);
    }
    ReplaceAllMovesWithin(space, lines, targets, tolerance);
    forall e: nat | e in projected && e < 2 * |lines|
      ensures space.distance(End(clustered, e), projected[e]) <= tolerance
    {
      ProjectionIsNear(space, clustered, tolerance, hits, projected, e);
    }
    ReplaceAllMovesWithin(space, clustered, projected, tolerance);
    TwoMoves(space, lines, clustered, ReplaceAll(clustered, projected), tolerance);
  }

  // The ends of one group end up together; no endpoint moves farther than twice the tolerance
  // and no interior vertex moves at all.
  method Snap(space: Space, lines: seq<Line>, tolerance: real, pointHits: nat -> seq<nat>, lineHits: nat -> seq<nat>)
    returns (result: seq<Line>, moved: nat, ghost targets: map<nat, Point>, ghost clustered: seq<Line>,
             ghost projected: map<nat, Point>)
    requires space.Valid() && HitsWithin(lineHits, |lines|)
    requires tolerance > 0.0 ==> IndexFindsAll(space, Endpoints(lines), tolerance, pointHits)
    ensures tolerance <= 0.0 ==> result == lines && moved == 0
    ensures AllMovedWithin(space, lines, result, if tolerance > 0.0 then 2.0 * tolerance else 0.0)
    ensures tolerance > 0.0 ==>
      && AllEndsGoTo(lines, targets, clustered) && AllEndsGoTo(clustered, projected, result)
      && moved == |targets| + |projected|
      && ProjectionsOf(space, clustered, tolerance, lineHits, projected, 2 * |lines|)
    ensures tolerance > 0.0 ==>
      exists groups, groupOf, anchors ::
        SnappedBy(space, lines, tolerance, lineHits, groups, groupOf, anchors, targets, clustered, result)
  {
    targets, clustered, projected := map[], lines, map[];
    if tolerance <= 0.0 || |lines| == 0 {
      result, moved := lines, 0;
      UnmovedWithin(space, lines);
      if tolerance > 0.0 {
        NothingToSnap(space, tolerance, lineHits);
      }
      return;
    }
    var points := Endpoints(lines);
    var groups, groupOf, _ := Cluster(space, points, tolerance, pointHits);
    var goals, anchors := PickTargets(space, points, tolerance, groups, groupOf);
    var between := ReplaceAll(lines, goals);
    var projections := Project(space, between, tolerance, lineHits);
    result := ReplaceAll(between, projections);
    moved := |goals| + |projections|;
    targets, clustered, projected := goals, between, projections;
    AllReplacedGoTo(lines, targets);
    AllReplacedGoTo(clustered, projected);
    BothMovesWithin(space, lines, tolerance, lineHits, groups, groupOf, anchors, targets, projected);
    SnappedToClusters(space, lines, tolerance, lineHits, groups, groupOf, anchors, targets, projected);
  }
}
