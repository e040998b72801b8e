// Road component connector: label the components by endpoint contact, then link them
// with a minimum spanning forest of shortest lines.
module RoadConnector {
  import opened Common
  import opened Connectivity
  import opened SpanningForest
  import Sorting
  import UnionFind

  // shapely.shortest_line between two components: a non-empty line, or nothing usable.
  datatype ShortestLine = NoLine | Line(length: real, wkt: string)

  datatype Config = Config(nodeTolerance: real, maxDistance: Option<real>) {
    predicate Valid() {
      nodeTolerance >= 0.0 && (maxDistance.Some? ==> maxDistance.value > 0.0)
    }

    predicate Accepts(length: real) {
      nodeTolerance < length && (maxDistance.Some? ==> length <= maxDistance.value)
    }
  }

  datatype Connector = Connector(index: nat, source: nat, target: nat, wkt: string, length: real)

  datatype Plan = Plan(partCount: nat, initialCount: nat, remainingCount: nat, connectors: seq<Connector>)

  // The distance between endpoints.
  type Distance = (nat, nat) -> real

  // ---- component labels -----------------------------------------------------

  // Endpoints 2a and 2a+1 belong to line a. Two lines are in contact when an endpoint
  // of one lies within the tolerance of an endpoint of the other.
  ghost predicate InContact(distance: Distance, tolerance: real, a: nat, b: nat) {
    exists p: nat, q: nat :: p / 2 == a && q / 2 == b && (distance(p, q) <= tolerance || distance(q, p) <= tolerance)
  }

  ghost predicate ContactAt(distance: Distance, tolerance: real, chain: seq<nat>, i: int)
    requires 0 <= i < |chain| - 1
  {
    InContact(distance, tolerance, chain[i], chain[i + 1])
  }

  ghost predicate IsContactChain(distance: Distance, tolerance: real, n: nat, chain: seq<nat>) {
    && |chain| > 0
    && (forall i :: 0 <= i < |chain| ==> chain[i] < n)
    && (forall i :: 0 <= i < |chain| - 1 ==> ContactAt(distance, tolerance, chain, i))
  }

  ghost predicate Chained(distance: Distance, tolerance: real, n: nat, a: nat, b: nat) {
    exists chain :: IsContactChain(distance, tolerance, n, chain) && chain[0] == a && chain[|chain| - 1] == b
  }

  // Exactly the contacts between different lines have been linked.
  ghost predicate LinksAreContacts(distance: Distance, tolerance: real, n: nat, links: seq<Edge>) {
    && (forall e :: e in links ==> e.left < n && e.right < n && InContact(distance, tolerance, e.left, e.right))
    && (forall p: nat, q: nat :: p / 2 < n && q / 2 < n && distance(p, q) <= tolerance && p / 2 != q / 2 ==>
          Edge(p / 2, q / 2) in links)
  }

  lemma {:induction false} ContactIsJoined(distance: Distance, tolerance: real, n: nat, links: seq<Edge>, a: nat,
                                           b: nat)
    requires LinksAreContacts(distance, tolerance, n, links) && a < n && b < n
    requires a != b && InContact(distance, tolerance, a, b)
    ensures Joins(links, a, b)
  {
    var p: nat, q: nat :| p / 2 == a && q / 2 == b && (distance(p, q) <= tolerance || distance(q, p) <= tolerance);
  }

  lemma {:induction false} JoinedIsContact(distance: Distance, tolerance: real, n: nat, links: seq<Edge>, a: nat,
                                           b: nat)
    requires LinksAreContacts(distance, tolerance, n, links) && Joins(links, a, b)
    ensures a < n && b < n && InContact(distance, tolerance, a, b)
  {
    if Edge(b, a) in links {
      var p: nat, q: nat :| p / 2 == b && q / 2 == a && (distance(p, q) <= tolerance || distance(q, p) <= tolerance);
    }
  }

  lemma {:induction false} ChainIsConnected(distance: Distance, tolerance: real, n: nat, links: seq<Edge>,
                                            chain: seq<nat>)
    requires LinksAreContacts(distance, tolerance, n, links) && IsContactChain(distance, tolerance, n, chain)
    ensures Connected(links, chain[0], chain[|chain| - 1])
    decreases |chain|
  {
    var last := |chain| - 1;
    if last == 0 {
      ConnectedReflexive(links, chain[0]);
    } else {
      var front := chain[..last];
      assert IsContactChain(distance, tolerance, n, front) by {
        forall i | 0 <= i < |front| - 1 ensures ContactAt(distance, tolerance, front, i) {
          assert ContactAt(distance, tolerance, chain, i);
        }
      }
      ChainIsConnected(distance, tolerance, n, links, front);
      assert ContactAt(distance, tolerance, chain, last - 1);
      if chain[last - 1] != chain[last] {
        ContactIsJoined(distance, tolerance, n, links, chain[last - 1], chain[last]);
        ConnectedStep(links, chain[0], chain[last - 1], chain[last]);
      }
    }
  }

  lemma {:induction false} PathIsChain(distance: Distance, tolerance: real, n: nat, links: seq<Edge>, path: seq<nat>)
    requires LinksAreContacts(distance, tolerance, n, links) && IsPath(links, path) && path[0] < n
    ensures IsContactChain(distance, tolerance, n, path)
  {
    forall i | 0 <= i < |path| ensures path[i] < n {
      if i > 0 {
        assert JoinsAt(links, path, i - 1);
        JoinedIsContact(distance, tolerance, n, links, path[i - 1], path[i]);
      }
    }
    forall i | 0 <= i < |path| - 1 ensures ContactAt(distance, tolerance, path, i) {
      assert JoinsAt(links, path, i);
      JoinedIsContact(distance, tolerance, n, links, path[i], path[i + 1]);
    }
  }

  lemma {:induction false} ConnectedMeansChained(distance: Distance, tolerance: real, n: nat, links: seq<Edge>,
                                                 a: nat, b: nat)
    requires LinksAreContacts(distance, tolerance, n, links) && a < n && b < n
    ensures Connected(links, a, b) <==> Chained(distance, tolerance, n, a, b)
  {
    if Connected(links, a, b) {
      var path :| IsPath(links, path) && path[0] == a && path[|path| - 1] == b;
      PathIsChain(distance, tolerance, n, links, path);
    }
    if Chained(distance, tolerance, n, a, b) {
      var chain :| IsContactChain(distance, tolerance, n, chain) && chain[0] == a && chain[|chain| - 1] == b;
      ChainIsConnected(distance, tolerance, n, links, chain);
    }
  }

  ghost predicate PreviousSeen(ids: seq<nat>, i: nat)
    requires i < |ids|
  {
    ids[i] > 0 ==> ids[i] - 1 in ids[..i]
  }

  // Labels 0..k-1, all used, each new one appearing only after the one below it.
  ghost predicate FirstAppearanceLabels(ids: seq<nat>, k: nat) {
    && (forall i :: 0 <= i < |ids| ==> ids[i] < k)
    && (forall c: nat :: c < k ==> c in ids)
    && (forall i :: 0 <= i < |ids| ==> PreviousSeen(ids, i))
  }

  lemma {:induction false} LabelsExtend(ids: seq<nat>, k: nat, c: nat, k': nat)
    requires FirstAppearanceLabels(ids, k)
    requires (c < k && k' == k) || (c == k && k' == k + 1)
    ensures FirstAppearanceLabels(ids + [c], k')
  {
    var more := ids + [c];
    forall d: nat | d < k' ensures d in more {
      if d < k {
        assert d in ids;
      } else {
        assert more[|ids|] == d;
      }
    }
    forall i | 0 <= i < |more| ensures PreviousSeen(more, i) {
      if i < |ids| {
        assert PreviousSeen(ids, i) && more[..i] == ids[..i];
      } else if c > 0 {
        assert more[..i] == ids;
        assert more[i] - 1 < k;
      }
    }
  }

  method LabelByFirstAppearance(roots: seq<nat>) returns (ids: seq<nat>, count: nat)
    ensures |ids| == |roots| && FirstAppearanceLabels(ids, count)
    ensures forall a, b :: 0 <= a < |ids| && 0 <= b < |ids| ==> (ids[a] == ids[b] <==> roots[a] == roots[b])
  {
    var numbered: map<nat, nat> := map[];
    ids := [];
    count := 0;
    for i := 0 to |roots|
      invariant |ids| == i && FirstAppearanceLabels(ids, count)
      invariant forall r :: r in numbered ==> numbered[r] < count
      invariant forall r, s :: r in numbered && s in numbered && numbered[r] == numbered[s] ==> r == s
      invariant forall j :: 0 <= j < i ==> roots[j] in numbered && ids[j] == numbered[roots[j]]
    {
      ghost var before, used := ids, count;
      if roots[i] !in numbered {
        numbered := numbered[roots[i] := count];
        count := count + 1;
      }
      ids := ids + [numbered[roots[i]]];
      LabelsExtend(before, used, ids[i], count);
    }
  }

  // `hits(p)` is the spatial index query around endpoint p; it may return too much
  // but misses no endpoint within the tolerance.
  ghost predicate IndexFindsAll(distance: Distance, tolerance: real, hits: nat -> seq<nat>, n: nat) {
    && (forall p: nat, q: nat :: p / 2 < n && q / 2 < n && distance(p, q) <= tolerance ==> q in hits(p))
    && (forall p: nat, q :: p / 2 < n && q in hits(p) ==> q / 2 < n)
  }

  ghost predicate Noted(distance: Distance, tolerance: real, links: seq<Edge>, p: nat, q: nat) {
    distance(p, q) <= tolerance && p / 2 != q / 2 ==> Edge(p / 2, q / 2) in links
  }

  ghost predicate OnlyContacts(distance: Distance, tolerance: real, n: nat, links: seq<Edge>) {
    forall e :: e in links ==> e.left < n && e.right < n && InContact(distance, tolerance, e.left, e.right)
  }

  // Link the line of endpoint p with every other line that one of its hits belongs to.
  method LinkEndpoint(graph: UnionFind.DisjointSets, distance: Distance, tolerance: real, p: nat, found: seq<nat>)
    requires graph.Valid() && p / 2 < graph.parent.Length
    requires OnlyContacts(distance, tolerance, graph.parent.Length, graph.links)
    requires forall q :: q in found ==> q / 2 < graph.parent.Length
    modifies graph, graph.parent, graph.rank
    ensures graph.Valid() && OnlyContacts(distance, tolerance, graph.parent.Length, graph.links)
    ensures forall e :: e in old(graph.links) ==> e in graph.links
    ensures forall q :: q in found ==> Noted(distance, tolerance, graph.links, p, q)
  {
    for h := 0 to |found|
      invariant graph.Valid() && OnlyContacts(distance, tolerance, graph.parent.Length, graph.links)
      invariant forall e :: e in old(graph.links) ==> e in graph.links
      invariant forall i :: 0 <= i < h ==> Noted(distance, tolerance, graph.links, p, found[i])
    {
      var q := found[h];
      assert q in found;
      if q / 2 != p / 2 && distance(p, q) <= tolerance {
        assert InContact(distance, tolerance, p / 2, q / 2);
        var _ := graph.Union(p / 2, q / 2);
      }
    }
  }

  method Roots(sets: UnionFind.DisjointSets) returns (roots: seq<nat>)
    requires sets.Valid()
    modifies sets.parent
    ensures sets.Valid() && sets.links == old(sets.links) && sets.root == old(sets.root)
    ensures roots == sets.root
  {
    roots := [];
    for i := 0 to sets.parent.Length
      invariant sets.Valid() && sets.links == old(sets.links) && sets.root == old(sets.root)
      invariant roots == sets.root[..i]
    {
      var r, _ := sets.Find(i);
      roots := roots + [r];
    }
  }

  lemma {:induction false} ContactsAllLinked(distance: Distance, tolerance: real, hits: nat -> seq<nat>, n: nat,
                                             links: seq<Edge>)
    requires IndexFindsAll(distance, tolerance, hits, n) && OnlyContacts(distance, tolerance, n, links)
    requires forall p: nat, q: nat :: p < 2 * n && q in hits(p) ==> Noted(distance, tolerance, links, p, q)
    ensures LinksAreContacts(distance, tolerance, n, links)
  {
    forall p: nat, q: nat | p / 2 < n && q / 2 < n && distance(p, q) <= tolerance && p / 2 != q / 2
      ensures Edge(p / 2, q / 2) in links
    {
      assert q in hits(p);
      assert Noted(distance, tolerance, links, p, q);
    }
  }

  // Two line parts get one id exactly when a chain of endpoint contacts links them.
  method ComponentIds(lineCount: nat, distance: Distance, tolerance: real, hits: nat -> seq<nat>)
    returns (ids: seq<nat>, count: nat)
    requires IndexFindsAll(distance, tolerance, hits, lineCount)
    ensures |ids| == lineCount && FirstAppearanceLabels(ids, count)
    ensures forall a, b :: 0 <= a < lineCount && 0 <= b < lineCount ==>
      (ids[a] == ids[b] <==> Chained(distance, tolerance, lineCount, a, b))
  {
    var graph := new UnionFind.DisjointSets(lineCount);
    for p := 0 to 2 * lineCount
      invariant graph.Valid() && graph.parent.Length == lineCount
      invariant fresh(graph) && fresh(graph.parent) && fresh(graph.rank)
      invariant OnlyContacts(distance, tolerance, lineCount, graph.links)
      invariant forall d: nat, q: nat :: d < p && q in hits(d) ==> Noted(distance, tolerance, graph.links, d, q)
    {
      LinkEndpoint(graph, distance, tolerance, p, hits(p));
    }
    ContactsAllLinked(distance, tolerance, hits, lineCount, graph.links);
    var roots := Roots(graph);
    ids, count := LabelByFirstAppearance(roots);
    forall a, b | 0 <= a < lineCount && 0 <= b < lineCount
      ensures ids[a] == ids[b] <==> Chained(distance, tolerance, lineCount, a, b)
    {
      ConnectedMeansChained(distance, tolerance, lineCount, graph.links, a, b);
    }
  }

  // ---- candidates -------------------------------------------------------------

  // The shortest line between components x.left and x.right, long enough and not too long.
  ghost predicate Admissible(shortest: (nat, nat) -> ShortestLine, config: Config, n: nat, x: Candidate) {
    && x.left < x.right < n
    && shortest(x.left, x.right) == Line(x.length, x.wkt)
    && config.nodeTolerance < x.length
    && (config.maxDistance.Some? ==> x.length <= config.maxDistance.value)
  }

  ghost predicate CandidatesUpTo(shortest: (nat, nat) -> ShortestLine, config: Config, n: nat,
                                 found: seq<Candidate>, left: nat, right: nat)
  {
    && Sorting.Distinct(found)
    && forall x :: x in found <==>
         Admissible(shortest, config, n, x) && (x.left < left || (x.left == left && x.right < right))
  }

  method Candidates(shortest: (nat, nat) -> ShortestLine, config: Config, n: nat)
    returns (found: seq<Candidate>)
    ensures Sorting.Distinct(found)
    ensures forall x :: x in found <==> Admissible(shortest, config, n, x)
    ensures n <= 1 ==> found == []
  {
    found := [];
    for left := 0 to n
      invariant n <= 1 ==> found == []
      invariant CandidatesUpTo(shortest, config, n, found, left, left + 1)
    {
      for right := left + 1 to n
        invariant n <= 1 ==> found == []
        invariant CandidatesUpTo(shortest, config, n, found, left, right)
      {
        match shortest(left, right) {
          case NoLine =>
          case Line(length, wkt) =>
            if config.Accepts(length) {
              found := found + [Candidate(length, left, right, wkt)];
            }
        }
      }
    }
  }

  lemma {:induction false} SortedCandidates(shortest: (nat, nat) -> ShortestLine, config: Config, n: nat,
                                            found: seq<Candidate>) returns (c: seq<Candidate>)
    requires config.Valid() && Sorting.Distinct(found)
    requires forall x :: x in found ==> Admissible(shortest, config, n, x)
    ensures c == Sorting.Sort(ShorterOrEqual, found) && multiset(c) == multiset(found)
    ensures Ascending(c) && Sorting.Distinct(c) && CandidatesWithin(c, n)
    ensures forall x :: x in c <==> x in found
    ensures Sorting.SortedBy(ShorterOrEqual, c)
  {
    c := Sorting.Sort(ShorterOrEqual, found);
    KeyIsPreorder();
    Sorting.SortSorts(ShorterOrEqual, found);
    Sorting.DistinctAfterSort(ShorterOrEqual, found);
    Sorting.SameMembers(c, found);
    forall i, j | 0 <= i < j < |c| ensures c[i].length <= c[j].length {
      assert ShorterOrEqual(c[i], c[j]);
    }
  }

  // ---- the minimum spanning forest ----------------------------------------------

  // `chosen` is a shortest set of candidates joining every pair of components that the
  // candidates can join at all, and it closes no cycle.
  ghost predicate MinimumSpanningForest(chosen: seq<Candidate>, candidates: seq<Candidate>, n: nat) {
    && (forall x :: x in chosen ==> x in candidates)
    && SameConnectivity(Edges(chosen), Edges(candidates))
    && IsForest(Edges(chosen), n)
    && forall other: seq<Candidate> ::
         (forall x :: x in other ==> x in candidates) &&
         SameConnectivity(Edges(other), Edges(candidates)) ==>
           TotalLength(chosen) <= TotalLength(other)
  }

  lemma {:induction false} SamePathsAnyOrder(c: seq<Candidate>, d: seq<Candidate>)
    requires forall x :: x in c <==> x in d
    ensures SameConnectivity(Edges(c), Edges(d))
  {
    EdgesOfSubset(c, d);
    EdgesOfSubset(d, c);
    forall a: nat, b: nat ensures Connected(Edges(c), a, b) <==> Connected(Edges(d), a, b) {
      if Connected(Edges(c), a, b) {
        ConnectedMonotone(Edges(c), Edges(d), a, b);
      }
      if Connected(Edges(d), a, b) {
        ConnectedMonotone(Edges(d), Edges(c), a, b);
      }
    }
  }

  lemma {:induction false} SameConnectivityTransitive(e: seq<Edge>, f: seq<Edge>, g: seq<Edge>)
    requires SameConnectivity(e, f) && SameConnectivity(f, g)
    ensures SameConnectivity(e, g) && SameConnectivity(g, e)
  {
  }

  lemma {:induction false} KruskalIsMinimal(c: seq<Candidate>, found: seq<Candidate>, n: nat)
    requires Ascending(c) && Sorting.Distinct(c) && CandidatesWithin(c, n)
    requires forall x :: x in c <==> x in found
    ensures MinimumSpanningForest(Greedy(c, |c|), found, n)
  {
    var chosen := Greedy(c, |c|);
    SamePathsAnyOrder(c, found);
    GreedySpans(c, n, |c|);
    assert c[..|c|] == c;
    SameConnectivityTransitive(Edges(chosen), Edges(c), Edges(found));
    forall other: seq<Candidate> |
      (forall x :: x in other ==> x in found) && SameConnectivity(Edges(other), Edges(found))
      ensures TotalLength(chosen) <= TotalLength(other)
    {
      SamePathsAnyOrder(found, c);
      SameConnectivityTransitive(Edges(other), Edges(found), Edges(c));
      GreedyIsMinimal(c, n, other);
    }
    assert IsForest(Edges(chosen), n);
  }

  // The candidates by length, among equally long ones by their components.
  ghost predicate ShortestFirst(c: seq<Candidate>) {
    forall i, j :: 0 <= i < j < |c| ==>
      || c[i].length < c[j].length
      || (c[i].length == c[j].length && c[i].left < c[j].left)
      || (c[i].length == c[j].length && c[i].left == c[j].left && c[i].right <= c[j].right)
  }

  // What Kruskal keeps of the candidates in that order.
  ghost predicate IsKruskalChoice(chosen: seq<Candidate>, candidates: seq<Candidate>) {
    exists sorted ::
      && ShortestFirst(sorted) && Sorting.Distinct(sorted) && (forall x :: x in sorted <==> x in candidates)
      && chosen == Greedy(sorted, |sorted|)
  }

  lemma {:induction false} ShortestFirstIsSorted(c: seq<Candidate>)
    ensures ShortestFirst(c) <==> Sorting.SortedBy(ShorterOrEqual, c)
  {
    if Sorting.SortedBy(ShorterOrEqual, c) {
      forall i, j | 0 <= i < j < |c| ensures ShorterOrEqual(c[i], c[j]) {
      }
    }
  }

  lemma {:induction false} GreedyIsKruskalChoice(sorted: seq<Candidate>, candidates: seq<Candidate>)
    requires Sorting.SortedBy(ShorterOrEqual, sorted) && Sorting.Distinct(sorted)
    requires forall x :: x in sorted <==> x in candidates
    ensures IsKruskalChoice(Greedy(sorted, |sorted|), candidates)
  {
    ShortestFirstIsSorted(sorted);
  }

  lemma {:induction false} CandidatesDoNotTie(shortest: (nat, nat) -> ShortestLine, config: Config, n: nat,
                                              c: seq<Candidate>)
    requires forall x :: x in c ==> Admissible(shortest, config, n, x)
    ensures Sorting.NoTies(ShorterOrEqual, c)
  {
  }

  // The input determines the connectors, ties in length included.
  lemma {:induction false} OneKruskalChoice(shortest: (nat, nat) -> ShortestLine, config: Config, n: nat,
                                            candidates: seq<Candidate>, one: seq<Candidate>, other: seq<Candidate>)
    requires forall x :: x in candidates <==> Admissible(shortest, config, n, x)
    requires IsKruskalChoice(one, candidates) && IsKruskalChoice(other, candidates)
    ensures one == other
  {
    var a :| ShortestFirst(a) && Sorting.Distinct(a) && (forall x :: x in a <==> x in candidates)
      && one == Greedy(a, |a|);
    var b :| ShortestFirst(b) && Sorting.Distinct(b) && (forall x :: x in b <==> x in candidates)
      && other == Greedy(b, |b|);
    ShortestFirstIsSorted(a);
    ShortestFirstIsSorted(b);
    CandidatesDoNotTie(shortest, config, n, a);
    Sorting.OneOrder(ShorterOrEqual, a, b);
  }

  // As many distinct roots as classes.
  lemma {:induction false} RootsCountClasses(root: seq<nat>, links: seq<Edge>)
    requires UnionFind.Faithful(root, links)
    requires forall i :: 0 <= i < |root| ==> root[i] < |root| && root[root[i]] == root[i]
    ensures |set r | r in root| == |Classes(links, |root|)|
  {
    var f := (i: nat) => if i < |root| then root[i] else 0;
    var classes := Classes(links, |root|);
    forall x, y | x in classes && y in classes && f(x) == f(y) ensures x == y {
      LeastUnique(links, x, y);
    }
    InjectiveImage(f, classes);
    forall r | r in root ensures r in Image(f, classes) {
      var least := LeastExists(links, r);
      assert least in classes;
      var i :| 0 <= i < |root| && root[i] == r;
      assert f(least) == r;
    }
    forall r | r in Image(f, classes) ensures r in root {
      var x :| x in classes && f(x) == r;
    }
    assert (set r | r in root) == Image(f, classes);
  }

  // The connector records for the chosen candidates, numbered in order.
  ghost function Records(chosen: seq<Candidate>): (r: seq<Connector>)
    ensures |r| == |chosen|
  {
    seq(|chosen|, i requires 0 <= i < |chosen| =>
      Connector(i, chosen[i].left, chosen[i].right, chosen[i].wkt, chosen[i].length))
  }

  lemma {:induction false} RecordsAppend(chosen: seq<Candidate>, x: Candidate)
    ensures Records(chosen + [x])
         == Records(chosen) + [Connector(|chosen|, x.left, x.right, x.wkt, x.length)]
  {
  }

  method CountClasses(sets: UnionFind.DisjointSets) returns (count: nat)
    requires sets.Valid()
    modifies sets.parent
    ensures count == |Classes(old(sets.links), sets.parent.Length)|
  {
    var roots := Roots(sets);
    RootsCountClasses(sets.root, sets.links);
    count := |set r | r in roots|;
  }

  // Take one candidate: it becomes a connector exactly when its components are still apart.
  method Take(forest: UnionFind.DisjointSets, x: Candidate, connectors: seq<Connector>)
    returns (more: seq<Connector>)
    requires forest.Valid() && x.left < forest.parent.Length && x.right < forest.parent.Length
    modifies forest, forest.parent, forest.rank
    ensures forest.Valid() && forest.links == old(forest.links) + [Edge(x.left, x.right)]
    ensures more == if Connected(old(forest.links), x.left, x.right) then connectors
      else connectors + [Connector(|connectors|, x.left, x.right, x.wkt, x.length)]
  {
    more := connectors;
    var merged := forest.Union(x.left, x.right);
    if merged {
      more := more + [Connector(|connectors|, x.left, x.right, x.wkt, x.length)];
    }
  }

  // What union decides on all scanned edges is what the kept edges decide.
  lemma {:induction false} KruskalStep(c: seq<Candidate>, n: nat, i: nat) returns (next: seq<Candidate>,
                                       seen: seq<Edge>)
    requires CandidatesWithin(c, n) && i < |c|
    ensures seen == Edges(c[..i + 1]) == Edges(c[..i]) + [Edge(c[i].left, c[i].right)]
    ensures next == Greedy(c, i + 1)
    ensures next
         == if Connected(Edges(c[..i]), c[i].left, c[i].right) then Greedy(c, i) else Greedy(c, i) + [c[i]]
  {
    next, seen := Greedy(c, i + 1), Edges(c[..i + 1]);
    GreedySpans(c, n, i);
    GreedyStep(c, i + 1);
    EdgesPrefix(c, i + 1);
  }

  // One turn of the Kruskal loop.
  method TakeNext(forest: UnionFind.DisjointSets, c: seq<Candidate>, n: nat, k: nat, connectors: seq<Connector>)
    returns (more: seq<Connector>)
    requires CandidatesWithin(c, n) && k < |c|
    requires forest.Valid() && forest.parent.Length == n && forest.links == Edges(c[..k])
    requires connectors == Records(Greedy(c, k))
    modifies forest, forest.parent, forest.rank
    ensures forest.Valid() && forest.links == Edges(c[..k + 1])
    ensures more == Records(Greedy(c, k + 1))
  {
    assert c[k] in c;
    RecordsAppend(Greedy(c, k), c[k]);
    ghost var kept, seen := KruskalStep(c, n, k);
    more := Take(forest, c[k], connectors);
    assert more == Records(kept) && forest.links == seen;
  }

  // The Kruskal loop, up to the candidate at which it stops.
  method Scan(forest: UnionFind.DisjointSets, c: seq<Candidate>, n: nat)
    returns (connectors: seq<Connector>, ghost i: nat)
    requires n > 1 && CandidatesWithin(c, n)
    requires forest.Valid() && forest.parent.Length == n && forest.links == []
    modifies forest, forest.parent, forest.rank
    ensures i <= |c| && forest.Valid() && forest.links == Edges(c[..i])
    ensures connectors == Records(Greedy(c, i))
    ensures i == |c| || |connectors| == n - 1
  {
    connectors, i := [], 0;
    for k := 0 to |c|
      invariant i == k && forest.Valid() && forest.links == Edges(c[..k])
      invariant connectors == Records(Greedy(c, k))
    {
      connectors := TakeNext(forest, c, n, k, connectors);
      i := i + 1;
      if |connectors| == n - 1 {
        break;
      }
    }
  }

  // Whether the scan ran out or stopped early, it kept everything a full scan keeps.
  lemma {:induction false} ScanComplete(c: seq<Candidate>, n: nat, i: nat)
    requires n > 1 && CandidatesWithin(c, n) && i <= |c|
    requires i == |c| || |Greedy(c, i)| == n - 1
    ensures Greedy(c, i) == Greedy(c, |c|)
    ensures |Classes(Edges(c[..i]), n)| == |Classes(Edges(c), n)| == n - |Greedy(c, i)|
  {
    if i < |c| {
      StopWhenConnected(c, n, i, |c|);
    }
    GreedySpans(c, n, i);
    GreedySpans(c, n, |c|);
    assert c[..|c|] == c;
    ClassesSame(Edges(Greedy(c, i)), Edges(c[..i]), n);
    ClassesSame(Edges(Greedy(c, |c|)), Edges(c), n);
  }

  method Kruskal(c: seq<Candidate>, n: nat) returns (connectors: seq<Connector>, remaining: nat)
    requires n > 1 && CandidatesWithin(c, n)
    ensures connectors == Records(Greedy(c, |c|))
    ensures remaining == |Classes(Edges(c), n)| == n - |connectors|
  {
    var forest := new UnionFind.DisjointSets(n);
    ghost var i;
    connectors, i := Scan(forest, c, n);
    ScanComplete(c, n, i);
    remaining := CountClasses(forest);
  }

  // ---- what the connectors link ------------------------------------------------------------

  // Components a and b are separated by a usable line, whichever is numbered first.
  ghost predicate Linkable(shortest: (nat, nat) -> ShortestLine, config: Config, a: nat, b: nat) {
    var line := if a < b then shortest(a, b) else shortest(b, a);
    && a != b && line.Line? && config.nodeTolerance < line.length
    && (config.maxDistance.Some? ==> line.length <= config.maxDistance.value)
  }

  ghost predicate LinkableAt(shortest: (nat, nat) -> ShortestLine, config: Config, chain: seq<nat>, i: int)
    requires 0 <= i < |chain| - 1
  {
    Linkable(shortest, config, chain[i], chain[i + 1])
  }

  ghost predicate IsLinkableChain(shortest: (nat, nat) -> ShortestLine, config: Config, n: nat, chain: seq<nat>) {
    && |chain| > 0
    && (forall i :: 0 <= i < |chain| ==> chain[i] < n)
    && (forall i :: 0 <= i < |chain| - 1 ==> LinkableAt(shortest, config, chain, i))
  }

  ghost predicate Linked(shortest: (nat, nat) -> ShortestLine, config: Config, n: nat, a: nat, b: nat) {
    exists chain :: IsLinkableChain(shortest, config, n, chain) && chain[0] == a && chain[|chain| - 1] == b
  }

  lemma {:induction false} JoinsExactlyLinkable(shortest: (nat, nat) -> ShortestLine, config: Config, n: nat,
                                                candidates: seq<Candidate>, a: nat, b: nat)
    requires forall x :: x in candidates <==> Admissible(shortest, config, n, x)
    requires a < n
    ensures Joins(Edges(candidates), a, b) <==> b < n && Linkable(shortest, config, a, b)
  {
    var low, high := if a < b then a else b, if a < b then b else a;
    if b < n && Linkable(shortest, config, a, b) {
      var line := shortest(low, high);
      var x := Candidate(line.length, low, high, line.wkt);
      assert Admissible(shortest, config, n, x);
      var i :| 0 <= i < |candidates| && candidates[i] == x;
      assert Edges(candidates)[i] == Edge(low, high);
    }
    if Joins(Edges(candidates), a, b) {
      var i :| 0 <= i < |candidates|
        && (Edges(candidates)[i] == Edge(a, b) || Edges(candidates)[i] == Edge(b, a));
      assert candidates[i] in candidates;
    }
  }

  lemma {:induction false} PathIsLinkable(shortest: (nat, nat) -> ShortestLine, config: Config, n: nat,
                                          candidates: seq<Candidate>, path: seq<nat>, k: nat)
    requires forall x :: x in candidates <==> Admissible(shortest, config, n, x)
    requires IsPath(Edges(candidates), path) && path[0] < n && 0 < k <= |path|
    ensures IsLinkableChain(shortest, config, n, path[..k])
  {
    if k > 1 {
      PathIsLinkable(shortest, config, n, candidates, path, k - 1);
      var front := path[..k - 1];
      assert front[k - 2] == path[k - 2];
      assert JoinsAt(Edges(candidates), path, k - 2);
      JoinsExactlyLinkable(shortest, config, n, candidates, path[k - 2], path[k - 1]);
      forall i | 0 <= i < k - 1 ensures LinkableAt(shortest, config, path[..k], i) {
        if i < k - 2 {
          assert LinkableAt(shortest, config, front, i);
        }
      }
    }
  }

  lemma {:induction false} ConnectedExactlyByChain(shortest: (nat, nat) -> ShortestLine, config: Config, n: nat,
                                                   candidates: seq<Candidate>, a: nat, b: nat)
    requires forall x :: x in candidates <==> Admissible(shortest, config, n, x)
    requires a < n
    ensures Connected(Edges(candidates), a, b) <==>
      Linked(shortest, config, n, a, b)
  {
    var edges := Edges(candidates);
    if Connected(edges, a, b) {
      var path :| IsPath(edges, path) && path[0] == a && path[|path| - 1] == b;
      PathIsLinkable(shortest, config, n, candidates, path, |path|);
      assert path[..|path|] == path;
    }
    if chain :| IsLinkableChain(shortest, config, n, chain) && chain[0] == a && chain[|chain| - 1] == b {
      forall i | 0 <= i < |chain| - 1 ensures JoinsAt(edges, chain, i) {
        assert LinkableAt(shortest, config, chain, i);
        JoinsExactlyLinkable(shortest, config, n, candidates, chain[i], chain[i + 1]);
      }
      assert IsPath(edges, chain);
    }
  }

  // The connector records seen as links between components.
  ghost function ConnectorEdges(connectors: seq<Connector>): seq<Edge> {
    seq(|connectors|, i requires 0 <= i < |connectors| => Edge(connectors[i].source, connectors[i].target))
  }

  // A connector is the shortest line between its components, longer than the tolerance and
  // within the ceiling.
  ghost predicate Fits(shortest: (nat, nat) -> ShortestLine, config: Config, n: nat, x: Connector) {
    && x.source < x.target < n && shortest(x.source, x.target) == Line(x.length, x.wkt)
    && config.nodeTolerance < x.length
    && (config.maxDistance.Some? ==> x.length <= config.maxDistance.value)
  }

  ghost predicate LinksWhatFits(shortest: (nat, nat) -> ShortestLine, config: Config, n: nat,
                                connectors: seq<Connector>)
  {
    && (forall i :: 0 <= i < |connectors| ==> connectors[i].index == i && Fits(shortest, config, n, connectors[i]))
    && (forall a: nat, b: nat :: a < n && b < n ==>
          (Connected(ConnectorEdges(connectors), a, b) <==> Linked(shortest, config, n, a, b)))
    && (forall a: nat, b: nat :: a < n && b < n && Linkable(shortest, config, a, b) ==>
          Connected(ConnectorEdges(connectors), a, b))
  }

  lemma {:induction false} LinkableIsConnected(shortest: (nat, nat) -> ShortestLine, config: Config, n: nat,
                                               candidates: seq<Candidate>, a: nat, b: nat)
    requires forall x :: x in candidates <==> Admissible(shortest, config, n, x)
    requires a < n && b < n && Linkable(shortest, config, a, b)
    ensures Connected(Edges(candidates), a, b)
  {
    JoinsExactlyLinkable(shortest, config, n, candidates, a, b);
    ConnectedReflexive(Edges(candidates), a);
    ConnectedStep(Edges(candidates), a, a, b);
  }

  lemma {:induction false} RecordEdges(chosen: seq<Candidate>)
    ensures ConnectorEdges(Records(chosen)) == Edges(chosen)
  {
    assert forall i :: 0 <= i < |chosen| ==> ConnectorEdges(Records(chosen))[i] == Edges(chosen)[i];
  }

  lemma {:induction false} ForestLinksWhatFits(shortest: (nat, nat) -> ShortestLine, config: Config, n: nat,
                                               candidates: seq<Candidate>, chosen: seq<Candidate>)
    requires forall x :: x in candidates <==> Admissible(shortest, config, n, x)
    requires MinimumSpanningForest(chosen, candidates, n)
    ensures LinksWhatFits(shortest, config, n, Records(chosen))
  {
    RecordEdges(chosen);
    forall i | 0 <= i < |chosen| ensures Fits(shortest, config, n, Records(chosen)[i]) {
      assert chosen[i] in candidates;
    }
    forall a: nat, b: nat | a < n && b < n
      ensures Connected(Edges(chosen), a, b) <==> Linked(shortest, config, n, a, b)
    {
      ConnectedExactlyByChain(shortest, config, n, candidates, a, b);
    }
    forall a: nat, b: nat | a < n && b < n && Linkable(shortest, config, a, b) ensures Connected(Edges(chosen), a, b) {
      LinkableIsConnected(shortest, config, n, candidates, a, b);
    }
  }

  // ---- the connector -------------------------------------------------------------------------

  // The connector. `shortest` gives the shortest line between two components.
  method Connect(lineCount: nat, distance: Distance, hits: nat -> seq<nat>,
                 shortest: (nat, nat) -> ShortestLine, config: Config)
    returns (plan: Plan, ids: seq<nat>, ghost candidates: seq<Candidate>, ghost chosen: seq<Candidate>)
    requires config.Valid() && IndexFindsAll(distance, config.nodeTolerance, hits, lineCount)
    ensures |ids| == lineCount && FirstAppearanceLabels(ids, plan.initialCount)
    ensures forall a, b :: 0 <= a < lineCount && 0 <= b < lineCount ==>
      (ids[a] == ids[b] <==> Chained(distance, config.nodeTolerance, lineCount, a, b))
    ensures forall x :: x in candidates <==> Admissible(shortest, config, plan.initialCount, x)
    ensures MinimumSpanningForest(chosen, candidates, plan.initialCount) && IsKruskalChoice(chosen, candidates)
    ensures plan.connectors == Records(chosen)
    ensures LinksWhatFits(shortest, config, plan.initialCount, plan.connectors)
    ensures plan.remainingCount == |Classes(Edges(candidates), plan.initialCount)|
    ensures plan.remainingCount == plan.initialCount - |plan.connectors|
    ensures plan.partCount == lineCount
  {
    var count;
    ids, count := ComponentIds(lineCount, distance, config.nodeTolerance, hits);
    var found := Candidates(shortest, config, count);
    ghost var sorted := SortedCandidates(shortest, config, count, found);
    candidates, chosen := found, Greedy(sorted, |sorted|);
    KruskalIsMinimal(sorted, found, count);
    GreedyIsKruskalChoice(sorted, found);
    ForestLinksWhatFits(shortest, config, count, candidates, chosen);
    if count <= 1 {
      ClassesEmpty(count);
      assert Edges(found) == [];
      plan := Plan(lineCount, count, count, []);
      return;
    }
    var connectors, remaining := Kruskal(Sorting.Sort(ShorterOrEqual, found), count);
    SamePathsAnyOrder(sorted, found);
    ClassesSame(Edges(sorted), Edges(found), count);
    plan := Plan(lineCount, count, remaining, connectors);
  }

  // ---- when everything gets connected ----------------------------------------------

  lemma {:induction false} OneClassExactlyWhen(edges: seq<Edge>, n: nat)
    requires n > 0
    ensures |Classes(edges, n)| <= 1 <==> forall a: nat, b: nat :: a < n && b < n ==> Connected(edges, a, b)
  {
    assert IsLeast(edges, 0);
    assert 0 in Classes(edges, n);
    SubsetCardinality({0}, Classes(edges, n));
    if |Classes(edges, n)| == 1 {
      forall a: nat, b: nat | a < n && b < n ensures Connected(edges, a, b) {
        OneClassConnectsAll(edges, n, a, b);
      }
    }
    if forall a: nat, b: nat :: a < n && b < n ==> Connected(edges, a, b) {
      forall i | i in Classes(edges, n) ensures i == 0 {
        assert Connected(edges, i, 0);
      }
      assert Classes(edges, n) == {0};
    }
  }

  // The plan leaves one component exactly when every two components are linked by a chain
  // of pairs whose distance exceeds the node tolerance and respects the ceiling, if any.
  lemma {:induction false} FullyConnectedExactlyWhen(shortest: (nat, nat) -> ShortestLine, config: Config, n: nat,
                                                     candidates: seq<Candidate>)
    requires n > 0 && forall x :: x in candidates <==> Admissible(shortest, config, n, x)
    ensures |Classes(Edges(candidates), n)| <= 1 <==>
      forall a: nat, b: nat :: a < n && b < n ==>
        Linked(shortest, config, n, a, b)
  {
    OneClassExactlyWhen(Edges(candidates), n);
    forall a: nat, b: nat | a < n && b < n
      ensures Connected(Edges(candidates), a, b) <==>
        Linked(shortest, config, n, a, b)
    {
      ConnectedExactlyByChain(shortest, config, n, candidates, a, b);
    }
  }

  lemma {:induction false} ChainStays(distance: Distance, tolerance: real, n: nat, chain: seq<nat>, k: nat)
    requires IsContactChain(distance, tolerance, n, chain) && k < |chain|
    requires forall p: nat, q: nat :: p / 2 < n && q / 2 < n && distance(p, q) <= tolerance ==> p / 2 == q / 2
    ensures chain[k] == chain[0]
  {
    if k > 0 {
      var before := k - 1;
      ChainStays(distance, tolerance, n, chain, before);
      assert ContactAt(distance, tolerance, chain, before);
    }
  }

  lemma {:induction false} NoContactNoChain(distance: Distance, tolerance: real, n: nat, a: nat, b: nat)
    requires forall p: nat, q: nat :: p / 2 < n && q / 2 < n && distance(p, q) <= tolerance ==> p / 2 == q / 2
    ensures Chained(distance, tolerance, n, a, b) ==> a == b
  {
    if Chained(distance, tolerance, n, a, b) {
      var chain :| IsContactChain(distance, tolerance, n, chain) && chain[0] == a && chain[|chain| - 1] == b;
      ChainStays(distance, tolerance, n, chain, |chain| - 1);
    }
  }

  lemma {:induction false} TwoLabels(ids: seq<nat>, count: nat)
    requires |ids| == 2 && ids[0] != ids[1] && FirstAppearanceLabels(ids, count)
    ensures count == 2
  {
    assert 0 < count ==> 0 in ids;
    assert 1 < count ==> 1 in ids;
    assert 2 < count ==> 2 in ids;
  }

  lemma {:induction false} NothingAdmissible(shortest: (nat, nat) -> ShortestLine, config: Config,
                                             candidates: seq<Candidate>)
    requires config.Valid() && shortest(0, 1).Line? && shortest(0, 1).length == 0.0
    requires forall x :: x in candidates <==> Admissible(shortest, config, 2, x)
    ensures candidates == []
  {
    forall x ensures x !in candidates {
      assert !Admissible(shortest, config, 2, x);
    }
    HasMember(candidates);
  }

  // No ceiling is not enough: two roads that cross away from their endpoints are two
  // components at distance zero, and the connector leaves them apart.
  method CrossingRoadsStayApart(distance: Distance, hits: nat -> seq<nat>,
                                shortest: (nat, nat) -> ShortestLine, config: Config)
    returns (plan: Plan, ids: seq<nat>)
    requires config.Valid() && config.maxDistance.None? && IndexFindsAll(distance, config.nodeTolerance, hits, 2)
    requires forall p: nat, q: nat :: p / 2 < 2 && q / 2 < 2 && distance(p, q) <= config.nodeTolerance ==>
      p / 2 == q / 2
    requires shortest(0, 1).Line? && shortest(0, 1).length == 0.0
    ensures plan.initialCount == 2 == plan.remainingCount && plan.connectors == []
  {
    ghost var candidates, chosen;
    plan, ids, candidates, chosen := Connect(2, distance, hits, shortest, config);
    NoContactNoChain(distance, config.nodeTolerance, 2, 0, 1);
    TwoLabels(ids, plan.initialCount);
    NothingAdmissible(shortest, config, candidates);
    ClassesEmpty(2);
    assert Edges(candidates) == [];
    assert plan.connectors == [];
  }
}
