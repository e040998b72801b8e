// Undirected connectivity over numbered items, stated by paths, and the number of
// classes it leaves. This is the reference that the union-find structure and the
// Kruskal loop are proved against.
module Connectivity {
  import opened Common

  datatype Edge = Edge(left: nat, right: nat)

  ghost predicate Joins(edges: seq<Edge>, a: nat, b: nat) {
    Edge(a, b) in edges || Edge(b, a) in edges
  }

  ghost predicate JoinsAt(edges: seq<Edge>, path: seq<nat>, i: int)
    requires 0 <= i < |path| - 1
  {
    Joins(edges, path[i], path[i + 1])
  }

  ghost predicate IsPath(edges: seq<Edge>, path: seq<nat>) {
    && |path| > 0
    && forall i :: 0 <= i < |path| - 1 ==> JoinsAt(edges, path, i)
  }

  // The reflexive, symmetric and transitive closure of the edges.
  ghost predicate Connected(edges: seq<Edge>, a: nat, b: nat) {
    exists path :: IsPath(edges, path) && path[0] == a && path[|path| - 1] == b
  }

  ghost predicate EdgesWithin(edges: seq<Edge>, n: nat) {
    forall e :: e in edges ==> e.left < n && e.right < n
  }

  // Two edge lists that relate exactly the same items.
  ghost predicate SameConnectivity(some: seq<Edge>, other: seq<Edge>) {
    forall a: nat, b: nat :: Connected(some, a, b) <==> Connected(other, a, b)
  }

  lemma {:induction false} ConnectedReflexive(edges: seq<Edge>, a: nat)
    ensures Connected(edges, a, a)
  {
    assert IsPath(edges, [a]);
  }

  lemma {:induction false} ConnectedStep(edges: seq<Edge>, a: nat, b: nat, c: nat)
    requires Connected(edges, a, b) && Joins(edges, b, c)
    ensures Connected(edges, a, c)
  {
    var path :| IsPath(edges, path) && path[0] == a && path[|path| - 1] == b;
    var whole := path + [c];
    assert IsPath(edges, whole) by {
      forall i | 0 <= i < |whole| - 1 ensures JoinsAt(edges, whole, i) {
        assert i < |path| - 1 ==> JoinsAt(edges, path, i);
      }
    }
  }

  lemma {:induction false} JoinedIsConnected(edges: seq<Edge>, a: nat, b: nat)
    requires Joins(edges, a, b)
    ensures Connected(edges, a, b)
  {
    assert IsPath(edges, [a, b]);
  }

  lemma {:induction false} ConnectedSymmetric(edges: seq<Edge>, a: nat, b: nat)
    requires Connected(edges, a, b)
    ensures Connected(edges, b, a)
  {
    var path :| IsPath(edges, path) && path[0] == a && path[|path| - 1] == b;
    var back := seq(|path|, i requires 0 <= i < |path| => path[|path| - 1 - i]);
    assert IsPath(edges, back) by {
      forall i | 0 <= i < |back| - 1 ensures JoinsAt(edges, back, i) {
        assert JoinsAt(edges, path, |path| - 2 - i);
      }
    }
  }

  lemma {:induction false} ConnectedTransitive(edges: seq<Edge>, a: nat, b: nat, c: nat)
    requires Connected(edges, a, b) && Connected(edges, b, c)
    ensures Connected(edges, a, c)
  {
    var p :| IsPath(edges, p) && p[0] == a && p[|p| - 1] == b;
    var q :| IsPath(edges, q) && q[0] == b && q[|q| - 1] == c;
    var whole := p + q[1..];
    assert IsPath(edges, whole) by {
      forall i | 0 <= i < |whole| - 1 ensures JoinsAt(edges, whole, i) {
        if i < |p| - 1 {
          assert JoinsAt(edges, p, i);
        } else {
          assert JoinsAt(edges, q, i - |p| + 1);
        }
      }
    }
  }

  lemma {:induction false} ConnectedMonotone(some: seq<Edge>, more: seq<Edge>, a: nat, b: nat)
    requires forall e :: e in some ==> e in more
    requires Connected(some, a, b)
    ensures Connected(more, a, b)
  {
    var path :| IsPath(some, path) && path[0] == a && path[|path| - 1] == b;
    assert IsPath(more, path) by {
      forall i | 0 <= i < |path| - 1 ensures JoinsAt(more, path, i) {
        assert JoinsAt(some, path, i);
      }
    }
  }

  // Connectivity after one more edge, in terms of connectivity before it.
  ghost predicate ConnectedVia(edges: seq<Edge>, e: Edge, a: nat, b: nat) {
    || Connected(edges, a, b)
    || (Connected(edges, a, e.left) && Connected(edges, e.right, b))
    || (Connected(edges, a, e.right) && Connected(edges, e.left, b))
  }

  lemma {:induction false} ConnectedViaStep(edges: seq<Edge>, e: Edge, a: nat, b: nat, c: nat)
    requires ConnectedVia(edges, e, a, b) && Joins(edges + [e], b, c)
    ensures ConnectedVia(edges, e, a, c)
  {
    if Joins(edges, b, c) {
      if Connected(edges, a, b) {
        ConnectedStep(edges, a, b, c);
      } else if Connected(edges, a, e.left) && Connected(edges, e.right, b) {
        ConnectedStep(edges, e.right, b, c);
      } else {
        ConnectedStep(edges, e.left, b, c);
      }
    } else {
      ConnectedReflexive(edges, c);
    }
  }

  lemma {:induction false} PathUsesNewEdge(edges: seq<Edge>, e: Edge, path: seq<nat>)
    requires IsPath(edges + [e], path)
    ensures ConnectedVia(edges, e, path[0], path[|path| - 1])
    decreases |path|
  {
    var last := |path| - 1;
    if last == 0 {
      ConnectedReflexive(edges, path[0]);
    } else {
      var front := path[..last];
      assert IsPath(edges + [e], front) by {
        forall i | 0 <= i < |front| - 1 ensures JoinsAt(edges + [e], front, i) {
          assert JoinsAt(edges + [e], path, i);
        }
      }
      PathUsesNewEdge(edges, e, front);
      assert JoinsAt(edges + [e], path, last - 1);
      ConnectedViaStep(edges, e, path[0], path[last - 1], path[last]);
    }
  }

  lemma {:induction false} ConnectedWithEdge(edges: seq<Edge>, e: Edge, a: nat, b: nat)
    ensures Connected(edges + [e], a, b) <==> ConnectedVia(edges, e, a, b)
  {
    var more := edges + [e];
    if Connected(more, a, b) {
      var path :| IsPath(more, path) && path[0] == a && path[|path| - 1] == b;
      PathUsesNewEdge(edges, e, path);
    }
    if ConnectedVia(edges, e, a, b) {
      JoinedIsConnected(more, e.left, e.right);
      JoinedIsConnected(more, e.right, e.left);
      if Connected(edges, a, b) {
        ConnectedMonotone(edges, more, a, b);
      } else if Connected(edges, a, e.left) && Connected(edges, e.right, b) {
        ConnectedMonotone(edges, more, a, e.left);
        ConnectedMonotone(edges, more, e.right, b);
        ConnectedTransitive(more, a, e.left, e.right);
        ConnectedTransitive(more, a, e.right, b);
      } else {
        ConnectedMonotone(edges, more, a, e.right);
        ConnectedMonotone(edges, more, e.left, b);
        ConnectedTransitive(more, a, e.right, e.left);
        ConnectedTransitive(more, a, e.left, b);
      }
    }
  }

  // An edge between connected items adds nothing.
  lemma {:induction false} RedundantEdge(edges: seq<Edge>, e: Edge)
    requires Connected(edges, e.left, e.right)
    ensures SameConnectivity(edges + [e], edges)
  {
    forall a: nat, b: nat ensures Connected(edges + [e], a, b) <==> Connected(edges, a, b) {
      ConnectedWithEdge(edges, e, a, b);
      ConnectedSymmetric(edges, e.left, e.right);
      if Connected(edges, a, e.left) && Connected(edges, e.right, b) {
        ConnectedTransitive(edges, a, e.left, e.right);
        ConnectedTransitive(edges, a, e.right, b);
      } else if Connected(edges, a, e.right) && Connected(edges, e.left, b) {
        ConnectedTransitive(edges, a, e.right, e.left);
        ConnectedTransitive(edges, a, e.left, b);
      }
    }
  }

  lemma {:induction false} EmptyConnected(a: nat, b: nat)
    ensures Connected([], a, b) <==> a == b
  {
    if Connected([], a, b) {
      var path :| IsPath([], path) && path[0] == a && path[|path| - 1] == b;
      assert |path| > 1 ==> JoinsAt([], path, 0);
    }
    ConnectedReflexive([], a);
  }

  // ---- counting classes ------------------------------------------------

  ghost predicate IsLeast(edges: seq<Edge>, i: nat) {
    forall j: nat :: j < i ==> !Connected(edges, i, j)
  }

  // One representative per class: its least member. |Classes| is the class count.
  ghost function Classes(edges: seq<Edge>, n: nat): set<nat> {
    set i: nat | i < n && IsLeast(edges, i)
  }

  lemma {:induction false} LeastExists(edges: seq<Edge>, i: nat) returns (least: nat)
    ensures least <= i && Connected(edges, i, least) && IsLeast(edges, least)
  {
    if IsLeast(edges, i) {
      ConnectedReflexive(edges, i);
      least := i;
    } else {
      var j: nat :| j < i && Connected(edges, i, j);
      least := LeastExists(edges, j);
      ConnectedTransitive(edges, i, j, least);
    }
  }

  lemma {:induction false} LeastUnique(edges: seq<Edge>, i: nat, j: nat)
    requires IsLeast(edges, i) && IsLeast(edges, j) && Connected(edges, i, j)
    ensures i == j
  {
    ConnectedSymmetric(edges, i, j);
  }

  lemma {:induction false} ClassesEmpty(n: nat)
    ensures |Classes([], n)| == n
  {
    forall i: nat ensures IsLeast([], i) {
      forall j: nat | j < i ensures !Connected([], i, j) {
        EmptyConnected(i, j);
      }
    }
    assert Classes([], n) == Below(n);
  }

  // The more items are related, the fewer classes remain.
  lemma {:induction false} ClassesAntitone(some: seq<Edge>, more: seq<Edge>, n: nat)
    requires forall a: nat, b: nat :: Connected(some, a, b) ==> Connected(more, a, b)
    ensures |Classes(more, n)| <= |Classes(some, n)|
  {
    assert Classes(more, n) <= Classes(some, n);
    SubsetCardinality(Classes(more, n), Classes(some, n));
  }

  lemma {:induction false} ClassesSame(some: seq<Edge>, other: seq<Edge>, n: nat)
    requires SameConnectivity(some, other)
    ensures Classes(some, n) == Classes(other, n)
  {
    forall i: nat ensures IsLeast(some, i) <==> IsLeast(other, i) {
    }
  }

  // From the least item i of the class of `mine`, crossing to `far` cannot lead below i:
  // the class of i is then the low one, and the class beyond starts at high.
  lemma {:induction false} CrossingStaysHigh(edges: seq<Edge>, mine: nat, far: nat, low: nat, high: nat, i: nat, j: nat)
    requires IsLeast(edges, low) && IsLeast(edges, high) && low < high
    requires || (Connected(edges, mine, low) && Connected(edges, far, high))
             || (Connected(edges, far, low) && Connected(edges, mine, high))
    requires IsLeast(edges, i) && i != high && j < i
    ensures !(Connected(edges, i, mine) && Connected(edges, far, j))
  {
    if Connected(edges, i, mine) {
      if Connected(edges, mine, high) {
        ConnectedTransitive(edges, i, mine, high);
        LeastUnique(edges, i, high);
      } else {
        ConnectedTransitive(edges, i, mine, low);
        LeastUnique(edges, i, low);
        ConnectedSymmetric(edges, far, high);
        if Connected(edges, far, j) {
          ConnectedTransitive(edges, high, far, j);
        }
      }
    }
  }

  lemma {:induction false} MergeReachesLower(edges: seq<Edge>, e: Edge, low: nat, high: nat, i: nat, j: nat)
    requires IsLeast(edges, low) && IsLeast(edges, high) && low < high
    requires || (Connected(edges, e.left, low) && Connected(edges, e.right, high))
             || (Connected(edges, e.right, low) && Connected(edges, e.left, high))
    requires IsLeast(edges, i) && i != high && j < i
    ensures !ConnectedVia(edges, e, i, j)
  {
    CrossingStaysHigh(edges, e.left, e.right, low, high, i, j);
    CrossingStaysHigh(edges, e.right, e.left, low, high, i, j);
  }

  lemma {:induction false} LeastAfterMerge(edges: seq<Edge>, e: Edge, low: nat, high: nat, i: nat)
    requires IsLeast(edges, low) && IsLeast(edges, high) && low < high
    requires || (Connected(edges, e.left, low) && Connected(edges, e.right, high))
             || (Connected(edges, e.right, low) && Connected(edges, e.left, high))
    ensures IsLeast(edges + [e], i) <==> IsLeast(edges, i) && i != high
  {
    var more := edges + [e];
    if i == high {
      ConnectedWithEdge(edges, e, high, low);
      if Connected(edges, e.left, low) && Connected(edges, e.right, high) {
        ConnectedSymmetric(edges, e.right, high);
      } else {
        ConnectedSymmetric(edges, e.left, high);
      }
      assert Connected(more, high, low);
    } else if IsLeast(edges, i) {
      forall j: nat | j < i ensures !Connected(more, i, j) {
        if Connected(more, i, j) {
          ConnectedWithEdge(edges, e, i, j);
          MergeReachesLower(edges, e, low, high, i, j);
        }
      }
    } else {
      var j: nat :| j < i && Connected(edges, i, j);
      ConnectedMonotone(edges, more, i, j);
    }
  }

  // A new edge merges two classes into one exactly when its ends were apart.
  lemma {:induction false} ClassesWithEdge(edges: seq<Edge>, e: Edge, n: nat)
    requires e.left < n && e.right < n
    ensures |Classes(edges + [e], n)|
         == |Classes(edges, n)| - (if Connected(edges, e.left, e.right) then 0 else 1)
  {
    if Connected(edges, e.left, e.right) {
      RedundantEdge(edges, e);
      ClassesSame(edges + [e], edges, n);
    } else {
      var l := LeastExists(edges, e.left);
      var r := LeastExists(edges, e.right);
      if l == r {
        ConnectedSymmetric(edges, e.right, r);
        ConnectedTransitive(edges, e.left, l, e.right);
      }
      var low, high := if l < r then l else r, if l < r then r else l;
      forall i: nat ensures IsLeast(edges + [e], i) <==> IsLeast(edges, i) && i != high {
        LeastAfterMerge(edges, e, low, high, i);
      }
      assert Classes(edges + [e], n) == Classes(edges, n) - {high};
    }
  }

  // No edges are spare: the classes left are n less the number of edges.
  ghost predicate IsForest(edges: seq<Edge>, n: nat) {
    |edges| + |Classes(edges, n)| == n
  }

  ghost function Without(edges: seq<Edge>, i: nat): seq<Edge>
    requires i < |edges|
  {
    edges[..i] + edges[i + 1..]
  }

  lemma {:induction false} FewEdgesManyClasses(edges: seq<Edge>, n: nat)
    requires EdgesWithin(edges, n)
    ensures n <= |edges| + |Classes(edges, n)|
    decreases |edges|
  {
    if edges == [] {
      ClassesEmpty(n);
    } else {
      var front, e := edges[..|edges| - 1], edges[|edges| - 1];
      FewEdgesManyClasses(front, n);
      ClassesWithEdge(front, e, n);
      assert edges == front + [e];
    }
  }

  // A forest has no cycle: without any one of its edges, that edge's ends fall apart.
  lemma {:induction false} ForestHasNoCycle(edges: seq<Edge>, n: nat, i: nat)
    requires EdgesWithin(edges, n) && IsForest(edges, n) && i < |edges|
    ensures !Connected(Without(edges, i), edges[i].left, edges[i].right)
  {
    var rest, e := Without(edges, i), edges[i];
    if Connected(rest, e.left, e.right) {
      RedundantEdge(rest, e);
      forall a: nat, b: nat ensures Connected(edges, a, b) <==> Connected(rest, a, b) {
        if Connected(edges, a, b) {
          ConnectedMonotone(edges, rest + [e], a, b);
        }
        if Connected(rest, a, b) {
          ConnectedMonotone(rest, edges, a, b);
        }
      }
      ClassesSame(edges, rest, n);
      FewEdgesManyClasses(rest, n);
    }
  }
}
