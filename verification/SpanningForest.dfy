// The greedy choice of connectors (Kruskal) and why no other choice is shorter.
module SpanningForest {
  import opened Common
  import opened Connectivity
  import Sorting

  // One shortest line between two components, as the connector records it.
  datatype Candidate = Candidate(length: real, left: nat, right: nat, wkt: string)

  // The sort key. Component pairs are distinct, so ties never reach the WKT text.
  predicate ShorterOrEqual(x: Candidate, y: Candidate) {
    || x.length < y.length
    || (x.length == y.length && (x.left < y.left || (x.left == y.left && x.right <= y.right)))
  }

  lemma {:induction false} KeyIsPreorder()
    ensures Sorting.TotalPreorder(ShorterOrEqual)
  {
  }

  ghost predicate Ascending(c: seq<Candidate>) {
    forall i, j :: 0 <= i < j < |c| ==> c[i].length <= c[j].length
  }

  ghost predicate CandidatesWithin(c: seq<Candidate>, n: nat) {
    forall x :: x in c ==> x.left < n && x.right < n && x.length >= 0.0
  }

  ghost function Edges(c: seq<Candidate>): (r: seq<Edge>)
    ensures |r| == |c| && forall i :: 0 <= i < |c| ==> r[i] == Edge(c[i].left, c[i].right)
  {
    seq(|c|, i requires 0 <= i < |c| => Edge(c[i].left, c[i].right))
  }

  ghost function TotalLength(c: seq<Candidate>): real {
    if c == [] then 0.0 else TotalLength(c[..|c| - 1]) + c[|c| - 1].length
  }

  // Scan the first k candidates, keeping those whose ends are still apart.
  ghost function Greedy(c: seq<Candidate>, k: nat): (r: seq<Candidate>)
    requires k <= |c|
  {
    if k == 0 then []
    else
      var kept := Greedy(c, k - 1);
      if Connected(Edges(kept), c[k - 1].left, c[k - 1].right) then kept else kept + [c[k - 1]]
  }

  lemma {:induction false} GreedyStep(c: seq<Candidate>, k: nat)
    requires 0 < k <= |c|
    ensures Connected(Edges(Greedy(c, k - 1)), c[k - 1].left, c[k - 1].right) ==>
      Greedy(c, k) == Greedy(c, k - 1)
    ensures !Connected(Edges(Greedy(c, k - 1)), c[k - 1].left, c[k - 1].right) ==>
      Greedy(c, k) == Greedy(c, k - 1) + [c[k - 1]]
  {
  }

  lemma {:induction false} EdgesAppend(c: seq<Candidate>, x: Candidate)
    ensures Edges(c + [x]) == Edges(c) + [Edge(x.left, x.right)]
  {
  }

  lemma {:induction false} EdgesPrefix(c: seq<Candidate>, k: nat)
    requires 0 < k <= |c|
    ensures c[..k] == c[..k - 1] + [c[k - 1]]
    ensures Edges(c[..k]) == Edges(c[..k - 1]) + [Edge(c[k - 1].left, c[k - 1].right)]
  {
  }

  lemma {:induction false} EdgesOfSubset(some: seq<Candidate>, more: seq<Candidate>)
    requires forall x :: x in some ==> x in more
    ensures forall e :: e in Edges(some) ==> e in Edges(more)
  {
    forall e | e in Edges(some) ensures e in Edges(more) {
      var i :| 0 <= i < |some| && Edges(some)[i] == e;
      assert some[i] in more;
      var j :| 0 <= j < |more| && more[j] == some[i];
      assert Edges(more)[j] == e;
    }
  }

  // Adding the same edge to equally connected lists keeps them equally connected.
  lemma {:induction false} SameAfterEdge(some: seq<Edge>, other: seq<Edge>, e: Edge)
    requires SameConnectivity(some, other)
    ensures SameConnectivity(some + [e], other + [e])
  {
    forall a: nat, b: nat ensures Connected(some + [e], a, b) <==> Connected(other + [e], a, b) {
      ConnectedWithEdge(some, e, a, b);
      ConnectedWithEdge(other, e, a, b);
    }
  }

  // The kept candidates join exactly what all scanned candidates join, and form a forest.
  lemma {:induction false} GreedySpans(c: seq<Candidate>, n: nat, k: nat)
    requires CandidatesWithin(c, n) && k <= |c|
    ensures SameConnectivity(Edges(Greedy(c, k)), Edges(c[..k]))
    ensures IsForest(Edges(Greedy(c, k)), n)
    ensures forall x :: x in Greedy(c, k) ==> x in c[..k]
  {
    if k == 0 {
      ClassesEmpty(n);
      assert Edges(Greedy(c, 0)) == [];
    } else {
      GreedySpans(c, n, k - 1);
      var kept, x := Greedy(c, k - 1), c[k - 1];
      var e := Edge(x.left, x.right);
      EdgesPrefix(c, k);
      EdgesAppend(kept, x);
      SameAfterEdge(Edges(kept), Edges(c[..k - 1]), e);
      assert x in c;
      if Connected(Edges(kept), x.left, x.right) {
        RedundantEdge(Edges(kept), e);
      } else {
        ClassesWithEdge(Edges(kept), e, n);
      }
    }
  }

  // ---- early stop -----------------------------------------------------------

  lemma {:induction false} OneClassConnectsAll(edges: seq<Edge>, n: nat, a: nat, b: nat)
    requires |Classes(edges, n)| == 1 && a < n && b < n
    ensures Connected(edges, a, b)
  {
    var p := LeastExists(edges, a);
    var q := LeastExists(edges, b);
    assert p in Classes(edges, n) && q in Classes(edges, n);
    if p != q {
      SubsetCardinality({p, q}, Classes(edges, n));
    }
    ConnectedSymmetric(edges, b, q);
    ConnectedTransitive(edges, a, p, b);
  }

  lemma {:induction false} NothingLeftToJoin(c: seq<Candidate>, n: nat, k: nat, x: Candidate)
    requires CandidatesWithin(c, n) && k <= |c| && n > 0 && x in c
    requires |Greedy(c, k)| == n - 1
    ensures Connected(Edges(Greedy(c, k)), x.left, x.right)
  {
    GreedySpans(c, n, k);
    OneClassConnectsAll(Edges(Greedy(c, k)), n, x.left, x.right);
  }

  lemma {:induction false} NothingMoreAt(c: seq<Candidate>, n: nat, k: nat, m: nat)
    requires CandidatesWithin(c, n) && k <= m < |c| && n > 0
    requires |Greedy(c, k)| == n - 1 && Greedy(c, m) == Greedy(c, k)
    ensures Greedy(c, m + 1) == Greedy(c, m)
  {
    NothingLeftToJoin(c, n, k, c[m]);
    GreedyStep(c, m + 1);
  }

  // Once n-1 connectors are kept the rest of the scan keeps nothing more.
  lemma {:induction false} StopWhenConnected(c: seq<Candidate>, n: nat, k: nat, m: nat)
    requires CandidatesWithin(c, n) && k <= m <= |c| && n > 0
    requires |Greedy(c, k)| == n - 1
    ensures Greedy(c, m) == Greedy(c, k)
  {
    if k < m {
      StopWhenConnected(c, n, k, m - 1);
      NothingMoreAt(c, n, k, m - 1);
    }
  }

  // ---- minimality -------------------------------------------------------------

  // The entries of s among the first k candidates, and how many entries lie beyond.
  ghost function Within(s: seq<Candidate>, c: seq<Candidate>, k: nat): (r: seq<Candidate>)
    requires k <= |c|
    ensures forall x :: x in r ==> x in s && x in c[..k]
  {
    if s == [] then []
    else
      var front, x := Within(s[..|s| - 1], c, k), s[|s| - 1];
      if x in c[..k] then front + [x] else front
  }

  ghost function CountBeyond(s: seq<Candidate>, c: seq<Candidate>, k: nat): nat
    requires k <= |c|
  {
    if s == [] then 0
    else CountBeyond(s[..|s| - 1], c, k) + (if s[|s| - 1] in c[..k] then 0 else 1)
  }

  // What the connectors beyond the first k must do: merge the classes the first k leave apart.
  lemma {:induction false} EachBeyondMergesOnce(s: seq<Candidate>, c: seq<Candidate>, n: nat, k: nat)
    requires CandidatesWithin(s, n) && k <= |c|
    ensures |Classes(Edges(Within(s, c, k)), n)| <= |Classes(Edges(s), n)| + CountBeyond(s, c, k)
    decreases |s|
  {
    if s != [] {
      var front, x := s[..|s| - 1], s[|s| - 1];
      var e := Edge(x.left, x.right);
      assert CandidatesWithin(front, n) by {
        forall y | y in front ensures y.left < n && y.right < n && y.length >= 0.0 {
          assert y in s;
        }
      }
      EachBeyondMergesOnce(front, c, n, k);
      assert s == front + [x] && x in s;
      EdgesAppend(front, x);
      ClassesWithEdge(Edges(front), e, n);
      var near := Within(front, c, k);
      if x in c[..k] {
        EdgesAppend(near, x);
        ClassesWithEdge(Edges(near), e, n);
        EdgesOfSubset(near, front);
        if Connected(Edges(near), x.left, x.right) {
          ConnectedMonotone(Edges(near), Edges(front), x.left, x.right);
        }
      }
    }
  }

  // Any set of candidates that joins what all candidates join has, past every prefix of
  // the scan, at least as many connectors as the greedy choice.
  lemma {:induction false} SpanningNeedsAsMany(s: seq<Candidate>, c: seq<Candidate>, n: nat, k: nat)
    requires CandidatesWithin(c, n) && k <= |c| && forall x :: x in s ==> x in c
    requires SameConnectivity(Edges(s), Edges(c))
    ensures CountBeyond(s, c, k) >= |Greedy(c, |c|)| - |Greedy(c, k)|
  {
    EachBeyondMergesOnce(s, c, n, k);
    var near := Within(s, c, k);
    EdgesOfSubset(near, c[..k]);
    forall a: nat, b: nat | Connected(Edges(near), a, b) ensures Connected(Edges(c[..k]), a, b) {
      ConnectedMonotone(Edges(near), Edges(c[..k]), a, b);
    }
    ClassesAntitone(Edges(near), Edges(c[..k]), n);
    ClassesSame(Edges(s), Edges(c), n);
    GreedySpans(c, n, k);
    ClassesSame(Edges(Greedy(c, k)), Edges(c[..k]), n);
    GreedySpans(c, n, |c|);
    assert c[..|c|] == c;
    ClassesSame(Edges(Greedy(c, |c|)), Edges(c), n);
  }

  lemma {:induction false} InPrefix(c: seq<Candidate>, j: nat, k: nat)
    requires j < |c| && k <= |c| && Sorting.Distinct(c)
    ensures c[j] in c[..k] <==> j < k
  {
    if j < k {
      assert c[..k][j] == c[j];
    }
  }

  lemma {:induction false} BeyondAppend(s: seq<Candidate>, x: Candidate, c: seq<Candidate>, k: nat)
    requires k <= |c|
    ensures CountBeyond(s + [x], c, k) == CountBeyond(s, c, k) + (if x in c[..k] then 0 else 1)
  {
    assert (s + [x])[..|s|] == s;
  }

  // One scan step keeps a candidate beyond the first k only if it is itself beyond them.
  lemma {:induction false} ScanStep(c: seq<Candidate>, k: nat, m: nat)
    requires k <= |c| && 0 < m <= |c| && Sorting.Distinct(c)
    ensures CountBeyond(Greedy(c, m), c, k)
         == CountBeyond(Greedy(c, m - 1), c, k)
            + (if m <= k then 0 else |Greedy(c, m)| - |Greedy(c, m - 1)|)
  {
    GreedyStep(c, m);
    var before, now, x := Greedy(c, m - 1), Greedy(c, m), c[m - 1];
    InPrefix(c, m - 1, k);
    BeyondAppend(before, x, c, k);
    assert now == before || now == before + [x];
  }

  lemma {:induction false} GreedyWithin(c: seq<Candidate>, k: nat, m: nat)
    requires m <= k <= |c| && Sorting.Distinct(c)
    ensures CountBeyond(Greedy(c, m), c, k) == 0
  {
    if m > 0 {
      GreedyWithin(c, k, m - 1);
      ScanStep(c, k, m);
    }
  }

  // How many of the first m choices lie among the first k candidates.
  ghost function KeptWithin(c: seq<Candidate>, k: nat, m: nat): int
    requires k <= |c| && m <= |c|
  {
    |Greedy(c, m)| - CountBeyond(Greedy(c, m), c, k)
  }

  lemma {:induction false} KeptWithinStays(c: seq<Candidate>, k: nat, m: nat)
    requires k <= m < |c| && Sorting.Distinct(c)
    ensures KeptWithin(c, k, m + 1) == KeptWithin(c, k, m)
  {
    ScanStep(c, k, m + 1);
  }

  lemma {:induction false} Constant(f: int -> int, k: nat, m: nat)
    requires k <= m && forall j: int :: k < j <= m ==> f(j) == f(j - 1)
    ensures f(m) == f(k)
  {
    if k < m {
      Constant(f, k, m - 1);
    }
  }

  lemma {:induction false} KeptWithinConstant(c: seq<Candidate>, k: nat, m: nat)
    requires k <= m <= |c| && Sorting.Distinct(c)
    ensures KeptWithin(c, k, m) == KeptWithin(c, k, k)
  {
    var f := (j: int) => if 0 <= j <= |c| then KeptWithin(c, k, j) else 0;
    forall j: int | k < j <= m ensures f(j) == f(j - 1) {
      KeptWithinStays(c, k, j - 1);
    }
    Constant(f, k, m);
  }

  lemma {:induction false} GreedyBeyond(c: seq<Candidate>, k: nat, m: nat)
    requires k <= m <= |c| && Sorting.Distinct(c)
    ensures CountBeyond(Greedy(c, m), c, k) == |Greedy(c, m)| - |Greedy(c, k)|
  {
    KeptWithinConstant(c, k, m);
    GreedyWithin(c, k, k);
  }

  // The rise in length from one candidate to the next.
  ghost function Rise(c: seq<Candidate>, k: nat): real
    requires k < |c|
  {
    c[k].length - (if k == 0 then 0.0 else c[k - 1].length)
  }

  // Total length, counted by rises: each rise is paid once per entry lying beyond it.
  ghost function ByRises(s: seq<Candidate>, c: seq<Candidate>, k: nat): real
    requires k <= |c|
  {
    if k == 0 then 0.0
    else ByRises(s, c, k - 1) + Times(CountBeyond(s, c, k - 1), Rise(c, k - 1))
  }

  lemma {:induction false} OnePaysOnce(s: seq<Candidate>, x: Candidate, c: seq<Candidate>, k: nat, rise: real)
    requires k <= |c|
    ensures Times(CountBeyond(s + [x], c, k), rise)
      == Times(CountBeyond(s, c, k), rise) + Times(CountBeyond([x], c, k), rise)
  {
    BeyondAppend(s, x, c, k);
    BeyondAppend([], x, c, k);
    assert [] + [x] == [x];
    TimesOne(rise);
  }

  lemma {:induction false} Regroup(a: real, b: real, c: real, d: real)
    ensures (a + b) + (c + d) == (a + c) + (b + d)
  {
  }

  lemma {:induction false} ByRisesAppend(s: seq<Candidate>, x: Candidate, c: seq<Candidate>, k: nat)
    requires k <= |c|
    ensures ByRises(s + [x], c, k) == ByRises(s, c, k) + ByRises([x], c, k)
  {
    if k > 0 {
      ByRisesAppend(s, x, c, k - 1);
      OnePaysOnce(s, x, c, k - 1, Rise(c, k - 1));
      Regroup(ByRises(s, c, k - 1), ByRises([x], c, k - 1),
              Times(CountBeyond(s, c, k - 1), Rise(c, k - 1)), Times(CountBeyond([x], c, k - 1), Rise(c, k - 1)));
    }
  }

  lemma {:induction false} ByRisesOfOne(c: seq<Candidate>, j: nat, k: nat)
    requires j < |c| && k <= |c| && Sorting.Distinct(c)
    ensures ByRises([c[j]], c, k) == if k == 0 then 0.0 else if k <= j then c[k - 1].length else c[j].length
  {
    if k > 0 {
      ByRisesOfOne(c, j, k - 1);
      assert [c[j]][..0] == [];
      InPrefix(c, j, k - 1);
      assert CountBeyond([c[j]], c, k - 1) == if j < k - 1 then 0 else 1;
      TimesOne(Rise(c, k - 1));
    }
  }

  lemma {:induction false} NoneByRises(c: seq<Candidate>, k: nat)
    requires k <= |c|
    ensures ByRises([], c, k) == 0.0
  {
    if k > 0 {
      NoneByRises(c, k - 1);
    }
  }

  lemma {:induction false} TotalByRises(s: seq<Candidate>, c: seq<Candidate>)
    requires Sorting.Distinct(c) && forall x :: x in s ==> x in c
    ensures TotalLength(s) == ByRises(s, c, |c|)
    decreases |s|
  {
    if s == [] {
      NoneByRises(c, |c|);
    } else {
      var front, x := s[..|s| - 1], s[|s| - 1];
      assert s == front + [x];
      TotalByRises(front, c);
      ByRisesAppend(front, x, c, |c|);
      assert x in c;
      var j :| 0 <= j < |c| && c[j] == x;
      ByRisesOfOne(c, j, |c|);
    }
  }

  lemma {:induction false} FewerBeyondIsShorter(s: seq<Candidate>, t: seq<Candidate>, c: seq<Candidate>, n: nat, k: nat)
    requires k <= |c| && Ascending(c) && CandidatesWithin(c, n)
    requires forall j: nat :: j < k ==> CountBeyond(s, c, j) <= CountBeyond(t, c, j)
    ensures ByRises(s, c, k) <= ByRises(t, c, k)
  {
    if k > 0 {
      FewerBeyondIsShorter(s, t, c, n, k - 1);
      assert c[k - 1] in c;
      assert Rise(c, k - 1) >= 0.0;
      TimesMonotone(CountBeyond(s, c, k - 1), CountBeyond(t, c, k - 1), Rise(c, k - 1));
    }
  }

  // Kruskal's choice is as short as any choice that joins the same components.
  lemma {:induction false} GreedyIsMinimal(c: seq<Candidate>, n: nat, other: seq<Candidate>)
    requires CandidatesWithin(c, n) && Ascending(c) && Sorting.Distinct(c)
    requires forall x :: x in other ==> x in c
    requires SameConnectivity(Edges(other), Edges(c))
    ensures TotalLength(Greedy(c, |c|)) <= TotalLength(other)
  {
    var chosen := Greedy(c, |c|);
    forall k: nat | k < |c| ensures CountBeyond(chosen, c, k) <= CountBeyond(other, c, k) {
      GreedyBeyond(c, k, |c|);
      SpanningNeedsAsMany(other, c, n, k);
    }
    FewerBeyondIsShorter(chosen, other, c, n, |c|);
    GreedySpans(c, n, |c|);
    assert c[..|c|] == c;
    TotalByRises(chosen, c);
    TotalByRises(other, c);
  }
}
