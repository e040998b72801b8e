// The union-find used by the road component connector: path halving, union by rank.
module UnionFind {
  import opened Common
  import opened Connectivity

  function Pow2(k: nat): (r: nat)
    ensures r >= 1
  {
    if k == 0 then 1 else 2 * Pow2(k - 1)
  }

  lemma {:induction false} Pow2Monotone(j: nat, k: nat)
    requires j <= k
    ensures Pow2(j) <= Pow2(k)
  {
    if j < k {
      Pow2Monotone(j, k - 1);
    }
  }

  // The members that the labelling `root` assigns to r.
  ghost function Members(root: seq<nat>, r: nat): set<nat> {
    set i: nat | i < |root| && root[i] == r
  }

  lemma {:induction false} MembersBounded(root: seq<nat>, r: nat)
    ensures |Members(root, r)| <= |root|
  {
    SubsetCardinality(Members(root, r), Below(|root|));
  }

  // `root` labels every item with the item its parent links lead to.
  ghost predicate Labelled(parent: seq<nat>, root: seq<nat>) {
    && |parent| == |root|
    && (forall i :: 0 <= i < |parent| ==> parent[i] < |parent| && root[i] < |parent|)
    && (forall i {:trigger parent[root[i]]} :: 0 <= i < |parent| ==> parent[root[i]] == root[i])
    && (forall i {:trigger root[parent[i]]} :: 0 <= i < |parent| ==> root[parent[i]] == root[i])
    && (forall i :: 0 <= i < |parent| && parent[i] == i ==> root[i] == i)
  }

  // Ranks strictly rise along parent links, up to the root.
  ghost predicate Ranked(parent: seq<nat>, rank: seq<nat>, root: seq<nat>)
    requires Labelled(parent, root)
  {
    && |rank| == |parent|
    && (forall i {:trigger rank[parent[i]]} ::
         0 <= i < |parent| && parent[i] != i ==> rank[i] < rank[parent[i]])
    && (forall i {:trigger rank[root[i]]} :: 0 <= i < |parent| ==> rank[i] <= rank[root[i]])
  }

  ghost predicate Forest(parent: seq<nat>, rank: seq<nat>, root: seq<nat>) {
    Labelled(parent, root) && Ranked(parent, rank, root)
  }

  // A root of rank k stands for at least 2^k items.
  ghost predicate WellSized(parent: seq<nat>, rank: seq<nat>, root: seq<nat>)
    requires Forest(parent, rank, root)
  {
    forall r :: 0 <= r < |parent| && parent[r] == r ==> |Members(root, r)| >= Pow2(rank[r])
  }

  // The partition is the equivalence closure of the union calls made so far.
  ghost predicate Faithful(root: seq<nat>, links: seq<Edge>) {
    && EdgesWithin(links, |root|)
    && forall a, b {:trigger Connected(links, a, b)} :: 0 <= a < |root| && 0 <= b < |root| ==>
         (root[a] == root[b] <==> Connected(links, a, b))
  }

  // ---- what the links mean ------------------------------------------------

  // Follow k parent links.
  ghost function Ancestor(parent: seq<nat>, item: nat, k: nat): (r: nat)
    requires item < |parent| && forall i :: 0 <= i < |parent| ==> parent[i] < |parent|
    ensures r < |parent|
    decreases k
  {
    if k == 0 then item else Ancestor(parent, parent[item], k - 1)
  }

  lemma {:induction false} StepsToRoot(parent: seq<nat>, rank: seq<nat>, root: seq<nat>, item: nat)
    returns (k: nat)
    requires Forest(parent, rank, root) && item < |parent|
    ensures Ancestor(parent, item, k) == root[item] && rank[item] + k <= rank[root[item]]
    decreases rank[root[item]] - rank[item]
  {
    if parent[item] == item {
      k := 0;
    } else {
      var rest := StepsToRoot(parent, rank, root, parent[item]);
      k := rest + 1;
    }
  }

  // From any item, at most log2(n) parent links lead to its root.
  lemma {:induction false} LogarithmicDepth(parent: seq<nat>, rank: seq<nat>, root: seq<nat>, item: nat)
    requires Forest(parent, rank, root) && WellSized(parent, rank, root) && item < |parent|
    ensures exists k: nat ::
      Ancestor(parent, item, k) == root[item] && Pow2(k) <= |Members(root, root[item])| <= |parent|
  {
    var k := StepsToRoot(parent, rank, root, item);
    Pow2Monotone(k, rank[root[item]]);
    MembersBounded(root, root[item]);
  }

  // ---- path halving -------------------------------------------------------

  // One halving step climbs two ranks, unless it lands on the root.
  lemma {:induction false} RankAfterHalving(parent: seq<nat>, rank: seq<nat>, root: seq<nat>, item: nat)
    requires Forest(parent, rank, root) && item < |parent| && parent[item] != item
    ensures var grand := parent[parent[item]];
      && root[grand] == root[item] && rank[item] < rank[grand] <= rank[root[item]]
      && rank[grand] + (if parent[grand] == grand then 1 else 0) >= rank[item] + 2
  {
  }

  lemma {:induction false} HalvingKeepsForest(parent: seq<nat>, rank: seq<nat>, root: seq<nat>, item: nat)
    requires Forest(parent, rank, root) && WellSized(parent, rank, root)
    requires item < |parent| && parent[item] != item
    ensures var parent' := parent[item := parent[parent[item]]];
      Forest(parent', rank, root) && WellSized(parent', rank, root)
  {
    RankAfterHalving(parent, rank, root, item);
    var parent' := parent[item := parent[parent[item]]];
    assert Labelled(parent', root);
    assert Ranked(parent', rank, root);
  }

  lemma {:induction false} HopBound(parent: seq<nat>, rank: seq<nat>, root: seq<nat>, item: nat, hops: nat)
    requires Forest(parent, rank, root) && WellSized(parent, rank, root)
    requires item < |parent| && parent[item] == item && 2 * hops <= rank[item] + 1
    ensures hops > 0 ==> Pow2(2 * hops - 1) <= |parent|
  {
    if hops > 0 {
      Pow2Monotone(2 * hops - 1, rank[item]);
      MembersBounded(root, item);
    }
  }

  // ---- linking two roots --------------------------------------------------

  ghost function Merged(root: seq<nat>, keep: nat, lose: nat): (r: seq<nat>)
    ensures |r| == |root|
  {
    seq(|root|, i requires 0 <= i < |root| => if root[i] == lose then keep else root[i])
  }

  lemma {:induction false} MergedMembers(root: seq<nat>, keep: nat, lose: nat)
    requires keep != lose
    ensures |Members(Merged(root, keep, lose), keep)|
         == |Members(root, keep)| + |Members(root, lose)|
    ensures forall r: nat :: r != keep && r != lose ==>
      Members(Merged(root, keep, lose), r) == Members(root, r)
  {
    assert Members(Merged(root, keep, lose), keep) == Members(root, keep) + Members(root, lose);
    assert Members(root, keep) !! Members(root, lose);
  }

  ghost function NewRank(rank: seq<nat>, keep: nat, lose: nat): seq<nat>
    requires keep < |rank| && lose < |rank|
  {
    if rank[keep] == rank[lose] then rank[keep := rank[keep] + 1] else rank
  }

  lemma {:induction false} LinkKeepsLabels(parent: seq<nat>, root: seq<nat>, keep: nat, lose: nat)
    requires Labelled(parent, root) && keep < |parent| && lose < |parent| && keep != lose
    requires parent[keep] == keep && parent[lose] == lose
    ensures Labelled(parent[lose := keep], Merged(root, keep, lose))
  {
  }

  lemma {:induction false} LinkKeepsRanks(parent: seq<nat>, rank: seq<nat>, root: seq<nat>, keep: nat, lose: nat)
    requires Forest(parent, rank, root) && keep < |parent| && lose < |parent| && keep != lose
    requires parent[keep] == keep && parent[lose] == lose && rank[lose] <= rank[keep]
    ensures Forest(parent[lose := keep], NewRank(rank, keep, lose), Merged(root, keep, lose))
  {
    LinkKeepsLabels(parent, root, keep, lose);
    var parent', rank', root' := parent[lose := keep], NewRank(rank, keep, lose), Merged(root, keep, lose);
    forall i | 0 <= i < |parent'| && parent'[i] != i ensures rank'[i] < rank'[parent'[i]] {
      assert i != keep && rank'[i] == rank[i];
      if i != lose {
        assert rank[i] < rank[parent[i]] <= rank'[parent'[i]];
      }
    }
    forall i | 0 <= i < |parent'| ensures rank'[i] <= rank'[root'[i]] {
      assert rank[i] <= rank[root[i]];
    }
  }

  // Equal ranks: two classes of at least 2^k members make one of at least 2^(k+1).
  lemma {:induction false} LinkedSize(rank: seq<nat>, root: seq<nat>, keep: nat, lose: nat)
    requires keep < |rank| && lose < |rank| && keep != lose
    requires |Members(root, keep)| >= Pow2(rank[keep]) && |Members(root, lose)| >= Pow2(rank[lose])
    ensures |Members(Merged(root, keep, lose), keep)| >= Pow2(NewRank(rank, keep, lose)[keep])
  {
    MergedMembers(root, keep, lose);
    assert Pow2(rank[keep] + 1) == 2 * Pow2(rank[keep]);
  }

  lemma {:induction false} LinkKeepsForest(parent: seq<nat>, rank: seq<nat>, root: seq<nat>, keep: nat, lose: nat)
    requires Forest(parent, rank, root) && WellSized(parent, rank, root)
    requires keep < |parent| && lose < |parent| && keep != lose
    requires parent[keep] == keep && parent[lose] == lose && rank[lose] <= rank[keep]
    ensures Forest(parent[lose := keep], NewRank(rank, keep, lose), Merged(root, keep, lose))
    ensures WellSized(parent[lose := keep], NewRank(rank, keep, lose), Merged(root, keep, lose))
  {
    LinkKeepsRanks(parent, rank, root, keep, lose);
    var rank', root' := NewRank(rank, keep, lose), Merged(root, keep, lose);
    MergedMembers(root, keep, lose);
    LinkedSize(rank, root, keep, lose);
    forall r | 0 <= r < |parent| && parent[lose := keep][r] == r
      ensures |Members(root', r)| >= Pow2(rank'[r])
    {
      if r != keep {
        assert parent[r] == r;
        assert rank'[r] == rank[r] && Members(root', r) == Members(root, r);
      }
    }
  }

  lemma {:induction false} LinkStaysFaithful(root: seq<nat>, links: seq<Edge>, e: Edge, keep: nat, lose: nat)
    requires Faithful(root, links) && e.left < |root| && e.right < |root|
    requires || (root[e.left] == keep && root[e.right] == lose)
             || (root[e.right] == keep && root[e.left] == lose)
    ensures Faithful(Merged(root, keep, lose), links + [e])
  {
    var root' := Merged(root, keep, lose);
    forall a, b | 0 <= a < |root'| && 0 <= b < |root'|
      ensures root'[a] == root'[b] <==> Connected(links + [e], a, b)
    {
      ConnectedWithEdge(links, e, a, b);
    }
  }

  lemma {:induction false} RedundantStaysFaithful(root: seq<nat>, links: seq<Edge>, e: Edge)
    requires Faithful(root, links) && e.left < |root| && e.right < |root|
    requires root[e.left] == root[e.right]
    ensures Faithful(root, links + [e])
  {
    RedundantEdge(links, e);
  }

  // ---- the mutable structure ----------------------------------------------

  class DisjointSets {
    const parent: array<nat>
    const rank: array<nat>
    ghost var root: seq<nat>
    // every pair passed to Union so far
    ghost var links: seq<Edge>

    ghost predicate Valid()
      reads this, parent, rank
    {
      && parent != rank
      && Forest(parent[..], rank[..], root)
      && WellSized(parent[..], rank[..], root)
      && Faithful(root, links)
    }

    constructor (size: nat)
      ensures Valid() && fresh(parent) && fresh(rank)
      ensures parent.Length == size && links == []
    {
      parent := new nat[size](i requires 0 <= i => i);
      rank := new nat[size](i => 0);
      root := seq(size, i requires 0 <= i => i);
      links := [];
      new;
      forall r: nat | r < size ensures Members(root, r) == {r} {
      }
      forall a, b | 0 <= a < size && 0 <= b < size
        ensures root[a] == root[b] <==> Connected(links, a, b)
      {
        EmptyConnected(a, b);
      }
    }

    // Path halving never changes the partition, and takes at most about half of log2(n) hops.
    method Find(start: nat) returns (item: nat, ghost hops: nat)
      requires Valid() && start < parent.Length
      modifies parent
      ensures Valid() && root == old(root) && links == old(links)
      ensures item == root[start] && parent[item] == item
      ensures hops > 0 ==> Pow2(2 * hops - 1) <= parent.Length
    {
      item := start;
      hops := 0;
      ghost var p, k := parent[..], rank[..];
      while parent[item] != item
        invariant item < parent.Length && p == parent[..] && k == rank[..]
        invariant Forest(p, k, root) && WellSized(p, k, root)
        invariant root[item] == root[start]
        invariant hops > 0 ==> 2 * hops <= k[item] + (if p[item] == item then 1 else 0)
        decreases k[root[item]] - k[item]
      {
        HalvingKeepsForest(p, k, root, item);
        RankAfterHalving(p, k, root, item);
        p := p[item := p[p[item]]];
        parent[item] := parent[parent[item]];
        item := parent[item];
        hops := hops + 1;
      }
      HopBound(p, k, root, item, hops);
    }

    // The final writes of a union: hang the root of lower rank below the other.
    method Attach(keep: nat, lose: nat, ghost e: Edge)
      requires Valid() && keep < parent.Length && lose < parent.Length && keep != lose
      requires parent[keep] == keep && parent[lose] == lose && rank[lose] <= rank[keep]
      requires e.left < parent.Length && e.right < parent.Length
      requires || (root[e.left] == keep && root[e.right] == lose)
               || (root[e.right] == keep && root[e.left] == lose)
      modifies this, parent, rank
      ensures Valid() && links == old(links) + [e] && root == Merged(old(root), keep, lose)
    {
      ghost var p, k := parent[..], rank[..];
      LinkKeepsForest(p, k, root, keep, lose);
      LinkStaysFaithful(root, links, e, keep, lose);
      ghost var p', k', root' := p[lose := keep], NewRank(k, keep, lose), Merged(root, keep, lose);
      root, links := root', links + [e];
      parent[lose] := keep;
      if rank[keep] == rank[lose] {
        rank[keep] := rank[keep] + 1;
      }
      assert parent[..] == p' && rank[..] == k';
    }

    // True exactly when the two items were still apart; afterwards they are together,
    // and every other pair is related as the equivalence closure demands.
    method Union(left: nat, right: nat) returns (merged: bool)
      requires Valid() && left < parent.Length && right < parent.Length
      modifies this, parent, rank
      ensures Valid() && links == old(links) + [Edge(left, right)]
      ensures merged <==> !Connected(old(links), left, right)
    {
      var leftRoot, _ := Find(left);
      var rightRoot, _ := Find(right);
      if leftRoot == rightRoot {
        RedundantStaysFaithful(root, links, Edge(left, right));
        links := links + [Edge(left, right)];
        return false;
      }
      if rank[leftRoot] < rank[rightRoot] {
        leftRoot, rightRoot := rightRoot, leftRoot;
      }
      Attach(leftRoot, rightRoot, Edge(left, right));
      merged := true;
    }
  }
}
