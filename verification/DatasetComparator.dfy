// One-to-one greedy matching of two dataset snapshots, and the difference list it yields.
module DatasetComparator {
  import opened Common
  import Rounding
  import Sorting

  // A scored pair of left and right feature indices.
  datatype Pair = Pair(score: real, left: nat, right: nat)

  datatype Kind = Added | Removed | Modified | Unchanged

  datatype Difference = Difference(
    kind: Kind, left: Option<nat>, right: Option<nat>, similarity: real, changed: set<string>)

  // Python orders the tuples (score, left, right); the sort is reversed.
  predicate NotBefore(x: Pair, y: Pair) {
    || x.score > y.score
    || (x.score == y.score && (x.left > y.left || (x.left == y.left && x.right >= y.right)))
  }

  lemma {:induction false} NotBeforeIsPreorder()
    ensures Sorting.TotalPreorder(NotBefore)
  {
  }

  ghost predicate Descending(c: seq<Pair>) {
    forall i, j :: 0 <= i < j < |c| ==> c[i].score >= c[j].score
  }

  // ---- matchings -------------------------------------------------------------

  ghost predicate OneToOne(m: seq<Pair>) {
    forall i, j :: 0 <= i < j < |m| ==> m[i].left != m[j].left && m[i].right != m[j].right
  }

  ghost function Total(m: seq<Pair>): real {
    if m == [] then 0.0 else m[0].score + Total(m[1..])
  }

  ghost predicate Avoids(m: seq<Pair>, lefts: set<nat>, rights: set<nat>) {
    forall x :: x in m ==> x.left !in lefts && x.right !in rights
  }

  // The greedy choice from candidates c once the given indices are taken.
  ghost function Greedy(c: seq<Pair>, lefts: set<nat>, rights: set<nat>): seq<Pair> {
    if c == [] then []
    else if c[0].left in lefts || c[0].right in rights then Greedy(c[1..], lefts, rights)
    else [c[0]] + Greedy(c[1..], lefts + {c[0].left}, rights + {c[0].right})
  }

  lemma {:induction false} GreedyMembers(c: seq<Pair>, lefts: set<nat>, rights: set<nat>)
    ensures forall x :: x in Greedy(c, lefts, rights) ==> x in c && x.left !in lefts && x.right !in rights
  {
    if c == [] {
    } else if c[0].left in lefts || c[0].right in rights {
      GreedyMembers(c[1..], lefts, rights);
    } else {
      GreedyMembers(c[1..], lefts + {c[0].left}, rights + {c[0].right});
    }
  }

  lemma {:induction false} GreedyIsOneToOne(c: seq<Pair>, lefts: set<nat>, rights: set<nat>)
    ensures OneToOne(Greedy(c, lefts, rights))
  {
    if c == [] {
    } else if c[0].left in lefts || c[0].right in rights {
      GreedyIsOneToOne(c[1..], lefts, rights);
    } else {
      var rest := Greedy(c[1..], lefts + {c[0].left}, rights + {c[0].right});
      GreedyIsOneToOne(c[1..], lefts + {c[0].left}, rights + {c[0].right});
      GreedyMembers(c[1..], lefts + {c[0].left}, rights + {c[0].right});
      var m := [c[0]] + rest;
      forall i, j | 0 <= i < j < |m| ensures m[i].left != m[j].left && m[i].right != m[j].right {
        assert m[j] == rest[j - 1] && rest[j - 1] in rest;
        if i > 0 {
          assert m[i] == rest[i - 1];
        }
      }
    }
  }

  // The entries of m that do not use left index l, or do not use right index r.
  ghost function DropLeft(m: seq<Pair>, l: nat): (d: seq<Pair>)
    ensures forall x :: x in d <==> x in m && x.left != l
  {
    if m == [] then []
    else
      assert forall x :: x in m <==> x == m[0] || x in m[1..];
      if m[0].left == l then DropLeft(m[1..], l) else [m[0]] + DropLeft(m[1..], l)
  }

  ghost function DropRight(m: seq<Pair>, r: nat): (d: seq<Pair>)
    ensures forall x :: x in d <==> x in m && x.right != r
  {
    if m == [] then []
    else
      assert forall x :: x in m <==> x == m[0] || x in m[1..];
      if m[0].right == r then DropRight(m[1..], r) else [m[0]] + DropRight(m[1..], r)
  }

  ghost function Lefts(m: seq<Pair>): set<nat> {
    set x | x in m :: x.left
  }

  ghost function Rights(m: seq<Pair>): set<nat> {
    set x | x in m :: x.right
  }

  lemma {:induction false} OneToOneTail(m: seq<Pair>)
    requires m != [] && OneToOne(m)
    ensures OneToOne(m[1..]) && m[0].left !in Lefts(m[1..]) && m[0].right !in Rights(m[1..])
  {
  }

  lemma {:induction false} Prepend(x: Pair, d: seq<Pair>, rest: seq<Pair>)
    requires OneToOne(d) && forall y :: y in d ==> y in rest
    requires x.left !in Lefts(rest) && x.right !in Rights(rest)
    ensures OneToOne([x] + d)
  {
    var m := [x] + d;
    forall i, j | 0 <= i < j < |m| ensures m[i].left != m[j].left && m[i].right != m[j].right {
      assert m[j] == d[j - 1] && d[j - 1] in rest;
      if i > 0 {
        assert m[i] == d[i - 1];
      }
    }
  }

  lemma {:induction false} DropLeftKeeps(m: seq<Pair>, l: nat, bound: real)
    requires OneToOne(m) && bound >= 0.0 && forall x :: x in m ==> x.score <= bound
    ensures OneToOne(DropLeft(m, l))
    ensures Total(m) <= Total(DropLeft(m, l)) + bound
    ensures l !in Lefts(m) ==> DropLeft(m, l) == m
  {
    if m != [] {
      var x, rest := m[0], m[1..];
      OneToOneTail(m);
      assert m == [x] + rest;
      DropLeftKeeps(rest, l, bound);
      assert forall y :: y in rest ==> y in m;
      assert x in m;
      var d := DropLeft(rest, l);
      if x.left == l {
        assert l !in Lefts(rest);
        assert d == rest;
      } else {
        Prepend(x, d, rest);
      }
    }
  }

  lemma {:induction false} DropRightKeeps(m: seq<Pair>, r: nat, bound: real)
    requires OneToOne(m) && bound >= 0.0 && forall x :: x in m ==> x.score <= bound
    ensures OneToOne(DropRight(m, r))
    ensures Total(m) <= Total(DropRight(m, r)) + bound
    ensures r !in Rights(m) ==> DropRight(m, r) == m
  {
    if m != [] {
      var x, rest := m[0], m[1..];
      OneToOneTail(m);
      assert m == [x] + rest;
      DropRightKeeps(rest, r, bound);
      assert forall y :: y in rest ==> y in m;
      assert x in m;
      var d := DropRight(rest, r);
      if x.right == r {
        assert r !in Rights(rest);
        assert d == rest;
      } else {
        Prepend(x, d, rest);
      }
    }
  }

  lemma {:induction false} TotalCons(x: Pair, tail: seq<Pair>)
    ensures Total([x] + tail) == x.score + Total(tail)
  {
    assert ([x] + tail)[1..] == tail;
  }

  // A matching that gives up both ends of x loses at most two pairs, neither better than x.
  lemma {:induction false} WithoutEnds(m: seq<Pair>, x: Pair) returns (others: seq<Pair>)
    requires OneToOne(m) && x.score >= 0.0 && forall y :: y in m ==> y.score <= x.score
    ensures OneToOne(others) && Total(m) <= Total(others) + 2.0 * x.score
    ensures forall y :: y in others ==> y in m && y.left != x.left && y.right != x.right
  {
    var once := DropLeft(m, x.left);
    DropLeftKeeps(m, x.left, x.score);
    DropRightKeeps(once, x.right, x.score);
    others := DropRight(once, x.right);
  }

  lemma {:induction false} BestIsFirst(c: seq<Pair>)
    requires c != [] && Descending(c)
    ensures forall x :: x in c ==> x.score <= c[0].score
  {
  }

  // Greedy matching is at least half as good as any one-to-one set of candidates.
  lemma {:induction false} GreedyIsHalfOptimal(c: seq<Pair>, lefts: set<nat>, rights: set<nat>, m: seq<Pair>)
    requires Descending(c) && forall x :: x in c ==> x.score >= 0.0
    requires OneToOne(m) && Avoids(m, lefts, rights) && forall x :: x in m ==> x in c
    ensures Total(m) <= 2.0 * Total(Greedy(c, lefts, rights))
    decreases |c|
  {
    if c == [] {
      HasMember(m);
    } else {
      var x, rest := c[0], c[1..];
      assert forall y :: y in c <==> y == x || y in rest;
      if x.left in lefts || x.right in rights {
        GreedyIsHalfOptimal(rest, lefts, rights, m);
      } else {
        BestIsFirst(c);
        var others := WithoutEnds(m, x);
        GreedyIsHalfOptimal(rest, lefts + {x.left}, rights + {x.right}, others);
        TotalCons(x, Greedy(rest, lefts + {x.left}, rights + {x.right}));
      }
    }
  }

  // The factor cannot be improved: with scores s, s-d, s-d greedy takes one pair of score s
  // where two pairs of score s-d were available.
  lemma {:induction false} HalfIsTight(s: real, d: real)
    requires 0.0 < d < s
    ensures var c := [Pair(s, 0, 0), Pair(s - d, 1, 0), Pair(s - d, 0, 1)];
      && Descending(c)
      && OneToOne(c[1..]) && Total(c[1..]) == 2.0 * s - 2.0 * d
      && Total(Greedy(c, {}, {})) == s
  {
    var c := [Pair(s, 0, 0), Pair(s - d, 1, 0), Pair(s - d, 0, 1)];
    var tail := c[1..];
    assert tail == [Pair(s - d, 1, 0), Pair(s - d, 0, 1)];
    assert tail[1..] == [Pair(s - d, 0, 1)];
    assert tail[1..][1..] == [];
    assert Total([]) == 0.0;
    assert Total(tail[1..]) == s - d;
    assert Total(tail) == 2.0 * s - 2.0 * d;
    assert Greedy([], {0}, {0}) == [];
    assert Greedy(tail[1..], {0}, {0}) == [];
    assert Greedy(tail, {0}, {0}) == [];
    assert {} + {0 as nat} == {0};
    assert Greedy(c, {}, {}) == [c[0]];
    assert [c[0]][1..] == [];
  }

  // ---- the difference list -------------------------------------------------------

  datatype Value = Null | Scalar(text: string)

  type Attributes = map<string, Value>

  // A missing key reads as None.
  function Get(attributes: Attributes, key: string): Value {
    if key in attributes then attributes[key] else Null
  }

  function AttributesAt(attributes: seq<Attributes>, i: nat): Attributes
    requires attributes == [] || i < |attributes|
  {
    if attributes == [] then map[] else attributes[i]
  }

  function ChangedKeys(left: Attributes, right: Attributes): (changed: set<string>)
    ensures forall key :: key in changed <==> Get(left, key) != Get(right, key)
  {
    set key | key in left.Keys + right.Keys && Get(left, key) != Get(right, key)
  }

  // Everything the comparison reads about the two snapshots.
  datatype Snapshots = Snapshots(
    leftCount: nat, rightCount: nat,
    leftAttributes: seq<Attributes>, rightAttributes: seq<Attributes>,
    hits: nat -> seq<nat>, score: (nat, nat) -> real, exact: (nat, nat) -> bool)
  {
    ghost predicate Valid() {
      && (leftAttributes == [] || |leftAttributes| == leftCount)
      && (rightAttributes == [] || |rightAttributes| == rightCount)
      && (forall l: nat, r :: r in hits(l) ==> r < rightCount)
      && (forall l: nat :: Sorting.Distinct(hits(l)))
    }
  }

  ghost predicate IsCandidate(s: Snapshots, threshold: real, p: Pair) {
    && p.left < s.leftCount && p.right in s.hits(p.left)
    && p.score == s.score(p.left, p.right) && p.score >= threshold
  }

  // The pairs the index offers whose score reaches the threshold.
  ghost function CandidateSet(s: Snapshots, threshold: real): (r: set<Pair>)
    ensures forall p :: p in r <==> IsCandidate(s, threshold, p)
  {
    set l: nat, r | l < s.leftCount && r in s.hits(l) && s.score(l, r) >= threshold :: Pair(s.score(l, r), l, r)
  }

  lemma {:induction false} CountDistinct(found: seq<Pair>, all: set<Pair>)
    requires Sorting.Distinct(found) && forall p :: p in found <==> p in all
    ensures |found| == |all|
  {
    if found == [] {
      assert all == {};
    } else {
      var front, last := found[..|found| - 1], found[|found| - 1];
      assert last in found;
      assert forall p :: p in front <==> p in all - {last};
      CountDistinct(front, all - {last});
    }
  }

  function MatchedKind(s: Snapshots, p: Pair): (kind: Kind)
    requires s.Valid() && p.left < s.leftCount && p.right < s.rightCount
    ensures kind == Unchanged <==>
      s.exact(p.left, p.right) &&
      forall key :: Get(AttributesAt(s.leftAttributes, p.left), key)
                 == Get(AttributesAt(s.rightAttributes, p.right), key)
    ensures kind == Unchanged || kind == Modified
  {
    var changed := ChangedKeys(AttributesAt(s.leftAttributes, p.left), AttributesAt(s.rightAttributes, p.right));
    if s.exact(p.left, p.right) && changed == {} then Unchanged else Modified
  }

  function MatchedDifference(s: Snapshots, p: Pair): (d: Difference)
    requires s.Valid() && p.left < s.leftCount && p.right < s.rightCount
  {
    Difference(MatchedKind(s, p), Some(p.left), Some(p.right), Rounding.Round4(p.score * 100.0),
               ChangedKeys(AttributesAt(s.leftAttributes, p.left), AttributesAt(s.rightAttributes, p.right)))
  }

  function RemovedDifference(l: nat): Difference {
    Difference(Removed, Some(l), None, 0.0, {})
  }

  function AddedDifference(r: nat): Difference {
    Difference(Added, None, Some(r), 0.0, {})
  }

  ghost function Count(ds: seq<Difference>, p: Difference -> bool): nat {
    if ds == [] then 0 else Count(ds[..|ds| - 1], p) + (if p(ds[|ds| - 1]) then 1 else 0)
  }

  lemma {:induction false} CountAppend(ds: seq<Difference>, d: Difference, p: Difference -> bool)
    ensures Count(ds + [d], p) == Count(ds, p) + (if p(d) then 1 else 0)
  {
    assert (ds + [d])[..|ds|] == ds;
  }

  lemma {:induction false} CountRemove(ds: seq<Difference>, i: nat, p: Difference -> bool)
    requires i < |ds|
    ensures Count(ds, p) == Count(ds[..i] + ds[i + 1..], p) + (if p(ds[i]) then 1 else 0)
    decreases |ds|
  {
    var last := |ds| - 1;
    RemoveOne(ds, i);
    if i < last {
      var front := ds[..last];
      CountRemove(front, i, p);
      CountAppend(front[..i] + front[i + 1..], ds[last], p);
    }
  }

  // Sorting the list does not change how often anything occurs in it.
  lemma {:induction false} CountAnyOrder(ds: seq<Difference>, es: seq<Difference>, p: Difference -> bool)
    requires multiset(ds) == multiset(es)
    ensures Count(ds, p) == Count(es, p)
    decreases |ds|
  {
    if ds == [] {
      Sorting.SameMembers(ds, es);
    } else {
      var i := Sorting.MatchLast(ds, es);
      CountAnyOrder(ds[..|ds| - 1], es[..i] + es[i + 1..], p);
      CountRemove(es, i, p);
    }
  }

  ghost function OnLeft(l: nat): Difference -> bool {
    (d: Difference) => d.left == Some(l)
  }

  ghost function OnRight(r: nat): Difference -> bool {
    (d: Difference) => d.right == Some(r)
  }

  // Left index l occurs once if it is taken, right index r once if it is taken.
  ghost predicate Reported(ds: seq<Difference>, lefts: set<nat>, rights: set<nat>) {
    && (forall l: nat :: Count(ds, OnLeft(l)) == if l in lefts then 1 else 0)
    && (forall r: nat :: Count(ds, OnRight(r)) == if r in rights then 1 else 0)
  }

  lemma {:induction false} ReportBoth(ds: seq<Difference>, d: Difference, lefts: set<nat>, rights: set<nat>, l: nat,
                                      r: nat)
    requires Reported(ds, lefts, rights) && l !in lefts && r !in rights
    requires d.left == Some(l) && d.right == Some(r)
    ensures Reported(ds + [d], lefts + {l}, rights + {r})
  {
    forall k: nat ensures Count(ds + [d], OnLeft(k)) == if k in lefts + {l} then 1 else 0 {
      CountAppend(ds, d, OnLeft(k));
    }
    forall k: nat ensures Count(ds + [d], OnRight(k)) == if k in rights + {r} then 1 else 0 {
      CountAppend(ds, d, OnRight(k));
    }
  }

  lemma {:induction false} ReportLeft(ds: seq<Difference>, d: Difference, lefts: set<nat>, rights: set<nat>, l: nat)
    requires Reported(ds, lefts, rights) && l !in lefts && d.left == Some(l) && d.right == None
    ensures Reported(ds + [d], lefts + {l}, rights)
  {
    forall k: nat ensures Count(ds + [d], OnLeft(k)) == if k in lefts + {l} then 1 else 0 {
      CountAppend(ds, d, OnLeft(k));
    }
    forall k: nat ensures Count(ds + [d], OnRight(k)) == if k in rights then 1 else 0 {
      CountAppend(ds, d, OnRight(k));
    }
  }

  lemma {:induction false} ReportRight(ds: seq<Difference>, d: Difference, lefts: set<nat>, rights: set<nat>, r: nat)
    requires Reported(ds, lefts, rights) && r !in rights && d.right == Some(r) && d.left == None
    ensures Reported(ds + [d], lefts, rights + {r})
  {
    forall k: nat ensures Count(ds + [d], OnLeft(k)) == if k in lefts then 1 else 0 {
      CountAppend(ds, d, OnLeft(k));
    }
    forall k: nat ensures Count(ds + [d], OnRight(k)) == if k in rights + {r} then 1 else 0 {
      CountAppend(ds, d, OnRight(k));
    }
  }

  // ---- the steps of compare ---------------------------------------------------------

  // The pairs found for the left features before l, and for l among the first h hits.
  ghost predicate FoundUpTo(s: Snapshots, threshold: real, found: seq<Pair>, l: nat, h: nat) {
    && Sorting.Distinct(found)
    && forall p :: p in found <==>
         IsCandidate(s, threshold, p) && (p.left < l || (p.left == l && h <= |s.hits(l)| && p.right in s.hits(l)[..h]))
  }

  lemma {:induction false} HitTaken(s: Snapshots, threshold: real, found: seq<Pair>, l: nat, h: nat)
    requires s.Valid() && l < s.leftCount && h < |s.hits(l)| && FoundUpTo(s, threshold, found, l, h)
    ensures var r, next := s.hits(l)[h], h + 1;
      var more := if s.score(l, r) >= threshold then found + [Pair(s.score(l, r), l, r)] else found;
      FoundUpTo(s, threshold, more, l, next)
  {
    var near := s.hits(l);
    assert near[..h + 1] == near[..h] + [near[h]];
    assert near[h] !in near[..h];
  }

  lemma {:induction false} RowTaken(s: Snapshots, threshold: real, found: seq<Pair>, l: nat)
    requires s.Valid() && l < s.leftCount && FoundUpTo(s, threshold, found, l, |s.hits(l)|)
    ensures var next := l + 1; FoundUpTo(s, threshold, found, next, 0)
  {
    var near := s.hits(l);
    assert near[..|near|] == near;
  }

  method Candidates(s: Snapshots, threshold: real) returns (found: seq<Pair>)
    requires s.Valid()
    ensures forall p :: p in found <==> IsCandidate(s, threshold, p)
    ensures Sorting.Distinct(found) && |found| == |CandidateSet(s, threshold)|
  {
    found := [];
    for l := 0 to s.leftCount
      invariant FoundUpTo(s, threshold, found, l, 0)
    {
      var near := s.hits(l);
      for h := 0 to |near|
        invariant FoundUpTo(s, threshold, found, l, h)
      {
        HitTaken(s, threshold, found, l, h);
        var r := near[h];
        if s.score(l, r) >= threshold {
          found := found + [Pair(s.score(l, r), l, r)];
        }
      }
      RowTaken(s, threshold, found, l);
    }
    CountDistinct(found, CandidateSet(s, threshold));
  }

  // The matches made so far, what they use up, and the entries they produced.
  ghost predicate MatchState(s: Snapshots, matches: seq<Pair>, ds: seq<Difference>, lefts: set<nat>, rights: set<nat>)
    requires s.Valid()
  {
    && lefts == Lefts(matches) && rights == Rights(matches)
    && Reported(ds, lefts, rights)
    && |ds| == |matches|
    && forall i :: 0 <= i < |matches| ==>
         matches[i].left < s.leftCount && matches[i].right < s.rightCount && ds[i] == MatchedDifference(s, matches[i])
  }

  lemma {:induction false} TakeNext(matches: seq<Pair>, p: Pair, lefts: set<nat>, rights: set<nat>)
    requires lefts == Lefts(matches) && rights == Rights(matches)
    ensures Lefts(matches + [p]) == lefts + {p.left} && Rights(matches + [p]) == rights + {p.right}
  {
    assert forall x :: x in matches + [p] <==> x in matches || x == p;
  }

  lemma {:induction false} MatchStateStep(s: Snapshots, matches: seq<Pair>, ds: seq<Difference>, lefts: set<nat>,
                                          rights: set<nat>, p: Pair)
    requires s.Valid() && MatchState(s, matches, ds, lefts, rights)
    requires p.left < s.leftCount && p.right < s.rightCount && p.left !in lefts && p.right !in rights
    ensures MatchState(s, matches + [p], ds + [MatchedDifference(s, p)], lefts + {p.left}, rights + {p.right})
  {
    TakeNext(matches, p, lefts, rights);
    ReportBoth(ds, MatchedDifference(s, p), lefts, rights, p.left, p.right);
  }

  lemma {:induction false} NothingReported()
    ensures Reported([], {}, {})
  {
  }

  lemma {:induction false} GreedyStep(c: seq<Pair>, i: nat, lefts: set<nat>, rights: set<nat>) returns (next: seq<Pair>)
    requires i < |c|
    ensures c[i].left in lefts || c[i].right in rights ==>
      next == Greedy(c[i + 1..], lefts, rights) && Greedy(c[i..], lefts, rights) == next
    ensures c[i].left !in lefts && c[i].right !in rights ==>
      next == Greedy(c[i + 1..], lefts + {c[i].left}, rights + {c[i].right})
      && Greedy(c[i..], lefts, rights) == [c[i]] + next
  {
    assert c[i..][1..] == c[i + 1..];
    next := if c[i].left in lefts || c[i].right in rights then Greedy(c[i + 1..], lefts, rights)
      else Greedy(c[i + 1..], lefts + {c[i].left}, rights + {c[i].right});
  }

  lemma {:induction false} Reassociate(front: seq<Pair>, p: Pair, back: seq<Pair>)
    ensures (front + [p]) + back == front + ([p] + back)
  {
  }

  // The greedy loop: at every moment the choice made and the choice still to come
  // together are the greedy matching.
  method Match(s: Snapshots, sorted: seq<Pair>)
    returns (lefts: set<nat>, rights: set<nat>, differences: seq<Difference>)
    requires s.Valid() && forall p :: p in sorted ==> p.left < s.leftCount && p.right < s.rightCount
    ensures MatchState(s, Greedy(sorted, {}, {}), differences, lefts, rights)
  {
    lefts, rights, differences := {}, {}, [];
    ghost var matches: seq<Pair> := [];
    NothingReported();
    ghost var goal, todo := Greedy(sorted, {}, {}), Greedy(sorted, {}, {});
    assert sorted == sorted[0..];
    for i := 0 to |sorted|
      invariant goal == matches + todo && todo == Greedy(sorted[i..], lefts, rights)
      invariant MatchState(s, matches, differences, lefts, rights)
    {
      var p := sorted[i];
      assert p in sorted;
      ghost var next := GreedyStep(sorted, i, lefts, rights);
      if p.left !in lefts && p.right !in rights {
        MatchStateStep(s, matches, differences, lefts, rights, p);
        Reassociate(matches, p, next);
        lefts, rights := lefts + {p.left}, rights + {p.right};
        differences := differences + [MatchedDifference(s, p)];
        matches := matches + [p];
      }
      todo := next;
    }
    assert sorted[|sorted|..] == [];
    assert matches == goal;
  }

  // ---- the report order -----------------------------------------------------------

  // The kinds sort by their text: "added", "modified", "removed", "unchanged".
  function KindRank(kind: Kind): nat {
    match kind case Added => 0 case Modified => 1 case Removed => 2 case Unchanged => 3
  }

  // `index or -1`: both a missing index and index zero sort as -1.
  function SortIndex(index: Option<nat>): int {
    if index == None || index == Some(0) then -1 else index.value
  }

  predicate KeyLeq(x: Difference, y: Difference) {
    || KindRank(x.kind) < KindRank(y.kind)
    || (KindRank(x.kind) == KindRank(y.kind) &&
        (|| SortIndex(x.left) < SortIndex(y.left)
         || (SortIndex(x.left) == SortIndex(y.left) && SortIndex(x.right) <= SortIndex(y.right))))
  }

  lemma {:induction false} KeyLeqIsPreorder()
    ensures Sorting.TotalPreorder(KeyLeq)
  {
  }

  // The order of the texts of the kinds.
  ghost predicate KindBefore(a: Kind, b: Kind) {
    match a
    case Added => b != Added
    case Modified => b == Removed || b == Unchanged
    case Removed => b == Unchanged
    case Unchanged => false
  }

  // What each entry of a report looks like: both indices when matched, one otherwise.
  ghost predicate WellFormed(d: Difference) {
    match d.kind
    case Added => d.left.None? && d.right.Some?
    case Removed => d.left.Some? && d.right.None?
    case _ => d.left.Some? && d.right.Some?
  }

  // The index that identifies an entry within its kind.
  ghost function OwnIndex(d: Difference): nat
    requires WellFormed(d)
  {
    if d.kind == Added then d.right.value else d.left.value
  }

  ghost predicate InTrueOrder(ds: seq<Difference>)
    requires forall d :: d in ds ==> WellFormed(d)
  {
    forall i, j :: 0 <= i < j < |ds| ==>
      || KindBefore(ds[i].kind, ds[j].kind)
      || (ds[i].kind == ds[j].kind && OwnIndex(ds[i]) < OwnIndex(ds[j]))
  }

  lemma {:induction false} CountAtLeastTwo(ds: seq<Difference>, i: nat, j: nat, p: Difference -> bool)
    requires i < j < |ds| && p(ds[i]) && p(ds[j])
    ensures Count(ds, p) >= 2
  {
    CountRemove(ds, j, p);
    var rest := ds[..j] + ds[j + 1..];
    assert rest[i] == ds[i];
    CountRemove(rest, i, p);
  }

  // Reading index zero as -1 is harmless: the report is still strictly ordered by kind and
  // by the index that identifies each entry within its kind.
  lemma {:induction false} ReportIsOrdered(ds: seq<Difference>, lefts: set<nat>, rights: set<nat>)
    requires forall d :: d in ds ==> WellFormed(d)
    requires Reported(ds, lefts, rights) && Sorting.SortedBy(KeyLeq, ds)
    ensures InTrueOrder(ds)
  {
    forall i, j | 0 <= i < j < |ds|
      ensures || KindBefore(ds[i].kind, ds[j].kind)
              || (ds[i].kind == ds[j].kind && OwnIndex(ds[i]) < OwnIndex(ds[j]))
    {
      assert KeyLeq(ds[i], ds[j]);
      assert WellFormed(ds[i]) && WellFormed(ds[j]);
      if ds[i].kind == ds[j].kind && OwnIndex(ds[i]) == OwnIndex(ds[j]) {
        if ds[i].kind == Added {
          CountAtLeastTwo(ds, i, j, OnRight(OwnIndex(ds[i])));
        } else {
          CountAtLeastTwo(ds, i, j, OnLeft(OwnIndex(ds[i])));
        }
      }
    }
  }

  // ---- compare ---------------------------------------------------------------------------

  datatype Report = Report(differences: seq<Difference>, candidateCount: nat)

  // Every left feature and every right feature is reported exactly once.
  ghost predicate CompleteReport(s: Snapshots, ds: seq<Difference>) {
    && (forall l: nat :: Count(ds, OnLeft(l)) == if l < s.leftCount then 1 else 0)
    && (forall r: nat :: Count(ds, OnRight(r)) == if r < s.rightCount then 1 else 0)
  }

  // What each reported entry says about the matching it came from.
  ghost predicate Describes(s: Snapshots, matches: seq<Pair>, d: Difference)
    requires s.Valid()
  {
    match (d.left, d.right)
    case (Some(l), Some(r)) =>
      var p := Pair(s.score(l, r), l, r);
      p in matches && l < s.leftCount && r < s.rightCount && d == MatchedDifference(s, p)
    case (Some(l), None) => l < s.leftCount && l !in Lefts(matches) && d == RemovedDifference(l)
    case (None, Some(r)) => r < s.rightCount && r !in Rights(matches) && d == AddedDifference(r)
    case (None, None) => false
  }

  // The left and the right feature disagree on this attribute, an absent one being as good as null.
  ghost predicate Disagree(left: Attributes, right: Attributes, key: string) {
    || (key in left && left[key] != Null && (key !in right || right[key] != left[key]))
    || (key in right && right[key] != Null && (key !in left || left[key] != right[key]))
  }

  ghost predicate ChangedExactly(left: Attributes, right: Attributes, changed: set<string>) {
    forall key :: key in changed <==> Disagree(left, right, key)
  }

  // What an entry tells the reader. A match: the attributes that disagree, the score in percent
  // to four decimals, and whether anything changed at all. Any other entry: nothing of the kind.
  ghost predicate Tells(s: Snapshots, d: Difference)
    requires s.Valid()
  {
    match (d.left, d.right)
    case (Some(l), Some(r)) =>
      && l < s.leftCount && r < s.rightCount
      && ChangedExactly(if s.leftAttributes == [] then map[] else s.leftAttributes[l],
                        if s.rightAttributes == [] then map[] else s.rightAttributes[r], d.changed)
      && Rounding.Rounds(100.0 * s.score(l, r), 10000.0, d.similarity)
      && d.kind == if s.exact(l, r) && d.changed == {} then Unchanged else Modified
    case (Some(_), None) => d.kind == Removed && d.similarity == 0.0 && d.changed == {}
    case (None, Some(_)) => d.kind == Added && d.similarity == 0.0 && d.changed == {}
    case (None, None) => false
  }

  lemma {:induction false} GetsDiffer(left: Attributes, right: Attributes)
    ensures ChangedExactly(left, right, ChangedKeys(left, right))
  {
  }

  lemma {:induction false} DescribedTells(s: Snapshots, matches: seq<Pair>, d: Difference)
    requires s.Valid() && Describes(s, matches, d)
    ensures Tells(s, d)
  {
    match (d.left, d.right) {
      case (Some(l), Some(r)) =>
        GetsDiffer(AttributesAt(s.leftAttributes, l), AttributesAt(s.rightAttributes, r));
        assert s.score(l, r) * 100.0 == 100.0 * s.score(l, r);
      case (Some(_), None) =>
      case (None, Some(_)) =>
    }
  }

  ghost predicate AllDescribed(s: Snapshots, matches: seq<Pair>, ds: seq<Difference>)
    requires s.Valid()
  {
    forall d :: d in ds ==> Describes(s, matches, d)
  }

  lemma {:induction false} RemovedStep(s: Snapshots, lefts: set<nat>, rights: set<nat>, ds: seq<Difference>,
                                       matches: seq<Pair>, l: nat)
    requires s.Valid() && lefts == Lefts(matches) && l < s.leftCount && l !in lefts
    requires Reported(ds, lefts + Below(l), rights) && AllDescribed(s, matches, ds)
    ensures Reported(ds + [RemovedDifference(l)], lefts + Below(l + 1), rights)
    ensures AllDescribed(s, matches, ds + [RemovedDifference(l)])
  {
    assert lefts + Below(l + 1) == lefts + Below(l) + {l};
    assert Describes(s, matches, RemovedDifference(l));
    ReportLeft(ds, RemovedDifference(l), lefts + Below(l), rights, l);
  }

  lemma {:induction false} AddedStep(s: Snapshots, lefts: set<nat>, rights: set<nat>, ds: seq<Difference>,
                                     matches: seq<Pair>, r: nat)
    requires s.Valid() && rights == Rights(matches) && r < s.rightCount && r !in rights
    requires Reported(ds, lefts, rights + Below(r)) && AllDescribed(s, matches, ds)
    ensures Reported(ds + [AddedDifference(r)], lefts, rights + Below(r + 1))
    ensures AllDescribed(s, matches, ds + [AddedDifference(r)])
  {
    assert rights + Below(r + 1) == rights + Below(r) + {r};
    assert Describes(s, matches, AddedDifference(r));
    ReportRight(ds, AddedDifference(r), lefts, rights + Below(r), r);
  }

  lemma {:induction false} TakenAlready(taken: set<nat>, i: nat)
    requires i in taken
    ensures taken + Below(i + 1) == taken + Below(i)
  {
  }

  method AddRemoved(s: Snapshots, lefts: set<nat>, ghost rights: set<nat>, matched: seq<Difference>,
                    ghost matches: seq<Pair>)
    returns (ds: seq<Difference>)
    requires s.Valid() && lefts == Lefts(matches) && lefts <= Below(s.leftCount)
    requires Reported(matched, lefts, rights) && AllDescribed(s, matches, matched)
    ensures Reported(ds, Below(s.leftCount), rights) && AllDescribed(s, matches, ds)
  {
    ds := matched;
    assert lefts + Below(0) == lefts;
    for l := 0 to s.leftCount
      invariant Reported(ds, lefts + Below(l), rights) && AllDescribed(s, matches, ds)
    {
      if l !in lefts {
        RemovedStep(s, lefts, rights, ds, matches, l);
        ds := ds + [RemovedDifference(l)];
      } else {
        TakenAlready(lefts, l);
      }
    }
    assert lefts + Below(s.leftCount) == Below(s.leftCount);
  }

  method AddAdded(s: Snapshots, ghost lefts: set<nat>, rights: set<nat>, matched: seq<Difference>,
                  ghost matches: seq<Pair>)
    returns (ds: seq<Difference>)
    requires s.Valid() && rights == Rights(matches) && rights <= Below(s.rightCount)
    requires Reported(matched, lefts, rights) && AllDescribed(s, matches, matched)
    ensures Reported(ds, lefts, Below(s.rightCount)) && AllDescribed(s, matches, ds)
  {
    ds := matched;
    assert rights + Below(0) == rights;
    for r := 0 to s.rightCount
      invariant Reported(ds, lefts, rights + Below(r)) && AllDescribed(s, matches, ds)
    {
      if r !in rights {
        AddedStep(s, lefts, rights, ds, matches, r);
        ds := ds + [AddedDifference(r)];
      } else {
        TakenAlready(rights, r);
      }
    }
    assert rights + Below(s.rightCount) == Below(s.rightCount);
  }

  // Best first; among equally good pairs the larger left index first, then the larger right one.
  ghost predicate BestFirst(sorted: seq<Pair>) {
    forall i, j :: 0 <= i < j < |sorted| ==>
      || sorted[i].score > sorted[j].score
      || (sorted[i].score == sorted[j].score && sorted[i].left > sorted[j].left)
      || (sorted[i].score == sorted[j].score && sorted[i].left == sorted[j].left && sorted[i].right >= sorted[j].right)
  }

  lemma {:induction false} BestFirstIsSorted(sorted: seq<Pair>)
    ensures BestFirst(sorted) <==> Sorting.SortedBy(NotBefore, sorted)
  {
    if Sorting.SortedBy(NotBefore, sorted) {
      forall i, j | 0 <= i < j < |sorted| ensures NotBefore(sorted[i], sorted[j]) {
      }
    }
  }

  // The candidates, ranked.
  ghost predicate IsRanking(s: Snapshots, threshold: real, sorted: seq<Pair>)
    requires s.Valid()
  {
    && BestFirst(sorted) && Sorting.Distinct(sorted)
    && forall p :: p in sorted <==> IsCandidate(s, threshold, p)
  }

  // The matching is the greedy choice from the ranked candidates.
  ghost predicate IsGreedyChoice(s: Snapshots, threshold: real, matches: seq<Pair>)
    requires s.Valid()
  {
    exists sorted :: IsRanking(s, threshold, sorted) && matches == Greedy(sorted, {}, {})
  }

  lemma {:induction false} GreedyOfRanking(s: Snapshots, threshold: real, sorted: seq<Pair>)
    requires s.Valid() && Sorting.SortedBy(NotBefore, sorted) && Sorting.Distinct(sorted)
    requires forall p :: p in sorted <==> IsCandidate(s, threshold, p)
    ensures IsGreedyChoice(s, threshold, Greedy(sorted, {}, {}))
  {
    BestFirstIsSorted(sorted);
  }

  // The input determines the matching.
  lemma {:induction false} OneGreedyChoice(s: Snapshots, threshold: real, one: seq<Pair>, other: seq<Pair>)
    requires s.Valid() && IsGreedyChoice(s, threshold, one) && IsGreedyChoice(s, threshold, other)
    ensures one == other
  {
    var a :| IsRanking(s, threshold, a) && one == Greedy(a, {}, {});
    var b :| IsRanking(s, threshold, b) && other == Greedy(b, {}, {});
    BestFirstIsSorted(a);
    BestFirstIsSorted(b);
    Sorting.OneOrder(NotBefore, a, b);
  }

  lemma {:induction false} SortedPairs(found: seq<Pair>) returns (sorted: seq<Pair>)
    requires Sorting.Distinct(found)
    ensures sorted == Sorting.Sort(NotBefore, found) && Descending(sorted)
    ensures Sorting.SortedBy(NotBefore, sorted) && Sorting.Distinct(sorted)
    ensures forall p :: p in sorted <==> p in found
  {
    sorted := Sorting.Sort(NotBefore, found);
    NotBeforeIsPreorder();
    Sorting.SortSorts(NotBefore, found);
    Sorting.SameMembers(sorted, found);
    Sorting.DistinctAfterSort(NotBefore, found);
    forall i, j | 0 <= i < j < |sorted| ensures sorted[i].score >= sorted[j].score {
      assert NotBefore(sorted[i], sorted[j]);
    }
  }

  lemma {:induction false} SortedReport(s: Snapshots, matches: seq<Pair>, ds: seq<Difference>)
    requires s.Valid() && CompleteReport(s, ds) && AllDescribed(s, matches, ds)
    ensures var sorted := Sorting.Sort(KeyLeq, ds);
      && CompleteReport(s, sorted) && AllDescribed(s, matches, sorted)
      && (forall d :: d in sorted ==> WellFormed(d) && Tells(s, d)) && InTrueOrder(sorted)
  {
    var sorted := Sorting.Sort(KeyLeq, ds);
    KeyLeqIsPreorder();
    Sorting.SortSorts(KeyLeq, ds);
    Sorting.SameMembers(sorted, ds);
    forall l: nat ensures Count(sorted, OnLeft(l)) == Count(ds, OnLeft(l)) {
      CountAnyOrder(sorted, ds, OnLeft(l));
    }
    forall r: nat ensures Count(sorted, OnRight(r)) == Count(ds, OnRight(r)) {
      CountAnyOrder(sorted, ds, OnRight(r));
    }
    forall d | d in sorted ensures WellFormed(d) && Tells(s, d) {
      assert Describes(s, matches, d);
      DescribedTells(s, matches, d);
    }
    ReportIsOrdered(sorted, Below(s.leftCount), Below(s.rightCount));
  }

  lemma {:induction false} MatchesAreBest(s: Snapshots, threshold: real, sorted: seq<Pair>)
    requires s.Valid() && threshold >= 0.0 && Descending(sorted)
    requires forall p :: p in sorted <==> IsCandidate(s, threshold, p)
    ensures OneToOne(Greedy(sorted, {}, {}))
    ensures forall p :: p in Greedy(sorted, {}, {}) ==> IsCandidate(s, threshold, p)
    ensures forall other: seq<Pair> ::
      OneToOne(other) && (forall p :: p in other ==> IsCandidate(s, threshold, p)) ==>
        Total(other) <= 2.0 * Total(Greedy(sorted, {}, {}))
  {
    GreedyIsOneToOne(sorted, {}, {});
    GreedyMembers(sorted, {}, {});
    forall other: seq<Pair> | OneToOne(other) && (forall p :: p in other ==> IsCandidate(s, threshold, p))
      ensures Total(other) <= 2.0 * Total(Greedy(sorted, {}, {}))
    {
      GreedyIsHalfOptimal(sorted, {}, {}, other);
    }
  }

  lemma {:induction false} MatchedWithin(s: Snapshots, threshold: real, matches: seq<Pair>, ds: seq<Difference>,
                                         lefts: set<nat>, rights: set<nat>)
    requires s.Valid() && MatchState(s, matches, ds, lefts, rights)
    requires forall p :: p in matches ==> IsCandidate(s, threshold, p)
    ensures AllDescribed(s, matches, ds)
    ensures lefts <= Below(s.leftCount) && rights <= Below(s.rightCount)
  {
    forall d | d in ds ensures Describes(s, matches, d) {
      var i :| 0 <= i < |ds| && ds[i] == d;
      assert matches[i] in matches;
    }
  }

  // The greedy choice of the ranked candidates: one-to-one, complete, ordered, and at least half
  // as good as any other one-to-one choice.
  method Compare(s: Snapshots, threshold: real) returns (result: Result<Report>, ghost matches: seq<Pair>)
    requires s.Valid()
    ensures result.Err? <==> !(0.0 <= threshold <= 1.0)
    ensures result.Ok? ==>
      && IsGreedyChoice(s, threshold, matches)
      && OneToOne(matches) && (forall p :: p in matches ==> IsCandidate(s, threshold, p))
      && CompleteReport(s, result.value.differences)
      && AllDescribed(s, matches, result.value.differences)
      && (forall d :: d in result.value.differences ==> WellFormed(d) && Tells(s, d))
      && InTrueOrder(result.value.differences)
      && result.value.candidateCount == |CandidateSet(s, threshold)|
      && forall other: seq<Pair> ::
           OneToOne(other) && (forall p :: p in other ==> IsCandidate(s, threshold, p)) ==>
             Total(other) <= 2.0 * Total(matches)
  {
    matches := [];
    if !(0.0 <= threshold <= 1.0) {
      return Err("match_threshold must be between zero and one"), [];
    }
    var found := Candidates(s, threshold);
    ghost var sorted := SortedPairs(found);
    var lefts, rights, differences;
    lefts, rights, differences := Match(s, Sorting.Sort(NotBefore, found));
    matches := Greedy(sorted, {}, {});
    GreedyOfRanking(s, threshold, sorted);
    MatchesAreBest(s, threshold, sorted);
    MatchedWithin(s, threshold, matches, differences, lefts, rights);
    differences := AddRemoved(s, lefts, rights, differences, matches);
    differences := AddAdded(s, Below(s.leftCount), rights, differences, matches);
    SortedReport(s, matches, differences);
    result := Ok(Report(Sorting.Sort(KeyLeq, differences), |found|));
  }
}
