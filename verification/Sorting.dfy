// Stable sorting by a total preorder, standing for Python's built-in sort wherever GeoQC sorts
// by a key.
module Sorting {
  import opened Common

  ghost predicate TotalPreorder<T(!new)>(leq: (T, T) -> bool) {
    && (forall x, y :: leq(x, y) || leq(y, x))
    && (forall x, y, z :: leq(x, y) && leq(y, z) ==> leq(x, z))
  }

  ghost predicate SortedBy<T(!new)>(leq: (T, T) -> bool, s: seq<T>) {
    forall i, j :: 0 <= i < j < |s| ==> leq(s[i], s[j])
  }

  function Insert<T>(leq: (T, T) -> bool, x: T, s: seq<T>): (r: seq<T>)
    ensures multiset(r) == multiset(s) + multiset{x}
  {
    if s == [] || leq(x, s[0]) then [x] + s
    else
      assert s == [s[0]] + s[1..];
      [s[0]] + Insert(leq, x, s[1..])
  }

  // Equal keys keep their order: an element goes before the later ones it does not exceed.
  function Sort<T>(leq: (T, T) -> bool, s: seq<T>): (r: seq<T>)
    ensures multiset(r) == multiset(s)
  {
    if s == [] then []
    else
      assert s == [s[0]] + s[1..];
      Insert(leq, s[0], Sort(leq, s[1..]))
  }

  lemma {:induction false} SameMembers<T>(s: seq<T>, t: seq<T>)
    requires multiset(s) == multiset(t)
    ensures |s| == |t| && forall x :: x in s <==> x in t
  {
    assert |multiset(s)| == |multiset(t)|;
    forall x ensures x in s <==> x in t {
      assert x in s <==> x in multiset(s);
      assert x in t <==> x in multiset(t);
    }
  }

  lemma {:induction false} CancelOne<T>(a: multiset<T>, b: multiset<T>, x: T)
    requires a + multiset{x} == b + multiset{x}
    ensures a == b
  {
    assert a == (a + multiset{x}) - multiset{x};
    assert b == (b + multiset{x}) - multiset{x};
  }

  // Where the last entry of s sits in a permutation t of s; without it the rest agree.
  lemma {:induction false} MatchLast<T>(s: seq<T>, t: seq<T>) returns (i: nat)
    requires multiset(s) == multiset(t) && s != []
    ensures i < |t| && t[i] == s[|s| - 1]
    ensures multiset(s[..|s| - 1]) == multiset(t[..i] + t[i + 1..])
  {
    var front, x := s[..|s| - 1], s[|s| - 1];
    SameMembers(s, t);
    assert x in t;
    i :| 0 <= i < |t| && t[i] == x;
    var rest := t[..i] + t[i + 1..];
    assert s == front + [x];
    assert t == t[..i] + [x] + t[i + 1..];
    assert multiset(rest) == multiset(t[..i]) + multiset(t[i + 1..]);
    CancelOne(multiset(front), multiset(rest), x);
  }

  lemma {:induction false} InsertSorts<T(!new)>(leq: (T, T) -> bool, x: T, s: seq<T>)
    requires TotalPreorder(leq) && SortedBy(leq, s)
    ensures SortedBy(leq, Insert(leq, x, s))
  {
    if s != [] && !leq(x, s[0]) {
      InsertSorts(leq, x, s[1..]);
      var rest := Insert(leq, x, s[1..]);
      forall j | 0 <= j < |rest| ensures leq(s[0], rest[j]) {
        assert rest[j] in multiset(rest);
        if rest[j] != x {
          assert rest[j] in multiset(s[1..]);
          assert rest[j] in s[1..];
        }
      }
    } else if s != [] {
      forall j | 0 <= j < |s| ensures leq(x, s[j]) {
        if j > 0 {
          assert leq(s[0], s[j]);
        }
      }
    }
  }

  lemma {:induction false} SortSorts<T(!new)>(leq: (T, T) -> bool, s: seq<T>)
    requires TotalPreorder(leq)
    ensures SortedBy(leq, Sort(leq, s))
  {
    if s != [] {
      SortSorts(leq, s[1..]);
      InsertSorts(leq, s[0], Sort(leq, s[1..]));
    }
  }

  ghost predicate Distinct<T(!new)>(s: seq<T>) {
    forall i, j :: 0 <= i < j < |s| ==> s[i] != s[j]
  }

  lemma {:induction false} DistinctByMultiset<T(!new)>(s: seq<T>)
    ensures Distinct(s) <==> forall x :: multiset(s)[x] <= 1
  {
    if s != [] {
      var rest := s[1..];
      DistinctByMultiset(rest);
      assert s == [s[0]] + rest;
      assert multiset(s) == multiset{s[0]} + multiset(rest);
      assert s[0] in rest <==> multiset(rest)[s[0]] >= 1;
      if Distinct(s) {
        assert Distinct(rest) by {
          forall i, j | 0 <= i < j < |rest| ensures rest[i] != rest[j] {
            assert s[i + 1] != s[j + 1];
          }
        }
        assert s[0] !in rest;
      } else {
        var i, j :| 0 <= i < j < |s| && s[i] == s[j];
        if i == 0 {
          assert s[0] == rest[j - 1];
          assert s[0] in rest;
          assert multiset(s)[s[0]] >= 2;
        } else {
          assert rest[i - 1] == rest[j - 1];
          assert !Distinct(rest);
          var x :| multiset(rest)[x] > 1;
          assert multiset(s)[x] > 1;
        }
      }
    }
  }

  lemma {:induction false} DistinctAfterSort<T(!new)>(leq: (T, T) -> bool, s: seq<T>)
    requires Distinct(s)
    ensures Distinct(Sort(leq, s))
  {
    DistinctByMultiset(s);
    DistinctByMultiset(Sort(leq, s));
  }

  // ---- one order ------------------------------------------------------------------------

  // Entries that tie are the same.
  ghost predicate NoTies<T(!new)>(leq: (T, T) -> bool, s: seq<T>) {
    forall x, y :: x in s && y in s && leq(x, y) && leq(y, x) ==> x == y
  }

  lemma {:induction false} SameFirst<T(!new)>(leq: (T, T) -> bool, a: seq<T>, b: seq<T>)
    requires SortedBy(leq, a) && SortedBy(leq, b) && NoTies(leq, a) && a != [] && b != []
    requires a[0] in b && b[0] in a
    ensures a[0] == b[0]
  {
    var i :| 0 <= i < |b| && b[i] == a[0];
    var j :| 0 <= j < |a| && a[j] == b[0];
    if i > 0 && j > 0 {
      assert leq(b[0], b[i]) && leq(a[0], a[j]);
    }
  }

  lemma {:induction false} SameRest<T(!new)>(a: seq<T>, b: seq<T>, x: T)
    requires Distinct(a) && (forall y :: y in a <==> y in b) && a != [] && b != [] && a[0] == b[0]
    requires x in a[1..]
    ensures x in b[1..]
  {
    var i :| 0 <= i < |a[1..]| && a[1..][i] == x;
    assert a[i + 1] == x && x != a[0];
    assert x in b;
    assert b == [b[0]] + b[1..];
  }

  lemma {:induction false} NothingIn<T(!new)>(a: seq<T>, b: seq<T>)
    requires a == [] && forall x :: x in a <==> x in b
    ensures b == []
  {
    HasMember(b);
  }

  // Without ties there is one way to sort.
  lemma {:induction false} OneOrder<T(!new)>(leq: (T, T) -> bool, a: seq<T>, b: seq<T>)
    requires SortedBy(leq, a) && SortedBy(leq, b) && NoTies(leq, a)
    requires Distinct(a) && Distinct(b) && forall x :: x in a <==> x in b
    ensures a == b
    decreases |a|
  {
    if a == [] {
      NothingIn(a, b);
    } else if b == [] {
      NothingIn(b, a);
    } else {
      SameFirst(leq, a, b);
      forall x ensures x in a[1..] <==> x in b[1..] {
        if x in a[1..] {
          SameRest(a, b, x);
        } else if x in b[1..] {
          SameRest(b, a, x);
        }
      }
      OneOrder(leq, a[1..], b[1..]);
      assert a == [a[0]] + a[1..] && b == [b[0]] + b[1..];
    }
  }
}
