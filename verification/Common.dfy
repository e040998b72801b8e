// Shared result types and small facts about finite sets.
module Common {
  datatype Option<+T> = None | Some(value: T)

  datatype Result<+T> = Ok(value: T) | Err(error: string)

  lemma {:induction false} HasMember<T(!new)>(s: seq<T>)
    ensures s != [] ==> exists x :: x in s
  {
    if s != [] {
      assert s[0] in s;
    }
  }

  ghost function Below(n: nat): (r: set<nat>)
    ensures |r| == n && forall i: nat :: i in r <==> i < n
  {
    if n == 0 then {} else Below(n - 1) + {n - 1}
  }

  lemma {:induction false} SubsetCardinality<T>(small: set<T>, big: set<T>)
    requires small <= big
    ensures |small| <= |big|
    decreases small
  {
    if small != {} {
      var x :| x in small;
      SubsetCardinality(small - {x}, big - {x});
    }
  }

  // Removing an entry leaves the last one in place, unless it is the last one.
  lemma {:induction false} RemoveOne<T>(s: seq<T>, i: nat)
    requires i < |s|
    ensures var last := |s| - 1; var front := s[..last];
      s[..i] + s[i + 1..] == if i == last then front else (front[..i] + front[i + 1..]) + [s[last]]
  {
  }

  ghost function Image<X, Y>(f: X -> Y, s: set<X>): set<Y> {
    set x | x in s :: f(x)
  }

  lemma {:induction false} InjectiveImage<X, Y>(f: X -> Y, s: set<X>)
    requires forall x, y :: x in s && y in s && f(x) == f(y) ==> x == y
    ensures |Image(f, s)| == |s|
    decreases |s|
  {
    if s != {} {
      var x :| x in s;
      InjectiveImage(f, s - {x});
      assert Image(f, s) == Image(f, s - {x}) + {f(x)};
      assert f(x) !in Image(f, s - {x});
    }
  }

  lemma {:induction false} KeptPlusRemoved<K, V>(m: map<K, V>, removed: set<K>)
    requires removed <= m.Keys
    ensures |m - removed| + |removed| == |m|
  {
    assert (m - removed).Keys == m.Keys - removed;
    assert |m.Keys - removed| + |removed| == |m.Keys|;
  }

  ghost function Times(count: nat, amount: real): real {
    if count == 0 then 0.0 else Times(count - 1, amount) + amount
  }

  lemma {:induction false} TimesOne(amount: real)
    ensures Times(0, amount) == 0.0 && Times(1, amount) == amount
  {
  }

  lemma {:induction false} TimesMonotone(few: nat, many: nat, amount: real)
    requires few <= many && amount >= 0.0
    ensures Times(few, amount) <= Times(many, amount)
  {
    if few < many {
      TimesMonotone(few, many - 1, amount);
    }
  }

  lemma {:induction false} Distribute(a: real, b: real, amount: real)
    ensures (a + b) * amount == a * amount + b * amount
  {
  }

  lemma {:induction false} TimesIsProduct(count: nat, amount: real)
    ensures Times(count, amount) == count as real * amount
  {
    if count > 0 {
      TimesIsProduct(count - 1, amount);
      assert count as real == (count - 1) as real + 1.0;
      Distribute((count - 1) as real, 1.0, amount);
    }
  }

  // The sum of f over a finite set.
  ghost function Sum<X>(s: set<X>, f: X -> nat): nat
    decreases |s|
  {
    if s == {} then 0
    else
      var x :| x in s;
      f(x) + Sum(s - {x}, f)
  }

  lemma {:induction false} SumPick<X>(s: set<X>, f: X -> nat, x: X)
    requires x in s
    ensures Sum(s, f) == f(x) + Sum(s - {x}, f)
    decreases |s|
  {
    var y :| y in s && Sum(s, f) == f(y) + Sum(s - {y}, f);
    if y != x {
      SumPick(s - {y}, f, x);
      SumPick(s - {x}, f, y);
      assert s - {y} - {x} == s - {x} - {y};
    }
  }

  lemma {:induction false} SumSame<X>(s: set<X>, f: X -> nat, g: X -> nat)
    requires forall x :: x in s ==> f(x) == g(x)
    ensures Sum(s, f) == Sum(s, g)
    decreases |s|
  {
    if s != {} {
      var x :| x in s && Sum(s, f) == f(x) + Sum(s - {x}, f);
      SumSame(s - {x}, f, g);
      SumPick(s, g, x);
    }
  }
}
