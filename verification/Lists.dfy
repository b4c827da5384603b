/** Sequences, sets and multisets of any elements. */
module Lists {

  predicate Distinct<T(==)>(s: seq<T>) {
    forall i, j | 0 <= i < j < |s| :: s[i] != s[j]
  }

  lemma Pick<T>(s: set<T>) returns (x: T)
    requires s != {}
    ensures x in s
  {
    x :| x in s;
  }

  function Elements<T>(s: seq<T>): set<T> { set x | x in s }

  lemma ElementsSnoc<T>(s: seq<T>, x: T)
    ensures Elements(s + [x]) == Elements(s) + {x}
  {
  }

  lemma SetSnoc<T>(s: set<T>, x: T)
    requires x !in s
    ensures multiset(s + {x}) == multiset(s) + multiset{x}
  {
  }

  /** A sequence without repetitions is determined, up to order, by its set of elements. */
  lemma {:induction false} DistinctMultiset<T>(s: seq<T>)
    requires Distinct(s)
    ensures multiset(s) == multiset(Elements(s))
  {
    if s != [] {
      var t, x := s[..|s| - 1], s[|s| - 1];
      DistinctMultiset(t);
      assert s == t + [x];
      ElementsSnoc(t, x);
      SetSnoc(Elements(t), x);
    }
  }

  lemma {:induction false} DistinctFromMultiset<T>(s: seq<T>)
    requires forall x | x in s :: multiset(s)[x] == 1
    ensures Distinct(s)
  {
    if s != [] {
      var t := s[..|s| - 1];
      assert s == t + [s[|s| - 1]];
      var x := s[|s| - 1];
      assert x in s && multiset(s)[x] == multiset(t)[x] + 1;
      assert x !in multiset(t);
      forall y | y in t ensures multiset(t)[y] == 1 {
        assert y in multiset(t) && y in s;
      }
      DistinctFromMultiset(t);
    }
  }

  lemma TailMultiset<T>(s: seq<T>)
    requires s != []
    ensures multiset(s[1..]) == multiset(s) - multiset{s[0]}
  {
    assert s == [s[0]] + s[1..];
  }

  lemma DistinctCard<T>(s: seq<T>)
    requires Distinct(s)
    ensures |Elements(s)| == |s|
  {
    DistinctMultiset(s);
    assert |multiset(s)| == |s|;
    CardOfSet(Elements(s));
  }

  lemma {:induction false} CardOfSet<T>(s: set<T>)
    ensures |multiset(s)| == |s|
    decreases |s|
  {
    if s != {} {
      var x := Pick(s);
      CardOfSet(s - {x});
      assert multiset(s) == multiset(s - {x}) + multiset{x};
    }
  }

  lemma {:induction false} ElementsCard<T>(s: seq<T>)
    ensures |Elements(s)| <= |s|
  {
    if s != [] {
      var n := |s| - 1;
      ElementsCard(s[..n]);
      assert s == s[..n] + [s[n]];
      assert Elements(s) == Elements(s[..n]) + {s[n]};
    } else {
      assert Elements(s) == {};
    }
  }

  lemma {:induction false} DistinctFromCard<T>(s: seq<T>)
    requires |Elements(s)| == |s|
    ensures Distinct(s)
  {
    if s != [] {
      var n := |s| - 1;
      assert s == s[..n] + [s[n]];
      assert Elements(s) == Elements(s[..n]) + {s[n]};
      ElementsCard(s[..n]);
      DistinctFromCard(s[..n]);
      assert s[n] !in Elements(s[..n]);
    }
  }

  lemma SubsetCard<T>(a: set<T>, b: set<T>)
    requires a <= b && |b| <= |a|
    ensures a == b
  {
    assert b == a + (b - a);
    assert |b| == |a| + |b - a|;
  }

  /** The lists of each element in turn. */
  function Gather<T, U>(s: seq<T>, f: T -> seq<U>): seq<U> {
    if s == [] then [] else Gather(s[..|s| - 1], f) + f(s[|s| - 1])
  }

  lemma {:induction false} GatherMeaning<T, U>(s: seq<T>, f: T -> seq<U>, u: U)
    ensures u in Gather(s, f) <==> exists x | x in s :: u in f(x)
  {
    if s != [] {
      var n := |s| - 1;
      GatherMeaning(s[..n], f, u);
      assert s == s[..n] + [s[n]];
    }
  }

  lemma {:induction false} GatherConcat<T, U>(a: seq<T>, b: seq<T>, f: T -> seq<U>)
    ensures Gather(a + b, f) == Gather(a, f) + Gather(b, f)
  {
    if b == [] {
      assert a + b == a;
    } else {
      var n := |b| - 1;
      GatherConcat(a, b[..n], f);
      assert (a + b)[..|a + b| - 1] == a + b[..n];
    }
  }

  lemma LastTaken<T>(a: seq<T>)
    requires a != []
    ensures multiset(a[..|a| - 1]) == multiset(a) - multiset{a[|a| - 1]}
  {
    assert a == a[..|a| - 1] + [a[|a| - 1]];
  }

  lemma MiddleTaken<T>(b: seq<T>, k: nat)
    requires k < |b|
    ensures b == b[..k] + [b[k]] + b[k + 1..]
    ensures multiset(b[..k] + b[k + 1..]) == multiset(b) - multiset{b[k]}
  {
    assert b == b[..k] + [b[k]] + b[k + 1..];
    assert multiset(b) == multiset(b[..k]) + multiset{b[k]} + multiset(b[k + 1..]);
  }

  /** One element taken out of each of two sequences with the same elements. */
  lemma TakeOut<T>(a: seq<T>, b: seq<T>) returns (k: nat)
    requires multiset(a) == multiset(b) && a != []
    ensures k < |b| && b[k] == a[|a| - 1] && b == b[..k] + [b[k]] + b[k + 1..]
    ensures multiset(a[..|a| - 1]) == multiset(b[..k] + b[k + 1..])
  {
    var x := a[|a| - 1];
    LastTaken(a);
    assert x in multiset(a);
    assert x in multiset(b);
    k :| 0 <= k < |b| && b[k] == x;
    MiddleTaken(b, k);
  }

  lemma {:induction false} GatherPermuted<T, U>(a: seq<T>, b: seq<T>, f: T -> seq<U>)
    requires multiset(a) == multiset(b)
    ensures multiset(Gather(a, f)) == multiset(Gather(b, f))
  {
    assert |a| == |multiset(a)| == |multiset(b)| == |b|;
    if a != [] {
      var n := |a| - 1;
      var k := TakeOut(a, b);
      var left, right := b[..k], b[k + 1..];
      GatherPermuted(a[..n], left + right, f);
      GatherConcat(left, right, f);
      GatherConcat(left + [a[n]], right, f);
      assert (left + [a[n]])[..k] == left;
    }
  }

  lemma Regrouped<T>(a: seq<T>, b: seq<T>, c: seq<T>)
    ensures a + b + c == a + (b + c)
  {
  }

  lemma SubsetSize<T>(a: set<T>, b: set<T>)
    requires a <= b
    ensures |a| <= |b|
  {
    assert b == a + (b - a);
  }

  lemma {:induction false} GatherSource<T, U>(s: seq<T>, f: T -> seq<U>, i: nat) returns (k: nat)
    requires i < |Gather(s, f)|
    ensures k < |s| && Gather(s, f)[i] in f(s[k])
  {
    var n := |s| - 1;
    if i < |Gather(s[..n], f)| {
      k := GatherSource(s[..n], f, i);
    } else {
      k := n;
    }
  }

  // -------------------------------------------------------------------- sums

  function Sum(ns: seq<nat>): nat { if ns == [] then 0 else Sum(ns[..|ns| - 1]) + ns[|ns| - 1] }

  lemma OneMore(n: nat, k: nat)
    ensures (n + 1) * k == n * k + k
  {
  }

  lemma Times(a: nat, b: nat, c: nat)
    requires a <= b
    ensures a * c <= b * c
  {
    assert b * c == a * c + (b - a) * c;
  }

  lemma {:induction false} SumAtMost(ns: seq<nat>, most: nat)
    requires forall n | n in ns :: n <= most
    ensures Sum(ns) <= |ns| * most
  {
    if ns != [] {
      var k := |ns| - 1;
      assert ns[k] in ns && forall n | n in ns[..k] :: n in ns;
      SumAtMost(ns[..k], most);
      OneMore(k, most);
    }
  }

  lemma {:induction false} SumAtLeast(ns: seq<nat>, least: nat)
    requires forall n | n in ns :: n >= least
    ensures Sum(ns) >= |ns| * least
  {
    if ns != [] {
      var k := |ns| - 1;
      assert ns[k] in ns && forall n | n in ns[..k] :: n in ns;
      SumAtLeast(ns[..k], least);
      OneMore(k, least);
    }
  }
}
