/** Sums over sequences do not depend on the order of the elements. */
module Permutations {

  ghost function Sum<T>(f: T -> real, s: seq<T>): real {
    if s == [] then 0.0 else Sum(f, s[..|s| - 1]) + f(s[|s| - 1])
  }

  lemma {:induction false} SumOfConcatenation<T>(f: T -> real, a: seq<T>, b: seq<T>)
    ensures Sum(f, a + b) == Sum(f, a) + Sum(f, b)
    decreases |b|
  {
    if b == [] {
      assert a + b == a;
    } else {
      assert (a + b)[..|a + b| - 1] == a + b[..|b| - 1];
      SumOfConcatenation(f, a, b[..|b| - 1]);
    }
  }

  /** `s` is `s'` with one occurrence of its last element taken out of some position. */
  lemma TakeOut<T>(s: seq<T>, s': seq<T>) returns (a: seq<T>, b: seq<T>)
    requires s != [] && multiset(s) == multiset(s')
    ensures s' == a + [s[|s| - 1]] + b
    ensures multiset(s[..|s| - 1]) == multiset(a + b)
  {
    var last := s[|s| - 1];
    assert last in multiset(s');
    var k :| 0 <= k < |s'| && s'[k] == last;
    a, b := s'[..k], s'[k + 1..];
    assert s' == a + [last] + b;
    assert s == s[..|s| - 1] + [last];
    assert multiset(a + b) == multiset(s') - multiset{last};
    assert multiset(s[..|s| - 1]) == multiset(s) - multiset{last};
  }

  lemma {:induction false} SumIsOrderFree<T>(f: T -> real, s: seq<T>, s': seq<T>)
    requires multiset(s) == multiset(s')
    ensures Sum(f, s) == Sum(f, s')
    decreases |s|
  {
    if s == [] {
      assert |multiset(s')| == 0;
    } else {
      var last := s[|s| - 1];
      var a, b := TakeOut(s, s');
      SumIsOrderFree(f, s[..|s| - 1], a + b);
      SumOfConcatenation(f, a + [last], b);
      SumOfConcatenation(f, a, [last]);
      SumOfConcatenation(f, a, b);
      assert [last][..0] == [];
      assert Sum(f, [last]) == f(last);
    }
  }

  lemma SameElements<T>(s: seq<T>, s': seq<T>, x: T)
    requires multiset(s) == multiset(s')
    ensures x in s <==> x in s'
  {
    assert x in s <==> x in multiset(s);
    assert x in s' <==> x in multiset(s');
  }

  /** The elements that satisfy p, in order. */
  ghost function Filter<T>(p: T -> bool, s: seq<T>): seq<T> {
    if s == [] then [] else Filter(p, s[..|s| - 1]) + (if p(s[|s| - 1]) then [s[|s| - 1]] else [])
  }

  ghost function Not<T>(p: T -> bool): T -> bool { x => !p(x) }

  lemma {:induction false} FilterSplits<T>(p: T -> bool, s: seq<T>)
    ensures multiset(Filter(p, s)) + multiset(Filter(Not(p), s)) == multiset(s)
    ensures multiset(Filter(p, s) + Filter(Not(p), s)) == multiset(s)
  {
    if s != [] {
      var init, last := s[..|s| - 1], s[|s| - 1];
      FilterSplits(p, init);
      assert s == init + [last];
      assert Filter(p, s) == Filter(p, init) + (if p(last) then [last] else []);
      assert Filter(Not(p), s) == Filter(Not(p), init) + (if p(last) then [] else [last]);
    }
  }
}
