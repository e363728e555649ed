/** Counting the elements of a list that satisfy a predicate. */
module Counting {
  import opened StableSort

  function Count<T>(p: T -> bool, s: seq<T>): nat {
    if s == [] then 0 else Count(p, s[..|s| - 1]) + if p(s[|s| - 1]) then 1 else 0
  }

  /** The count is the number of positions at which the predicate holds. */
  lemma {:induction false} CountAt<T>(p: T -> bool, s: seq<T>, at: set<int>)
    requires forall i :: i in at ==> 0 <= i < |s|
    requires forall i :: 0 <= i < |s| ==> (i in at <==> p(s[i]))
    ensures Count(p, s) == |at|
  {
    if s == [] {
      assert forall i :: i !in at;
      assert at == {};
    } else {
      var n := |s| - 1;
      CountAt(p, s[..n], at - {n});
      assert at - {n} + (if p(s[n]) then {n} else {}) == at;
    }
  }

  lemma {:induction false} CountBound<T>(p: T -> bool, s: seq<T>)
    ensures Count(p, s) <= |s|
  {
    if s != [] {
      CountBound(p, s[..|s| - 1]);
    }
  }

  lemma {:induction false} CountPositive<T>(p: T -> bool, s: seq<T>, x: T)
    requires x in s && p(x)
    ensures Count(p, s) > 0
  {
    if x != s[|s| - 1] {
      CountPositive(p, s[..|s| - 1], x);
    }
  }

  lemma {:induction false} CountBySum<T>(p: T -> bool, q: T -> bool, r: T -> bool, s: seq<T>)
    requires forall x :: x in s ==> (r(x) <==> p(x) || q(x)) && !(p(x) && q(x))
    ensures Count(p, s) + Count(q, s) == Count(r, s)
  {
    if s != [] {
      assert s == s[..|s| - 1] + [s[|s| - 1]];
      CountBySum(p, q, r, s[..|s| - 1]);
    }
  }

  lemma {:induction false} CountSame<T>(p: T -> bool, q: T -> bool, s: seq<T>)
    requires forall x :: x in s ==> (p(x) <==> q(x))
    ensures Count(p, s) == Count(q, s)
  {
    if s != [] {
      assert s == s[..|s| - 1] + [s[|s| - 1]];
      CountSame(p, q, s[..|s| - 1]);
    }
  }

  lemma CountOneMore<T>(p: T -> bool, s: seq<T>, x: T)
    ensures Count(p, s + [x]) == Count(p, s) + if p(x) then 1 else 0
  {
    assert (s + [x])[..|s|] == s;
  }

  lemma {:induction false} CountAll<T>(p: T -> bool, s: seq<T>)
    requires forall x :: x in s ==> p(x)
    ensures Count(p, s) == |s|
  {
    if s != [] {
      assert s == s[..|s| - 1] + [s[|s| - 1]];
      CountAll(p, s[..|s| - 1]);
    }
  }

  lemma {:induction false} CountAppend<T>(p: T -> bool, a: seq<T>, b: seq<T>)
    ensures Count(p, a + b) == Count(p, a) + Count(p, b)
  {
    if b == [] {
      assert a + b == a;
    } else {
      CountAppend(p, a, b[..|b| - 1]);
      assert (a + b)[..|a + b| - 1] == a + b[..|b| - 1];
    }
  }

  lemma CountAround<T>(p: T -> bool, a: seq<T>, x: T, b: seq<T>)
    ensures Count(p, a + [x] + b) == Count(p, a + b) + if p(x) then 1 else 0
  {
    CountAppend(p, a + [x], b);
    CountOneMore(p, a, x);
    CountAppend(p, a, b);
  }

  lemma {:induction false} CountPermuted<T>(p: T -> bool, a: seq<T>, b: seq<T>)
    requires multiset(a) == multiset(b)
    ensures Count(p, a) == Count(p, b)
    decreases |a|
  {
    if a == [] {
      assert |b| == |multiset(b)| == 0;
    } else {
      var j := FindFirst(a, b);
      var rest := b[..j] + b[j + 1..];
      CountPermuted(p, a[1..], rest);
      hide Count;
      CountAround(p, [], a[0], a[1..]);
      CountAround(p, b[..j], a[0], b[j + 1..]);
      assert a == [] + [a[0]] + a[1..] && [] + a[1..] == a[1..];
      assert b == b[..j] + [a[0]] + b[j + 1..];
    }
  }
}
