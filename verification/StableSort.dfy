/** `list.sort(key=...)`: a stable sort, and what determines its result. */
module StableSort {
  import opened Basics

  /** Comparing keys: a total preorder on the elements. */
  ghost predicate TotalPreorder<T(!new)>(le: (T, T) -> bool) {
    && (forall a, b :: le(a, b) || le(b, a))
    && (forall a, b, c :: le(a, b) && le(b, c) ==> le(a, c))
  }

  /** Puts `x` before the first element that is not smaller. */
  function Insert<T>(le: (T, T) -> bool, x: T, s: seq<T>): seq<T> {
    if s == [] || le(x, s[0]) then [x] + s else [s[0]] + Insert(le, x, s[1..])
  }

  function Sort<T>(le: (T, T) -> bool, s: seq<T>): seq<T> {
    if s == [] then [] else Insert(le, s[0], Sort(le, s[1..]))
  }

  ghost predicate Sorted<T>(le: (T, T) -> bool, s: seq<T>) {
    forall i, j :: 0 <= i < j < |s| ==> le(s[i], s[j])
  }

  /** The elements of `s` whose key equals that of `x`, in their order. */
  function Class<T>(le: (T, T) -> bool, x: T, s: seq<T>): seq<T> {
    if s == [] then []
    else (if le(x, s[0]) && le(s[0], x) then [s[0]] else []) + Class(le, x, s[1..])
  }

  lemma {:induction false} InsertIsSorted<T(!new)>(le: (T, T) -> bool, x: T, s: seq<T>)
    requires TotalPreorder(le) && Sorted(le, s)
    ensures Sorted(le, Insert(le, x, s))
    ensures multiset(Insert(le, x, s)) == multiset{x} + multiset(s)
  {
    if s != [] {
      assert s == [s[0]] + s[1..];
      if !le(x, s[0]) {
        InsertIsSorted(le, x, s[1..]);
        SmallestFirst(le, s[0], Insert(le, x, s[1..]), x, s[1..]);
      }
    }
  }

  lemma SmallestFirst<T(!new)>(le: (T, T) -> bool, first: T, t: seq<T>, x: T, s: seq<T>)
    requires Sorted(le, t) && multiset(t) == multiset{x} + multiset(s)
    requires le(first, x) && forall y :: y in s ==> le(first, y)
    ensures Sorted(le, [first] + t)
  {
    forall k | 0 <= k < |t|
      ensures le(first, t[k])
    {
      assert t[k] in multiset(t);
    }
  }

  /** The result is sorted and holds the same elements. */
  lemma {:induction false} SortIsSorted<T(!new)>(le: (T, T) -> bool, s: seq<T>)
    requires TotalPreorder(le)
    ensures Sorted(le, Sort(le, s))
    ensures multiset(Sort(le, s)) == multiset(s)
  {
    if s != [] {
      SortIsSorted(le, s[1..]);
      InsertIsSorted(le, s[0], Sort(le, s[1..]));
      assert s == [s[0]] + s[1..];
    }
  }

  lemma ClassOfCons<T>(le: (T, T) -> bool, k: T, x: T, s: seq<T>)
    ensures Class(le, k, [x] + s) == (if le(k, x) && le(x, k) then [x] else []) + Class(le, k, s)
  {
    assert ([x] + s)[1..] == s;
  }

  lemma ClassOfOne<T>(le: (T, T) -> bool, k: T, x: T)
    ensures Class(le, k, [x]) == if le(k, x) && le(x, k) then [x] else []
  {
    assert [x] + [] == [x];
    ClassOfCons(le, k, x, []);
  }

  lemma NotBothInClass<T(!new)>(le: (T, T) -> bool, k: T, x: T, y: T)
    requires TotalPreorder(le) && !le(x, y)
    ensures !(le(k, x) && le(x, k)) || !(le(k, y) && le(y, k))
  {
  }

  lemma {:induction false} InsertKeepsClass<T(!new)>(le: (T, T) -> bool, x: T, s: seq<T>, k: T)
    requires TotalPreorder(le)
    ensures Class(le, k, Insert(le, x, s)) == Class(le, k, [x] + s)
  {
    hide TotalPreorder;
    if s != [] && !le(x, s[0]) {
      var y, r := s[0], s[1..];
      InsertKeepsClass(le, x, r, k);
      ClassOfCons(le, k, y, Insert(le, x, r));
      ClassOfCons(le, k, x, s);
      ClassOfCons(le, k, x, r);
      NotBothInClass(le, k, x, y);
    }
  }

  /** Stability: elements with equal keys stay in their order. */
  lemma {:induction false} SortIsStable<T(!new)>(le: (T, T) -> bool, s: seq<T>, k: T)
    requires TotalPreorder(le)
    ensures Class(le, k, Sort(le, s)) == Class(le, k, s)
  {
    if s != [] {
      SortIsStable(le, s[1..], k);
      var t := Sort(le, s[1..]);
      InsertKeepsClass(le, s[0], t, k);
      assert ([s[0]] + t)[1..] == t;
    }
  }

  lemma {:induction false} ClassMembers<T>(le: (T, T) -> bool, x: T, s: seq<T>, y: T)
    ensures y in Class(le, x, s) <==> y in s && le(x, y) && le(y, x)
  {
    if s != [] {
      ClassMembers(le, x, s[1..], y);
      assert s == [s[0]] + s[1..];
    }
  }

  lemma {:induction false} BeforeInClass<T>(le: (T, T) -> bool, k: T, s: seq<T>, x: T, y: T)
    ensures Before(Class(le, k, s), x, y) <==>
            Before(s, x, y) && le(k, x) && le(x, k) && le(k, y) && le(y, k)
  {
    if s == [] {
      assert Class(le, k, s) == [];
    } else {
      assert s == [s[0]] + s[1..];
      BeforeInClass(le, k, s[1..], x, y);
      BeforeCons(s[0], s[1..], x, y);
      ClassMembers(le, k, s[1..], y);
      hide Class, Before;
      ClassOfCons(le, k, s[0], s[1..]);
      BeforeCons(s[0], Class(le, k, s[1..]), x, y);
      assert [] + Class(le, k, s[1..]) == Class(le, k, s[1..]);
    }
  }

  /** Of two elements with equal keys, the sorted list has first what the list has first. */
  lemma SortKeepsTies<T(!new)>(le: (T, T) -> bool, s: seq<T>, x: T, y: T)
    requires TotalPreorder(le) && le(x, y) && le(y, x)
    ensures Before(Sort(le, s), x, y) <==> Before(s, x, y)
  {
    hide Before;
    SortIsStable(le, s, x);
    BeforeInClass(le, x, s, x, y);
    BeforeInClass(le, x, Sort(le, s), x, y);
  }

  lemma FirstInClass<T(!new)>(le: (T, T) -> bool, s: seq<T>)
    requires TotalPreorder(le) && s != []
    ensures Class(le, s[0], s) != []
  {
    assert le(s[0], s[0]);
  }

  /** Two sorted lists with the same equal-key sublists are the same list. */
  lemma {:induction false} SortedByClasses<T(!new)>(le: (T, T) -> bool, a: seq<T>, b: seq<T>)
    requires TotalPreorder(le) && Sorted(le, a) && Sorted(le, b)
    requires forall k :: Class(le, k, a) == Class(le, k, b)
    ensures a == b
  {
    if a == [] {
      if b != [] {
        FirstInClass(le, b);
      }
    } else {
      ClassMembers(le, a[0], a, a[0]);
      ClassMembers(le, a[0], b, a[0]);
      assert a[0] in b;
      ClassMembers(le, b[0], a, b[0]);
      ClassMembers(le, b[0], b, b[0]);
      assert b[0] in a;
      assert le(a[0], b[0]) && le(b[0], a[0]);
      assert Class(le, a[0], a)[0] == a[0];
      assert Class(le, a[0], b)[0] == b[0];
      forall k
        ensures Class(le, k, a[1..]) == Class(le, k, b[1..])
      {
        assert Class(le, k, a) == Class(le, k, b);
        var first := if le(k, a[0]) && le(a[0], k) then [a[0]] else [];
        assert Class(le, k, a)[|first|..] == Class(le, k, a[1..]);
        assert Class(le, k, b)[|first|..] == Class(le, k, b[1..]);
      }
      SortedByClasses(le, a[1..], b[1..]);
      assert a == [a[0]] + a[1..] && b == [b[0]] + b[1..];
    }
  }

  /** The sorted list depends on the input only through the equal-key sublists. */
  lemma SortByClasses<T(!new)>(le: (T, T) -> bool, a: seq<T>, b: seq<T>)
    requires TotalPreorder(le)
    requires forall k :: Class(le, k, a) == Class(le, k, b)
    ensures Sort(le, a) == Sort(le, b)
  {
    SortIsSorted(le, a);
    SortIsSorted(le, b);
    forall k
      ensures Class(le, k, Sort(le, a)) == Class(le, k, Sort(le, b))
    {
      SortIsStable(le, a, k);
      SortIsStable(le, b, k);
    }
    SortedByClasses(le, Sort(le, a), Sort(le, b));
  }

  /** And it depends on them: differing equal-key sublists show in the sorted list. */
  lemma SortShowsClasses<T(!new)>(le: (T, T) -> bool, a: seq<T>, b: seq<T>, k: T)
    requires TotalPreorder(le)
    requires Sort(le, a) == Sort(le, b)
    ensures Class(le, k, a) == Class(le, k, b)
  {
    SortIsStable(le, a, k);
    SortIsStable(le, b, k);
  }

  lemma {:induction false} ClassOfConcat<T>(le: (T, T) -> bool, k: T, a: seq<T>, b: seq<T>)
    ensures Class(le, k, a + b) == Class(le, k, a) + Class(le, k, b)
  {
    if a == [] {
      assert a + b == b;
    } else {
      hide Class;
      var x, r := a[0], a[1..];
      ClassOfConcat(le, k, r, b);
      ClassOfCons(le, k, x, r + b);
      ClassOfCons(le, k, x, r);
      assert a == [x] + r && a + b == [x] + (r + b);
      Associate(if le(k, x) && le(x, k) then [x] else [], Class(le, k, r), Class(le, k, b));
    }
  }

  // ----- Taking an element out -----

  /** In a list without repetition nothing occurs twice. */
  lemma {:induction false} DistinctOnce<T>(s: seq<T>, x: T)
    requires NoRepetition(s)
    ensures multiset(s)[x] <= 1
  {
    if s != [] {
      var front, last := s[..|s| - 1], s[|s| - 1];
      assert s == front + [last];
      DistinctOnce(front, x);
      assert last !in front;
      assert multiset(front)[last] == 0;
    }
  }

  /** A list is one of its elements and the rest. */
  lemma TakeOut<T>(s: seq<T>, i: nat)
    requires i < |s|
    ensures multiset(s) == multiset(s[..i] + s[i + 1..]) + multiset{s[i]}
    ensures s == s[..i] + [s[i]] + s[i + 1..]
  {
    assert s == s[..i] + [s[i]] + s[i + 1..];
    assert multiset(s[..i] + [s[i]] + s[i + 1..]) == multiset(s[..i]) + multiset{s[i]} + multiset(s[i + 1..]);
  }

  lemma Cancel<T>(a: multiset<T>, b: multiset<T>, x: T)
    requires a + multiset{x} == b + multiset{x}
    ensures a == b
  {
    assert forall y :: (a + multiset{x})[y] == a[y] + multiset{x}[y];
  }

  /** The first element of one order is somewhere in the other, and the rests agree. */
  lemma FindFirst<T>(a: seq<T>, b: seq<T>) returns (j: nat)
    requires a != [] && multiset(a) == multiset(b)
    ensures j < |b| && b[j] == a[0] && multiset(a[1..]) == multiset(b[..j] + b[j + 1..])
  {
    assert a[0] in multiset(b);
    j :| 0 <= j < |b| && b[j] == a[0];
    TakeOut(a, 0);
    TakeOut(b, j);
    assert a[..0] + a[1..] == a[1..];
    Cancel(multiset(a[1..]), multiset(b[..j] + b[j + 1..]), a[0]);
  }

  // ----- Comparing strings and tuples -----

  /** `<=` on strings, by code point */
  predicate StringLe(a: string, b: string) {
    || a == ""
    || (b != "" && (a[0] < b[0] || (a[0] == b[0] && StringLe(a[1..], b[1..]))))
  }

  lemma {:induction false} StringLeTotal(a: string, b: string)
    ensures StringLe(a, b) || StringLe(b, a)
  {
    if a != "" && b != "" {
      StringLeTotal(a[1..], b[1..]);
    }
  }

  lemma {:induction false} StringLeTransitive(a: string, b: string, c: string)
    requires StringLe(a, b) && StringLe(b, c)
    ensures StringLe(a, c)
  {
    if a != "" && a[0] == b[0] == c[0] {
      StringLeTransitive(a[1..], b[1..], c[1..]);
    }
  }

  lemma {:induction false} StringLeAntisymmetric(a: string, b: string)
    requires StringLe(a, b) && StringLe(b, a)
    ensures a == b
  {
    if a != "" {
      StringLeAntisymmetric(a[1..], b[1..]);
      assert a == [a[0]] + a[1..] && b == [b[0]] + b[1..];
    }
  }

  /** The order of strings: a prefix comes first, otherwise the first difference decides. */
  lemma {:induction false} StringLeIs(a: string, b: string)
    ensures StringLe(a, b) <==> a <= b || exists k :: 0 <= k < |a| && k < |b| && a[..k] == b[..k] && a[k] < b[k]
  {
    if a != [] && b != [] && a[0] == b[0] {
      StringLeIs(a[1..], b[1..]);
      if k :| 0 <= k < |a[1..]| && k < |b[1..]| && a[1..][..k] == b[1..][..k] && a[1..][k] < b[1..][k] {
        assert a[..k + 1] == [a[0]] + a[1..][..k] && b[..k + 1] == [b[0]] + b[1..][..k];
      }
      if k :| 0 <= k < |a| && k < |b| && a[..k] == b[..k] && a[k] < b[k] {
        assert a[1..][..k - 1] == a[..k][1..] && b[1..][..k - 1] == b[..k][1..];
      }
    }
  }

  /** `<=` on pairs of a number and a string */
  predicate RankedLe(n: int, a: string, m: int, b: string) {
    n < m || (n == m && StringLe(a, b))
  }
}
