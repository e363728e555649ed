/** Option and Result values, and operations on maps and sequences. */
module Basics {
  datatype Option<+T> = None | Some(value: T) {
    predicate IsFailure() {
      None?
    }

    function PropagateFailure<U>(): Option<U>
      requires None?
    {
      Option<U>.None
    }

    function Extract(): T
      requires Some?
    {
      value
    }
  }

  datatype Result<+T, +E> = Ok(value: T) | Err(error: E)

  /** `m.get(key)` */
  function Lookup<K, V>(m: map<K, V>, key: K): Option<V> {
    if key in m then Some(m[key]) else None
  }

  predicate NoRepetition<T(==)>(s: seq<T>) {
    forall i, j :: 0 <= i < j < |s| ==> s[i] != s[j]
  }

  lemma NoRepetitionCons<T>(x: T, s: seq<T>)
    ensures NoRepetition([x] + s) <==> x !in s && NoRepetition(s)
  {
    var t := [x] + s;
    assert t[0] == x && forall i :: 0 <= i < |s| ==> t[i + 1] == s[i];
    if x !in s && NoRepetition(s) {
      assert forall j :: 1 <= j < |t| ==> t[j] == s[j - 1];
    }
  }

  /** `x` is listed before `y` */
  ghost predicate Before<T>(s: seq<T>, x: T, y: T) {
    exists i, j :: 0 <= i < j < |s| && s[i] == x && s[j] == y
  }

  lemma BeforeCons<T>(first: T, s: seq<T>, x: T, y: T)
    ensures Before([first] + s, x, y) <==> (first == x && y in s) || Before(s, x, y)
  {
    var t := [first] + s;
    assert forall k :: 0 <= k < |s| ==> t[k + 1] == s[k];
    if i, j :| 0 <= i < j < |t| && t[i] == x && t[j] == y {
      assert s[j - 1] == y && (i > 0 ==> s[i - 1] == x);
    }
    if first == x && y in s {
      var j :| 0 <= j < |s| && s[j] == y;
      assert t[0] == x && t[j + 1] == y;
    }
    if i, j :| 0 <= i < j < |s| && s[i] == x && s[j] == y {
      assert t[i + 1] == x && t[j + 1] == y;
    }
  }

  /** Sequence concatenation is associative. */
  lemma Associate<T>(a: seq<T>, b: seq<T>, c: seq<T>)
    ensures a + (b + c) == (a + b) + c
  {
  }

  /** The length of the longest start of `s` whose characters satisfy `p` */
  function WordLength(s: string, p: char -> bool): (n: nat)
    ensures n <= |s| && forall i :: 0 <= i < n ==> p(s[i])
    ensures n < |s| ==> !p(s[n])
  {
    if s != "" && p(s[0]) then 1 + WordLength(s[1..], p) else 0
  }

  lemma {:induction false} WholeWord(s: string, p: char -> bool)
    requires forall i :: 0 <= i < |s| ==> p(s[i])
    ensures WordLength(s, p) == |s|
  {
    if s != "" {
      WholeWord(s[1..], p);
    }
  }
}
