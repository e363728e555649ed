/** Dependency graphs: no cycle, and the ranking of ids that this amounts to. */
module DependencyGraph {

  datatype Node = Node(id: string, deps: seq<string>)

  function Ids(g: seq<Node>): set<string> {
    set n | n in g :: n.id
  }

  /** The node named `a` depends on `b`, and `b` names a node. */
  ghost predicate Edge(g: seq<Node>, a: string, b: string) {
    b in Ids(g) && exists n :: n in g && n.id == a && b in n.deps
  }

  ghost predicate IsPath(g: seq<Node>, p: seq<string>) {
    forall i :: 0 <= i < |p| - 1 ==> Edge(g, p[i], p[i + 1])
  }

  ghost predicate IsCycle(g: seq<Node>, p: seq<string>) {
    |p| >= 2 && p[0] == p[|p| - 1] && IsPath(g, p)
  }

  ghost predicate Acyclic(g: seq<Node>) {
    forall p :: !IsCycle(g, p)
  }

  /** Dependencies have smaller ranks. */
  ghost predicate Ranked(g: seq<Node>, rank: string -> nat) {
    forall a, b :: Edge(g, a, b) ==> rank(b) < rank(a)
  }

  lemma {:induction false} RankFallsOnPath(g: seq<Node>, rank: string -> nat, p: seq<string>)
    requires Ranked(g, rank) && IsPath(g, p) && |p| >= 2
    ensures rank(p[|p| - 1]) < rank(p[0])
  {
    assert Edge(g, p[0], p[1]);
    if |p| > 2 {
      forall i | 0 <= i < |p[1..]| - 1
        ensures Edge(g, p[1..][i], p[1..][i + 1])
      {
        assert Edge(g, p[i + 1], p[i + 1 + 1]);
      }
      RankFallsOnPath(g, rank, p[1..]);
    }
  }

  /** A ranked graph has no cycle. */
  lemma RankedIsAcyclic(g: seq<Node>, rank: string -> nat)
    requires Ranked(g, rank)
    ensures Acyclic(g)
  {
    forall p
      ensures !IsCycle(g, p)
    {
      if IsCycle(g, p) {
        RankFallsOnPath(g, rank, p);
      }
    }
  }

  /** More positions than values: two positions hold the same value. */
  lemma {:induction false} Repetition(w: seq<string>, s: set<string>) returns (i: nat, j: nat)
    requires |w| > |s| && forall k :: 0 <= k < |w| ==> w[k] in s
    ensures i < j < |w| && w[i] == w[j]
  {
    if w[0] in w[1..] {
      i := 0;
      var k :| 0 <= k < |w[1..]| && w[1..][k] == w[0];
      j := k + 1;
    } else {
      assert forall k :: 0 <= k < |w[1..]| ==> w[1..][k] in w[1..];
      i, j := Repetition(w[1..], s - {w[0]});
      i, j := i + 1, j + 1;
    }
  }

  /** `x` depends on a member of `s`. */
  ghost predicate DependsOn(g: seq<Node>, s: set<string>, x: string) {
    exists y :: y in s && Edge(g, x, y)
  }

  lemma Next(g: seq<Node>, s: set<string>, x: string) returns (y: string)
    requires DependsOn(g, s, x)
    ensures y in s && Edge(g, x, y)
  {
    y :| y in s && Edge(g, x, y);
  }

  lemma {:induction false} Walk(g: seq<Node>, s: set<string>, a: string, n: nat) returns (w: seq<string>)
    requires a in s && forall x :: x in s ==> DependsOn(g, s, x)
    ensures |w| == n + 1 && w[0] == a && IsPath(g, w)
    ensures forall k :: 0 <= k < |w| ==> w[k] in s
    decreases n
  {
    hide Edge, DependsOn;
    if n == 0 {
      w := [a];
    } else {
      var b := Next(g, s, a);
      var rest := Walk(g, s, b, n - 1);
      w := [a] + rest;
      forall i | 0 <= i < |w| - 1
        ensures Edge(g, w[i], w[i + 1])
      {
        if i > 0 {
          assert Edge(g, rest[i - 1], rest[i - 1 + 1]);
        }
      }
    }
  }

  /** In a graph without cycles every nonempty set of ids has one that depends on none of the set. */
  lemma Minimal(g: seq<Node>, s: set<string>) returns (m: string)
    requires Acyclic(g) && s != {}
    ensures m in s && forall b :: b in s ==> !Edge(g, m, b)
  {
    if forall x :: x in s ==> DependsOn(g, s, x) {
      ClosedSetHasCycle(g, s);
    }
    m :| m in s && !DependsOn(g, s, m);
  }

  lemma ClosedSetHasCycle(g: seq<Node>, s: set<string>)
    requires s != {} && forall x :: x in s ==> DependsOn(g, s, x)
    ensures !Acyclic(g)
  {
    hide Edge, DependsOn;
    var a :| a in s;
    var w := Walk(g, s, a, |s|);
    var i, j := Repetition(w, s);
    var p := w[i..j + 1];
    forall k | 0 <= k < |p| - 1
      ensures Edge(g, p[k], p[k + 1])
    {
      assert Edge(g, w[i + k], w[i + k + 1]);
    }
    assert IsCycle(g, p);
  }

  lemma {:induction false} RankSet(g: seq<Node>, s: set<string>) returns (rank: map<string, nat>)
    requires Acyclic(g)
    ensures rank.Keys == s
    ensures forall a, b :: a in s && b in s && Edge(g, a, b) ==> rank[b] < rank[a]
    decreases |s|
  {
    if s == {} {
      rank := map[];
    } else {
      var m := Minimal(g, s);
      var smaller := RankSet(g, s - {m});
      rank := map x | x in s :: if x == m then 0 else smaller[x] + 1;
    }
  }

  /** And a graph without cycles can be ranked. */
  lemma AcyclicIsRanked(g: seq<Node>) returns (rank: string -> nat)
    requires Acyclic(g)
    ensures Ranked(g, rank)
  {
    var m := RankSet(g, Ids(g));
    rank := x => if x in m then m[x] else 0;
    forall a, b | Edge(g, a, b)
      ensures rank(b) < rank(a)
    {
      assert a in Ids(g);
    }
  }
}
