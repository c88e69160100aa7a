/** Paths and cycles of a finite directed graph given by its set of edges. */
module Graphs {
  ghost predicate Distinct<T>(s: seq<T>) {
    forall i, j :: 0 <= i < j < |s| ==> s[i] != s[j]
  }

  ghost predicate IsPath<T>(edges: set<(T, T)>, p: seq<T>) {
    |p| > 0 && forall i :: 0 <= i < |p| - 1 ==> (p[i], p[i + 1]) in edges
  }

  ghost predicate IsCycle<T>(edges: set<(T, T)>, p: seq<T>) {
    |p| > 1 && IsPath(edges, p) && p[0] == p[|p| - 1]
  }

  ghost predicate HasCycle<T(!new)>(edges: set<(T, T)>) {
    exists p :: IsCycle(edges, p)
  }

  ghost predicate PathBetween<T>(edges: set<(T, T)>, p: seq<T>, x: T, y: T) {
    IsPath(edges, p) && p[0] == x && p[|p| - 1] == y
  }

  ghost predicate Reaches<T(!new)>(edges: set<(T, T)>, x: T, y: T) {
    exists p :: PathBetween(edges, p, x, y)
  }

  lemma ReachesRefl<T(!new)>(edges: set<(T, T)>, x: T)
    ensures Reaches(edges, x, x)
  {
    assert PathBetween(edges, [x], x, x);
  }

  lemma ReachesEdge<T(!new)>(edges: set<(T, T)>, x: T, y: T)
    requires (x, y) in edges
    ensures Reaches(edges, x, y)
  {
    assert PathBetween(edges, [x, y], x, y);
  }

  lemma ReachesTransitive<T(!new)>(edges: set<(T, T)>, x: T, y: T, z: T)
    requires Reaches(edges, x, y) && Reaches(edges, y, z)
    ensures Reaches(edges, x, z)
  {
    var p :| PathBetween(edges, p, x, y);
    var q :| PathBetween(edges, q, y, z);
    var r := p + q[1..];
    forall i | 0 <= i < |r| - 1 ensures (r[i], r[i + 1]) in edges {
      if i >= |p| - 1 {
        assert r[i] == q[i + 1 - |p|] && r[i + 1] == q[i + 2 - |p|];
      }
    }
    assert r[|r| - 1] == z by {
      if |q| == 1 { assert r == p; }
    }
    assert PathBetween(edges, r, x, z);
  }

  /** Where every edge is a path of other edges, so is every path. */
  lemma {:induction false} ReachesThrough<T(!new)>(edges: set<(T, T)>, other: set<(T, T)>, p: seq<T>)
    requires IsPath(edges, p) && forall e :: e in edges ==> Reaches(other, e.0, e.1)
    ensures Reaches(other, p[0], p[|p| - 1])
  {
    var n := |p| - 1;
    if n == 0 {
      ReachesRefl(other, p[0]);
    } else {
      ReachesThrough(edges, other, p[..n]);
      assert (p[n - 1], p[n - 1 + 1]) in edges;
      ReachesTransitive(other, p[0], p[n - 1], p[n]);
    }
  }

  lemma ReachesMonotone<T(!new)>(edges: set<(T, T)>, more: set<(T, T)>, x: T, y: T)
    requires edges <= more && Reaches(edges, x, y)
    ensures Reaches(more, x, y)
  {
    var p :| PathBetween(edges, p, x, y);
    assert PathBetween(more, p, x, y);
  }

  ghost predicate Symmetric<T(!new)>(edges: set<(T, T)>) {
    forall x, y :: (x, y) in edges ==> (y, x) in edges
  }

  lemma ReachesSymmetric<T(!new)>(edges: set<(T, T)>, x: T, y: T)
    requires Symmetric(edges) && Reaches(edges, x, y)
    ensures Reaches(edges, y, x)
  {
    var p :| PathBetween(edges, p, x, y);
    var q := seq(|p|, i requires 0 <= i < |p| => p[|p| - 1 - i]);
    forall i | 0 <= i < |q| - 1 ensures (q[i], q[i + 1]) in edges {
      assert (p[|p| - 2 - i], p[|p| - 2 - i + 1]) in edges;
    }
    assert PathBetween(edges, q, y, x);
  }

  /** What every edge keeps, every path keeps. */
  lemma {:induction false} InvariantAlongPath<T, V>(edges: set<(T, T)>, p: seq<T>, mark: map<T, V>)
    requires IsPath(edges, p)
    requires forall e :: e in edges ==> e.0 in mark && e.1 in mark && mark[e.0] == mark[e.1]
    requires p[0] in mark
    ensures p[|p| - 1] in mark && mark[p[|p| - 1]] == mark[p[0]]
  {
    if |p| > 1 {
      assert (p[0], p[1]) in edges;
      var q := p[1..];
      forall i | 0 <= i < |q| - 1 ensures (q[i], q[i + 1]) in edges {
        assert (p[i + 1], p[i + 2]) in edges;
      }
      InvariantAlongPath(edges, q, mark);
    }
  }

  lemma {:induction false} RankFallsAlongPath<T>(edges: set<(T, T)>, rank: map<T, nat>, p: seq<T>)
    requires forall e :: e in edges ==> e.0 in rank && e.1 in rank && rank[e.1] < rank[e.0]
    requires IsPath(edges, p) && |p| > 1
    ensures p[0] in rank && p[|p| - 1] in rank && rank[p[|p| - 1]] < rank[p[0]]
  {
    assert (p[0], p[1]) in edges;
    if |p| > 2 {
      var q := p[1..];
      forall i | 0 <= i < |q| - 1 ensures (q[i], q[i + 1]) in edges {
        assert (p[i + 1], p[i + 2]) in edges;
      }
      RankFallsAlongPath(edges, rank, q);
    }
  }

  /** A ranking that falls along every edge rules out cycles. */
  lemma RankedIsAcyclic<T(!new)>(edges: set<(T, T)>, rank: map<T, nat>)
    requires forall e :: e in edges ==> e.0 in rank && e.1 in rank && rank[e.1] < rank[e.0]
    ensures !HasCycle(edges)
  {
    forall p | IsCycle(edges, p) ensures false {
      RankFallsAlongPath(edges, rank, p);
    }
  }

  lemma {:induction false} WalkIntoCycle<T(!new)>(edges: set<(T, T)>, nodes: set<T>, walk: seq<T>, seen: set<T>)
    requires IsPath(edges, walk) && seen <= nodes
    requires forall u :: u in walk <==> u in seen
    requires forall u :: u in nodes ==> exists v :: v in nodes && (u, v) in edges
    ensures HasCycle(edges)
    decreases nodes - seen
  {
    var last := walk[|walk| - 1];
    assert last in walk;
    var v :| v in nodes && (last, v) in edges;
    if v in seen {
      var i :| 0 <= i < |walk| && walk[i] == v;
      var c := walk[i..] + [v];
      forall k | 0 <= k < |c| - 1 ensures (c[k], c[k + 1]) in edges {
        if k < |c| - 2 { assert (walk[i + k], walk[i + k + 1]) in edges; }
      }
      assert IsCycle(edges, c);
    } else {
      WalkIntoCycle(edges, nodes, walk + [v], seen + {v});
    }
  }

  /** A nonempty finite set of nodes, none of them a sink of the set, contains a cycle. */
  lemma NoSinkHasCycle<T(!new)>(edges: set<(T, T)>, nodes: set<T>)
    requires nodes != {}
    requires forall u :: u in nodes ==> exists v :: v in nodes && (u, v) in edges
    ensures HasCycle(edges)
  {
    var u :| u in nodes;
    WalkIntoCycle(edges, nodes, [u], {u});
  }
}
