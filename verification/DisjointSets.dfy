/** The union-find inside `aggregate_hotspots` (app/services/location_service.py). */
module DisjointSets {
  import opened Graphs
  import opened Arithmetic

  /** One element of a parent list, its representative and its rank. */
  ghost predicate NodeOk(parent: seq<nat>, root: seq<nat>, rank: seq<nat>, bound: nat, x: nat)
    requires x < |parent| == |root| == |rank|
  {
    && parent[x] < |parent| && root[x] < |parent|
    && rank[x] <= bound
    && (parent[x] != x ==> rank[x] < rank[parent[x]])
    && root[parent[x]] == root[x]
    && (parent[x] == x <==> root[x] == x)
    && root[root[x]] == root[x]
  }

  ghost predicate IsForest(parent: seq<nat>, root: seq<nat>, rank: seq<nat>, bound: nat) {
    && |root| == |parent| == |rank|
    && forall x: nat :: x < |parent| ==> NodeOk(parent, root, rank, bound, x)
  }

  ghost function Relabel(root: seq<nat>, from: nat, to: nat): seq<nat> {
    seq(|root|, x requires 0 <= x < |root| => if root[x] == from then to else root[x])
  }

  /** Hanging one root under another keeps a forest; ranks only have to grow at the surviving root. */
  lemma JoinRoots(parent: seq<nat>, root: seq<nat>, rank: seq<nat>, bound: nat, q: nat, r: nat)
    requires IsForest(parent, root, rank, bound)
    requires q < |parent| && r < |parent| && root[q] == q && root[r] == r
    ensures q != r ==>
      IsForest(parent[q := r], Relabel(root, q, r), rank[r := Max(rank[q] + 1, rank[r])], Max(rank[q] + 1, bound))
    ensures q == r ==> IsForest(parent[q := r], Relabel(root, q, r), rank, bound)
  {
    if q == r {
      assert parent[q := r] == parent && Relabel(root, q, r) == root;
    } else {
      var parent', root' := parent[q := r], Relabel(root, q, r);
      var rank', bound' := rank[r := Max(rank[q] + 1, rank[r])], Max(rank[q] + 1, bound);
      forall x: nat | x < |parent| ensures NodeOk(parent', root', rank', bound', x) {
        assert NodeOk(parent, root, rank, bound, x) && NodeOk(parent, root, rank, bound, root[x]);
        assert NodeOk(parent, root, rank, bound, parent[x]);
        assert NodeOk(parent, root, rank, bound, q) && NodeOk(parent, root, rank, bound, r);
      }
    }
  }

  /** Path halving: an element may skip its parent, if the parent is not a representative. */
  lemma Halve(parent: seq<nat>, root: seq<nat>, rank: seq<nat>, bound: nat, x: nat)
    requires IsForest(parent, root, rank, bound) && x < |parent| && parent[x] != x
    ensures parent[x] < |parent| && parent[parent[x]] < |parent|
    ensures var next := parent[parent[x]];
            IsForest(parent[x := next], root, rank, bound) && root[next] == root[x] && rank[x] < rank[next] <= bound
  {
    assert NodeOk(parent, root, rank, bound, x) && NodeOk(parent, root, rank, bound, parent[x]);
    var next := parent[parent[x]];
    assert NodeOk(parent, root, rank, bound, next);
    var halved := parent[x := next];
    forall y: nat | y < |parent| ensures NodeOk(halved, root, rank, bound, y) {
      assert NodeOk(parent, root, rank, bound, y);
    }
  }

  class Forest {
    var parent: array<nat>
    ghost var root: seq<nat>
    /** Grows towards the roots; this is why `Find` ends and why no cycle can form. */
    ghost var rank: seq<nat>

    ghost var bound: nat

    ghost predicate Valid()
      reads this, parent
    {
      IsForest(parent[..], root, rank, bound)
    }

    /** `parent = list(range(n))` */
    constructor (n: nat)
      ensures Valid() && fresh(parent) && root == seq(n, i => i)
    {
      parent := new nat[n](i => i);
      root, rank, bound := seq(n, i => i), seq(n, i => 0), 0;
    }

    method Find(start: nat) returns (r: nat)
      requires Valid() && start < |root|
      modifies parent
      ensures Valid() && r == root[start] && r < |root| && root[r] == r
    {
      var x: nat := start;
      assert NodeOk(parent[..], root, rank, bound, x);
      while parent[x] != x
        invariant IsForest(parent[..], root, rank, bound) && x < parent.Length && root[x] == root[start]
        invariant parent[x] < parent.Length
        decreases bound - rank[x]
      {
        ghost var before := parent[..];
        Halve(before, root, rank, bound, x);
        parent[x] := parent[parent[x]];
        assert parent[..] == before[x := before[before[x]]];
        x := parent[x];
        assert NodeOk(parent[..], root, rank, bound, x);
      }
      assert NodeOk(parent[..], root, rank, bound, x);
      r := x;
    }

    /** `parent[find(other)] = find(idx)` */
    method Link(other: nat, idx: nat)
      requires Valid() && other < |root| && idx < |root|
      modifies this, parent
      ensures Valid() && parent == old(parent)
      ensures root == Relabel(old(root), old(root)[other], old(root)[idx])
    {
      var r := Find(idx);
      var q := Find(other);
      JoinRoots(parent[..], root, rank, bound, q, r);
      ghost var before := parent[..];
      parent[q] := r;
      assert parent[..] == before[q := r];
      root := Relabel(root, q, r);
      if q != r {
        bound := Max(rank[q] + 1, bound);
        rank := rank[r := Max(rank[q] + 1, rank[r])];
      }
    }
  }

  /** The representatives tell apart exactly what the edges do not connect. */
  ghost predicate Matches(edges: set<(nat, nat)>, root: seq<nat>) {
    && Symmetric(edges)
    && (forall e :: e in edges ==> e.0 < |root| && e.1 < |root| && root[e.0] == root[e.1])
    && (forall x: nat :: x < |root| ==> Reaches(edges, x, root[x]))
  }

  lemma MatchesInitially(n: nat)
    ensures Matches({}, seq(n, i => i))
  {
    var none: set<(nat, nat)> := {};
    forall x: nat | x < n ensures Reaches(none, x, x) {
      ReachesRefl(none, x);
    }
  }

  lemma LinkMatches(edges: set<(nat, nat)>, root: seq<nat>, other: nat, idx: nat)
    requires Matches(edges, root) && other < |root| && idx < |root|
    ensures Matches(edges + {(other, idx), (idx, other)}, Relabel(root, root[other], root[idx]))
  {
    var more := edges + {(other, idx), (idx, other)};
    var after := Relabel(root, root[other], root[idx]);
    forall x: nat | x < |root| ensures Reaches(more, x, after[x]) {
      ReachesMonotone(edges, more, x, root[x]);
      if root[x] == root[other] {
        ReachesSymmetric(edges, other, root[other]);
        ReachesMonotone(edges, more, root[other], other);
        ReachesEdge(more, other, idx);
        ReachesMonotone(edges, more, idx, root[idx]);
        ReachesTransitive(more, x, root[x], other);
        ReachesTransitive(more, x, other, idx);
        ReachesTransitive(more, x, idx, root[idx]);
      }
    }
  }

  /** Two elements share a representative exactly when a chain of edges joins them. */
  lemma RootsDecideReach(edges: set<(nat, nat)>, root: seq<nat>, x: nat, y: nat)
    requires Matches(edges, root) && x < |root| && y < |root|
    ensures root[x] == root[y] <==> Reaches(edges, x, y)
  {
    if root[x] == root[y] {
      ReachesSymmetric(edges, y, root[y]);
      ReachesTransitive(edges, x, root[x], y);
    }
    if Reaches(edges, x, y) {
      var p :| PathBetween(edges, p, x, y);
      var mark: map<nat, nat> := map i: nat | i < |root| :: root[i];
      InvariantAlongPath(edges, p, mark);
    }
  }
}
