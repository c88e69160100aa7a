/** Gathering the records by representative, and what those groups are. */
module HotspotGroups {
  import opened Graphs
  import opened DisjointSets

  ghost predicate Ascending(s: seq<nat>) {
    forall i, j :: 0 <= i < j < |s| ==> s[i] < s[j]
  }

  ghost predicate IsMember(groups: seq<seq<nat>>, i: nat) {
    exists g :: 0 <= g < |groups| && i in groups[g]
  }

  /** A nonempty ascending list of numbers below `upto` that share the representative `r`. */
  ghost predicate OfOneRoot(root: seq<nat>, upto: nat, group: seq<nat>, r: nat)
    requires upto <= |root|
  {
    group != [] && Ascending(group) && forall k :: 0 <= k < |group| ==> group[k] < upto && root[group[k]] == r
  }

  /** The dictionary `groups` after the records below `upto`: its keys in insertion order, and its lists. */
  ghost predicate IsGrouping(root: seq<nat>, upto: nat, keys: seq<nat>, groups: seq<seq<nat>>)
    requires upto <= |root|
  {
    && |keys| == |groups|
    && (forall g, h :: 0 <= g < h < |keys| ==> keys[g] != keys[h])
    && (forall g :: 0 <= g < |groups| ==> OfOneRoot(root, upto, groups[g], keys[g]))
    && (forall g, h :: 0 <= g < h < |groups| ==> groups[g] != [] && groups[h] != [] && groups[g][0] < groups[h][0])
    && (forall i: nat :: i < upto ==> IsMember(groups, i))
  }

  /** A nonempty ascending list of just the numbers below `n` that some chain of edges joins to its first. */
  ghost predicate IsComponent(edges: set<(nat, nat)>, n: nat, group: seq<nat>) {
    && group != [] && Ascending(group)
    && forall i: nat :: i in group <==> i < n && Reaches(edges, group[0], i)
  }

  /** The connected components of `edges` on the first `n` numbers, by smallest member. */
  ghost predicate AreComponents(edges: set<(nat, nat)>, n: nat, groups: seq<seq<nat>>) {
    && (forall g :: 0 <= g < |groups| ==> IsComponent(edges, n, groups[g]))
    && (forall i: nat :: i < n ==> IsMember(groups, i))
    && (forall g, h :: 0 <= g < h < |groups| ==> groups[g] != [] && groups[h] != [] && groups[g][0] < groups[h][0])
  }

  lemma NewGroup(root: seq<nat>, idx: nat, keys: seq<nat>, groups: seq<seq<nat>>)
    requires idx < |root| && IsGrouping(root, idx, keys, groups) && root[idx] !in keys
    ensures IsGrouping(root, idx + 1, keys + [root[idx]], groups + [[idx]])
  {
    var after, keys' := groups + [[idx]], keys + [root[idx]];
    forall g | 0 <= g < |after| ensures OfOneRoot(root, idx + 1, after[g], keys'[g]) {
      if g < |groups| { assert OfOneRoot(root, idx, groups[g], keys[g]); }
    }
    forall g, h | 0 <= g < h < |after| ensures after[g] != [] && after[h] != [] && after[g][0] < after[h][0] {
      assert OfOneRoot(root, idx, groups[g], keys[g]);
    }
    forall i: nat | i < idx + 1 ensures IsMember(after, i) {
      if i < idx {
        assert IsMember(groups, i);
        var g :| 0 <= g < |groups| && i in groups[g];
        assert i in after[g];
      } else {
        assert i in after[|groups|];
      }
    }
  }

  lemma JoinGroup(root: seq<nat>, idx: nat, keys: seq<nat>, groups: seq<seq<nat>>, at: nat)
    requires idx < |root| && IsGrouping(root, idx, keys, groups)
    requires at < |keys| && keys[at] == root[idx]
    ensures IsGrouping(root, idx + 1, keys, groups[at := groups[at] + [idx]])
  {
    var after := groups[at := groups[at] + [idx]];
    forall g | 0 <= g < |after| ensures OfOneRoot(root, idx + 1, after[g], keys[g]) && after[g][0] == groups[g][0] {
      assert OfOneRoot(root, idx, groups[g], keys[g]);
    }
    forall i: nat | i < idx + 1 ensures IsMember(after, i) {
      if i < idx {
        assert IsMember(groups, i);
        var g :| 0 <= g < |groups| && i in groups[g];
        assert i in after[g];
      } else {
        assert i in after[at];
      }
    }
  }

  method Gather(forest: Forest, n: nat) returns (groups: seq<seq<nat>>, ghost keys: seq<nat>)
    requires forest.Valid() && |forest.root| == n
    modifies forest.parent
    ensures forest.Valid() && IsGrouping(forest.root, n, keys, groups)
  {
    groups, keys := [], [];
    var at: map<nat, nat> := map[];
    for idx := 0 to n
      invariant forest.Valid() && IsGrouping(forest.root, idx, keys, groups)
      invariant forall r :: r in at ==> at[r] < |keys| && keys[at[r]] == r
      invariant forall g :: 0 <= g < |keys| ==> keys[g] in at
    {
      var r := forest.Find(idx);
      if r !in at {
        NewGroup(forest.root, idx, keys, groups);
        at := at[r := |groups|];
        groups, keys := groups + [[idx]], keys + [r];
      } else {
        JoinGroup(forest.root, idx, keys, groups, at[r]);
        groups := groups[at[r] := groups[at[r]] + [idx]];
      }
    }
  }

  /** The lists gathered by representative are exactly the connected components. */
  lemma GroupsAreComponents(edges: set<(nat, nat)>, root: seq<nat>, keys: seq<nat>, groups: seq<seq<nat>>)
    requires Matches(edges, root) && IsGrouping(root, |root|, keys, groups)
    ensures AreComponents(edges, |root|, groups)
  {
    forall g | 0 <= g < |groups| ensures IsComponent(edges, |root|, groups[g]) {
      var group := groups[g];
      assert OfOneRoot(root, |root|, group, keys[g]);
      forall i: nat ensures i in group <==> i < |root| && Reaches(edges, group[0], i) {
        if i < |root| {
          RootsDecideReach(edges, root, group[0], i);
          assert IsMember(groups, i);
          var h :| 0 <= h < |groups| && i in groups[h];
          assert OfOneRoot(root, |root|, groups[h], keys[h]);
        }
      }
    }
  }

  ghost function Elements(s: seq<nat>): set<nat> {
    if s == [] then {} else {s[0]} + Elements(s[1..])
  }

  lemma {:induction false} ElementsOf(s: seq<nat>)
    ensures forall i :: i in Elements(s) <==> i in s
    ensures Ascending(s) ==> |Elements(s)| == |s|
  {
    if s != [] {
      ElementsOf(s[1..]);
      assert Ascending(s) ==> s[0] !in s[1..];
    }
  }

  ghost function AllMembers(groups: seq<seq<nat>>): set<nat> {
    if groups == [] then {} else Elements(groups[0]) + AllMembers(groups[1..])
  }

  ghost function TotalSize(groups: seq<seq<nat>>): nat {
    if groups == [] then 0 else |groups[0]| + TotalSize(groups[1..])
  }

  lemma {:induction false} InAllMembers(groups: seq<seq<nat>>, i: nat)
    ensures i in AllMembers(groups) <==> IsMember(groups, i)
  {
    if groups != [] {
      InAllMembers(groups[1..], i);
      ElementsOf(groups[0]);
      if IsMember(groups[1..], i) {
        var g :| 0 <= g < |groups[1..]| && i in groups[1..][g];
        assert i in groups[g + 1];
      }
      if IsMember(groups, i) && i !in groups[0] {
        var g :| 0 <= g < |groups| && i in groups[g];
        assert i in groups[1..][g - 1];
      }
    }
  }

  ghost predicate Disjoint(groups: seq<seq<nat>>) {
    && (forall g :: 0 <= g < |groups| ==> Ascending(groups[g]))
    && (forall g, h, i: nat :: 0 <= g < h < |groups| && i in groups[g] ==> i !in groups[h])
  }

  lemma {:induction false} TotalIsMembers(groups: seq<seq<nat>>)
    requires Disjoint(groups)
    ensures TotalSize(groups) == |AllMembers(groups)|
  {
    if groups != [] {
      var rest := groups[1..];
      assert Disjoint(rest) by {
        assert forall g :: 0 <= g < |rest| ==> rest[g] == groups[g + 1];
      }
      TotalIsMembers(rest);
      ElementsOf(groups[0]);
      forall i: nat | i in groups[0] ensures i !in AllMembers(rest) {
        InAllMembers(rest, i);
        assert forall g :: 0 <= g < |rest| ==> rest[g] == groups[g + 1];
      }
      assert Elements(groups[0]) !! AllMembers(rest);
    }
  }

  lemma {:induction false} SizeOfRange(s: set<nat>, n: nat)
    requires forall i: nat :: i in s <==> i < n
    ensures |s| == n
  {
    if n > 0 {
      SizeOfRange(s - {n - 1}, n - 1);
    }
  }

  lemma ComponentsDisjoint(edges: set<(nat, nat)>, n: nat, groups: seq<seq<nat>>)
    requires Symmetric(edges) && AreComponents(edges, n, groups)
    ensures Disjoint(groups)
  {
    forall g, h, i: nat | 0 <= g < h < |groups| && i in groups[g] ensures i !in groups[h] {
      assert IsComponent(edges, n, groups[g]) && IsComponent(edges, n, groups[h]);
      if i in groups[h] {
        ReachesSymmetric(edges, groups[g][0], i);
        ReachesTransitive(edges, groups[h][0], i, groups[g][0]);
      }
    }
    forall g | 0 <= g < |groups| ensures Ascending(groups[g]) {
      assert IsComponent(edges, n, groups[g]);
    }
  }

  /** No number is lost and none is in two components. */
  lemma ComponentsPartition(edges: set<(nat, nat)>, n: nat, groups: seq<seq<nat>>)
    requires Symmetric(edges) && AreComponents(edges, n, groups)
    ensures Disjoint(groups) && TotalSize(groups) == n
  {
    ComponentsDisjoint(edges, n, groups);
    TotalIsMembers(groups);
    forall i: nat ensures i in AllMembers(groups) <==> i < n {
      InAllMembers(groups, i);
      if IsMember(groups, i) {
        var g :| 0 <= g < |groups| && i in groups[g];
        assert IsComponent(edges, n, groups[g]);
      }
    }
    SizeOfRange(AllMembers(groups), n);
  }
}
