/** Reciprocal rank fusion of ranked lists (app/rag/rrf.py), over the reals. */
module Fusion {
  import opened Wrappers
  import opened Ordering
  import opened Arithmetic
  import Corpus

  type Id = string

  /** One list of the mapping `rankings`, with its name. */
  datatype List = List(name: string, ids: seq<Id>)

  datatype FusedHit = FusedHit(itemId: Id, score: real, ranks: seq<(string, nat)>)

  function HitId(h: FusedHit): Id { h.itemId }

  function WeightOf(weights: Option<map<string, real>>, name: string): real {
    if weights.Some? && name in weights.value then weights.value[name] else 1.0
  }

  // ---- What the fused score of an item is ----

  /** A list counts each item once, where it first appears. */
  function Unique(ids: seq<Id>): seq<Id> { Corpus.UniqueTerms(ids) }

  ghost function IndexOf(s: seq<Id>, x: Id): nat
    requires x in s
    ensures IndexOf(s, x) < |s| && s[IndexOf(s, x)] == x
  {
    if s[0] == x then 0 else 1 + IndexOf(s[1..], x)
  }

  /** The rank of an item, starting at 1. */
  ghost function Rank(ids: seq<Id>, x: Id): nat
    requires x in ids
    ensures Rank(ids, x) >= 1
  {
    IndexOf(Unique(ids), x) + 1
  }

  ghost function Share(l: List, k: int, weights: Option<map<string, real>>, x: Id): real
    requires k > 0
  {
    if x in l.ids then WeightOf(weights, l.name) / (k + Rank(l.ids, x)) as real else 0.0
  }

  ghost function Score(lists: seq<List>, k: int, weights: Option<map<string, real>>, x: Id): real
    requires k > 0
  {
    if lists == [] then 0.0
    else Score(lists[..|lists| - 1], k, weights, x) + Share(lists[|lists| - 1], k, weights, x)
  }

  ghost function RanksOf(lists: seq<List>, x: Id): seq<(string, nat)> {
    if lists == [] then []
    else
      var l := lists[|lists| - 1];
      RanksOf(lists[..|lists| - 1], x) + if x in l.ids then [(l.name, Rank(l.ids, x))] else []
  }

  ghost predicate Listed(lists: seq<List>, x: Id) {
    exists i :: 0 <= i < |lists| && x in lists[i].ids
  }

  function MinRank(ranks: seq<(string, nat)>): nat {
    if ranks == [] then 0
    else if |ranks| == 1 then ranks[0].1
    else
      var rest := MinRank(ranks[1..]);
      if ranks[0].1 <= rest then ranks[0].1 else rest
  }

  /** `(-score, min(ranks), id)` */
  predicate HitLe(a: FusedHit, b: FusedHit) {
    || a.score > b.score
    || (a.score == b.score && MinRank(a.ranks) < MinRank(b.ranks))
    || (a.score == b.score && MinRank(a.ranks) == MinRank(b.ranks) && StringLe(a.itemId, b.itemId))
  }

  lemma HitOrder()
    ensures TotalPreorder(HitLe)
  {
    StringOrder();
  }

  ghost predicate Has(hits: seq<FusedHit>, x: Id) {
    exists i :: 0 <= i < |hits| && hits[i].itemId == x
  }

  /** Every listed item once, with its score and ranks, best first. */
  ghost predicate IsFusion(lists: seq<List>, k: int, weights: Option<map<string, real>>, hits: seq<FusedHit>)
    requires k > 0
  {
    && SortedBy(HitLe, hits) && DistinctBy(HitId, hits)
    && (forall h :: h in hits ==>
          Listed(lists, h.itemId) && h.score == Score(lists, k, weights, h.itemId)
            && h.ranks == RanksOf(lists, h.itemId))
    && (forall x :: Listed(lists, x) ==> Has(hits, x))
  }

  // ---- Ranks do not change as a list is read further ----

  lemma UniqueOfPrefix(ids: seq<Id>, i: nat)
    requires i < |ids|
    ensures Unique(ids[..i + 1]) == Unique(ids[..i]) + if ids[i] in ids[..i] then [] else [ids[i]]
  {
    assert ids[..i + 1][..i] == ids[..i];
  }

  lemma {:induction false} IndexInPrefix(s: seq<Id>, t: seq<Id>, x: Id)
    ensures x in s ==> IndexOf(s + t, x) == IndexOf(s, x)
    ensures x !in s && t != [] && t[0] == x ==> IndexOf(s + t, x) == |s|
  {
    if s != [] {
      IndexInPrefix(s[1..], t, x);
      assert (s + t)[1..] == s[1..] + t;
    } else {
      assert s + t == t;
    }
  }

  lemma RankOfPrefix(ids: seq<Id>, i: nat, x: Id)
    requires i < |ids|
    ensures x in ids[..i] ==> x in ids[..i + 1] && Rank(ids[..i + 1], x) == Rank(ids[..i], x)
    ensures x !in ids[..i] && x != ids[i] ==> x !in ids[..i + 1]
    ensures x !in ids[..i] && x == ids[i] ==> x in ids[..i + 1] && Rank(ids[..i + 1], x) == |Unique(ids[..i])| + 1
  {
    UniqueOfPrefix(ids, i);
    assert ids[..i + 1] == ids[..i] + [ids[i]];
    if ids[i] !in ids[..i] {
      IndexInPrefix(Unique(ids[..i]), [ids[i]], x);
    }
  }

  lemma {:induction false} UniqueTwice(ids: seq<Id>)
    ensures Unique(Unique(ids)) == Unique(ids)
  {
    if ids != [] {
      var n := |ids| - 1;
      UniqueTwice(ids[..n]);
      var before := Unique(ids[..n]);
      if ids[n] !in before {
        assert (before + [ids[n]])[..|before|] == before;
      }
    }
  }

  /** A list that names an item again gives it nothing more. */
  lemma {:induction false} RepeatsDoNotCount(l: List, k: int, weights: Option<map<string, real>>, x: Id)
    requires k > 0
    ensures Share(l, k, weights, x) == Share(List(l.name, Unique(l.ids)), k, weights, x)
  {
    UniqueTwice(l.ids);
  }

  // ---- The loops ----

  datatype Tally = Tally(scores: map<Id, real>, ranks: map<Id, seq<(string, nat)>>)

  ghost predicate Tallied(lists: seq<List>, k: int, weights: Option<map<string, real>>, t: Tally)
    requires k > 0
  {
    && (forall x :: x in t.scores <==> Listed(lists, x)) && t.ranks.Keys == t.scores.Keys
    && (forall x :: x in t.scores ==> t.scores[x] == Score(lists, k, weights, x) && t.ranks[x] == RanksOf(lists, x))
  }

  /** The lists read so far, the last one only up to its `i`-th item. */
  ghost function Upto(lists: seq<List>, j: nat, i: nat): seq<List>
    requires j < |lists| && i <= |lists[j].ids|
  {
    lists[..j] + [List(lists[j].name, lists[j].ids[..i])]
  }

  lemma ListedUpto(lists: seq<List>, j: nat, i: nat, x: Id)
    requires j < |lists| && i <= |lists[j].ids|
    ensures Listed(Upto(lists, j, i), x) <==> Listed(lists[..j], x) || x in lists[j].ids[..i]
  {
    var u := Upto(lists, j, i);
    if m :| 0 <= m < j && x in lists[..j][m].ids { assert x in u[m].ids; }
    if x in lists[j].ids[..i] { assert x in u[j].ids; }
    if m :| 0 <= m < |u| && x in u[m].ids { assert m < j ==> x in lists[..j][m].ids; }
  }

  lemma ScoreUpto(lists: seq<List>, k: int, weights: Option<map<string, real>>, j: nat, i: nat, x: Id)
    requires k > 0 && j < |lists| && i <= |lists[j].ids|
    ensures Score(Upto(lists, j, i), k, weights, x)
         == Score(lists[..j], k, weights, x) + Share(List(lists[j].name, lists[j].ids[..i]), k, weights, x)
    ensures RanksOf(Upto(lists, j, i), x)
         == RanksOf(lists[..j], x) + if x in lists[j].ids[..i] then [(lists[j].name, Rank(lists[j].ids[..i], x))]
           else []
  {
    assert Upto(lists, j, i)[..j] == lists[..j];
  }

  lemma TalliedNone(lists: seq<List>, k: int, weights: Option<map<string, real>>, j: nat, t: Tally)
    requires k > 0 && j < |lists| && Tallied(lists[..j], k, weights, t)
    ensures Tallied(Upto(lists, j, 0), k, weights, t) && Unique(lists[j].ids[..0]) == []
  {
    forall x ensures Listed(Upto(lists, j, 0), x) <==> Listed(lists[..j], x) { ListedUpto(lists, j, 0, x); }
    forall x ensures Score(Upto(lists, j, 0), k, weights, x) == Score(lists[..j], k, weights, x)
             ensures RanksOf(Upto(lists, j, 0), x) == RanksOf(lists[..j], x) {
      ScoreUpto(lists, k, weights, j, 0, x);
    }
  }

  lemma ListedEarlier(lists: seq<List>, n: nat, x: Id)
    requires n <= |lists|
    ensures Listed(lists[..n], x) ==> Listed(lists, x)
  {
    if m :| 0 <= m < n && x in lists[..n][m].ids { assert x in lists[m].ids; }
  }

  lemma {:induction false} NotListed(lists: seq<List>, k: int, weights: Option<map<string, real>>, x: Id)
    requires k > 0 && !Listed(lists, x)
    ensures Score(lists, k, weights, x) == 0.0 && RanksOf(lists, x) == []
  {
    if lists != [] {
      var n := |lists| - 1;
      ListedEarlier(lists, n, x);
      NotListed(lists[..n], k, weights, x);
      assert x !in lists[n].ids;
    }
  }

  /** What the body of the inner loop does to the tally at the item `lists[j].ids[i]`. */
  function Step(t: Tally, name: string, weight: real, k: int, item: Id, rank: nat): Tally
    requires k > 0
  {
    Tally(t.scores[item := (if item in t.scores then t.scores[item] else 0.0) + weight / (k + rank) as real],
          t.ranks[item := (if item in t.ranks then t.ranks[item] else []) + [(name, rank)]])
  }

  lemma StepOther(lists: seq<List>, k: int, weights: Option<map<string, real>>, j: nat, i: nat, x: Id)
    requires k > 0 && j < |lists| && i < |lists[j].ids|
    requires x != lists[j].ids[i] || x in lists[j].ids[..i]
    ensures Listed(Upto(lists, j, i + 1), x) <==> Listed(Upto(lists, j, i), x)
    ensures Score(Upto(lists, j, i + 1), k, weights, x) == Score(Upto(lists, j, i), k, weights, x)
    ensures RanksOf(Upto(lists, j, i + 1), x) == RanksOf(Upto(lists, j, i), x)
  {
    hide Score, RanksOf, Upto, Rank;
    var ids := lists[j].ids;
    ListedUpto(lists, j, i, x);
    ListedUpto(lists, j, i + 1, x);
    ScoreUpto(lists, k, weights, j, i, x);
    ScoreUpto(lists, k, weights, j, i + 1, x);
    RankOfPrefix(ids, i, x);
  }

  lemma StepSame(lists: seq<List>, k: int, weights: Option<map<string, real>>, j: nat, i: nat)
    requires k > 0 && j < |lists| && i < |lists[j].ids|
    requires lists[j].ids[i] !in lists[j].ids[..i]
    ensures var x, rank := lists[j].ids[i], |Unique(lists[j].ids[..i])| + 1;
            && Listed(Upto(lists, j, i + 1), x)
            && Score(Upto(lists, j, i + 1), k, weights, x)
                 == Score(Upto(lists, j, i), k, weights, x) + WeightOf(weights, lists[j].name) / (k + rank) as real
            && RanksOf(Upto(lists, j, i + 1), x) == RanksOf(Upto(lists, j, i), x) + [(lists[j].name, rank)]
  {
    hide Score, RanksOf, Upto, Rank;
    var x := lists[j].ids[i];
    ListedUpto(lists, j, i + 1, x);
    ScoreUpto(lists, k, weights, j, i, x);
    ScoreUpto(lists, k, weights, j, i + 1, x);
    RankOfPrefix(lists[j].ids, i, x);
  }

  lemma TalliedOneMore(lists: seq<List>, k: int, weights: Option<map<string, real>>, j: nat, i: nat, t: Tally)
    requires k > 0 && j < |lists| && i < |lists[j].ids| && Tallied(Upto(lists, j, i), k, weights, t)
    ensures var ids, name := lists[j].ids, lists[j].name;
            Tallied(Upto(lists, j, i + 1), k, weights,
                    if ids[i] in ids[..i] then t
                    else Step(t, name, WeightOf(weights, name), k, ids[i], |Unique(ids[..i])| + 1))
  {
    hide Score, RanksOf, Upto, Rank, Listed, Unique;
    var ids := lists[j].ids;
    forall x | x != ids[i] || x in ids[..i]
      ensures Listed(Upto(lists, j, i + 1), x) <==> Listed(Upto(lists, j, i), x)
      ensures Score(Upto(lists, j, i + 1), k, weights, x) == Score(Upto(lists, j, i), k, weights, x)
      ensures RanksOf(Upto(lists, j, i + 1), x) == RanksOf(Upto(lists, j, i), x)
    {
      StepOther(lists, k, weights, j, i, x);
    }
    if ids[i] !in ids[..i] {
      StepSame(lists, k, weights, j, i);
      if !Listed(Upto(lists, j, i), ids[i]) { NotListed(Upto(lists, j, i), k, weights, ids[i]); }
    }
  }

  lemma NothingTallied(lists: seq<List>, k: int, weights: Option<map<string, real>>)
    requires k > 0
    ensures Tallied(lists[..0], k, weights, Tally(map[], map[]))
  {}

  method Count(lists: seq<List>, k: int, weights: Option<map<string, real>>) returns (t: Tally)
    requires k > 0
    ensures Tallied(lists, k, weights, t)
  {
    hide Tallied, Unique;
    t := Tally(map[], map[]);
    NothingTallied(lists, k, weights);
    for j := 0 to |lists|
      invariant Tallied(lists[..j], k, weights, t)
    {
      var ids, weight := lists[j].ids, WeightOf(weights, lists[j].name);
      var seen: set<Id>, rank: nat := {}, 0;
      TalliedNone(lists, k, weights, j, t);
      for i := 0 to |ids|
        invariant Tallied(Upto(lists, j, i), k, weights, t)
        invariant (forall x :: x in seen <==> x in ids[..i]) && rank == |Unique(ids[..i])|
      {
        TalliedOneMore(lists, k, weights, j, i, t);
        UniqueOfPrefix(ids, i);
        if ids[i] !in seen {
          seen, rank := seen + {ids[i]}, rank + 1;
          t := Step(t, lists[j].name, weight, k, ids[i], rank);
        }
      }
      assert Upto(lists, j, |ids|) == lists[..j + 1] by { assert ids[..|ids|] == ids; }
    }
    assert lists[..|lists|] == lists;
  }

  lemma TallyKeys(lists: seq<List>, k: int, weights: Option<map<string, real>>, t: Tally)
    requires k > 0 && Tallied(lists, k, weights, t)
    ensures t.ranks.Keys == t.scores.Keys
  {}

  ghost predicate FromTally(t: Tally, done: set<Id>, hits: seq<FusedHit>)
    requires done <= t.scores.Keys == t.ranks.Keys
  {
    && DistinctBy(HitId, hits)
    && (forall i :: 0 <= i < |hits| ==>
          hits[i].itemId in done && hits[i]
            == FusedHit(hits[i].itemId, t.scores[hits[i].itemId], t.ranks[hits[i].itemId]))
    && (forall x :: x in done ==> Has(hits, x))
  }

  lemma OneMoreHit(t: Tally, done: set<Id>, hits: seq<FusedHit>, x: Id)
    requires done <= t.scores.Keys == t.ranks.Keys && FromTally(t, done, hits) && x in t.scores && x !in done
    ensures FromTally(t, done + {x}, hits + [FusedHit(x, t.scores[x], t.ranks[x])])
  {
    var more := hits + [FusedHit(x, t.scores[x], t.ranks[x])];
    forall y | y in done + {x} ensures Has(more, y) {
      if y == x {
        assert more[|hits|].itemId == y;
      } else {
        var i :| 0 <= i < |hits| && hits[i].itemId == y;
        assert more[i].itemId == y;
      }
    }
  }

  lemma FusedAll(lists: seq<List>, k: int, weights: Option<map<string, real>>, t: Tally, hits: seq<FusedHit>)
    requires k > 0 && Tallied(lists, k, weights, t) && FromTally(t, t.scores.Keys, hits)
    ensures IsFusion(lists, k, weights, SortBy(HitLe, hits))
  {
    hide Score, RanksOf, Listed;
    var sorted := SortBy(HitLe, hits);
    HitOrder();
    SortSorts(HitLe, hits);
    SortDistinct(HitLe, HitId, hits);
    forall h ensures h in sorted <==> h in hits { SortMembers(HitLe, hits, h); }
    forall x | Listed(lists, x) ensures Has(sorted, x) {
      assert Has(hits, x);
      var i :| 0 <= i < |hits| && hits[i].itemId == x;
      assert hits[i] in sorted;
    }
  }

  method ReciprocalRankFusion(lists: seq<List>, k: int, weights: Option<map<string, real>>)
    returns (r: Option<seq<FusedHit>>)
    ensures r.None? <==> k <= 0
    ensures r.Some? ==> IsFusion(lists, k, weights, r.value)
  {
    hide Tallied, Listed, Score, RanksOf;
    if k <= 0 {
      return None;
    }
    var t := Count(lists, k, weights);
    TallyKeys(lists, k, weights, t);
    var rest := t.scores.Keys;
    var fused: seq<FusedHit> := [];
    while rest != {}
      invariant rest <= t.scores.Keys
      invariant FromTally(t, t.scores.Keys - rest, fused)
      decreases rest
    {
      var x :| x in rest;
      OneMoreHit(t, t.scores.Keys - rest, fused, x);
      fused := fused + [FusedHit(x, t.scores[x], t.ranks[x])];
      assert t.scores.Keys - (rest - {x}) == (t.scores.Keys - rest) + {x};
      rest := rest - {x};
    }
    assert t.scores.Keys - {} == t.scores.Keys;
    FusedAll(lists, k, weights, t, fused);
    r := Some(SortBy(HitLe, fused));
  }

  // ---- What the fusion promises about the order ----

  /** `x` stands above `y` in every list that has `y`. */
  ghost predicate Dominates(lists: seq<List>, x: Id, y: Id) {
    forall i :: 0 <= i < |lists| && y in lists[i].ids ==>
      x in lists[i].ids && Rank(lists[i].ids, x) < Rank(lists[i].ids, y)
  }

  ghost predicate WeightsPositive(lists: seq<List>, weights: Option<map<string, real>>) {
    forall i :: 0 <= i < |lists| ==> WeightOf(weights, lists[i].name) > 0.0
  }

  lemma SmallerDivisor(w: real, a: real, b: real)
    requires w > 0.0 && 0.0 < a < b
    ensures w / a > w / b
  {
    RealQuotient(w, b);
    RealRatio(w / a, w / b, a, b);
  }

  lemma DominatingShare(l: List, k: int, weights: Option<map<string, real>>, x: Id, y: Id)
    requires k > 0 && WeightOf(weights, l.name) > 0.0
    requires y in l.ids ==> x in l.ids && Rank(l.ids, x) < Rank(l.ids, y)
    ensures Share(l, k, weights, x) >= Share(l, k, weights, y)
    ensures y in l.ids ==> Share(l, k, weights, x) > Share(l, k, weights, y)
  {
    hide Rank;
    if y in l.ids {
      SmallerDivisor(WeightOf(weights, l.name), (k + Rank(l.ids, x)) as real, (k + Rank(l.ids, y)) as real);
    } else if x in l.ids {
      RealQuotient(WeightOf(weights, l.name), (k + Rank(l.ids, x)) as real);
    }
  }

  lemma {:induction false} DominatingScore(lists: seq<List>, k: int, weights: Option<map<string, real>>, x: Id, y: Id)
    requires k > 0 && Dominates(lists, x, y) && WeightsPositive(lists, weights)
    ensures Score(lists, k, weights, x) >= Score(lists, k, weights, y)
    ensures Listed(lists, y) ==> Score(lists, k, weights, x) > Score(lists, k, weights, y)
  {
    hide Rank, Share, WeightOf;
    if lists != [] {
      var n := |lists| - 1;
      forall i | 0 <= i < n && y in lists[..n][i].ids
        ensures x in lists[..n][i].ids && Rank(lists[..n][i].ids, x) < Rank(lists[..n][i].ids, y)
      {
        assert y in lists[i].ids;
      }
      DominatingScore(lists[..n], k, weights, x, y);
      DominatingShare(lists[n], k, weights, x, y);
      if Listed(lists, y) && y !in lists[n].ids {
        var i :| 0 <= i < |lists| && y in lists[i].ids;
        assert y in lists[..n][i].ids;
      }
    }
  }

  /** An item that stands above another in every list that names the other stands above it in the fusion. */
  lemma DominatingItemFirst(lists: seq<List>, k: int, weights: Option<map<string, real>>, hits: seq<FusedHit>,
                            i: nat, j: nat)
    requires k > 0 && IsFusion(lists, k, weights, hits) && WeightsPositive(lists, weights)
    requires i < |hits| && j < |hits| && Dominates(lists, hits[i].itemId, hits[j].itemId)
    ensures i < j
  {
    hide Score, RanksOf;
    assert j < i ==> HitLe(hits[j], hits[i]);
    DominatingScore(lists, k, weights, hits[i].itemId, hits[j].itemId);
    assert Listed(lists, hits[j].itemId);
    assert hits[i].score > hits[j].score by {
      assert hits[i] in hits && hits[j] in hits;
    }
  }
}
