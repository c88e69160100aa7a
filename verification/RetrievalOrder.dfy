/**
 What an answer of the retriever means in plain terms (app/rag/hybrid_retrieval.py, app/rag/reranker.py,
 app/rag/text.py, app/rag/rrf.py): which identifiers it has to name, how it is scored and ordered, and where it was
 found.
 */
module RetrievalOrder {
  import opened Wrappers
  import opened Ordering
  import opened Arithmetic
  import opened Corpus
  import opened Retrieval
  import Bm25
  import Fusion
  import Vectors

  // ---- Identifiers ----

  /**
   A chunk passes exactly when its score meets the floor and, with the gate on, every word of the query that has a
   digit, and is at least four characters long or hyphenated, is a word of its text.
   */
  lemma PassesExactlyWhen(cfg: Config, w: Words, query: string, c: RetrievedChunk)
    ensures Passes(cfg, w, query, c)
       <==> && (c.rerankScore == None || c.rerankScore.value >= cfg.minRelevance)
            && (cfg.enforceIdentifiers ==>
                  forall t, i :: t in w.tokenize(query) && 0 <= i < |t| && w.isDigit(t[i]) && (|t| > 3 || '-' in t) ==>
                    t in w.tokenize(c.chunk.text))
  {
    var words := UniqueTerms(w.tokenize(query));
    forall t ensures t in IdentifierTokens(w, query) <==> t in w.tokenize(query) && IsIdentifier(w, t) {
      FilterMembers(x => IsIdentifier(w, x), words, t);
    }
  }

  /** Every chunk of an answer is one of the store and names every such word of the query. */
  lemma AnswerNames(cfg: Config, rr: Reranker, w: Words, query: string, chunks: map<string, Chunk>,
                    visible: Chunk -> bool, answer: seq<RetrievedChunk>, c: RetrievedChunk, t: string, i: nat)
    requires Answer(cfg, rr, w, query, chunks, visible, answer) && cfg.enforceIdentifiers && c in answer
    requires t in w.tokenize(query) && i < |t| && w.isDigit(t[i]) && (|t| > 3 || '-' in t)
    ensures c.chunk in chunks.Values && t in w.tokenize(c.chunk.text)
  {
    PassesExactlyWhen(cfg, w, query, c);
  }

  /** So there is no answer to a question about something that no chunk names. */
  lemma NothingUnnamed(cfg: Config, rr: Reranker, w: Words, query: string, chunks: map<string, Chunk>,
                       visible: Chunk -> bool, answer: seq<RetrievedChunk>, t: string, i: nat)
    requires Answer(cfg, rr, w, query, chunks, visible, answer) && cfg.enforceIdentifiers
    requires t in w.tokenize(query) && i < |t| && w.isDigit(t[i]) && (|t| > 3 || '-' in t)
    requires forall c :: c in chunks.Values ==> t !in w.tokenize(c.text)
    ensures answer == []
  {
    hide Answer;
    if answer != [] { AnswerNames(cfg, rr, w, query, chunks, visible, answer, answer[0], t, i); }
  }

  // ---- The lexical score ----

  ghost function Share(part: nat, whole: nat): real
    requires whole > 0
  {
    part as real / whole as real
  }

  /** The words of a query that count: those that are not stop words. */
  ghost function Counting(w: Words, query: string): set<string> {
    set t | t in w.tokenize(query) && !w.isStop(t)
  }

  ghost function PairAt(tokens: seq<string>, i: nat): (string, string)
    requires i + 1 < |tokens|
  {
    (tokens[i], tokens[i + 1])
  }

  ghost function Pairs(tokens: seq<string>): set<(string, string)> {
    set i: nat | i < |tokens| - 1 :: PairAt(tokens, i)
  }

  ghost function All(tokens: seq<string>): set<string> {
    set t | t in tokens
  }

  lemma {:induction false} BigramsArePairs(tokens: seq<string>)
    ensures Bigrams(tokens) == Pairs(tokens)
  {
    if |tokens| >= 2 {
      var rest := tokens[1..];
      BigramsArePairs(rest);
      forall p ensures p in Pairs(tokens) <==> p == PairAt(tokens, 0) || p in Pairs(rest) {
        if i: nat :| i < |tokens| - 1 && p == PairAt(tokens, i) {
          assert i > 0 ==> p == PairAt(rest, i - 1);
        }
        if i: nat :| i < |rest| - 1 && p == PairAt(rest, i) {
          assert p == PairAt(tokens, i + 1);
        }
      }
    }
  }

  lemma {:induction false} DistinctCount(s: seq<string>)
    requires forall i, j :: 0 <= i < j < |s| ==> s[i] != s[j]
    ensures |All(s)| == |s|
  {
    if s == [] {
      assert All(s) == {};
    } else {
      var n := |s| - 1;
      DistinctCount(s[..n]);
      assert s == s[..n] + [s[n]];
      assert All(s) == All(s[..n]) + {s[n]};
      assert s[n] !in s[..n];
    }
  }

  lemma DistinctFilter(keep: string -> bool, s: seq<string>)
    requires forall i, j :: 0 <= i < j < |s| ==> s[i] != s[j]
    ensures forall i, j :: 0 <= i < j < |Filter(keep, s)| ==> Filter(keep, s)[i] != Filter(keep, s)[j]
    ensures All(Filter(keep, s)) == set t | t in s && keep(t)
    ensures |All(Filter(keep, s))| == |Filter(keep, s)|
  {
    var key: string -> string := t => t;
    FilterDistinct(keep, key, s);
    var kept := Filter(keep, s);
    forall i, j | 0 <= i < j < |kept| ensures kept[i] != kept[j] {
      assert key(kept[i]) != key(kept[j]);
    }
    forall t ensures t in kept <==> t in s && keep(t) { FilterMembers(keep, s, t); }
    DistinctCount(kept);
  }

  lemma ContentTermsAre(w: Words, query: string)
    ensures All(ContentTerms(w, query)) == Counting(w, query)
    ensures |ContentTerms(w, query)| == |Counting(w, query)|
    ensures ContentTerms(w, query) == [] <==> Counting(w, query) == {}
    ensures forall i, j :: 0 <= i < j < |ContentTerms(w, query)| ==>
      ContentTerms(w, query)[i] != ContentTerms(w, query)[j]
  {
    DistinctFilter(t => !w.isStop(t), UniqueTerms(w.tokenize(query)));
    if ContentTerms(w, query) != [] { assert ContentTerms(w, query)[0] in All(ContentTerms(w, query)); }
  }

  lemma CoverageIs(terms: seq<string>, body: seq<string>)
    requires terms != [] && forall i, j :: 0 <= i < j < |terms| ==> terms[i] != terms[j]
    ensures Coverage(terms, body) == Share(|All(terms) * All(body)|, |terms|)
  {
    FilterMembers(t => t in body, terms, "");
    DistinctFilter(t => t in body, terms);
    assert All(Filter(t => t in body, terms)) == All(terms) * All(body);
  }

  lemma HeadingIs(terms: seq<string>, heading: seq<string>)
    requires terms != []
    ensures HeadingMatch(terms, heading) == Share(|All(terms) * All(heading)|, |terms|)
  {
    assert Members(heading) * Members(terms) == All(terms) * All(heading);
  }

  lemma PhraseIs(query: seq<string>, body: seq<string>)
    ensures PhraseMatch(query, body)
         == if Pairs(query) == {} then 0.0 else Share(|Pairs(query) * Pairs(body)|, |Pairs(query)|)
  {
    BigramsArePairs(query);
    BigramsArePairs(body);
  }

  /**
   The score is the weighted sum of three shares, cut off at 1: of the counting words that the text has, of the pairs of
   neighbouring words of the query that it has as neighbours too, and of the counting words that the heading has.
   */
  lemma LexicalScoreIs(w: Words, weights: Weights, query: string, c: Chunk)
    ensures Counting(w, query) == {} ==> LexicalScore(w, weights, query, c) == 0.0
    ensures Counting(w, query) != {} ==>
      var counting, tokens, body := Counting(w, query), w.tokenize(query), w.tokenize(c.text);
      var heading := w.tokenize(if c.heading.Some? then c.heading.value else "");
      var pairs := Pairs(tokens);
      var sum := weights.coverage * Share(|counting * All(body)|, |counting|)
               + weights.phrase * (if pairs == {} then 0.0
                                   else Share(|pairs * Pairs(body)|, |pairs|))
               + weights.heading * Share(|counting * All(heading)|, |counting|);
      LexicalScore(w, weights, query, c) == if sum >= 1.0 then 1.0 else sum
  {
    hide Coverage, HeadingMatch, PhraseMatch, ContentTerms, Counting, Pairs, All, Share;
    ContentTermsAre(w, query);
    if Counting(w, query) != {} {
      CoverageIs(ContentTerms(w, query), w.tokenize(c.text));
      HeadingIs(ContentTerms(w, query), w.tokenize(if c.heading.Some? then c.heading.value else ""));
      PhraseIs(w.tokenize(query), w.tokenize(c.text));
    }
  }

  // ---- The order of an answer ----

  /** Scored answers come by score, then by fused score, both falling, and last by id. */
  lemma AnswerOrder(cfg: Config, rr: Reranker, w: Words, query: string, chunks: map<string, Chunk>,
                    visible: Chunk -> bool, answer: seq<RetrievedChunk>, i: nat, j: nat)
    requires Answer(cfg, rr, w, query, chunks, visible, answer) && rr.Lexical? && i < j < |answer|
    ensures var x, y := answer[i], answer[j];
            && x.rerankScore.Some? && y.rerankScore.Some?
            && (|| x.rerankScore.value > y.rerankScore.value
                || (x.rerankScore.value == y.rerankScore.value
                   && (|| x.fusedScore > y.fusedScore
                       || (x.fusedScore == y.fusedScore && StringLe(x.chunk.chunkId, y.chunk.chunkId)
                          && x.chunk.chunkId != y.chunk.chunkId))))
  {
    assert answer[i] in answer && answer[j] in answer;
    assert RankLe(answer[i], answer[j]);
    assert ChunkIdOf(answer[i]) != ChunkIdOf(answer[j]);
  }

  /** A model's score for the candidate at its position, out of ten; none counts as nought. */
  lemma ModelScores(reply: (string, seq<RetrievedChunk>) -> Reply, w: Words, query: string, pool: seq<RetrievedChunk>,
                    i: nat)
    requires i < |pool|
    ensures var r, s := reply(query, pool), ScoreAt(Llm(reply), w, query, pool, i);
            && (s.None? <==> !r.Scores?)
            && (r.Scores? && i !in r.byIndex ==> s == Some(0.0))
            && (r.Scores? && i in r.byIndex && 0.0 <= r.byIndex[i] <= 10.0 ==> s.value * 10.0 == r.byIndex[i])
            && (r.Scores? && i in r.byIndex && r.byIndex[i] > 10.0 ==> s == Some(1.0))
            && (r.Scores? && i in r.byIndex && r.byIndex[i] < 0.0 ==> s == Some(0.0))
  {}

  // ---- The fusion ----

  /** The least rank is one of the ranks, and no rank is less. */
  lemma {:induction false} MinRankIsLeast(ranks: seq<(string, nat)>)
    requires ranks != []
    ensures exists i :: 0 <= i < |ranks| && ranks[i].1 == Fusion.MinRank(ranks)
    ensures forall i :: 0 <= i < |ranks| ==> Fusion.MinRank(ranks) <= ranks[i].1
  {
    if |ranks| > 1 {
      var rest := ranks[1..];
      MinRankIsLeast(rest);
      assert ranks[0].1 <= Fusion.MinRank(rest) ==> ranks[0].1 == Fusion.MinRank(ranks);
      var k :| 0 <= k < |rest| && rest[k].1 == Fusion.MinRank(rest);
      assert ranks[k + 1].1 == Fusion.MinRank(rest);
      forall i | 0 <= i < |ranks| ensures Fusion.MinRank(ranks) <= ranks[i].1 {
        assert i > 0 ==> ranks[i] == rest[i - 1];
      }
    } else {
      assert ranks[0].1 == Fusion.MinRank(ranks);
    }
  }

  /** Fused hits come by score, falling; where it is equal, by their best rank in any list, and last by id. */
  lemma FusionOrder(lists: seq<Fusion.List>, k: int, weights: Option<map<string, real>>, hits: seq<Fusion.FusedHit>,
                    i: nat, j: nat)
    requires k > 0 && Fusion.IsFusion(lists, k, weights, hits) && i < j < |hits|
    ensures hits[i].score >= hits[j].score
    ensures hits[i].score == hits[j].score ==> Fusion.MinRank(hits[i].ranks) <= Fusion.MinRank(hits[j].ranks)
    ensures hits[i].score == hits[j].score && Fusion.MinRank(hits[i].ranks) == Fusion.MinRank(hits[j].ranks) ==>
      StringLe(hits[i].itemId, hits[j].itemId)
  {
    assert Fusion.HitLe(hits[i], hits[j]);
  }

  lemma OfOneList(l: Fusion.List, k: int, x: string)
    requires k > 0
    ensures Fusion.Score([l], k, None, x) == if x in l.ids then 1.0 / (k + Fusion.Rank(l.ids, x)) as real else 0.0
    ensures Fusion.RanksOf([l], x) == if x in l.ids then [(l.name, Fusion.Rank(l.ids, x))] else []
  {
    hide Fusion.Rank;
    assert [l][..0] == [];
    assert Fusion.Score([], k, None, x) == 0.0 && Fusion.RanksOf([], x) == [];
  }

  /** With weights, a list counts by the weight under its name, and by 1 if there is none. */
  lemma WeightedList(l: Fusion.List, k: int, weights: map<string, real>, x: string)
    requires k > 0 && x in l.ids
    ensures l.name in weights ==>
      Fusion.Score([l], k, Some(weights), x) == weights[l.name] / (k + Fusion.Rank(l.ids, x)) as real
    ensures l.name !in weights ==> Fusion.Score([l], k, Some(weights), x) == Fusion.Score([l], k, None, x)
  {
    hide Fusion.Rank;
    assert [l][..0] == [];
    assert Fusion.Score([], k, None, x) == 0.0 && Fusion.Score([], k, Some(weights), x) == 0.0;
  }

  /** Fused without weights, an item gets 1 / (k + rank) from each list that has it. */
  lemma OneFromEachList(lexical: seq<Bm25.Hit>, semantic: seq<Vectors.Hit>, k: int, x: string)
    requires k > 0
    ensures var a, b := Bm25Ids(lexical), VectorIds(semantic);
            Fusion.Score(BothLists(lexical, semantic), k, None, x)
            == (if x in a then 1.0 / (k + Fusion.Rank(a, x)) as real else 0.0)
             + (if x in b then 1.0 / (k + Fusion.Rank(b, x)) as real else 0.0)
  {
    hide Fusion.Rank;
    var lists := BothLists(lexical, semantic);
    var first := [lists[0]];
    assert lists[..1] == first && first[..0] == [];
    OfOneList(lists[0], k, x);
  }

  // ---- Where a candidate was found ----

  lemma {:induction false} LexicalScoreOf(hits: seq<Bm25.Hit>, id: string)
    ensures Bm25ScoreOf(hits, id).None? <==> id !in Bm25Ids(hits)
    ensures Bm25ScoreOf(hits, id).Some? ==> Bm25.Hit(id, Bm25ScoreOf(hits, id).value) in hits
  {
    if hits != [] {
      var n := |hits| - 1;
      LexicalScoreOf(hits[..n], id);
      assert Bm25Ids(hits) == Bm25Ids(hits[..n]) + [hits[n].chunkId];
    }
  }

  lemma {:induction false} SemanticScoreOf(hits: seq<Vectors.Hit>, id: string)
    ensures SimilarityOf(hits, id).None? <==> id !in VectorIds(hits)
    ensures SimilarityOf(hits, id).Some? ==> Vectors.Hit(id, SimilarityOf(hits, id).value) in hits
  {
    if hits != [] {
      var n := |hits| - 1;
      SemanticScoreOf(hits[..n], id);
      assert VectorIds(hits) == VectorIds(hits[..n]) + [hits[n].chunkId];
    }
  }

  lemma RanksOfBoth(lexical: seq<Bm25.Hit>, semantic: seq<Vectors.Hit>, x: string)
    ensures var a, b := Bm25Ids(lexical), VectorIds(semantic);
            Fusion.RanksOf(BothLists(lexical, semantic), x)
            == (if x in a then [("bm25", Fusion.Rank(a, x))] else [])
             + if x in b then [("semantic", Fusion.Rank(b, x))] else []
  {
    hide Fusion.Rank;
    var lists := BothLists(lexical, semantic);
    var first := [lists[0]];
    assert lists[..1] == first && first[..0] == [];
    OfOneList(lists[0], 1, x);
  }

  lemma ListedInOne(lexical: seq<Bm25.Hit>, semantic: seq<Vectors.Hit>, x: string)
    requires Fusion.Listed(BothLists(lexical, semantic), x)
    ensures x in Bm25Ids(lexical) || x in VectorIds(semantic)
  {}

  /**
   A fused candidate says by which searches it was found, with the score each gave it: the lexical one exactly when it
   is among the lexical hits, the semantic one exactly when it is among the semantic hits.
   */
  lemma FoundWhereItSays(lexical: seq<Bm25.Hit>, semantic: seq<Vectors.Hit>, k: int, fused: seq<Fusion.FusedHit>,
                         f: Fusion.FusedHit, c: Chunk)
    requires k > 0 && Fusion.IsFusion(BothLists(lexical, semantic), k, None, fused) && f in fused
    ensures var r, id := Candidate(f, c, lexical, semantic), f.itemId;
            && ("bm25" in r.foundVia <==> r.bm25Score.Some?) && ("bm25" in r.foundVia <==> id in Bm25Ids(lexical))
            && ("semantic" in r.foundVia <==> r.similarity.Some?)
            && ("semantic" in r.foundVia <==> id in VectorIds(semantic))
            && (r.bm25Score.Some? ==> Bm25.Hit(id, r.bm25Score.value) in lexical)
            && (r.similarity.Some? ==> Vectors.Hit(id, r.similarity.value) in semantic)
            && r.fusedScore == Fusion.Score(BothLists(lexical, semantic), k, None, id)
            && r.chunk == c && r.rerankScore.None? && r.foundVia != []
  {
    hide Fusion.Rank, Fusion.Score, Fusion.RanksOf, BothLists;
    LexicalScoreOf(lexical, f.itemId);
    SemanticScoreOf(semantic, f.itemId);
    RanksOfBoth(lexical, semantic, f.itemId);
    assert Fusion.Listed(BothLists(lexical, semantic), f.itemId);
    ListedInOne(lexical, semantic, f.itemId);
    if f.itemId in Bm25Ids(lexical) {
      assert f.ranks[0].0 == "bm25";
      if f.itemId in VectorIds(semantic) { assert f.ranks[1].0 == "semantic"; }
    } else {
      assert f.itemId in VectorIds(semantic) && f.ranks[0].0 == "semantic";
    }
  }
}
