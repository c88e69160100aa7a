/**
 Hybrid retrieval: two searches, fusion, reranking and the relevance gates (app/rag/hybrid_retrieval.py,
 app/rag/reranker.py).
 */
module Retrieval {
  import opened Wrappers
  import opened Ordering
  import opened Arithmetic
  import opened Corpus
  import opened Index = RagIndex
  import Bm25
  import Fusion
  import Vectors

  datatype RetrievedChunk = RetrievedChunk(
    chunk: Chunk, foundVia: seq<string>, bm25Score: Option<real>, similarity: Option<real>,
    fusedScore: real, rerankScore: Option<real>)

  function ChunkIdOf(c: RetrievedChunk): Id { c.chunk.chunkId }

  datatype Config = Config(
    bm25TopK: int, vectorTopK: int, rrfK: int, rerankTopK: int, finalTopK: int,
    minRelevance: real, similarityThreshold: real, enforceIdentifiers: bool)

  /** Every identifier of the query is a word of the passage. */
  predicate NamesIdentifiers(w: Words, query: string, c: Chunk) {
    forall t :: t in IdentifierTokens(w, query) ==> t in w.tokenize(c.text)
  }

  // ---- The lexical reranker ----

  datatype Weights = Weights(coverage: real, phrase: real, heading: real)

  function Bigrams(tokens: seq<string>): set<(string, string)> {
    if |tokens| < 2 then {} else {(tokens[0], tokens[1])} + Bigrams(tokens[1..])
  }

  function Coverage(terms: seq<string>, body: seq<string>): (r: real)
    ensures 0.0 <= r <= 1.0
  {
    FilterMembers(t => t in body, terms, "");
    Portion(|Filter(t => t in body, terms)|, |terms|)
  }

  function PhraseMatch(query: seq<string>, body: seq<string>): (r: real)
    ensures 0.0 <= r <= 1.0
  {
    Fewer(Bigrams(query), Bigrams(body));
    Portion(|Bigrams(query) * Bigrams(body)|, |Bigrams(query)|)
  }

  function HeadingMatch(terms: seq<string>, heading: seq<string>): (r: real)
    ensures 0.0 <= r <= 1.0
  {
    Fewer(Members(heading), Members(terms));
    MembersSize(terms);
    Portion(|Members(heading) * Members(terms)|, |terms|)
  }

  /** How well a passage covers the query's words, its adjacent pairs, and its words by the heading. */
  function LexicalScore(w: Words, weights: Weights, query: string, c: Chunk): real {
    var terms := ContentTerms(w, query);
    if terms == [] then 0.0
    else
      var body := w.tokenize(c.text);
      var s := weights.coverage * Coverage(terms, body)
             + weights.phrase * PhraseMatch(w.tokenize(query), body)
             + weights.heading * HeadingMatch(terms, w.tokenize(if c.heading.Some? then c.heading.value else ""));
      if s < 1.0 then s else 1.0
  }

  lemma LexicalScoreInRange(w: Words, weights: Weights, query: string, c: Chunk)
    requires weights.coverage >= 0.0 && weights.phrase >= 0.0 && weights.heading >= 0.0
    ensures 0.0 <= LexicalScore(w, weights, query, c) <= 1.0
  {
    hide Coverage, PhraseMatch, HeadingMatch;
    var terms, body := ContentTerms(w, query), w.tokenize(c.text);
    RealProduct(weights.coverage, Coverage(terms, body));
    RealProduct(weights.phrase, PhraseMatch(w.tokenize(query), body));
    RealProduct(weights.heading, HeadingMatch(terms, w.tokenize(if c.heading.Some? then c.heading.value else "")));
  }

  // ---- Reranking ----

  /** What the chat model makes of the listed passages: unreachable, unparsable, or scores by position. */
  datatype Reply = Unreachable | Unparsable | Scores(byIndex: map<int, real>)

  datatype Reranker = Lexical(weights: Weights) | Llm(reply: (string, seq<RetrievedChunk>) -> Reply)

  datatype Warning = NotConfigured | SearchUnavailable | RerankerUnavailable | RerankerUnparsable

  function OrZero(score: Option<real>): real {
    if score.Some? then score.value else 0.0
  }

  /** `(-(rerank_score or 0.0), -fused_score, chunk_id)` */
  predicate RankLe(a: RetrievedChunk, b: RetrievedChunk) {
    || OrZero(a.rerankScore) > OrZero(b.rerankScore)
    || (OrZero(a.rerankScore) == OrZero(b.rerankScore) && a.fusedScore > b.fusedScore)
    || (OrZero(a.rerankScore) == OrZero(b.rerankScore) && a.fusedScore == b.fusedScore
        && StringLe(a.chunk.chunkId, b.chunk.chunkId))
  }

  lemma RankOrder()
    ensures TotalPreorder(RankLe)
  {
    StringOrder();
  }

  function Clamp(x: real): (r: real)
    ensures 0.0 <= r <= 1.0
  {
    if x > 1.0 then 1.0 else if x < 0.0 then 0.0 else x
  }

  /** The score a reranker gives the candidate at position `i`, if it scores at all. */
  function ScoreAt(rr: Reranker, w: Words, query: string, pool: seq<RetrievedChunk>, i: nat): Option<real>
    requires i < |pool|
  {
    match rr
    case Lexical(weights) => Some(LexicalScore(w, weights, query, pool[i].chunk))
    case Llm(reply) =>
      var r := reply(query, pool);
      if r.Scores? then Some(Clamp((if i in r.byIndex then r.byIndex[i] else 0.0) / 10.0)) else None
  }

  predicate Scoring(rr: Reranker, query: string, pool: seq<RetrievedChunk>) {
    rr.Lexical? || rr.reply(query, pool).Scores?
  }

  ghost function Rescored(rr: Reranker, w: Words, query: string, pool: seq<RetrievedChunk>): seq<RetrievedChunk>
    requires Scoring(rr, query, pool)
  {
    seq(|pool|, i requires 0 <= i < |pool| => pool[i].(rerankScore := ScoreAt(rr, w, query, pool, i)))
  }

  /** Scored candidates best first, or, when the model gives no scores, the candidates as they came. */
  ghost function Reranked(rr: Reranker, w: Words, query: string, pool: seq<RetrievedChunk>): seq<RetrievedChunk> {
    if Scoring(rr, query, pool) then SortBy(RankLe, Rescored(rr, w, query, pool)) else pool
  }

  method Rerank(rr: Reranker, w: Words, query: string, pool: seq<RetrievedChunk>)
    returns (ordered: seq<RetrievedChunk>, warning: Option<Warning>)
    ensures ordered == Reranked(rr, w, query, pool)
    ensures warning == if pool == [] || Scoring(rr, query, pool) then None
                       else if rr.reply(query, pool).Unreachable? then Some(RerankerUnavailable)
                         else Some(RerankerUnparsable)
  {
    hide LexicalScore;
    if rr.Llm? {
      if pool == [] {
        return pool, None;
      }
      var reply := rr.reply(query, pool);
      if reply.Unreachable? {
        return pool, Some(RerankerUnavailable);
      }
      if reply.Unparsable? {
        return pool, Some(RerankerUnparsable);
      }
    }
    var scored: seq<RetrievedChunk> := [];
    for i := 0 to |pool|
      invariant scored == Rescored(rr, w, query, pool)[..i]
    {
      scored := scored + [pool[i].(rerankScore := ScoreAt(rr, w, query, pool, i))];
    }
    assert scored == Rescored(rr, w, query, pool);
    ordered, warning := SortBy(RankLe, scored), None;
  }

  // ---- The pool ----

  predicate From(chunks: map<Id, Chunk>, visible: Chunk -> bool, c: RetrievedChunk) {
    c.chunk.chunkId in chunks && chunks[c.chunk.chunkId] == c.chunk && visible(c.chunk)
  }

  /** A pool of visible chunks of the store, each once, none scored yet. */
  ghost predicate PoolOk(chunks: map<Id, Chunk>, visible: Chunk -> bool, pool: seq<RetrievedChunk>) {
    && DistinctBy(ChunkIdOf, pool)
    && forall c :: c in pool ==> From(chunks, visible, c) && c.rerankScore.None?
  }

  /** Reranking keeps the pool's chunks, each once; a scoring reranker scores every one. */
  lemma RerankedPool(rr: Reranker, w: Words, query: string, chunks: map<Id, Chunk>, visible: Chunk -> bool,
                     pool: seq<RetrievedChunk>)
    requires PoolOk(chunks, visible, pool)
    ensures var ordered := Reranked(rr, w, query, pool);
            && DistinctBy(ChunkIdOf, ordered) && |ordered| == |pool|
            && forall c :: c in ordered ==>
               From(chunks, visible, c) && (c.rerankScore.Some? <==> Scoring(rr, query, pool))
                                            && (rr.Lexical? ==> c.rerankScore
                                                                == Some(LexicalScore(w, rr.weights, query, c.chunk)))
  {
    hide LexicalScore;
    if Scoring(rr, query, pool) {
      var scored := Rescored(rr, w, query, pool);
      assert DistinctBy(ChunkIdOf, scored) by {
        forall i, j | 0 <= i < j < |scored| ensures ChunkIdOf(scored[i]) != ChunkIdOf(scored[j]) {
          assert ChunkIdOf(pool[i]) != ChunkIdOf(pool[j]);
        }
      }
      SortDistinct(RankLe, ChunkIdOf, scored);
      SortPermutes(RankLe, scored);
      forall c | c in SortBy(RankLe, scored) ensures c in scored { SortMembers(RankLe, scored, c); }
      forall i | 0 <= i < |scored| ensures From(chunks, visible, scored[i]) {
        assert pool[i] in pool;
      }
    }
  }

  // ---- The gates ----

  /** The relevance floor, applied when the candidates were scored. */
  ghost function AboveFloor(minRelevance: real, ordered: seq<RetrievedChunk>): seq<RetrievedChunk> {
    if exists i :: 0 <= i < |ordered| && ordered[i].rerankScore.Some?
    then Filter((c: RetrievedChunk) => OrZero(c.rerankScore) >= minRelevance, ordered)
    else ordered
  }

  ghost function Gated(cfg: Config, w: Words, query: string, ordered: seq<RetrievedChunk>): seq<RetrievedChunk> {
    var kept := AboveFloor(cfg.minRelevance, ordered);
    if cfg.enforceIdentifiers && IdentifierTokens(w, query) != []
    then Filter((c: RetrievedChunk) => NamesIdentifiers(w, query, c.chunk), kept)
    else kept
  }

  /** What a candidate needs to get through. */
  predicate Passes(cfg: Config, w: Words, query: string, c: RetrievedChunk) {
    && (c.rerankScore.Some? ==> c.rerankScore.value >= cfg.minRelevance)
    && (cfg.enforceIdentifiers ==> NamesIdentifiers(w, query, c.chunk))
  }

  lemma FloorMembers(minRelevance: real, ordered: seq<RetrievedChunk>, c: RetrievedChunk)
    requires (forall x :: x in ordered ==> x.rerankScore.Some?) || (forall x :: x in ordered ==> x.rerankScore.None?)
    ensures c in AboveFloor(minRelevance, ordered)
       <==> c in ordered && (c.rerankScore.Some? ==> c.rerankScore.value >= minRelevance)
    ensures DistinctBy(ChunkIdOf, ordered) ==> DistinctBy(ChunkIdOf, AboveFloor(minRelevance, ordered))
    ensures SortedBy(RankLe, ordered) ==> SortedBy(RankLe, AboveFloor(minRelevance, ordered))
  {
    var keep := (x: RetrievedChunk) => OrZero(x.rerankScore) >= minRelevance;
    FilterMembers(keep, ordered, c);
    if DistinctBy(ChunkIdOf, ordered) { FilterDistinct(keep, ChunkIdOf, ordered); }
    if SortedBy(RankLe, ordered) { FilterSorted(keep, RankLe, ordered); }
  }

  /** Exactly the candidates that pass get through, in their order, each once. */
  lemma GateMembers(cfg: Config, w: Words, query: string, ordered: seq<RetrievedChunk>, c: RetrievedChunk)
    requires (forall x :: x in ordered ==> x.rerankScore.Some?) || (forall x :: x in ordered ==> x.rerankScore.None?)
    ensures c in Gated(cfg, w, query, ordered) <==> c in ordered && Passes(cfg, w, query, c)
    ensures DistinctBy(ChunkIdOf, ordered) ==> DistinctBy(ChunkIdOf, Gated(cfg, w, query, ordered))
    ensures SortedBy(RankLe, ordered) ==> SortedBy(RankLe, Gated(cfg, w, query, ordered))
  {
    hide AboveFloor;
    var kept := AboveFloor(cfg.minRelevance, ordered);
    FloorMembers(cfg.minRelevance, ordered, c);
    var keep := (x: RetrievedChunk) => NamesIdentifiers(w, query, x.chunk);
    FilterMembers(keep, kept, c);
    if DistinctBy(ChunkIdOf, kept) { FilterDistinct(keep, ChunkIdOf, kept); }
    if SortedBy(RankLe, kept) { FilterSorted(keep, RankLe, kept); }
  }

  // ---- The retriever ----

  datatype RetrievalResult = RetrievalResult(
    chunks: seq<RetrievedChunk>, warnings: seq<Warning>,
    bm25Count: nat, semanticCount: nat, fusedCount: nat, rerankedCount: nat, droppedLow: int, droppedIdentifier: int)

  /** Where the store and the two indexes hold a chunk under the same id, it is the same chunk. */
  ghost predicate SameCopies(chunks: map<Id, Chunk>, docs: Bm25.Docs, copies: map<Id, Chunk>) {
    && (forall id :: id in chunks && id in docs ==> docs[id].chunk == chunks[id])
    && (forall id :: id in chunks && id in copies ==> copies[id] == chunks[id])
    && (forall id :: id in chunks ==> chunks[id].chunkId == id)
  }

  /** An index whose stores agree has the same copies everywhere. */
  lemma AgreeingIndex(index: RagIndex)
    requires index.Valid() && Agree(index.Held())
    ensures SameCopies(index.chunks, index.bm25.docs, if index.vectors == null then map[] else index.vectors.chunks)
  {}

  function Bm25Ids(hits: seq<Bm25.Hit>): seq<Id> {
    seq(|hits|, i requires 0 <= i < |hits| => hits[i].chunkId)
  }

  function VectorIds(hits: seq<Vectors.Hit>): seq<Id> {
    seq(|hits|, i requires 0 <= i < |hits| => hits[i].chunkId)
  }

  function Bm25ScoreOf(hits: seq<Bm25.Hit>, id: Id): Option<real> {
    if hits == [] then None
    else if hits[|hits| - 1].chunkId == id then Some(hits[|hits| - 1].score)
    else Bm25ScoreOf(hits[..|hits| - 1], id)
  }

  function SimilarityOf(hits: seq<Vectors.Hit>, id: Id): Option<real> {
    if hits == [] then None
    else if hits[|hits| - 1].chunkId == id then Some(hits[|hits| - 1].similarity)
    else SimilarityOf(hits[..|hits| - 1], id)
  }

  predicate Ranks(f: Fusion.FusedHit, name: string) {
    exists i :: 0 <= i < |f.ranks| && f.ranks[i].0 == name
  }

  /** The two ranked lists that are fused. */
  function BothLists(lexical: seq<Bm25.Hit>, semantic: seq<Vectors.Hit>): seq<Fusion.List> {
    [Fusion.List("bm25", Bm25Ids(lexical)), Fusion.List("semantic", VectorIds(semantic))]
  }

  function Candidate(f: Fusion.FusedHit, c: Chunk, lexical: seq<Bm25.Hit>, semantic: seq<Vectors.Hit>): RetrievedChunk {
    RetrievedChunk(
      c, (if Ranks(f, "semantic") then ["semantic"] else []) + if Ranks(f, "bm25") then ["bm25"] else [],
      Bm25ScoreOf(lexical, f.itemId), SimilarityOf(semantic, f.itemId), f.score, None)
  }

  /** The fused hits the store knows, as candidates. */
  ghost function PoolOf(fused: seq<Fusion.FusedHit>, chunks: map<Id, Chunk>,
                        lexical: seq<Bm25.Hit>, semantic: seq<Vectors.Hit>): seq<RetrievedChunk>
  {
    if fused == [] then []
    else
      var f := fused[|fused| - 1];
      PoolOf(fused[..|fused| - 1], chunks, lexical, semantic)
      + if f.itemId in chunks then [Candidate(f, chunks[f.itemId], lexical, semantic)] else []
  }

  /** Both searches returned only chunks the caller may see, as their index holds them. */
  ghost predicate HitsVisible(docs: Bm25.Docs, copies: map<Id, Chunk>, visible: Chunk -> bool,
                              lexical: seq<Bm25.Hit>, semantic: seq<Vectors.Hit>)
  {
    && (forall i :: 0 <= i < |lexical| ==> lexical[i].chunkId in docs && visible(docs[lexical[i].chunkId].chunk))
    && (forall i :: 0 <= i < |semantic| ==> semantic[i].chunkId in copies && visible(copies[semantic[i].chunkId]))
  }

  lemma ListedIsVisible(chunks: map<Id, Chunk>, docs: Bm25.Docs, copies: map<Id, Chunk>, visible: Chunk -> bool,
                        lexical: seq<Bm25.Hit>, semantic: seq<Vectors.Hit>, id: Id)
    requires SameCopies(chunks, docs, copies) && HitsVisible(docs, copies, visible, lexical, semantic)
    requires Fusion.Listed(BothLists(lexical, semantic), id) && id in chunks
    ensures visible(chunks[id])
  {
    var lists := BothLists(lexical, semantic);
    var i :| 0 <= i < |lists| && id in lists[i].ids;
    if i == 0 {
      var m :| 0 <= m < |lists[0].ids| && lists[0].ids[m] == id;
      assert lexical[m].chunkId == id;
    } else {
      var m :| 0 <= m < |lists[1].ids| && lists[1].ids[m] == id;
      assert semantic[m].chunkId == id;
    }
  }

  ghost predicate HasItem(fused: seq<Fusion.FusedHit>, id: Id) {
    exists i :: 0 <= i < |fused| && fused[i].itemId == id
  }

  lemma {:induction false} PoolIsOk(fused: seq<Fusion.FusedHit>, chunks: map<Id, Chunk>, visible: Chunk -> bool,
                                    lexical: seq<Bm25.Hit>, semantic: seq<Vectors.Hit>)
    requires DistinctBy(Fusion.HitId, fused)
    requires forall id :: id in chunks ==> chunks[id].chunkId == id
    requires forall f :: f in fused && f.itemId in chunks ==> visible(chunks[f.itemId])
    ensures PoolOk(chunks, visible, PoolOf(fused, chunks, lexical, semantic))
    ensures forall c :: c in PoolOf(fused, chunks, lexical, semantic) ==> HasItem(fused, c.chunk.chunkId)
  {
    hide Ranks;
    if fused != [] {
      var n := |fused| - 1;
      PoolIsOk(fused[..n], chunks, visible, lexical, semantic);
      forall c | c in PoolOf(fused[..n], chunks, lexical, semantic)
        ensures ChunkIdOf(c) != fused[n].itemId && HasItem(fused, c.chunk.chunkId)
      {
        var i :| 0 <= i < n && fused[..n][i].itemId == c.chunk.chunkId;
        assert Fusion.HitId(fused[i]) != Fusion.HitId(fused[n]);
      }
    }
  }

  /** The fused hits that go to the reranker make a pool of visible chunks. */
  lemma FusedPool(cfg: Config, chunks: map<Id, Chunk>, docs: Bm25.Docs, copies: map<Id, Chunk>, visible: Chunk -> bool,
                  lexical: seq<Bm25.Hit>, semantic: seq<Vectors.Hit>, fused: seq<Fusion.FusedHit>)
    requires cfg.rrfK > 0 && SameCopies(chunks, docs, copies) && HitsVisible(docs, copies, visible, lexical, semantic)
    requires Fusion.IsFusion(BothLists(lexical, semantic), cfg.rrfK, None, fused)
    ensures PoolOk(chunks, visible, PoolOf(Take(fused, cfg.rerankTopK), chunks, lexical, semantic))
  {
    hide Fusion.Listed, Fusion.Score, Fusion.RanksOf, HitsVisible, PoolOk, BothLists;
    var top := Take(fused, cfg.rerankTopK);
    forall f | f in top && f.itemId in chunks ensures visible(chunks[f.itemId]) {
      ListedIsVisible(chunks, docs, copies, visible, lexical, semantic, f.itemId);
    }
    PoolIsOk(top, chunks, visible, lexical, semantic);
  }

  /** What is returned: visible chunks of the store that pass both gates, each once, at most as many as asked. */
  ghost predicate Answer(cfg: Config, rr: Reranker, w: Words, query: string, chunks: map<Id, Chunk>,
                         visible: Chunk -> bool,
                         answer: seq<RetrievedChunk>)
  {
    && (forall c :: c in answer ==> From(chunks, visible, c) && Passes(cfg, w, query, c))
    && DistinctBy(ChunkIdOf, answer)
    && (cfg.finalTopK >= 0 ==> |answer| <= cfg.finalTopK)
    && (rr.Lexical? ==> SortedBy(RankLe, answer))
    && (rr.Lexical? ==> forall c :: c in answer ==> c.rerankScore == Some(LexicalScore(w, rr.weights, query, c.chunk)))
  }

  lemma LexicalIsSorted(rr: Reranker, w: Words, query: string, pool: seq<RetrievedChunk>)
    requires rr.Lexical?
    ensures SortedBy(RankLe, Reranked(rr, w, query, pool))
  {
    RankOrder();
    SortSorts(RankLe, Rescored(rr, w, query, pool));
  }

  lemma AnswerOk(cfg: Config, rr: Reranker, w: Words, query: string, chunks: map<Id, Chunk>, visible: Chunk -> bool,
                 pool: seq<RetrievedChunk>)
    requires PoolOk(chunks, visible, pool)
    ensures Answer(cfg, rr, w, query, chunks, visible,
      Take(Gated(cfg, w, query, Reranked(rr, w, query, pool)), cfg.finalTopK))
  {
    hide LexicalScore, Gated, Reranked, Passes, From, PoolOk;
    var ordered := Reranked(rr, w, query, pool);
    RerankedPool(rr, w, query, chunks, visible, pool);
    assert (forall x :: x in ordered ==> x.rerankScore.Some?) || (forall x :: x in ordered ==> x.rerankScore.None?);
    forall c ensures c in Gated(cfg, w, query, ordered) <==> c in ordered && Passes(cfg, w, query, c)
             ensures DistinctBy(ChunkIdOf, Gated(cfg, w, query, ordered))
             ensures SortedBy(RankLe, ordered) ==> SortedBy(RankLe, Gated(cfg, w, query, ordered)) {
      GateMembers(cfg, w, query, ordered, c);
    }
    if rr.Lexical? { LexicalIsSorted(rr, w, query, pool); }
  }

  lemma {:induction false} PoolSize(fused: seq<Fusion.FusedHit>, chunks: map<Id, Chunk>, lexical: seq<Bm25.Hit>,
                                    semantic: seq<Vectors.Hit>)
    ensures |PoolOf(fused, chunks, lexical, semantic)| <= |fused|
  {
    if fused != [] { PoolSize(fused[..|fused| - 1], chunks, lexical, semantic); }
  }

  lemma HitsOfEntries(entries: seq<Vectors.Entry>, chunks: map<Id, Chunk>, q: Vectors.Vector, least: real,
                      visible: Chunk -> bool, topK: int)
    requires forall i :: 0 <= i < |entries| ==> |entries[i].row| == |q| && entries[i].id in chunks
    requires DistinctBy(Vectors.EntryId, entries)
    ensures forall h :: h in Take(SortBy(Vectors.HitLe, Vectors.Matching(entries, chunks, q, least, visible)), topK) ==>
      h.chunkId in chunks && visible(chunks[h.chunkId]) && h.similarity >= least
  {
    Vectors.MatchingHits(entries, chunks, q, least, visible);
    var hits := Vectors.Matching(entries, chunks, q, least, visible);
    forall h | h in SortBy(Vectors.HitLe, hits)
      ensures h.chunkId in chunks && visible(chunks[h.chunkId]) && h.similarity >= least
    {
      SortMembers(Vectors.HitLe, hits, h);
    }
  }

  class HybridRetriever {
    const index: RagIndex
    const vectors: Vectors.InMemoryVectorIndex?
    /** The embedding of a text, or nothing when the provider fails; no provider at all when not configured. */
    const embedder: Option<string -> Option<Vectors.Vector>>

    const reranker: Reranker
    const words: Words
    const cfg: Config

    constructor (index: RagIndex, vectors: Vectors.InMemoryVectorIndex?,
                 embedder: Option<string -> Option<Vectors.Vector>>,
                 reranker: Reranker, words: Words, cfg: Config)
      ensures this.index == index && this.vectors == vectors && this.embedder == embedder
      ensures this.reranker == reranker && this.words == words && this.cfg == cfg
    {
      this.index, this.vectors, this.embedder, this.reranker, this.words, this.cfg :=
        index, vectors, embedder, reranker, words, cfg;
    }

    ghost function Copies(): map<Id, Chunk>
      reads vectors
    {
      if vectors == null then map[] else vectors.chunks
    }

    ghost predicate Valid()
      reads index.Repr(), vectors
    {
      index.Valid() && (vectors != null ==> vectors.Valid()) && SameCopies(index.chunks, index.bm25.docs, Copies())
    }

    /** Whether there is a semantic half at all, and whether the query can be embedded for it. */
    predicate Configured()
      reads vectors
    {
      vectors != null && embedder.Some? && |vectors.ids| > 0
    }

    predicate Embeds(query: string)
      requires Configured()
      reads vectors
    {
      var q := embedder.value(query);
      q.Some? && |q.value| == vectors.dimensions
    }

    lemma MatchingEntries(q: Vectors.Vector)
      requires vectors != null && vectors.Valid() && |q| == vectors.dimensions && vectors.norm(q) != 0.0
      ensures var row := Vectors.Scale(q, vectors.norm(q));
              forall i :: 0 <= i < |vectors.Entries()| ==>
                |vectors.Entries()[i].row| == |row| && vectors.Entries()[i].id in vectors.chunks
    {
      forall i | 0 <= i < |vectors.Entries()| ensures vectors.Entries()[i].id in vectors.chunks {
        assert vectors.Entries()[i].id == vectors.ids[i];
      }
    }

    /** The most similar of all the stored vectors, or none where the query has no usable vector. */
    ghost function Semantic(query: string, visible: Chunk -> bool): seq<Vectors.Hit>
      requires Valid()
      reads index.Repr(), vectors
    {
      if !Configured() || !Embeds(query) || vectors.norm(embedder.value(query).value) == 0.0 then []
      else
        var q := embedder.value(query).value;
        MatchingEntries(q);
        Take(SortBy(Vectors.HitLe, Vectors.Matching(vectors.Entries(), vectors.chunks,
          Vectors.Scale(q, vectors.norm(q)),
                                                    cfg.similarityThreshold, visible)), cfg.vectorTopK)
    }

    /** The semantic half: no hits, and a warning, exactly when it cannot be done. */
    method SearchVectors(query: string, visible: Chunk -> bool) returns (hits: seq<Vectors.Hit>,
                         warning: Option<Warning>)
      requires Valid()
      ensures hits == Semantic(query, visible)
      ensures forall i :: 0 <= i < |hits| ==> hits[i].chunkId in Copies() && visible(Copies()[hits[i].chunkId])
                                              && hits[i].similarity >= cfg.similarityThreshold
      ensures warning.Some? ==> hits == []
      ensures warning == if !Configured() then Some(NotConfigured) else if !Embeds(query) then Some(SearchUnavailable)
        else None
    {
      if vectors == null || embedder.None? || |vectors.ids| == 0 {
        return [], Some(NotConfigured);
      }
      var q := embedder.value(query);
      if q.None? {
        return [], Some(SearchUnavailable);
      }
      var r := vectors.Search(q.value, cfg.vectorTopK, cfg.similarityThreshold, visible);
      if r.Err? {
        return [], Some(SearchUnavailable);
      }
      hits, warning := r.value, None;
      if vectors.norm(q.value) != 0.0 {
        HitsOfEntries(vectors.Entries(), vectors.chunks, Vectors.Scale(q.value, vectors.norm(q.value)),
                      cfg.similarityThreshold, visible, cfg.vectorTopK);
      }
    }

    /** The lexical half: the first of the brute-force ranking. */
    method SearchBm25(query: string, visible: Chunk -> bool) returns (hits: seq<Bm25.Hit>)
      requires Valid()
      ensures Bm25.IsTop(index.bm25.p, index.bm25.ops, index.bm25.docs, query, visible, cfg.bm25TopK, hits)
      ensures forall i :: 0 <= i < |hits| ==>
        hits[i].chunkId in index.bm25.docs && visible(index.bm25.docs[hits[i].chunkId].chunk)
    {
      ghost var ranked;
      hits, ranked := index.bm25.Search(query, cfg.bm25TopK, visible);
      assert forall i :: 0 <= i < |hits| ==> hits[i] in ranked;
    }

    method BuildPool(fused: seq<Fusion.FusedHit>, lexical: seq<Bm25.Hit>, semantic: seq<Vectors.Hit>)
      returns (pool: seq<RetrievedChunk>)
      ensures pool == PoolOf(fused, index.chunks, lexical, semantic)
    {
      hide Candidate;
      pool := [];
      for i := 0 to |fused|
        invariant pool == PoolOf(fused[..i], index.chunks, lexical, semantic)
      {
        assert fused[..i + 1][..i] == fused[..i];
        if fused[i].itemId in index.chunks {
          pool := pool + [Candidate(fused[i], index.chunks[fused[i].itemId], lexical, semantic)];
        }
      }
      assert fused[..|fused|] == fused;
    }

    /** The two gates, with what each dropped. */
    method Gate(query: string, ordered: seq<RetrievedChunk>) returns (kept: seq<RetrievedChunk>, droppedLow: int,
                droppedIdentifier: int)
      ensures kept == Gated(cfg, words, query, ordered)
      ensures droppedLow == |ordered| - |AboveFloor(cfg.minRelevance, ordered)| >= 0
      ensures droppedIdentifier == |AboveFloor(cfg.minRelevance, ordered)| - |kept| >= 0
    {
      kept, droppedLow, droppedIdentifier := ordered, 0, 0;
      if exists i :: 0 <= i < |ordered| && ordered[i].rerankScore.Some? {
        var keep := (c: RetrievedChunk) => OrZero(c.rerankScore) >= cfg.minRelevance;
        kept := Filter(keep, ordered);
        droppedLow := |ordered| - |kept|;
        FilterMembers(keep, ordered, ordered[0]);
      }
      if cfg.enforceIdentifiers && IdentifierTokens(words, query) != [] {
        var before := kept;
        var keep := (c: RetrievedChunk) => NamesIdentifiers(words, query, c.chunk);
        kept := Filter(keep, before);
        droppedIdentifier := |before| - |kept|;
        if before != [] { FilterMembers(keep, before, before[0]); }
      }
    }

    /** The pool of the fused hits, reranked; what passes the gates then is a proper answer. */
    method RankPool(query: string, visible: Chunk -> bool, lexical: seq<Bm25.Hit>, semantic: seq<Vectors.Hit>,
                    fused: seq<Fusion.FusedHit>) returns (ordered: seq<RetrievedChunk>, warning: Option<Warning>)
      requires Valid() && HitsVisible(index.bm25.docs, Copies(), visible, lexical, semantic)
      requires cfg.rrfK > 0 && Fusion.IsFusion(BothLists(lexical, semantic), cfg.rrfK, None, fused)
      ensures ordered == Reranked(reranker, words, query,
        PoolOf(Take(fused, cfg.rerankTopK), index.chunks, lexical, semantic))
      ensures |ordered| <= |fused| && (warning.Some? ==> warning.value !in {NotConfigured, SearchUnavailable})
      ensures Answer(cfg, reranker, words, query, index.chunks, visible,
        Take(Gated(cfg, words, query, ordered), cfg.finalTopK))
    {
      hide Answer, PoolOk, Fusion.IsFusion, SameCopies, Gated, Reranked, BothLists, HitsVisible;
      FusedPool(cfg, index.chunks, index.bm25.docs, Copies(), visible, lexical, semantic, fused);
      var pool := BuildPool(Take(fused, cfg.rerankTopK), lexical, semantic);
      PoolSize(Take(fused, cfg.rerankTopK), index.chunks, lexical, semantic);
      RerankedPool(reranker, words, query, index.chunks, visible, pool);
      AnswerOk(cfg, reranker, words, query, index.chunks, visible, pool);
      ordered, warning := Rerank(reranker, words, query, pool);
    }

    /**
     The whole retrieval. The hits fused are the first of the two full rankings. Every chunk returned is one of the
     store that the caller may see, names the query's identifiers, meets the relevance floor when scored, and appears
     once; nothing in the reranked pool that passes is skipped for one that ranks below it.
     */
    method Retrieve(query: string, visible: Chunk -> bool)
      returns (r: Option<RetrievalResult>,
               ghost lexical: seq<Bm25.Hit>, ghost semantic: seq<Vectors.Hit>, ghost fused: seq<Fusion.FusedHit>)
      requires Valid()
      ensures r.None? <==> cfg.rrfK <= 0
      ensures Bm25.IsTop(index.bm25.p, index.bm25.ops, index.bm25.docs, query, visible, cfg.bm25TopK, lexical)
      ensures semantic == Semantic(query, visible)
      ensures HitsVisible(index.bm25.docs, Copies(), visible, lexical, semantic)
      ensures r.Some? ==> Answer(cfg, reranker, words, query, index.chunks, visible, r.value.chunks)
      ensures r.Some? ==> Fusion.IsFusion(BothLists(lexical, semantic), cfg.rrfK, None, fused)
      ensures r.Some? ==>
        var ordered := Reranked(reranker, words, query,
          PoolOf(Take(fused, cfg.rerankTopK), index.chunks, lexical, semantic));
        && r.value.chunks == Take(Gated(cfg, words, query, ordered), cfg.finalTopK)
        && r.value.bm25Count == |lexical| && r.value.semanticCount == |semantic|
        && r.value.rerankedCount == |ordered| <= r.value.fusedCount == |fused|
        && (NotConfigured in r.value.warnings <==> !Configured())
        && (SearchUnavailable in r.value.warnings <==> Configured() && !Embeds(query))
        && r.value.droppedLow == |ordered| - |AboveFloor(cfg.minRelevance, ordered)|
        && r.value.droppedLow + r.value.droppedIdentifier + |Gated(cfg, words, query, ordered)| == r.value.rerankedCount
    {
      hide Answer, PoolOk, Fusion.IsFusion, SameCopies, Gated, AboveFloor, Reranked, BothLists, Bm25.IsTop, PoolOf;
      var warnings: seq<Warning> := [];
      var lexicalHits := SearchBm25(query, visible);
      var semanticHits, warning := SearchVectors(query, visible);
      if warning.Some? {
        warnings := warnings + [warning.value];
      }
      lexical, semantic, fused := lexicalHits, semanticHits, [];
      var fusion := Fusion.ReciprocalRankFusion(BothLists(lexicalHits, semanticHits), cfg.rrfK, None);
      if fusion.None? {
        return None, lexical, semantic, fused;
      }
      fused := fusion.value;
      var ordered, rerankWarning := RankPool(query, visible, lexicalHits, semanticHits, fusion.value);
      if rerankWarning.Some? {
        warnings := warnings + [rerankWarning.value];
      }
      var kept, droppedLow, droppedIdentifier := Gate(query, ordered);
      r := Some(RetrievalResult(Take(kept, cfg.finalTopK), warnings, |lexicalHits|, |semanticHits|, |fusion.value|,
                                |ordered|, droppedLow, droppedIdentifier));
    }
  }
}
