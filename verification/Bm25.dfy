/** The lexical index (app/rag/bm25.py). */
module Bm25 {
  import opened Ordering
  import opened Arithmetic
  import opened Corpus

  type Id = string
  type Term = string

  datatype Doc = Doc(chunk: Chunk, tf: map<Term, nat>, length: nat, entityValues: seq<string>)

  type Docs = map<Id, Doc>
  type Postings = map<Term, set<Id>>

  /** `Counter(tokens)` */
  function Counter(tokens: seq<Term>): map<Term, nat> {
    map t | t in tokens :: multiset(tokens)[t]
  }

  function NonBlank(values: seq<string>, ops: TextOps): seq<string> {
    if values == [] then []
    else (if ops.isBlank(values[0]) then [] else [values[0]]) + NonBlank(values[1..], ops)
  }

  function EntityValues(entities: seq<(string, seq<string>)>, ops: TextOps): seq<string> {
    if entities == [] then [] else NonBlank(entities[0].1, ops) + EntityValues(entities[1..], ops)
  }

  function MakeDoc(chunk: Chunk, ops: TextOps): Doc {
    var heading := if chunk.heading.Some? then chunk.heading.value else "";
    var tokens := ops.tokenize(heading + " " + chunk.text);
    Doc(chunk, Counter(tokens), |tokens|, EntityValues(chunk.entities, ops))
  }

  // ---- What the index must agree with, recomputed from the stored documents ----

  /** The documents that contain a term. */
  ghost function Having(docs: Docs, t: Term): set<Id> {
    set id | id in docs && t in docs[id].tf
  }

  ghost function TotalLength(docs: Docs): nat {
    if docs == map[] then 0
    else var id :| id in docs; docs[id].length + TotalLength(docs - {id})
  }

  lemma {:induction false} TotalWithout(docs: Docs, id: Id)
    requires id in docs
    ensures TotalLength(docs) == docs[id].length + TotalLength(docs - {id})
  {
    var first: Id :| first in docs && TotalLength(docs) == docs[first].length + TotalLength(docs - {first});
    if first != id {
      TotalWithout(docs - {first}, id);
      TotalWithout(docs - {id}, first);
      assert docs - {first} - {id} == docs - {id} - {first};
    }
  }

  ghost predicate DocsMade(docs: Docs, ops: TextOps) {
    forall id :: id in docs ==> docs[id] == MakeDoc(docs[id].chunk, ops) && docs[id].chunk.chunkId == id
  }

  function Posting(postings: Postings, t: Term): set<Id> {
    if t in postings then postings[t] else {}
  }

  /** Every posting is exactly the documents that contain the term, and none is kept empty. */
  ghost predicate PostingsAgree(docs: Docs, postings: Postings) {
    && (forall t :: Posting(postings, t) == Having(docs, t))
    && (forall t :: t in postings ==> postings[t] != {})
  }

  /** Part-way through a document's terms: those in `done` already list `id`, the others do not. */
  ghost predicate PartlyPosted(docs: Docs, postings: Postings, id: Id, done: set<Term>) {
    && (forall t :: Posting(postings, t) == Having(docs, t) + if t in done then {id} else {})
    && (forall t :: t in postings ==> postings[t] != {})
  }

  lemma PostOne(docs: Docs, postings: Postings, id: Id, done: set<Term>, t: Term)
    requires PartlyPosted(docs, postings, id, done)
    ensures PartlyPosted(docs, postings[t := Posting(postings, t) + {id}], id, done + {t})
  {
    hide Having;
    var after := postings[t := Posting(postings, t) + {id}];
    forall u ensures Posting(after, u) == Having(docs, u) + if u in done + {t} then {id} else {} {
      assert Posting(postings, u) == Having(docs, u) + if u in done then {id} else {};
    }
  }

  lemma PostedAll(docs: Docs, postings: Postings, id: Id, doc: Doc)
    requires PartlyPosted(docs, postings, id, doc.tf.Keys) && id !in docs
    ensures PostingsAgree(docs[id := doc], postings)
  {
    forall t ensures Posting(postings, t) == Having(docs[id := doc], t) {
      assert Posting(postings, t) == Having(docs, t) + if t in doc.tf.Keys then {id} else {};
    }
  }

  /** The posting list of `t` without `id`, dropped when that leaves it empty. */
  function Unpost(postings: Postings, id: Id, t: Term): Postings {
    if t !in postings then postings
    else if postings[t] - {id} == {} then postings - {t}
    else postings[t := postings[t] - {id}]
  }

  lemma UnpostOne(docs: Docs, postings: Postings, id: Id, left: set<Term>, t: Term)
    requires PartlyPosted(docs, postings, id, left) && id !in docs && t in left
    ensures PartlyPosted(docs, Unpost(postings, id, t), id, left - {t})
  {
    var after := Unpost(postings, id, t);
    forall u ensures Posting(after, u) == Having(docs, u) + if u in left - {t} then {id} else {} {
      assert Posting(postings, u) == Having(docs, u) + if u in left then {id} else {};
    }
  }

  lemma UnpostStart(docs: Docs, postings: Postings, id: Id)
    requires PostingsAgree(docs, postings) && id in docs
    ensures PartlyPosted(docs - {id}, postings, id, docs[id].tf.Keys)
  {
    forall t ensures Posting(postings, t) == Having(docs - {id}, t) + if t in docs[id].tf.Keys then {id} else {} {
      assert Posting(postings, t) == Having(docs, t);
    }
  }

  /** The postings, document frequencies and total length are those of the stored documents. */
  ghost predicate Agree(docs: Docs, postings: Postings, total: int, ops: TextOps) {
    DocsMade(docs, ops) && PostingsAgree(docs, postings) && total == TotalLength(docs)
  }

  /** The loop of `add`: every term of the new document gets its id. */
  method PostTerms(postings: Postings, id: Id, terms: set<Term>, ghost docs: Docs, ghost total: int, ghost ops: TextOps)
    returns (posted: Postings)
    requires Agree(docs, postings, total, ops)
    ensures PartlyPosted(docs, posted, id, terms)
  {
    var rest, done := terms, {};
    posted := postings;
    assert PartlyPosted(docs, posted, id, {}) by {
      forall t ensures Posting(postings, t) == Having(docs, t) + {} {
        assert Posting(postings, t) == Having(docs, t);
      }
    }
    hide PartlyPosted, Agree;
    while rest != {}
      invariant rest + done == terms && PartlyPosted(docs, posted, id, done)
      decreases rest
    {
      var t :| t in rest;
      PostOne(docs, posted, id, done, t);
      posted := posted[t := Posting(posted, t) + {id}];
      rest, done := rest - {t}, done + {t};
    }
    assert done == terms;
  }

  /** The loop of `remove`: every term of the document loses its id. */
  method UnpostTerms(postings: Postings, id: Id, docs: Docs, ghost total: int, ghost ops: TextOps)
    returns (posted: Postings)
    requires Agree(docs, postings, total, ops) && id in docs
    ensures PartlyPosted(docs - {id}, posted, id, {})
  {
    var rest := docs[id].tf.Keys;
    posted := postings;
    UnpostStart(docs, postings, id);
    hide PartlyPosted, Agree;
    while rest != {}
      invariant PartlyPosted(docs - {id}, posted, id, rest)
      decreases rest
    {
      var t :| t in rest;
      UnpostOne(docs - {id}, posted, id, rest, t);
      posted, rest := Unpost(posted, id, t), rest - {t};
    }
  }

  lemma DocAdded(docs: Docs, postings: Postings, posted: Postings, total: int, chunk: Chunk, ops: TextOps)
    requires Agree(docs, postings, total, ops) && chunk.chunkId !in docs
    requires PartlyPosted(docs, posted, chunk.chunkId, MakeDoc(chunk, ops).tf.Keys)
    ensures var doc := MakeDoc(chunk, ops);
            Agree(docs[chunk.chunkId := doc], posted, total + doc.length, ops)
  {
    hide Having, PartlyPosted, PostingsAgree;
    var id, doc := chunk.chunkId, MakeDoc(chunk, ops);
    PostedAll(docs, posted, id, doc);
    TotalWithout(docs[id := doc], id);
    assert docs[id := doc] - {id} == docs;
  }

  lemma DocRemoved(docs: Docs, postings: Postings, posted: Postings, total: int, id: Id, ops: TextOps)
    requires Agree(docs, postings, total, ops) && id in docs
    requires PartlyPosted(docs - {id}, posted, id, {})
    ensures Agree(docs - {id}, posted, total - docs[id].length, ops)
  {
    TotalWithout(docs, id);
    forall t ensures Posting(posted, t) == Having(docs - {id}, t) {
      assert Posting(posted, t) == Having(docs - {id}, t) + {};
    }
  }

  // ---- Brute-force scoring ----

  /** `k1`, `b` and the bonus, with the natural logarithm: of it only matters that it increases and ln 1 is 0. */
  datatype Params = Params(k1: real, b: real, bonus: real, ln: real -> real) {
    ghost predicate Valid() {
      && k1 > 0.0 && 0.0 <= b <= 1.0
      && ln(1.0) == 0.0 && forall x: real, y: real :: 0.0 < x < y ==> ln(x) < ln(y)
    }
  }

  function Idf(p: Params, n: nat, df: nat): real {
    p.ln(1.0 + (n as real - df as real + 0.5) / (df as real + 0.5))
  }

  function AverageLength(total: nat, n: nat): (r: real)
    ensures r > 0.0
  {
    if n == 0 || total == 0 then 1.0 else total as real / n as real
  }

  function Norm(p: Params, tf: nat, length: nat, avg: real): real
    requires avg > 0.0
  {
    tf as real + p.k1 * (1.0 - p.b + p.b * length as real / avg)
  }

  lemma NormPositive(p: Params, tf: nat, length: nat, avg: real)
    requires p.k1 > 0.0 && 0.0 <= p.b <= 1.0 && avg > 0.0 && tf > 0
    ensures Norm(p, tf, length, avg) > 0.0
  {
    RealProduct(p.b, length as real);
    RealQuotient(p.b * length as real, avg);
    var x := 1.0 - p.b + p.b * length as real / avg;
    RealProduct(p.k1, x);
    assert tf as real > 0.0;
    assert Norm(p, tf, length, avg) == tf as real + p.k1 * x;
  }

  /** What one query term that occurs `tf` times contributes. */
  function TermScore(p: Params, idf: real, tf: nat, length: nat, avg: real): real
    requires p.k1 > 0.0 && 0.0 <= p.b <= 1.0 && avg > 0.0
  {
    if tf == 0 then 0.0
    else
      NormPositive(p, tf, length, avg);
      idf * tf as real * (p.k1 + 1.0) / Norm(p, tf, length, avg)
  }

  function TfOf(doc: Doc, t: Term): nat {
    if t in doc.tf then doc.tf[t] else 0
  }

  ghost function TermsScore(p: Params, docs: Docs, terms: seq<Term>, doc: Doc): real
    requires p.k1 > 0.0 && 0.0 <= p.b <= 1.0
  {
    if terms == [] then 0.0
    else
      var t := terms[|terms| - 1];
      TermsScore(p, docs, terms[..|terms| - 1], doc)
      + TermScore(p, Idf(p, |docs|, |Having(docs, t)|), TfOf(doc, t), doc.length,
                  AverageLength(TotalLength(docs), |docs|))
  }

  /** Whether an identifier extracted from the chunk literally occurs in the upper-cased query. */
  predicate NamesEntity(doc: Doc, queryUpper: string, ops: TextOps) {
    exists i :: 0 <= i < |doc.entityValues| && Occurs(ops.upper(doc.entityValues[i]), queryUpper)
  }

  ghost function Score(p: Params, ops: TextOps, docs: Docs, query: string, doc: Doc): real
    requires p.k1 > 0.0 && 0.0 <= p.b <= 1.0
  {
    TermsScore(p, docs, UniqueTerms(ops.tokenize(query)), doc)
    + if NamesEntity(doc, ops.upper(query), ops) then p.bonus else 0.0
  }

  ghost predicate SharesTerm(doc: Doc, terms: seq<Term>) {
    exists i :: 0 <= i < |terms| && terms[i] in doc.tf
  }

  /** A document the caller may see that contains a query term and scores above zero. */
  ghost predicate IsHit(p: Params, ops: TextOps, docs: Docs, query: string, visible: Chunk -> bool, id: Id)
    requires p.k1 > 0.0 && 0.0 <= p.b <= 1.0
  {
    && id in docs && visible(docs[id].chunk)
    && SharesTerm(docs[id], UniqueTerms(ops.tokenize(query)))
    && Score(p, ops, docs, query, docs[id]) > 0.0
  }

  datatype Hit = Hit(chunkId: Id, score: real)

  /** `(-score, chunk_id)` */
  predicate HitLe(a: Hit, b: Hit) {
    a.score > b.score || (a.score == b.score && StringLe(a.chunkId, b.chunkId))
  }

  function HitId(h: Hit): Id { h.chunkId }

  ghost predicate DistinctIds(hits: seq<Hit>) {
    DistinctBy(HitId, hits)
  }

  ghost predicate Lists(hits: seq<Hit>, id: Id) {
    exists i :: 0 <= i < |hits| && hits[i].chunkId == id
  }

  /** All hits with their brute-force scores, best first. */
  ghost predicate IsRanking(p: Params, ops: TextOps, docs: Docs, query: string, visible: Chunk -> bool,
                            ranked: seq<Hit>)
    requires p.k1 > 0.0 && 0.0 <= p.b <= 1.0
  {
    && SortedBy(HitLe, ranked) && DistinctIds(ranked)
    && (forall h :: h in ranked ==>
          IsHit(p, ops, docs, query, visible, h.chunkId) && h.score == Score(p, ops, docs, query, docs[h.chunkId]))
    && (forall id :: IsHit(p, ops, docs, query, visible, id) ==> Lists(ranked, id))
  }

  /** The first `topK` of such a ranking. */
  ghost predicate IsTop(p: Params, ops: TextOps, docs: Docs, query: string, visible: Chunk -> bool, topK: int,
                        hits: seq<Hit>)
    requires p.k1 > 0.0 && 0.0 <= p.b <= 1.0
  {
    exists ranked :: IsRanking(p, ops, docs, query, visible, ranked) && hits == Take(ranked, topK)
  }

  lemma IdfPositive(p: Params, n: nat, df: nat)
    requires p.Valid() && df <= n
    ensures Idf(p, n, df) > 0.0
  {
    RealQuotient(n as real - df as real + 0.5, df as real + 0.5);
  }

  lemma QuotientPositive(p: Params, idf: real, tf: nat, length: nat, avg: real)
    requires p.k1 > 0.0 && 0.0 <= p.b <= 1.0 && avg > 0.0 && tf > 0 && idf > 0.0
    ensures TermScore(p, idf, tf, length, avg) > 0.0
  {
    NormPositive(p, tf, length, avg);
    RealProduct(idf, tf as real);
    RealProduct(idf * tf as real, p.k1 + 1.0);
    RealQuotient(idf * tf as real * (p.k1 + 1.0), Norm(p, tf, length, avg));
  }

  lemma HavingSize(docs: Docs, t: Term)
    ensures |Having(docs, t)| <= |docs|
  {
    assert Having(docs, t) <= docs.Keys;
    SubsetSize(Having(docs, t), docs.Keys);
  }

  lemma TermScorePositive(p: Params, ops: TextOps, docs: Docs, t: Term, id: Id)
    requires p.Valid() && DocsMade(docs, ops) && id in docs
    ensures var s := TermScore(p, Idf(p, |docs|, |Having(docs, t)|), TfOf(docs[id], t), docs[id].length,
                               AverageLength(TotalLength(docs), |docs|));
            s >= 0.0 && (t in docs[id].tf ==> s > 0.0)
  {
    hide Having, TotalLength, AverageLength;
    var doc, avg := docs[id], AverageLength(TotalLength(docs), |docs|);
    if t in doc.tf {
      assert doc == MakeDoc(doc.chunk, ops) && doc.tf[t] > 0;
      HavingSize(docs, t);
      IdfPositive(p, |docs|, |Having(docs, t)|);
      QuotientPositive(p, Idf(p, |docs|, |Having(docs, t)|), doc.tf[t], doc.length, avg);
    }
  }

  lemma {:induction false} TermsScorePositive(p: Params, ops: TextOps, docs: Docs, terms: seq<Term>, id: Id)
    requires p.Valid() && DocsMade(docs, ops) && id in docs
    ensures TermsScore(p, docs, terms, docs[id]) >= 0.0
    ensures SharesTerm(docs[id], terms) ==> TermsScore(p, docs, terms, docs[id]) > 0.0
  {
    if terms != [] {
      var t := terms[|terms| - 1];
      TermsScorePositive(p, ops, docs, terms[..|terms| - 1], id);
      TermScorePositive(p, ops, docs, t, id);
      if SharesTerm(docs[id], terms) && t !in docs[id].tf {
        var i :| 0 <= i < |terms| && terms[i] in docs[id].tf;
        assert terms[..|terms| - 1][i] in docs[id].tf;
      }
    }
  }

  /** With a bonus that is not negative, every visible document sharing a query term scores above zero. */
  lemma ScoresArePositive(p: Params, ops: TextOps, docs: Docs, query: string, id: Id)
    requires p.Valid() && p.bonus >= 0.0 && DocsMade(docs, ops)
    requires id in docs && SharesTerm(docs[id], UniqueTerms(ops.tokenize(query)))
    ensures Score(p, ops, docs, query, docs[id]) > 0.0
  {
    TermsScorePositive(p, ops, docs, UniqueTerms(ops.tokenize(query)), id);
  }

  // ---- The index ----

  lemma HitOrder()
    ensures TotalPreorder(HitLe)
  {
    StringOrder();
  }

  lemma SortKeepsHits(hits: seq<Hit>)
    requires DistinctIds(hits)
    ensures DistinctIds(SortBy(HitLe, hits))
    ensures forall h :: h in SortBy(HitLe, hits) <==> h in hits
    ensures forall id :: Lists(SortBy(HitLe, hits), id) <==> Lists(hits, id)
  {
    var ranked := SortBy(HitLe, hits);
    SortDistinct(HitLe, HitId, hits);
    forall h ensures h in ranked <==> h in hits { SortMembers(HitLe, hits, h); }
    forall id ensures Lists(ranked, id) <==> Lists(hits, id) {
      if Lists(ranked, id) {
        var i :| 0 <= i < |ranked| && ranked[i].chunkId == id;
        assert ranked[i] in hits;
      }
      if Lists(hits, id) {
        var i :| 0 <= i < |hits| && hits[i].chunkId == id;
        assert hits[i] in ranked;
      }
    }
  }

  class BM25Index {
    const p: Params
    const ops: TextOps
    var docs: Docs
    var postings: Postings
    var totalLength: int

    /** The statistics are those of the stored documents. */
    ghost predicate Valid()
      reads this
    {
      p.k1 > 0.0 && 0.0 <= p.b <= 1.0 && Agree(docs, postings, totalLength, ops)
    }

    constructor (p: Params, ops: TextOps)
      requires p.k1 > 0.0 && 0.0 <= p.b <= 1.0
      ensures Valid() && docs == map[] && this.p == p && this.ops == ops
    {
      this.p, this.ops, docs, postings, totalLength := p, ops, map[], map[], 0;
    }

    method Remove(id: Id)
      requires Valid()
      modifies this
      ensures Valid() && docs == old(docs) - {id}
    {
      hide Agree;
      if id in docs {
        var posted := UnpostTerms(postings, id, docs, totalLength, ops);
        DocRemoved(docs, postings, posted, totalLength, id, ops);
        docs, postings, totalLength := docs - {id}, posted, totalLength - docs[id].length;
      } else {
        assert docs == docs - {id};
      }
    }

    method Add(chunk: Chunk)
      requires Valid()
      modifies this
      ensures Valid() && docs == old(docs)[chunk.chunkId := MakeDoc(chunk, ops)]
    {
      hide Agree, MakeDoc;
      if chunk.chunkId in docs {
        Remove(chunk.chunkId);
      }
      var doc := MakeDoc(chunk, ops);
      var posted := PostTerms(postings, chunk.chunkId, doc.tf.Keys, docs, totalLength, ops);
      DocAdded(docs, postings, posted, totalLength, chunk, ops);
      docs, postings, totalLength := docs[chunk.chunkId := doc], posted, totalLength + doc.length;
    }

    method RemoveDocument(documentId: string) returns (n: nat)
      requires Valid()
      modifies this
      ensures Valid() && docs == old(docs) - (set id | id in old(docs) && old(docs)[id].chunk.documentId == documentId)
      ensures n == |set id | id in old(docs) && old(docs)[id].chunk.documentId == documentId|
    {
      hide Agree;
      var ids := set id | id in docs && docs[id].chunk.documentId == documentId;
      var rest := ids;
      n := |ids|;
      while rest != {}
        invariant Valid() && rest <= ids && docs == old(docs) - (ids - rest)
        decreases rest
      {
        var id :| id in rest;
        Remove(id);
        rest := rest - {id};
        assert ids - rest == (ids - (rest + {id})) + {id};
      }
    }

    lemma PostingsAreHaving()
      requires Valid()
      ensures forall t :: Posting(postings, t) == Having(docs, t)
    {}

    /** The ids of the documents that contain one of the terms. */
    method Candidates(terms: seq<Term>) returns (ids: set<Id>)
      requires Valid()
      ensures forall id :: id in ids <==> id in docs && SharesTerm(docs[id], terms)
    {
      hide Agree;
      PostingsAreHaving();
      ids := {};
      for k := 0 to |terms|
        invariant forall id :: id in ids <==> id in docs && exists i :: 0 <= i < k && terms[i] in docs[id].tf
      {
        ids := ids + Posting(postings, terms[k]);
      }
    }

    method ScoreOf(doc: Doc, terms: seq<Term>, avg: real, queryUpper: string) returns (score: real)
      requires Valid() && totalLength == TotalLength(docs) && avg == AverageLength(TotalLength(docs), |docs|)
      ensures score == TermsScore(p, docs, terms, doc) + if NamesEntity(doc, queryUpper, ops) then p.bonus else 0.0
    {
      hide NamesEntity, TermScore, Agree, Having, Idf;
      PostingsAreHaving();
      score := 0.0;
      for k := 0 to |terms|
        invariant score == TermsScore(p, docs, terms[..k], doc)
      {
        var t := terms[k];
        assert terms[..k + 1][..k] == terms[..k];
        var idf := Idf(p, |docs|, |Posting(postings, t)|);
        score := score + TermScore(p, idf, TfOf(doc, t), doc.length, avg);
      }
      assert terms[..|terms|] == terms;
      if NamesEntity(doc, queryUpper, ops) {
        score := score + p.bonus;
      }
    }

    lemma AverageAgrees()
      requires Valid()
      ensures totalLength >= 0 && totalLength == TotalLength(docs)
    {}

    lemma ScoreIs(query: string, doc: Doc, score: real)
      requires Valid()
      requires score == TermsScore(p, docs, UniqueTerms(ops.tokenize(query)), doc)
                      + if NamesEntity(doc, ops.upper(query), ops) then p.bonus else 0.0
      ensures score == Score(p, ops, docs, query, doc)
    {}

    /** The hits among the candidates looked at so far, each once, with their scores. */
    ghost predicate FoundSoFar(query: string, visible: Chunk -> bool, seen: set<Id>, found: seq<Hit>)
      requires Valid()
      reads this
    {
      && DistinctIds(found)
      && (forall i :: 0 <= i < |found| ==>
            && found[i].chunkId in seen && IsHit(p, ops, docs, query, visible, found[i].chunkId)
            && found[i].score == Score(p, ops, docs, query, docs[found[i].chunkId]))
      && (forall id :: id in seen && IsHit(p, ops, docs, query, visible, id) ==> Lists(found, id))
    }

    lemma OneMore(query: string, visible: Chunk -> bool, seen: set<Id>, before: seq<Hit>, id: Id, after: seq<Hit>)
      requires Valid() && FoundSoFar(query, visible, seen, before) && id !in seen
      requires if IsHit(p, ops, docs, query, visible, id)
               then after == before + [Hit(id, Score(p, ops, docs, query, docs[id]))] else after == before
      ensures FoundSoFar(query, visible, seen + {id}, after)
    {
      hide IsHit, Score;
      forall x | x in seen + {id} && IsHit(p, ops, docs, query, visible, x) ensures Lists(after, x) {
        if x == id {
          assert after[|before|].chunkId == x;
        } else {
          assert Lists(before, x);
          var i :| 0 <= i < |before| && before[i].chunkId == x;
          assert after[i].chunkId == x;
        }
      }
    }

    /** The loop over the candidates. */
    method Score1By1(query: string, terms: seq<Term>, candidates: set<Id>, visible: Chunk -> bool)
      returns (found: seq<Hit>)
      requires Valid() && terms == UniqueTerms(ops.tokenize(query))
      requires forall id :: id in candidates <==> id in docs && SharesTerm(docs[id], terms)
      ensures FoundSoFar(query, visible, candidates, found)
    {
      hide Agree, SharesTerm, Score;
      var queryUpper := ops.upper(query);
      AverageAgrees();
      var avg := AverageLength(totalLength, |docs|);
      var rest := candidates;
      found := [];
      while rest != {}
        invariant rest <= candidates && FoundSoFar(query, visible, candidates - rest, found)
        decreases rest
      {
        var cid :| cid in rest;
        ghost var before := found;
        if visible(docs[cid].chunk) {
          var score := ScoreOf(docs[cid], terms, avg, queryUpper);
          ScoreIs(query, docs[cid], score);
          if score > 0.0 {
            found := found + [Hit(cid, score)];
          }
        }
        OneMore(query, visible, candidates - rest, before, cid, found);
        assert candidates - (rest - {cid}) == (candidates - rest) + {cid};
        rest := rest - {cid};
      }
      assert candidates - {} == candidates;
    }

    lemma Ranked(query: string, visible: Chunk -> bool, candidates: set<Id>, found: seq<Hit>)
      requires Valid() && FoundSoFar(query, visible, candidates, found)
      requires forall id :: id in candidates <==> id in docs && SharesTerm(docs[id], UniqueTerms(ops.tokenize(query)))
      ensures IsRanking(p, ops, docs, query, visible, SortBy(HitLe, found))
    {
      hide Score;
      var ranked := SortBy(HitLe, found);
      HitOrder();
      SortSorts(HitLe, found);
      SortKeepsHits(found);
      forall id | IsHit(p, ops, docs, query, visible, id) ensures Lists(ranked, id) {
        assert Lists(found, id);
      }
    }

    /** The top hits are those of a brute-force ranking of all visible documents sharing a query term. */
    method Search(query: string, topK: int, visible: Chunk -> bool) returns (hits: seq<Hit>, ghost ranked: seq<Hit>)
      requires Valid()
      ensures IsTop(p, ops, docs, query, visible, topK, hits)
      ensures IsRanking(p, ops, docs, query, visible, ranked) && hits == Take(ranked, topK)
    {
      hide Agree, FoundSoFar, IsRanking;
      var terms := UniqueTerms(ops.tokenize(query));
      var candidates := Candidates(terms);
      var found := Score1By1(query, terms, candidates, visible);
      Ranked(query, visible, candidates, found);
      hits, ranked := Take(SortBy(HitLe, found), topK), SortBy(HitLe, found);
    }
  }
}
