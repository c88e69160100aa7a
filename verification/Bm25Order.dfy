/**
 What the scores of the lexical index mean for the order of its hits (app/rag/bm25.py): rarer terms, more occurrences
 and shorter documents come first.
 */
module Bm25Order {
  import opened Ordering
  import opened Arithmetic
  import opened Corpus
  import opened Bm25

  // ---- One term ----

  lemma OneMore(y: real, d: real)
    requires d > 0.0
    ensures 1.0 + y / d == (d + y) / d
  {
    assert d / d == 1.0;
    assert (d + y) / d == d / d + y / d;
  }

  /** The weight of a term is ln((N + 1) / (df + 1/2)). */
  lemma IdfIs(p: Params, n: nat, df: nat)
    ensures Idf(p, n, df) == p.ln((n as real + 1.0) / (df as real + 0.5))
  {
    var d := df as real + 0.5;
    OneMore(n as real - df as real + 0.5, d);
  }

  lemma QuotientsFall(x: real, a: real, b: real)
    requires x > 0.0 && 0.0 < a < b
    ensures x / a > x / b
  {
    DivideBack(x, a);
    DivideBack(x, b);
    RealQuotient(x, b);
    TimesRatio(a, x / a, b, x / b);
  }

  /** The rarer a term, the more it weighs. */
  lemma RarerWeighsMore(p: Params, n: nat, df: nat, more: nat)
    requires p.Valid() && df < more <= n
    ensures Idf(p, n, df) > Idf(p, n, more) > 0.0
  {
    IdfIs(p, n, df);
    IdfIs(p, n, more);
    var x, y := (n as real + 1.0) / (df as real + 0.5), (n as real + 1.0) / (more as real + 0.5);
    QuotientsFall(n as real + 1.0, df as real + 0.5, more as real + 0.5);
    IdfPositive(p, n, more);
  }

  function Factor(b: real, length: nat, avg: real): real
    requires avg > 0.0
  {
    1.0 - b + b * length as real / avg
  }

  /** How a document's length stretches the divisor: k1 for one of average length. */
  function Stretch(p: Params, length: nat, avg: real): real
    requires avg > 0.0
  {
    Times(p.k1, Factor(p.b, length, avg))
  }

  lemma QuotientsGrow(x: real, y: real, a: real)
    requires x <= y && a > 0.0
    ensures x / a <= y / a && (x < y ==> x / a < y / a)
  {
    RealQuotient(y - x, a);
    assert y / a - x / a == (y - x) / a;
  }

  lemma Differ(b: real, s: real, l: real)
    requires b >= 0.0 && s <= l
    ensures b * s <= b * l && (b > 0.0 && s < l ==> b * s < b * l)
  {
    RealProduct(b, l - s);
    assert b * l == b * s + b * (l - s);
  }

  lemma FactorGrows(b: real, short: nat, long: nat, avg: real)
    requires 0.0 <= b <= 1.0 && avg > 0.0 && short <= long
    ensures 0.0 <= Factor(b, short, avg) <= Factor(b, long, avg)
    ensures b > 0.0 && short < long ==> Factor(b, short, avg) < Factor(b, long, avg)
    ensures short > 0 ==> Factor(b, short, avg) > 0.0
  {
    var s, l := short as real, long as real;
    var x, y := b * s, b * l;
    RealProduct(b, s);
    Differ(b, s, l);
    RealQuotient(x, avg);
    QuotientsGrow(x, y, avg);
  }

  lemma StretchGrows(p: Params, short: nat, long: nat, avg: real)
    requires p.k1 > 0.0 && 0.0 <= p.b <= 1.0 && avg > 0.0 && short <= long
    ensures 0.0 <= Stretch(p, short, avg) <= Stretch(p, long, avg)
    ensures p.b > 0.0 && short < long ==> Stretch(p, short, avg) < Stretch(p, long, avg)
    ensures short > 0 ==> Stretch(p, short, avg) > 0.0
  {
    hide Times, Factor;
    FactorGrows(p.b, short, long, avg);
    TimesSign(p.k1, Factor(p.b, short, avg));
    if Factor(p.b, short, avg) < Factor(p.b, long, avg) {
      TimesLarger(p.k1, Factor(p.b, short, avg), Factor(p.b, long, avg));
    }
  }

  lemma Cancel(b: real, avg: real)
    requires avg > 0.0
    ensures b * avg / avg == b
  {}

  lemma AverageStretch(p: Params, length: nat, avg: real)
    requires avg > 0.0 && length as real == avg
    ensures Stretch(p, length, avg) == p.k1
  {
    Cancel(p.b, avg);
  }

  lemma ProductOfThree(a: real, b: real, c: real)
    ensures a * b * c == Times(b, Times(c, a))
  {
    var d := a * c;
    assert a * b * c == d * b;
  }

  /** A term's share with the parts of the product and of the divisor kept apart. */
  lemma TermScoreIs(p: Params, idf: real, tf: nat, length: nat, avg: real)
    requires p.k1 > 0.0 && 0.0 <= p.b <= 1.0 && avg > 0.0 && tf > 0
    ensures Stretch(p, length, avg) >= 0.0
    ensures Times(tf as real + Stretch(p, length, avg), TermScore(p, idf, tf, length, avg))
         == Times(tf as real, Times(p.k1 + 1.0, idf))
  {
    StretchGrows(p, length, length, avg);
    NormPositive(p, tf, length, avg);
    var norm := Norm(p, tf, length, avg);
    assert norm == tf as real + Stretch(p, length, avg);
    DivideBack(idf * tf as real * (p.k1 + 1.0), norm);
    assert idf * tf as real * (p.k1 + 1.0) == Times(tf as real, Times(p.k1 + 1.0, idf)) by {
      ProductOfThree(idf, tf as real, p.k1 + 1.0);
    }
  }

  lemma MissingProduct(most: real, score: real, tf: real, stretch: real)
    requires Times(tf + stretch, score) == Times(tf, most)
    ensures Times(tf + stretch, most - score) == Times(most, stretch)
  {
    hide Times;
    TimesSum(tf + stretch, most, 0.0 - score);
    TimesOpposite(tf + stretch, score);
    TimesSum(most, tf, stretch);
    TimesCommutes(most, tf + stretch);
    TimesCommutes(most, tf);
    assert most + (0.0 - score) == most - score;
  }

  /** What is missing to the most that a term can count, (k1 + 1) times its weight. */
  lemma Missing(p: Params, idf: real, tf: nat, length: nat, avg: real)
    requires p.k1 > 0.0 && 0.0 <= p.b <= 1.0 && avg > 0.0 && tf > 0 && length > 0 && idf > 0.0
    ensures var most, stretch := Times(p.k1 + 1.0, idf), Stretch(p, length, avg);
            && stretch > 0.0
            && Times(tf as real + stretch, most - TermScore(p, idf, tf, length, avg)) == Times(most, stretch)
            && TermScore(p, idf, tf, length, avg) < most
  {
    hide TermScore, Stretch, Times;
    TermScoreIs(p, idf, tf, length, avg);
    StretchGrows(p, length, length, avg);
    var most, stretch, score := Times(p.k1 + 1.0, idf), Stretch(p, length, avg), TermScore(p, idf, tf, length, avg);
    MissingProduct(most, score, tf as real, stretch);
    TimesPositive(p.k1 + 1.0, idf);
    TimesPositive(most, stretch);
    TimesSign(tf as real + stretch, most - score);
  }

  /** The more often a term occurs in documents of one length, the more it counts, but never k1 + 1 times its weight. */
  lemma MoreOccurrencesCountMore(p: Params, idf: real, tf: nat, more: nat, length: nat, avg: real)
    requires p.k1 > 0.0 && 0.0 <= p.b <= 1.0 && avg > 0.0 && tf < more && length > 0 && idf > 0.0
    ensures TermScore(p, idf, tf, length, avg) < TermScore(p, idf, more, length, avg) < Times(p.k1 + 1.0, idf)
  {
    hide Stretch, Times;
    Missing(p, idf, more, length, avg);
    if tf == 0 {
      QuotientPositive(p, idf, more, length, avg);
    } else {
      hide TermScore;
      Missing(p, idf, tf, length, avg);
      var most, stretch := Times(p.k1 + 1.0, idf), Stretch(p, length, avg);
      TimesRatio(tf as real + stretch, most - TermScore(p, idf, tf, length, avg),
                 more as real + stretch, most - TermScore(p, idf, more, length, avg));
    }
  }

  /** The longer the document, the less the same occurrences count. */
  lemma LongerCountsLess(p: Params, idf: real, tf: nat, short: nat, long: nat, avg: real)
    requires p.k1 > 0.0 && 0.0 <= p.b <= 1.0 && avg > 0.0 && short <= long && idf > 0.0
    ensures TermScore(p, idf, tf, long, avg) <= TermScore(p, idf, tf, short, avg)
    ensures tf > 0 && p.b > 0.0 && short < long ==>
      TermScore(p, idf, tf, long, avg) < TermScore(p, idf, tf, short, avg)
  {
    if tf == 0 { return; }
    hide TermScore, Stretch, Times;
    StretchGrows(p, short, long, avg);
    TermScoreIs(p, idf, tf, short, avg);
    TermScoreIs(p, idf, tf, long, avg);
    QuotientPositive(p, idf, tf, long, avg);
    var a, b := tf as real + Stretch(p, short, avg), tf as real + Stretch(p, long, avg);
    if a < b {
      TimesRatio(a, TermScore(p, idf, tf, short, avg), b, TermScore(p, idf, tf, long, avg));
    } else {
      SameFactor(a, TermScore(p, idf, tf, short, avg), TermScore(p, idf, tf, long, avg));
    }
  }

  lemma TimesSmaller(a: real, x: real, y: real)
    requires a > 0.0 && Times(a, x) < Times(a, y)
    ensures x < y
  {
    hide Times;
    if x > y { TimesLarger(a, y, x); }
  }

  /** A rarer term counts more in the same place. */
  lemma WeightCounts(p: Params, idf: real, more: real, tf: nat, length: nat, avg: real)
    requires p.k1 > 0.0 && 0.0 <= p.b <= 1.0 && avg > 0.0 && tf > 0 && idf < more
    ensures TermScore(p, idf, tf, length, avg) < TermScore(p, more, tf, length, avg)
  {
    hide TermScore, Stretch, Times;
    TermScoreIs(p, idf, tf, length, avg);
    TermScoreIs(p, more, tf, length, avg);
    TimesLarger(p.k1 + 1.0, idf, more);
    TimesLarger(tf as real, Times(p.k1 + 1.0, idf), Times(p.k1 + 1.0, more));
    TimesSmaller(tf as real + Stretch(p, length, avg), TermScore(p, idf, tf, length, avg),
                 TermScore(p, more, tf, length, avg));
  }

  lemma TimesOne(one: real, x: real)
    requires one == 1.0
    ensures Times(one, x) == x
  {}

  /** One occurrence in a document of average length counts the weight of the term. */
  lemma OnceOnAverage(p: Params, idf: real, length: nat, avg: real)
    requires p.k1 > 0.0 && 0.0 <= p.b <= 1.0 && avg > 0.0 && length as real == avg
    ensures TermScore(p, idf, 1, length, avg) == idf
  {
    TermScoreIs(p, idf, 1, length, avg);
    AverageStretch(p, length, avg);
    TimesOne(1.0, Times(p.k1 + 1.0, idf));
    SameFactor(p.k1 + 1.0, TermScore(p, idf, 1, length, avg), idf);
  }

  // ---- A whole query ----

  /** A query term counts at least as much in the one document as in the other. */
  ghost predicate CountsNoLess(x: Doc, y: Doc, t: Term) {
    TfOf(x, t) >= TfOf(y, t)
  }

  /** A document that holds a term is not empty. */
  lemma TermInLength(doc: Doc, ops: TextOps, t: Term)
    requires doc == MakeDoc(doc.chunk, ops) && TfOf(doc, t) > 0
    ensures doc.length > 0
  {}

  /** What one term adds to the score of a document. */
  ghost function TermShare(p: Params, docs: Docs, doc: Doc, t: Term): real
    requires p.k1 > 0.0 && 0.0 <= p.b <= 1.0
  {
    TermScore(p, Idf(p, |docs|, |Having(docs, t)|), TfOf(doc, t), doc.length,
              AverageLength(TotalLength(docs), |docs|))
  }

  lemma TermOrder(p: Params, docs: Docs, ops: TextOps, x: Id, y: Id, t: Term)
    requires p.Valid() && DocsMade(docs, ops) && x in docs && y in docs && docs[x].length <= docs[y].length
    requires CountsNoLess(docs[x], docs[y], t)
    ensures TermShare(p, docs, docs[x], t) >= TermShare(p, docs, docs[y], t)
    ensures TfOf(docs[x], t) > TfOf(docs[y], t) ==> TermShare(p, docs, docs[x], t) > TermShare(p, docs, docs[y], t)
  {
    hide TermScore, Idf, AverageLength, TotalLength, Having;
    HavingSize(docs, t);
    IdfPositive(p, |docs|, |Having(docs, t)|);
    var idf, avg := Idf(p, |docs|, |Having(docs, t)|), AverageLength(TotalLength(docs), |docs|);
    var a, b := docs[x], docs[y];
    LongerCountsLess(p, idf, TfOf(b, t), a.length, b.length, avg);
    if TfOf(a, t) > TfOf(b, t) {
      TermInLength(a, ops, t);
      MoreOccurrencesCountMore(p, idf, TfOf(b, t), TfOf(a, t), a.length, avg);
    }
  }

  lemma {:induction false} TermsOrder(p: Params, docs: Docs, ops: TextOps, x: Id, y: Id, terms: seq<Term>)
    requires p.Valid() && DocsMade(docs, ops) && x in docs && y in docs && docs[x].length <= docs[y].length
    requires forall t :: t in terms ==> CountsNoLess(docs[x], docs[y], t)
    ensures TermsScore(p, docs, terms, docs[x]) >= TermsScore(p, docs, terms, docs[y])
    ensures (exists t :: t in terms && TfOf(docs[x], t) > TfOf(docs[y], t)) ==>
      TermsScore(p, docs, terms, docs[x]) > TermsScore(p, docs, terms, docs[y])
  {
    hide TermScore, Idf, AverageLength, TotalLength, Having, DocsMade, TfOf;
    if terms != [] {
      var before, t := terms[..|terms| - 1], terms[|terms| - 1];
      TermsOrder(p, docs, ops, x, y, before);
      TermOrder(p, docs, ops, x, y, t);
      if u :| u in terms && TfOf(docs[x], u) > TfOf(docs[y], u) { assert u == t || u in before; }
    }
  }

  lemma MembersOfQuery(ops: TextOps, query: string, t: Term)
    ensures t in UniqueTerms(ops.tokenize(query)) <==> t in ops.tokenize(query)
  {}

  /**
   A document that holds every term of the query at least as often as another, one of them more often, that is no
   longer, and that is named if the other is, scores higher.
   */
  lemma MoreOfTheQueryScoresHigher(p: Params, ops: TextOps, docs: Docs, query: string, x: Id, y: Id, t: Term)
    requires p.Valid() && p.bonus >= 0.0 && DocsMade(docs, ops) && x in docs && y in docs
    requires docs[x].length <= docs[y].length
    requires forall u :: u in ops.tokenize(query) ==> TfOf(docs[x], u) >= TfOf(docs[y], u)
    requires t in ops.tokenize(query) && TfOf(docs[x], t) > TfOf(docs[y], t)
    requires NamesEntity(docs[y], ops.upper(query), ops) ==> NamesEntity(docs[x], ops.upper(query), ops)
    ensures Score(p, ops, docs, query, docs[x]) > Score(p, ops, docs, query, docs[y])
  {
    hide DocsMade, TermsScore, NamesEntity;
    var terms := UniqueTerms(ops.tokenize(query));
    assert t in terms;
    TermsOrder(p, docs, ops, x, y, terms);
  }

  /** Of the terms listed, the document holds this one alone. */
  lemma {:induction false} OneTerm(p: Params, docs: Docs, doc: Doc, terms: seq<Term>, t: Term)
    requires p.k1 > 0.0 && 0.0 <= p.b <= 1.0
    requires forall i, j :: 0 <= i < j < |terms| ==> terms[i] != terms[j]
    requires forall u :: u in terms && u != t ==> TfOf(doc, u) == 0
    ensures TermsScore(p, docs, terms, doc) == if t in terms then TermShare(p, docs, doc, t) else 0.0
  {
    hide Idf, AverageLength, TotalLength, Having, TfOf;
    if terms != [] {
      var before, last := terms[..|terms| - 1], terms[|terms| - 1];
      OneTerm(p, docs, doc, before, t);
      assert t in terms <==> t in before || t == last;
    }
  }

  /** The document holds this term as the only one of the query, and once. */
  ghost predicate HoldsOnce(doc: Doc, ops: TextOps, query: string, t: Term) {
    && t in ops.tokenize(query) && TfOf(doc, t) == 1
    && forall u :: u in ops.tokenize(query) && u != t ==> TfOf(doc, u) == 0
  }

  /** Of two documents that hold one term of the query each, once, the one with the rarer term scores higher. */
  lemma RarerTermScoresHigher(p: Params, ops: TextOps, docs: Docs, query: string, x: Id, y: Id, rare: Term,
                              common: Term)
    requires p.Valid() && x in docs && y in docs && docs[x].length == docs[y].length
    requires HoldsOnce(docs[x], ops, query, rare) && HoldsOnce(docs[y], ops, query, common)
    requires |Having(docs, rare)| < |Having(docs, common)|
    requires NamesEntity(docs[x], ops.upper(query), ops) <==> NamesEntity(docs[y], ops.upper(query), ops)
    ensures Score(p, ops, docs, query, docs[x]) > Score(p, ops, docs, query, docs[y])
  {
    hide NamesEntity, Having, TotalLength, AverageLength, TermScore, Idf, TfOf;
    var terms := UniqueTerms(ops.tokenize(query));
    OneTerm(p, docs, docs[x], terms, rare);
    OneTerm(p, docs, docs[y], terms, common);
    HavingSize(docs, common);
    RarerWeighsMore(p, |docs|, |Having(docs, rare)|, |Having(docs, common)|);
    WeightCounts(p, Idf(p, |docs|, |Having(docs, common)|), Idf(p, |docs|, |Having(docs, rare)|), 1, docs[x].length,
                 AverageLength(TotalLength(docs), |docs|));
  }

  // ---- The hits ----

  /** The one stands before the other among the hits, unless neither made it into them or only the first did. */
  ghost predicate Before(hits: seq<Hit>, x: Id, y: Id) {
    forall j :: 0 <= j < |hits| && hits[j].chunkId == y ==> exists i :: 0 <= i < j && hits[i].chunkId == x
  }

  /** Among the hits of a search the one that scores higher comes first; of two that score the same, the lesser id. */
  lemma HigherScoreFirst(p: Params, ops: TextOps, docs: Docs, query: string, visible: Chunk -> bool, topK: int,
                         hits: seq<Hit>, x: Id, y: Id)
    requires p.k1 > 0.0 && 0.0 <= p.b <= 1.0 && IsTop(p, ops, docs, query, visible, topK, hits)
    requires IsHit(p, ops, docs, query, visible, x) && y in docs
    requires || Score(p, ops, docs, query, docs[x]) > Score(p, ops, docs, query, docs[y])
             || (Score(p, ops, docs, query, docs[x]) == Score(p, ops, docs, query, docs[y])
                && x != y && StringLe(x, y))
    ensures Before(hits, x, y)
  {
    hide Score;
    var ranked: seq<Hit> :| IsRanking(p, ops, docs, query, visible, ranked) && hits == Take(ranked, topK);
    assert Lists(ranked, x);
    var i :| 0 <= i < |ranked| && ranked[i].chunkId == x;
    forall j | 0 <= j < |hits| && hits[j].chunkId == y ensures exists m :: 0 <= m < j && hits[m].chunkId == x {
      assert hits[j] == ranked[j] && ranked[j] in ranked && ranked[i] in ranked;
      if j < i {
        assert HitLe(ranked[j], ranked[i]);
        StringLeTotal(x, y);
      }
      assert i < j && hits[i] == ranked[i];
    }
  }

  lemma Holding(doc: Doc, terms: seq<Term>, t: Term)
    requires t in terms && TfOf(doc, t) > 0
    ensures SharesTerm(doc, terms)
  {
    var i :| 0 <= i < |terms| && terms[i] == t;
  }

  /** So of two visible documents alike but for the one query term each holds, that with the rarer term comes first. */
  lemma RarerTermFirst(p: Params, ops: TextOps, docs: Docs, query: string, visible: Chunk -> bool, topK: int,
                       hits: seq<Hit>, x: Id, y: Id, rare: Term, common: Term)
    requires p.Valid() && p.bonus >= 0.0 && DocsMade(docs, ops) && IsTop(p, ops, docs, query, visible, topK, hits)
    requires x in docs && y in docs && visible(docs[x].chunk) && docs[x].length == docs[y].length
    requires HoldsOnce(docs[x], ops, query, rare) && HoldsOnce(docs[y], ops, query, common)
    requires |Having(docs, rare)| < |Having(docs, common)|
    requires NamesEntity(docs[x], ops.upper(query), ops) <==> NamesEntity(docs[y], ops.upper(query), ops)
    ensures Before(hits, x, y)
  {
    hide Score, IsTop, NamesEntity, DocsMade;
    RarerTermScoresHigher(p, ops, docs, query, x, y, rare, common);
    Holding(docs[x], UniqueTerms(ops.tokenize(query)), rare);
    ScoresArePositive(p, ops, docs, query, x);
    HigherScoreFirst(p, ops, docs, query, visible, topK, hits, x, y);
  }

  /** Likewise the document that holds more of the query comes first. */
  lemma MoreOfTheQueryFirst(p: Params, ops: TextOps, docs: Docs, query: string, visible: Chunk -> bool, topK: int,
                            hits: seq<Hit>, x: Id, y: Id, t: Term)
    requires p.Valid() && p.bonus >= 0.0 && DocsMade(docs, ops) && IsTop(p, ops, docs, query, visible, topK, hits)
    requires x in docs && y in docs && visible(docs[x].chunk) && docs[x].length <= docs[y].length
    requires forall u :: u in ops.tokenize(query) ==> TfOf(docs[x], u) >= TfOf(docs[y], u)
    requires t in ops.tokenize(query) && TfOf(docs[x], t) > TfOf(docs[y], t)
    requires NamesEntity(docs[y], ops.upper(query), ops) ==> NamesEntity(docs[x], ops.upper(query), ops)
    ensures Before(hits, x, y)
  {
    hide Score, IsTop, NamesEntity, DocsMade;
    MoreOfTheQueryScoresHigher(p, ops, docs, query, x, y, t);
    Holding(docs[x], UniqueTerms(ops.tokenize(query)), t);
    ScoresArePositive(p, ops, docs, query, x);
    HigherScoreFirst(p, ops, docs, query, visible, topK, hits, x, y);
  }

  lemma CountAtMost(m: multiset<Term>, t: Term)
    ensures m[t] <= |m|
  {
    var ts: multiset<Term> := multiset{}[t := m[t]];
    assert m == ts + m[t := 0];
  }

  /** A query term that occurs in the text counts as often as the tokeniser yields it, in heading and text. */
  lemma OccurrencesOf(chunk: Chunk, ops: TextOps, t: Term)
    ensures var tokens := ops.tokenize((if chunk.heading.Some? then chunk.heading.value else "") + " " + chunk.text);
            && TfOf(MakeDoc(chunk, ops), t) == multiset(tokens)[t] <= MakeDoc(chunk, ops).length
            && (TfOf(MakeDoc(chunk, ops), t) > 0 <==> t in tokens)
  {
    var tokens := ops.tokenize((if chunk.heading.Some? then chunk.heading.value else "") + " " + chunk.text);
    assert t in tokens <==> t in multiset(tokens);
    assert |multiset(tokens)| == |tokens|;
    CountAtMost(multiset(tokens), t);
  }

  // ---- Naming an entity, and the average ----

  lemma {:induction false} NonBlankAre(values: seq<string>, ops: TextOps, v: string)
    ensures v in NonBlank(values, ops) <==> v in values && !ops.isBlank(v)
  {
    if values != [] { NonBlankAre(values[1..], ops, v); }
  }

  lemma {:induction false} EntityValuesAre(entities: seq<(string, seq<string>)>, ops: TextOps, v: string)
    ensures v in EntityValues(entities, ops)
       <==> !ops.isBlank(v) && exists i :: 0 <= i < |entities| && v in entities[i].1
  {
    if entities != [] {
      var rest := entities[1..];
      EntityValuesAre(rest, ops, v);
      NonBlankAre(entities[0].1, ops, v);
      if i :| 0 <= i < |rest| && v in rest[i].1 { assert v in entities[i + 1].1; }
      if i :| 0 <= i < |entities| && v in entities[i].1 { assert i > 0 ==> v in rest[i - 1].1; }
    }
  }

  /** A document earns the bonus exactly when the query spells out one of the values extracted from its chunk. */
  lemma NamesEntityExactlyWhen(chunk: Chunk, ops: TextOps, query: string)
    ensures NamesEntity(MakeDoc(chunk, ops), ops.upper(query), ops)
       <==> exists i, v, before, after ::
              && 0 <= i < |chunk.entities| && v in chunk.entities[i].1 && !ops.isBlank(v)
              && ops.upper(query) == before + ops.upper(v) + after
  {
    hide Occurs, EntityValues;
    var doc, upper := MakeDoc(chunk, ops), ops.upper(query);
    if NamesEntity(doc, upper, ops) {
      var k :| 0 <= k < |doc.entityValues| && Occurs(ops.upper(doc.entityValues[k]), upper);
      var v := doc.entityValues[k];
      EntityValuesAre(chunk.entities, ops, v);
      OccursExactlyWhen(ops.upper(v), upper);
    }
    if i, v, before, after :| && 0 <= i < |chunk.entities| && v in chunk.entities[i].1 && !ops.isBlank(v)
                              && upper == before + ops.upper(v) + after {
      EntityValuesAre(chunk.entities, ops, v);
      OccursExactlyWhen(ops.upper(v), upper);
      var k :| 0 <= k < |doc.entityValues| && doc.entityValues[k] == v;
    }
  }

  /** The average length times the number of documents is the total length; 1 stands in where there is none. */
  lemma AverageIs(docs: Docs)
    ensures var n, total := |docs|, TotalLength(docs);
            var avg := AverageLength(total, n);
            if n > 0 && total > 0 then Times(n as real, avg) == total as real else avg == 1.0
  {
    if |docs| > 0 { DivideBack(TotalLength(docs) as real, |docs| as real); }
  }
}
