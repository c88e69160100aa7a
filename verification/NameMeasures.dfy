/** What the similarity of two names measures (`lexical_similarity` in app/services/duplicate_service.py). */
module NameMeasures {
  import opened Wrappers
  import opened Arithmetic
  import opened Corpus
  import opened NameSimilarity

  function TripleAt(s: string, i: nat): string
    requires i + 3 <= |s|
  {
    s[i..i + 3]
  }

  ghost function Triples(s: string): set<string> {
    set i: nat | i + 3 <= |s| :: TripleAt(s, i)
  }

  /** A text has the triple at its start and those of the rest. */
  lemma TriplesOfMore(s: string)
    requires |s| > 3
    ensures Triples(s) == {s[..3]} + Triples(s[1..])
  {
    var rest := s[1..];
    forall i: nat | i + 3 <= |rest| ensures TripleAt(rest, i) == TripleAt(s, i + 1) {}
    forall t | t in Triples(s) ensures t == s[..3] || t in Triples(rest) {
      var i: nat :| i + 3 <= |s| && t == TripleAt(s, i);
      if i > 0 { assert t == TripleAt(rest, i - 1); }
    }
    forall t | t in Triples(rest) ensures t in Triples(s) {
      var i: nat :| i + 3 <= |rest| && t == TripleAt(rest, i);
      assert t == TripleAt(s, i + 1);
    }
    assert s[..3] == TripleAt(s, 0);
  }

  lemma OneTriple(s: string)
    requires |s| == 3
    ensures Triples(s) == {s}
  {
    assert s == TripleAt(s, 0);
  }

  /** The trigrams are the runs of three characters; a shorter text is its own only one, and an empty one has none. */
  lemma {:induction false} TrigramsAre(s: string)
    ensures |s| >= 3 ==> Trigrams(s) == Triples(s)
    ensures 1 <= |s| <= 2 ==> Trigrams(s) == {s}
    ensures s == "" ==> Trigrams(s) == {}
  {
    hide Triples;
    if |s| == 3 {
      OneTriple(s);
    } else if |s| > 3 {
      TrigramsAre(s[1..]);
      TriplesOfMore(s);
    }
  }

  lemma PortionIs(part: nat, whole: nat)
    requires part <= whole && whole > 0
    ensures Times(whole as real, Portion(part, whole)) == part as real
    ensures Portion(part, whole) == 1.0 <==> part == whole
    ensures Portion(part, whole) == 0.0 <==> part == 0
  {
    DivideBack(part as real, whole as real);
    TimesCommutes(whole as real, 1.0);
    assert Times(1.0, whole as real) == whole as real;
    TimesSum(whole as real, 0.0, 0.0);
  }

  lemma SizesOfUnion<T>(a: set<T>, b: set<T>)
    ensures |a + b| == |a| + |b| - |a * b|
    ensures |a * b| == |a + b| <==> a == b
    ensures 2 * |a * b| <= |a| + |b|
    ensures 2 * |a * b| == |a| + |b| <==> a == b
  {
    assert a + b == (a - b) + (a * b) + (b - a);
    assert a == (a - b) + (a * b) && b == (b - a) + (a * b);
    if |a - b| == 0 && |b - a| == 0 { assert a - b == {} && b - a == {}; }
  }

  /** The words they share among the words of either. */
  lemma JaccardIs(a: set<string>, b: set<string>)
    ensures a + b == {} ==> Jaccard(a, b) == 0.0
    ensures Times(|a + b| as real, Jaccard(a, b)) == |a * b| as real
    ensures a + b != {} ==> (Jaccard(a, b) == 1.0 <==> a == b) && (Jaccard(a, b) == 0.0 <==> a * b == {})
  {
    Fewer(a + b, a * b);
    assert (a + b) * (a * b) == a * b;
    SizesOfUnion(a, b);
    if a + b == {} {
      assert a * b <= a + b;
      TimesSum(0.0, 0.0, 0.0);
    } else {
      PortionIs(|a * b|, |a + b|);
    }
  }

  /** Twice the trigrams they share among those of the one and those of the other. */
  lemma DiceIs(a: set<string>, b: set<string>)
    ensures a == {} || b == {} ==> Dice(a, b) == 0.0
    ensures Times((|a| + |b|) as real, Dice(a, b)) == (2 * |a * b|) as real
    ensures a != {} && b != {} ==> (Dice(a, b) == 1.0 <==> a == b) && (Dice(a, b) == 0.0 <==> a * b == {})
  {
    Fewer(a, b);
    SizesOfUnion(a, b);
    if a == {} || b == {} {
      assert a * b == {};
      TimesSum((|a| + |b|) as real, 0.0, 0.0);
    } else {
      PortionIs(2 * |a * b|, |a| + |b|);
    }
  }

  ghost function WordsOf(w: Words, s: string): set<string> {
    Members(ContentTerms(w, s))
  }

  lemma SomeTrigram(s: string)
    requires s != ""
    ensures Trigrams(s) != {}
  {}

  /**
   Two names are wholly alike exactly when they have the same words that count and the same trigrams; names with the
   same words but no trigram in common come to 0.6, and names with the same trigrams but no word in common to 0.4.
   */
  lemma SimilarityByParts(w: Words, flat: string -> string, a: string, b: string)
    requires WordsOf(w, a) + WordsOf(w, b) != {} && flat(a) != "" && flat(b) != ""
    ensures var words, other := WordsOf(w, a), WordsOf(w, b);
            var trigrams, others := Trigrams(flat(a)), Trigrams(flat(b));
            && (LexicalSimilarity(w, flat, a, b) == 1.0 <==> words == other && trigrams == others)
            && (words == other && trigrams * others == {} ==> LexicalSimilarity(w, flat, a, b) == 0.6)
            && (words * other == {} && trigrams == others ==> LexicalSimilarity(w, flat, a, b) == 0.4)
            && (LexicalSimilarity(w, flat, a, b) == 0.0 <==> words * other == {} && trigrams * others == {})
  {
    hide Jaccard, Dice, ContentTerms, Trigrams;
    JaccardIs(WordsOf(w, a), WordsOf(w, b));
    DiceIs(Trigrams(flat(a)), Trigrams(flat(b)));
    JaccardFacts(WordsOf(w, a), WordsOf(w, b));
    DiceFacts(Trigrams(flat(a)), Trigrams(flat(b)));
    SomeTrigram(flat(a));
    SomeTrigram(flat(b));
  }
}
