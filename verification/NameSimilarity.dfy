/** The lexical similarity of two texts (`lexical_similarity` in app/services/duplicate_service.py), over the reals. */
module NameSimilarity {
  import opened Wrappers
  import opened Corpus
  import IdentityResolution

  /** The overlapping triples of a text, or the whole of a shorter one. */
  function Trigrams(s: string): set<string> {
    if s == "" then {} else if |s| <= 3 then {s} else {s[..3]} + Trigrams(s[1..])
  }

  function Jaccard(a: set<string>, b: set<string>): real {
    Fewer(a + b, a * b);
    assert (a + b) * (a * b) == a * b;
    Portion(|a * b|, |a + b|)
  }

  function Dice(a: set<string>, b: set<string>): real {
    Fewer(a, b);
    if a == {} || b == {} then 0.0 else Portion(2 * |a * b|, |a| + |b|)
  }

  /** `flat` lower-cases a text and collapses its white space. */
  function LexicalSimilarity(w: Words, flat: string -> string, a: string, b: string): real {
    0.6 * Jaccard(Members(ContentTerms(w, a)), Members(ContentTerms(w, b))) + 0.4 * Dice(Trigrams(flat(a)),
      Trigrams(flat(b)))
  }

  lemma JaccardFacts(a: set<string>, b: set<string>)
    ensures 0.0 <= Jaccard(a, b) <= 1.0 && Jaccard(a, b) == Jaccard(b, a) && (a != {} ==> Jaccard(a, a) == 1.0)
  {
    assert a * b == b * a && a + b == b + a && a * a == a && a + a == a;
  }

  lemma DiceFacts(a: set<string>, b: set<string>)
    ensures 0.0 <= Dice(a, b) <= 1.0 && Dice(a, b) == Dice(b, a) && (a != {} ==> Dice(a, a) == 1.0)
  {
    assert a * b == b * a && a * a == a;
  }

  /** Between 0 and 1, the same both ways round, and 1 for a text with itself when it has a content word. */
  lemma SimilarityInRange(w: Words, flat: string -> string, a: string, b: string)
    ensures 0.0 <= LexicalSimilarity(w, flat, a, b) <= 1.0
    ensures LexicalSimilarity(w, flat, a, b) == LexicalSimilarity(w, flat, b, a)
    ensures ContentTerms(w, a) != [] && flat(a) != "" ==> LexicalSimilarity(w, flat, a, a) == 1.0
  {
    hide Jaccard, Dice, ContentTerms;
    JaccardFacts(Members(ContentTerms(w, a)), Members(ContentTerms(w, b)));
    DiceFacts(Trigrams(flat(a)), Trigrams(flat(b)));
    if ContentTerms(w, a) != [] { assert ContentTerms(w, a)[0] in Members(ContentTerms(w, a)); }
  }

  /** This similarity is one that the identity matcher may be given. */
  lemma FitsTheMatcher(w: Words, flat: string -> string, isDigit: char -> bool,
                       mobileOf: IdentityResolution.Key -> Option<string>)
    ensures IdentityResolution.Matcher((a, b) => LexicalSimilarity(w, flat, a, b), isDigit, mobileOf).Valid()
  {
    forall a, b ensures 0.0 <= LexicalSimilarity(w, flat, a, b) <= 1.0 {
      SimilarityInRange(w, flat, a, b);
    }
  }
}
