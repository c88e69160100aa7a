/** Chunks, and the text operations the search code applies to them (app/rag/models.py, app/rag/text.py). */
module Corpus {
  import opened Wrappers
  import opened Arithmetic
  import opened Ordering

  datatype Chunk = Chunk(
    chunkId: string, documentId: string, heading: Option<string>, text: string,
    entities: seq<(string, seq<string>)>, metadata: map<string, string>)

  /** Unicode tokenisation, upper-casing and blankness; none of the results depend on how they work. */
  datatype TextOps = TextOps(tokenize: string -> seq<string>, upper: string -> string, isBlank: string -> bool)

  /** `unique_terms`: each token once, in the order of first appearance. */
  function UniqueTerms(tokens: seq<string>): (r: seq<string>)
    ensures forall t :: t in r <==> t in tokens
    ensures forall i, j :: 0 <= i < j < |r| ==> r[i] != r[j]
  {
    if tokens == [] then []
    else
      var before := UniqueTerms(tokens[..|tokens| - 1]);
      var t := tokens[|tokens| - 1];
      assert forall x :: x in tokens <==> x in tokens[..|tokens| - 1] || x == t;
      if t in before then before else before + [t]
  }

  predicate OccursAt(needle: string, hay: string, i: nat) {
    i + |needle| <= |hay| && hay[i..i + |needle|] == needle
  }

  /** `needle in hay`, for strings */
  predicate Occurs(needle: string, hay: string) {
    exists i :: 0 <= i <= |hay| - |needle| && OccursAt(needle, hay, i)
  }

  /** One text occurs in another exactly when the other is the one with something before and after it. */
  lemma OccursExactlyWhen(needle: string, hay: string)
    ensures Occurs(needle, hay) <==> exists before, after :: hay == before + needle + after
  {
    if Occurs(needle, hay) {
      var i :| 0 <= i <= |hay| - |needle| && OccursAt(needle, hay, i);
      assert hay == hay[..i] + needle + hay[i + |needle|..];
    }
    if before, after :| hay == before + needle + after {
      assert OccursAt(needle, hay, |before|);
    }
  }

  /** Tokenisation, the stop words and `str.isdigit` on one character. */
  datatype Words = Words(tokenize: string -> seq<string>, isStop: string -> bool, isDigit: char -> bool)

  function ContentTerms(w: Words, text: string): seq<string> {
    Filter(t => !w.isStop(t), UniqueTerms(w.tokenize(text)))
  }

  predicate IsIdentifier(w: Words, t: string) {
    (exists i :: 0 <= i < |t| && w.isDigit(t[i])) && (|t| >= 4 || '-' in t)
  }

  function IdentifierTokens(w: Words, text: string): seq<string> {
    Filter(t => IsIdentifier(w, t), UniqueTerms(w.tokenize(text)))
  }

  /** How much of a whole a part is; nothing of nothing is none. */
  function Portion(part: nat, whole: nat): (r: real)
    requires part <= whole
    ensures 0.0 <= r <= 1.0
  {
    if whole == 0 then 0.0
    else
      RealQuotient(part as real, whole as real);
      RealQuotient(whole as real - part as real, whole as real);
      assert part as real / whole as real + (whole as real - part as real) / whole as real == 1.0;
      part as real / whole as real
  }

  function Members(s: seq<string>): set<string> {
    set t | t in s
  }

  lemma Fewer<T>(a: set<T>, b: set<T>)
    ensures |a * b| <= |a| && |a * b| <= |b|
  {
    assert a == a * b + (a - b) && b == a * b + (b - a);
  }

  lemma {:induction false} MembersSize(s: seq<string>)
    ensures |Members(s)| <= |s|
  {
    if s != [] {
      MembersSize(s[1..]);
      assert s == [s[0]] + s[1..];
      assert Members(s) == Members(s[1..]) + {s[0]};
    } else {
      assert Members(s) == {};
    }
  }
}
