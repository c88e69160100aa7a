/** The words, sentences, blocks and table rows that the chunker works on (app/rag/chunking.py). */
module ChunkText {
  import opened Arithmetic

  // ---- Words and text ----

  /** `text.split()` */
  function Words(isSpace: char -> bool, s: string): (r: seq<string>)
    ensures s != [] && !isSpace(s[|s| - 1]) ==> r != []
  {
    if s == [] then []
    else
      var n := |s| - 1;
      var before := Words(isSpace, s[..n]);
      if isSpace(s[n]) then before
      else if n == 0 || isSpace(s[n - 1]) then before + [[s[n]]]
      else before[..|before| - 1] + [before[|before| - 1] + [s[n]]]
  }

  /** `" ".join(words)` */
  function Join(words: seq<string>): string {
    if words == [] then ""
    else if |words| == 1 then words[0]
    else Join(words[..|words| - 1]) + " " + words[|words| - 1]
  }

  predicate IsWord(isSpace: char -> bool, w: string) {
    w != [] && forall i :: 0 <= i < |w| ==> !isSpace(w[i])
  }

  lemma WordsByChar(isSpace: char -> bool, s: string)
    requires s != []
    ensures var n := |s| - 1;
            var before := Words(isSpace, s[..n]);
            Words(isSpace, s) == if isSpace(s[n]) then before
                                 else if n == 0 || isSpace(s[n - 1]) then before + [[s[n]]]
                                 else before[..|before| - 1] + [before[|before| - 1] + [s[n]]]
  {}

  lemma {:induction false} WordsAppendWord(isSpace: char -> bool, s: string, w: string)
    requires IsWord(isSpace, w) && (s == [] || isSpace(s[|s| - 1]))
    ensures Words(isSpace, s + w) == Words(isSpace, s) + [w]
  {
    hide Words;
    var n := |w| - 1;
    var all := s + w;
    assert all[..|all| - 1] == s + w[..n] && all[|all| - 1] == w[n];
    WordsByChar(isSpace, all);
    if n == 0 {
      assert s + w[..0] == s && w == [w[0]];
    } else {
      assert IsWord(isSpace, w[..n]) && all[|all| - 2] == w[n - 1];
      WordsAppendWord(isSpace, s, w[..n]);
      var before := Words(isSpace, s) + [w[..n]];
      assert before[..|before| - 1] == Words(isSpace, s);
      assert w[..n] + [w[n]] == w;
    }
  }

  lemma WordsOfNothing(isSpace: char -> bool)
    ensures Words(isSpace, "") == []
  {}

  /** Joining words with spaces and splitting again gives the words back. */
  lemma {:induction false} WordsOfJoin(isSpace: char -> bool, words: seq<string>)
    requires isSpace(' ') && forall i :: 0 <= i < |words| ==> IsWord(isSpace, words[i])
    ensures Words(isSpace, Join(words)) == words
  {
    hide Words, IsWord;
    if words == [] {
      WordsOfNothing(isSpace);
    } else {
      var n := |words| - 1;
      assert words == words[..n] + [words[n]];
      if n == 0 {
        WordsOfNothing(isSpace);
        WordsAppendWord(isSpace, "", words[0]);
        assert "" + words[0] == words[0] && [] + [words[0]] == words;
      } else {
        WordsOfJoin(isSpace, words[..n]);
        var before := Join(words[..n]) + " ";
        assert before[..|before| - 1] == Join(words[..n]);
        WordsByChar(isSpace, before);
        WordsAppendWord(isSpace, before, words[n]);
      }
    }
  }

  function Concat<T>(parts: seq<seq<T>>): seq<T> {
    if parts == [] then [] else Concat(parts[..|parts| - 1]) + parts[|parts| - 1]
  }

  lemma {:induction false} ConcatAppend<T>(a: seq<seq<T>>, b: seq<seq<T>>)
    ensures Concat(a + b) == Concat(a) + Concat(b)
  {
    if b == [] {
      assert a + b == a;
    } else {
      var n := |b| - 1;
      ConcatAppend(a, b[..n]);
      assert (a + b)[..|a + b| - 1] == a + b[..n];
    }
  }

  // ---- Token estimates ----

  /** `round(words * 1.3)` */
  function Tokens(words: nat): nat
  {
    RoundMonotone(0.0, words as real * 1.3);
    assert RoundHalfEven(0.0) == 0;
    RoundHalfEven(words as real * 1.3)
  }

  lemma TokensMonotone(a: nat, b: nat)
    requires a <= b
    ensures Tokens(a) <= Tokens(b)
  {
    RoundMonotone(a as real * 1.3, b as real * 1.3);
  }

  /** A text never has more words than estimated tokens. */
  lemma WordsWithinTokens(words: nat)
    ensures words <= Tokens(words)
  {
    RoundMonotone(words as real, words as real * 1.3);
    assert (words as real).Floor == words;
  }

  /** The estimates of two texts and of their concatenation differ by at most one. */
  lemma TokensOfSum(a: nat, b: nat)
    ensures Tokens(a) + Tokens(b) - 1 <= Tokens(a + b) <= Tokens(a) + Tokens(b) + 1
  {
    assert (a + b) as real * 1.3 == a as real * 1.3 + b as real * 1.3;
  }

  // ---- Sentences ----

  /** A part starts a group of its own or joins the last one. */
  function AddGroup(groups: seq<seq<string>>, part: seq<string>, own: bool): seq<seq<string>> {
    if own || groups == [] then groups + [part]
    else groups[..|groups| - 1] + [groups[|groups| - 1] + part]
  }

  lemma AddGroupByWord(groups: seq<seq<string>>, part: seq<string>, own: bool, w: string)
    ensures AddGroup(AddGroup(groups, part, own), [w], false) == AddGroup(groups, part + [w], own)
  {
    if own || groups == [] {
      assert (groups + [part])[..|groups|] == groups;
    } else {
      var k := |groups| - 1;
      assert groups[k] + part + [w] == groups[k] + (part + [w]);
      assert (groups[..k] + [groups[k] + part])[..k] == groups[..k];
    }
  }

  /** Groups that end at each word for which `last` holds. */
  function SplitAfter(words: seq<string>, last: string -> bool): (r: seq<seq<string>>)
    ensures words != [] ==> r != []
  {
    if words == [] then []
    else
      var n := |words| - 1;
      AddGroup(SplitAfter(words[..n], last), [words[n]], n == 0 || last(words[n - 1]))
  }

  /** Splitting loses and reorders nothing, and leaves no group empty. */
  lemma {:induction false} SplitAfterKeepsWords(words: seq<string>, last: string -> bool)
    ensures Concat(SplitAfter(words, last)) == words
    ensures forall i :: 0 <= i < |SplitAfter(words, last)| ==> SplitAfter(words, last)[i] != []
  {
    if words != [] {
      var n := |words| - 1;
      SplitAfterKeepsWords(words[..n], last);
      var before := SplitAfter(words[..n], last);
      assert words == words[..n] + [words[n]];
      if n == 0 || last(words[n - 1]) {
        assert (before + [[words[n]]])[..|before|] == before;
      } else {
        var k := |before| - 1;
        assert (before[..k] + [before[k] + [words[n]]])[..k] == before[..k];
      }
    }
  }

  lemma SplitAfterLast(words: seq<string>, last: string -> bool)
    requires words != []
    ensures var n := |words| - 1;
            SplitAfter(words, last) == AddGroup(SplitAfter(words[..n], last), [words[n]], n == 0 || last(words[n - 1]))
  {}

  lemma SplitNothing(last: string -> bool)
    ensures SplitAfter([], last) == []
  {}

  /** A group whose words, but for the last, end nothing is added whole. */
  lemma {:induction false} SplitAfterAppend(words: seq<string>, part: seq<string>, last: string -> bool)
    requires part != [] && forall i :: 0 <= i < |part| - 1 ==> !last(part[i])
    ensures SplitAfter(words + part, last)
         == AddGroup(SplitAfter(words, last), part, words == [] || last(words[|words| - 1]))
  {
    hide AddGroup, SplitAfter;
    var n := |part| - 1;
    var own := words == [] || last(words[|words| - 1]);
    var all := words + part;
    assert all[..|all| - 1] == words + part[..n];
    SplitAfterLast(all, last);
    if n == 0 {
      assert words + part[..0] == words && part == [part[0]];
      SplitNothing(last);
    } else {
      SplitAfterAppend(words, part[..n], last);
      assert all[|all| - 2] == part[n - 1];
      assert part[..n] + [part[n]] == part;
      AddGroupByWord(SplitAfter(words, last), part[..n], own, part[n]);
    }
  }

  lemma {:induction false} SplitAfterInterior(words: seq<string>, last: string -> bool)
    ensures forall i, j :: 0 <= i < |SplitAfter(words, last)| && 0 <= j < |SplitAfter(words, last)[i]| - 1 ==>
      !last(SplitAfter(words, last)[i][j])
    ensures words != [] ==> var r := SplitAfter(words, last); r[|r| - 1] != []
                                                              && r[|r| - 1][|r[|r| - 1]| - 1] == words[|words| - 1]
  {
    if words != [] {
      SplitAfterInterior(words[..|words| - 1], last);
    }
  }

  /** Punctuation, lower-casing and the list of abbreviations. */
  datatype Language = Language(lower: string -> string, abbreviations: set<string>)

  const TERMINATORS: string := ".?!\U{0964}\U{0965}"

  predicate EndsSentence(w: string) {
    w != [] && w[|w| - 1] in TERMINATORS
  }

  function StripRight(s: string, chars: string): string {
    if s == [] || s[|s| - 1] !in chars then s else StripRight(s[..|s| - 1], chars)
  }

  /** A full stop after an abbreviation or a single letter does not end a sentence. */
  predicate IsAbbreviated(lang: Language, w: string) {
    && w != [] && w[|w| - 1] == '.'
    && var stem := StripRight(lang.lower(StripRight(w, ".?!")), ".");
       stem in lang.abbreviations || |stem| == 1
  }

  predicate Breaks(lang: Language, w: string) {
    EndsSentence(w) && !IsAbbreviated(lang, w)
  }

  function Breaker(lang: Language): string -> bool {
    w => Breaks(lang, w)
  }

  function LastWord(groups: seq<seq<string>>): string {
    if groups == [] || groups[|groups| - 1] == [] then ""
    else groups[|groups| - 1][|groups[|groups| - 1]| - 1]
  }

  lemma LastPart(parts: seq<seq<string>>)
    requires parts != [] && parts[|parts| - 1] != []
    ensures var p, all := parts[|parts| - 1], Concat(parts); all != [] && all[|all| - 1] == p[|p| - 1]
  {}

  ghost predicate EndsWith(groups: seq<seq<string>>, words: seq<string>) {
    && groups != [] && groups[|groups| - 1] != [] && words != []
    && groups[|groups| - 1][|groups[|groups| - 1]| - 1] == words[|words| - 1]
  }

  /** Every group but the last ends where it should. */
  lemma {:induction false} GroupsEnd(words: seq<string>, last: string -> bool, k: nat)
    requires k + 1 < |SplitAfter(words, last)|
    ensures var g := SplitAfter(words, last)[k]; g != [] && last(g[|g| - 1])
  {
    var n := |words| - 1;
    var before := SplitAfter(words[..n], last);
    SplitAfterInterior(words[..n], last);
    if k + 1 < |before| {
      GroupsEnd(words[..n], last, k);
    }
  }

  /** The next part is merged exactly when the text so far ends in an abbreviation. */
  lemma PartAdded(lang: Language, words: seq<string>, k: nat, merged: seq<seq<string>>)
    requires var parts := SplitAfter(words, EndsSentence);
             && k < |parts| && merged == SplitAfter(Concat(parts[..k]), Breaker(lang))
             && (k > 0 ==> EndsWith(merged, Concat(parts[..k])))
    ensures var parts := SplitAfter(words, EndsSentence);
            var own := merged == [] || !IsAbbreviated(lang, LastWord(merged));
            var next := AddGroup(merged, parts[k], own);
            && next == SplitAfter(Concat(parts[..k]) + parts[k], Breaker(lang))
            && EndsWith(next, Concat(parts[..k]) + parts[k])
            && (merged == [] <==> k == 0)
  {
    hide IsAbbreviated, SplitAfter, AddGroup;
    var breaks := Breaker(lang);
    var parts := SplitAfter(words, EndsSentence);
    var so := Concat(parts[..k]);
    SplitAfterKeepsWords(words, EndsSentence);
    SplitAfterInterior(words, EndsSentence);
    SplitNothing(breaks);
    SplitAfterAppend(so, parts[k], breaks);
    SplitAfterInterior(so + parts[k], breaks);
    if k > 0 {
      LastPart(parts[..k]);
      GroupsEnd(words, EndsSentence, k - 1);
    }
  }

  /**
   Splitting at the terminators and then merging what an abbreviation had split gives exactly the groups that
   end where a sentence does.
   */
  method SplitSentences(lang: Language, words: seq<string>) returns (merged: seq<seq<string>>)
    ensures merged == SplitAfter(words, Breaker(lang))
    ensures Concat(merged) == words && forall i :: 0 <= i < |merged| ==> merged[i] != []
  {
    hide IsAbbreviated, SplitAfter, AddGroup, EndsSentence, EndsWith;
    var parts := SplitAfter(words, EndsSentence);
    var breaks := Breaker(lang);
    SplitAfterKeepsWords(words, EndsSentence);
    SplitAfterKeepsWords(words, breaks);
    merged := [];
    SplitNothing(breaks);
    for k := 0 to |parts|
      invariant merged == SplitAfter(Concat(parts[..k]), breaks)
      invariant k > 0 ==> EndsWith(merged, Concat(parts[..k]))
    {
      assert parts[..k + 1][..k] == parts[..k];
      PartAdded(lang, words, k, merged);
      merged := AddGroup(merged, parts[k], merged == [] || !IsAbbreviated(lang, LastWord(merged)));
    }
    assert parts[..|parts|] == parts;
  }

  // ---- Long sentences ----

  /** `max(1, int(max_tokens / 1.3))` */
  function StepSize(maxTokens: nat): (step: nat)
    requires maxTokens > 0
    ensures step >= 1
  {
    if 10 * maxTokens / 13 > 1 then 10 * maxTokens / 13 else 1
  }

  function SplitLong(words: seq<string>, step: nat): seq<seq<string>>
    requires step >= 1
  {
    if words == [] then []
    else if |words| <= step then [words]
    else [words[..step]] + SplitLong(words[step..], step)
  }

  lemma ConcatFew<T>(part: seq<T>)
    ensures Concat<T>([]) == [] && Concat([part]) == part
  {
    assert [part][..0] == [];
  }

  lemma {:induction false} SplitLongWords(words: seq<string>, step: nat)
    requires step >= 1
    ensures Concat(SplitLong(words, step)) == words
    ensures forall p :: p in SplitLong(words, step) ==> p != [] && |p| <= step
  {
    hide Concat;
    ConcatFew(words);
    if |words| > step {
      var first, rest := words[..step], SplitLong(words[step..], step);
      SplitLongWords(words[step..], step);
      ConcatAppend([first], rest);
      ConcatFew(first);
      assert words == first + words[step..];
    }
  }

  lemma StepFits(maxTokens: nat)
    requires maxTokens > 0
    ensures Tokens(StepSize(maxTokens)) <= maxTokens
  {
    if 10 * maxTokens / 13 > 1 {
      var step := 10 * maxTokens / 13;
      assert 13 * step <= 10 * maxTokens;
      assert step as real * 13.0 <= maxTokens as real * 10.0 by {
        assert (13 * step) as real <= (10 * maxTokens) as real;
        assert (13 * step) as real == step as real * 13.0 && (10 * maxTokens) as real == maxTokens as real * 10.0;
      }
      RoundMonotone(step as real * 1.3, maxTokens as real);
      assert (maxTokens as real).Floor == maxTokens;
    } else {
      assert Tokens(1) == 1;
    }
  }

  /** The pieces of a long sentence are its words in order, none empty, each within the limit. */
  lemma {:induction false} SplitLongPieces(words: seq<string>, maxTokens: nat)
    requires maxTokens > 0
    ensures var pieces := SplitLong(words, StepSize(maxTokens));
            Concat(pieces) == words && forall p :: p in pieces ==> p != [] && Tokens(|p|) <= maxTokens
  {
    hide Tokens, StepSize;
    StepFits(maxTokens);
    SplitLongWords(words, StepSize(maxTokens));
    forall p | p in SplitLong(words, StepSize(maxTokens)) ensures Tokens(|p|) <= maxTokens {
      TokensMonotone(|p|, StepSize(maxTokens));
    }
  }
}
