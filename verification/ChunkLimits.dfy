/**
 The estimates, sentence ends and cuts of the chunker in plain terms (app/rag/chunking.py), and what the pieces of a
 block are made of.
 */
module ChunkLimits {
  import opened Arithmetic
  import opened ChunkText
  import opened Chunking
  import opened Packing

  // ---- Estimates ----

  /** The estimate is the integer nearest to 1.3 tokens a word; halfway it is the even one. */
  lemma TokensNearest(words: nat)
    ensures -5 <= 10 * Tokens(words) - 13 * words <= 5
    ensures 10 * Tokens(words) - 13 * words == 5 || 10 * Tokens(words) - 13 * words == -5 ==> Tokens(words) % 2 == 0
  {
    RoundIsNearest(words as real * 1.3);
  }

  /** A piece of a long sentence has the largest number of words whose 1.3-fold is within the limit, or just one. */
  lemma StepIsLargest(maxTokens: nat)
    requires maxTokens > 0
    ensures StepSize(maxTokens) == 1 || 13 * StepSize(maxTokens) <= 10 * maxTokens
    ensures 13 * (StepSize(maxTokens) + 1) > 10 * maxTokens
  {}

  /** Every piece of a long sentence but the last has that number of words. */
  lemma {:induction false} CutsAreFull(words: seq<string>, step: nat)
    requires step >= 1
    ensures forall k :: 0 <= k < |SplitLong(words, step)| - 1 ==> |SplitLong(words, step)[k]| == step
  {
    if |words| > step { CutsAreFull(words[step..], step); }
  }

  // ---- Sentence ends ----

  lemma NothingStripped(s: string, chars: string)
    requires s == [] || s[|s| - 1] !in chars
    ensures StripRight(s, chars) == s
  {}

  /**
   A word with one mark at its end: a full stop ends a sentence unless an abbreviation or one character is before it.
   */
  lemma FullStop(lang: Language, stem: string)
    requires stem != [] && stem[|stem| - 1] !in ".?!"
    requires lang.lower(stem) == [] || lang.lower(stem)[|lang.lower(stem)| - 1] != '.'
    ensures Breaks(lang, stem + ".") <==> lang.lower(stem) !in lang.abbreviations && |lang.lower(stem)| != 1
  {
    var w := stem + ".";
    assert w[..|w| - 1] == stem && w[|w| - 1] == '.';
    NothingStripped(stem, ".?!");
    NothingStripped(lang.lower(stem), ".");
  }

  /** The other marks always end a sentence; a word with none at its end never does. */
  lemma OtherMarks(lang: Language, stem: string, mark: char)
    ensures mark in ['?', '!', '\U{0964}', '\U{0965}'] ==> Breaks(lang, stem + [mark])
    ensures mark !in ['.', '?', '!', '\U{0964}', '\U{0965}'] ==> !Breaks(lang, stem + [mark])
    ensures !Breaks(lang, "")
  {
    assert TERMINATORS == ['.', '?', '!', '\U{0964}', '\U{0965}'];
    var w := stem + [mark];
    assert w[|w| - 1] == mark;
  }

  // ---- The pieces of a block ----

  /** A sentence within the limit stays whole; a longer one is cut into full pieces and a last one. */
  lemma SentenceIsCut(cfg: Config, sent: seq<string>)
    requires cfg.Accepted() && sent != []
    ensures Tokens(|sent|) <= cfg.maxTokens ==> SentenceParts(cfg, sent) == [sent]
    ensures Tokens(|sent|) > cfg.maxTokens ==>
      forall k :: 0 <= k < |SentenceParts(cfg, sent)| - 1 ==>
        |SentenceParts(cfg, sent)[k]| == StepSize(cfg.maxTokens)
    ensures Concat(SentenceParts(cfg, sent)) == sent && SentenceParts(cfg, sent) != []
    ensures forall p :: p in SentenceParts(cfg, sent) ==> p != [] && Tokens(|p|) <= cfg.maxTokens
  {
    hide Tokens, StepSize;
    ConcatFew(sent);
    SplitLongPieces(sent, cfg.maxTokens);
    CutsAreFull(sent, StepSize(cfg.maxTokens));
  }

  /** No word but the last of a group of words ends a sentence. */
  ghost predicate Unbroken(lang: Language, words: seq<string>) {
    forall i :: 0 <= i < |words| - 1 ==> !Breaks(lang, words[i])
  }

  ghost predicate EndsSentenceHere(lang: Language, words: seq<string>) {
    words != [] && Breaks(lang, words[|words| - 1])
  }

  /** What a piece may be: it does not run over a sentence end, and stops short of one only where a long one is cut. */
  ghost predicate PieceIsProper(lang: Language, cfg: Config, part: seq<string>, last: bool)
    requires cfg.maxTokens > 0
  {
    && part != [] && Unbroken(lang, part)
    && (last || EndsSentenceHere(lang, part) || |part| == StepSize(cfg.maxTokens))
  }

  lemma {:induction false} PartsOfSentence(lang: Language, sent: seq<string>, parts: seq<seq<string>>)
    requires Concat(parts) == sent && Unbroken(lang, sent) && forall p :: p in parts ==> p != []
    ensures forall k :: 0 <= k < |parts| ==> Unbroken(lang, parts[k])
    ensures parts != [] ==>
      sent != [] && parts[|parts| - 1] in parts && parts[|parts| - 1][|parts[|parts| - 1]| - 1] == sent[|sent| - 1]
    decreases |parts|
  {
    hide Breaks;
    if parts != [] {
      var n := |parts| - 1;
      var before, part := Concat(parts[..n]), parts[n];
      assert part in parts;
      assert sent == before + part;
      forall i | 0 <= i < |before| - 1 ensures !Breaks(lang, before[i]) { assert before[i] == sent[i]; }
      forall i | 0 <= i < |part| - 1 ensures !Breaks(lang, part[i]) { assert part[i] == sent[|before| + i]; }
      forall p | p in parts[..n] ensures p != [] { assert p in parts; }
      PartsOfSentence(lang, before, parts[..n]);
    }
  }

  lemma OnlyPart(parts: seq<seq<string>>, sent: seq<string>)
    requires |parts| == 1 && Concat(parts) == sent
    ensures parts[0] == sent
  {
    assert parts == [parts[0]];
    ConcatFew(parts[0]);
  }

  /** The parts of one sentence are proper; the last ends where the sentence does. */
  lemma SentencePartsProper(lang: Language, cfg: Config, sent: seq<string>, last: bool)
    requires cfg.Accepted() && sent != [] && Unbroken(lang, sent) && (last || EndsSentenceHere(lang, sent))
    ensures var parts := SentenceParts(cfg, sent);
            forall k :: 0 <= k < |parts| ==> PieceIsProper(lang, cfg, parts[k], last && k == |parts| - 1)
  {
    hide Breaks, SentenceParts, StepSize, Tokens, Unbroken;
    var parts := SentenceParts(cfg, sent);
    SentenceIsCut(cfg, sent);
    PartsOfSentence(lang, sent, parts);
    forall k | 0 <= k < |parts| ensures PieceIsProper(lang, cfg, parts[k], last && k == |parts| - 1) {
      assert parts[k] in parts;
      if |parts| == 1 { OnlyPart(parts, sent); }
    }
  }

  lemma {:induction false} AllPartsProper(lang: Language, cfg: Config, sents: seq<seq<string>>, open: bool)
    requires cfg.Accepted() && forall k :: 0 <= k < |sents| ==> sents[k] != [] && Unbroken(lang, sents[k])
    requires forall k :: 0 <= k < |sents| ==> (open && k == |sents| - 1) || EndsSentenceHere(lang, sents[k])
    ensures var parts := AllParts(cfg, sents);
            && Concat(parts) == Concat(sents)
            && forall k :: 0 <= k < |parts| ==> PieceIsProper(lang, cfg, parts[k], open && k == |parts| - 1)
  {
    hide PieceIsProper, Unbroken, EndsSentenceHere, SentenceParts;
    if sents != [] {
      var n := |sents| - 1;
      var before, parts := AllParts(cfg, sents[..n]), SentenceParts(cfg, sents[n]);
      AllPartsProper(lang, cfg, sents[..n], false);
      SentencePartsProper(lang, cfg, sents[n], open);
      SentenceIsCut(cfg, sents[n]);
      ConcatAppend(before, parts);
      forall k | 0 <= k < |before + parts|
        ensures PieceIsProper(lang, cfg, (before + parts)[k], open && k == |before + parts| - 1)
      {
        if k >= |before| { assert (before + parts)[k] == parts[k - |before|]; }
      }
    }
  }

  lemma {:induction false} TextOnPage(parts: seq<seq<string>>, page: PageNo)
    ensures TextOf(OnPage(parts, page)) == Concat(parts)
  {
    if parts != [] {
      var n := |parts| - 1;
      TextOnPage(parts[..n], page);
      assert OnPage(parts, page)[..n] == OnPage(parts[..n], page);
    }
  }

  /**
   The pieces of a block are its words in order. None runs over the end of a sentence, and one that ends elsewhere than
   at the end of a sentence is the last, or is one of a sentence over the limit and has as many words as such a piece
   may have.
   */
  lemma PiecesEndWithSentences(lang: Language, cfg: Config, words: seq<string>, page: PageNo)
    requires cfg.Accepted()
    ensures var pieces := PiecesOf(lang, cfg, words, page);
            && TextOf(pieces) == words
            && forall k :: 0 <= k < |pieces| ==>
               && PieceIsProper(lang, cfg, pieces[k].words, k == |pieces| - 1)
               && pieces[k].page == page
  {
    hide PieceIsProper, AllParts, Breaks, SplitAfter;
    var last := Breaker(lang);
    var sents := SplitAfter(words, last);
    SplitAfterKeepsWords(words, last);
    SplitAfterInterior(words, last);
    forall k | 0 <= k < |sents|
      ensures Unbroken(lang, sents[k]) && (k == |sents| - 1 || EndsSentenceHere(lang, sents[k]))
    {
      if k < |sents| - 1 { GroupsEnd(words, last, k); }
    }
    AllPartsProper(lang, cfg, sents, true);
    TextOnPage(AllParts(cfg, sents), page);
  }

  // ---- What is refused, and the last fold ----

  /** A configuration is refused exactly for one of four reasons. */
  lemma RefusedExactlyWhen(cfg: Config)
    ensures !cfg.Accepted()
       <==> || cfg.minTokens < 1 || cfg.minTokens > cfg.maxTokens
            || cfg.overlapTokens < 0 || cfg.overlapTokens >= cfg.maxTokens
  {}

  /**
   The last two chunks become one exactly when both are prose under one heading, the last is below the minimum and both
   together are within the maximum and the minimum.
   */
  lemma FoldsExactlyWhen(cfg: Config, chunks: seq<RawChunk>)
    ensures |Fold(cfg, chunks)| == |chunks| - 1
       <==> && |chunks| >= 2
            && var prev, last := chunks[|chunks| - 2], chunks[|chunks| - 1];
               && prev.body.Prose? && last.body.Prose? && prev.heading == last.heading
               && last.tokens < cfg.minTokens && prev.tokens + last.tokens <= cfg.maxTokens + cfg.minTokens
    ensures |Fold(cfg, chunks)| != |chunks| - 1 ==> Fold(cfg, chunks) == chunks
  {}
}
