/** Two documents that show what carried text does to pages and to the final fold (app/rag/chunking.py). */
module ChunkExamples {
  import opened Wrappers
  import opened ChunkText
  import opened Chunking
  import opened Packing
  import opened ChunkPages

  /** Words are divided by blanks, and there are no headings. */
  const PLAIN: Markup := Markup(c => c == ' ', line => false, line => line, line => line)

  const ENGLISH: Language := Language(s => s, {})

  ghost predicate PlainPage(cfg: Config, p: Page) {
    && |p.lines| == 1 && !IsTableLine(p.lines[0])
    && var words := Words(PLAIN.isSpace, p.lines[0]);
       words != [] && Tokens(|words|) <= cfg.maxTokens && forall i :: 0 <= i < |words| ==> !Breaks(ENGLISH, words[i])
  }

  function WordsOn(p: Page): seq<string> {
    if p.lines == [] then [] else Words(PLAIN.isSpace, p.lines[0])
  }

  ghost predicate PlainPages(cfg: Config, pages: seq<Page>) {
    forall i :: 0 <= i < |pages| ==> PlainPage(cfg, pages[i])
  }

  ghost function BlocksOn(cfg: Config, pages: seq<Page>): seq<Block>
    requires PlainPages(cfg, pages)
  {
    seq(|pages|, i requires 0 <= i < |pages| => ProseBlock(WordsOn(pages[i]), pages[i].number, None))
  }

  ghost function PiecesOn(cfg: Config, pages: seq<Page>): seq<Piece>
    requires PlainPages(cfg, pages)
  {
    seq(|pages|, i requires 0 <= i < |pages| => Piece(WordsOn(pages[i]), pages[i].number))
  }

  lemma OnePageRead(cfg: Config, blocks: seq<Block>, p: Page)
    requires PlainPage(cfg, p)
    ensures PageRead(PLAIN, Reading(blocks, [], [], None), p)
         == Reading(blocks + [ProseBlock(WordsOn(p), p.number, None)], [], [], None)
  {
    hide Words, IsTableLine, Tokens;
    var r, lines := Reading(blocks, [], [], None), LinesOf(p);
    assert lines == [Line(p.lines[0], p.number)] && lines[..0] == [];
    assert LinesRead(PLAIN, r, []) == r;
    assert LinesRead(PLAIN, r, lines) == LineRead(PLAIN, r, lines[0]) == r.(para := [p.lines[0]]);
    assert [p.lines[0]][..0] == [];
    assert ParaWords(PLAIN, [p.lines[0]]) == ParaWords(PLAIN, []) + WordsOn(p) == WordsOn(p);
  }

  lemma {:induction false} PlainPagesRead(cfg: Config, pages: seq<Page>)
    requires PlainPages(cfg, pages)
    ensures PagesRead(PLAIN, pages) == Reading(BlocksOn(cfg, pages), [], [], None)
  {
    hide PageRead, PlainPage;
    if pages != [] {
      var n := |pages| - 1;
      PlainPagesRead(cfg, pages[..n]);
      OnePageRead(cfg, BlocksOn(cfg, pages[..n]), pages[n]);
      assert BlocksOn(cfg, pages) == BlocksOn(cfg, pages[..n]) + [ProseBlock(WordsOn(pages[n]), pages[n].number, None)];
    }
  }

  lemma OneSentence(cfg: Config, p: Page)
    requires cfg.Accepted() && PlainPage(cfg, p)
    ensures PiecesOf(ENGLISH, cfg, WordsOn(p), p.number) == [Piece(WordsOn(p), p.number)]
  {
    hide Words, IsTableLine, Tokens, SplitLong, SplitAfter;
    var words := WordsOn(p);
    SplitNothing(Breaker(ENGLISH));
    SplitAfterAppend([], words, Breaker(ENGLISH));
    assert [] + words == words;
    assert SplitAfter(words, Breaker(ENGLISH)) == [words] && [words][..0] == [];
    assert AllParts(cfg, [words]) == AllParts(cfg, []) + SentenceParts(cfg, words) == [words];
  }

  lemma SameHeading(cfg: Config, s: State, p: Piece)
    ensures PieceAdded(cfg, s, p).cur.heading == s.cur.heading
  {}

  /** A document of short lines without a full stop is packed line by line. */
  lemma {:induction false} PlainBlocksAdded(cfg: Config, pages: seq<Page>)
    requires cfg.Accepted() && PlainPages(cfg, pages)
    ensures BlocksAdded(PLAIN.isSpace, ENGLISH, cfg, BlocksOn(cfg, pages))
         == PiecesAdded(cfg, State([], Current([], 0, 0, None, None)), PiecesOn(cfg, pages))
    ensures BlocksAdded(PLAIN.isSpace, ENGLISH, cfg, BlocksOn(cfg, pages)).cur.heading == None
  {
    hide PiecesOf, PlainPage, Words, PieceAdded;
    if pages != [] {
      var n := |pages| - 1;
      var s := BlocksAdded(PLAIN.isSpace, ENGLISH, cfg, BlocksOn(cfg, pages[..n]));
      var p := Piece(WordsOn(pages[n]), pages[n].number);
      PlainBlocksAdded(cfg, pages[..n]);
      OneSentence(cfg, pages[n]);
      assert BlocksOn(cfg, pages)[..n] == BlocksOn(cfg, pages[..n])
        && PiecesOn(cfg, pages)[..n] == PiecesOn(cfg, pages[..n]);
      assert [p][..0] == [] && PiecesAdded(cfg, s, [p]) == PieceAdded(cfg, s, p);
      SameHeading(cfg, s, p);
    }
  }

  lemma HasWords(cfg: Config, p: Page)
    requires PlainPage(cfg, p)
    ensures WordsOn(p) != []
  {}

  lemma PlainLayout(cfg: Config, pages: seq<Page>)
    requires cfg.Accepted() && PlainPages(cfg, pages)
    ensures LayoutOf(PLAIN, ENGLISH, pages, cfg)
         == Flushed(PiecesAdded(cfg, State([], Current([], 0, 0, None, None)), PiecesOn(cfg, pages))).laid
  {
    hide PlainPage, PagesRead, PiecesAdded, BlocksAdded, Words, Flushed;
    var blocks := BlocksOn(cfg, pages);
    PlainPagesRead(cfg, pages);
    forall i | 0 <= i < |blocks| ensures HasText(PLAIN, blocks[i]) { HasWords(cfg, pages[i]); }
    KeepAll(PLAIN, blocks);
    PlainBlocksAdded(cfg, pages);
  }

  // ---- The two documents ----

  lemma OneLetter(c: char)
    requires c != ' '
    ensures Words(PLAIN.isSpace, [c]) == [[c]]
  {
    assert [c][..0] == "";
  }

  lemma TwoLetters(c: char, d: char)
    requires c != ' ' && d != ' '
    ensures Words(PLAIN.isSpace, [c, ' ', d]) == [[c], [d]]
  {
    OneLetter(c);
    assert [c, ' ', d][..2] == [c, ' '] && [c, ' '][..1] == [c];
    assert Words(PLAIN.isSpace, [c, ' ']) == [[c]];
  }

  lemma ShortText()
    ensures Words(PLAIN.isSpace, "a") == ["a"] && Words(PLAIN.isSpace, "c") == ["c"]
      && Words(PLAIN.isSpace, "d") == ["d"]
    ensures Words(PLAIN.isSpace, "a b") == ["a", "b"] && Words(PLAIN.isSpace, "b c") == ["b", "c"]
  {
    var none := Words(PLAIN.isSpace, "");
    OneLetter('a');
    OneLetter('b');
    OneLetter('c');
    OneLetter('d');
    TwoLetters('a', 'b');
    TwoLetters('b', 'c');
  }

  lemma FewTokens()
    ensures Tokens(1) == 1 && Tokens(2) == 3 && Tokens(3) == 4 && Tokens(4) == 5
  {}

  lemma PlainLine(cfg: Config, p: Page)
    requires |p.lines| == 1 && |p.lines[0]| <= 3 && forall c :: c in p.lines[0] ==> c in " abcd"
    requires WordsOn(p) != [] && Tokens(|WordsOn(p)|) <= cfg.maxTokens
    requires forall w :: w in WordsOn(p) ==> |w| == 1 && w[0] in "abcd"
    ensures PlainPage(cfg, p)
  {
    hide Words, Tokens;
    var line := p.lines[0];
    assert '|' !in " abcd" && '\t' !in " abcd";
    assert '|' !in line && '\t' !in line;
    forall i | 0 <= i < |WordsOn(p)| ensures !Breaks(ENGLISH, WordsOn(p)[i]) {
      assert WordsOn(p)[i] in WordsOn(p);
      var w := WordsOn(p)[i];
      assert w[|w| - 1] in "abcd";
    }
  }

  lemma TextOfTwo(a: Piece, b: Piece)
    ensures TextOf([a]) == a.words && TextOf([a, b]) == a.words + b.words
  {
    assert [a, b][..1] == [a] && [a][..0] == [];
  }

  const START: State := State([], Current([], 0, 0, None, None))

  lemma FirstPiece(cfg: Config, p: Piece)
    ensures PieceAdded(cfg, START, p) == State([], Current([p], 0, Tokens(|p.words|), None, p.page))
  {
    hide Tokens;
  }

  lemma PieceFits(cfg: Config, s: State, p: Piece)
    requires s.cur.sents != [] && s.cur.tokens + Tokens(|p.words|) <= cfg.maxTokens
    ensures PieceAdded(cfg, s, p)
         == s.(cur := s.cur.(sents := s.cur.sents + [p], tokens := s.cur.tokens + Tokens(|p.words|)))
  {
    hide Tokens;
  }

  lemma PieceOverflows(cfg: Config, s: State, p: Piece, kept: seq<Piece>)
    requires s.cur.sents != [] && s.cur.tokens + Tokens(|p.words|) > cfg.maxTokens
    requires kept == Carry(s.cur.sents, cfg.overlapTokens) && kept != []
    ensures PieceAdded(cfg, s, p) == State(
      s.laid + [Laid(ProseChunk(s.cur.sents, s.cur.page, s.cur.heading, |s.laid|), Pieces(s.cur.sents, s.cur.carried))],
      Current(kept + [p], |kept|, PieceTokens(kept) + Tokens(|p.words|), s.cur.heading, s.cur.page))
  {
    hide Tokens, PieceTokens, Carry;
  }

  lemma AddedOneByOne(cfg: Config, a: Piece, b: Piece, c: Piece)
    ensures PiecesAdded(cfg, START, [a, b]) == PieceAdded(cfg, PieceAdded(cfg, START, a), b)
    ensures PiecesAdded(cfg, START, [a, b, c]) == PieceAdded(cfg, PieceAdded(cfg, PieceAdded(cfg, START, a), b), c)
  {
    hide PieceAdded;
    assert [a][..0] == [] && [a, b][..1] == [a] && [a, b, c][..2] == [a, b];
    assert PiecesAdded(cfg, START, [a]) == PieceAdded(cfg, START, a);
  }

  lemma CarryOfTwo(a: Piece, b: Piece, overlap: int)
    requires Tokens(|a.words|) + Tokens(|b.words|) > overlap >= Tokens(|b.words|)
    ensures Carry([a, b], overlap) == [b] && Carry([b], overlap) == [b] && PieceTokens([b]) == Tokens(|b.words|)
  {
    hide Tokens;
    OnePiece(b);
    assert [a, b][1..] == [b];
  }

  const TWO_PAGES: seq<Page> := [Page(Some(1), ["a"]), Page(Some(2), ["b c"])]

  const SMALL: Config := Config(1, 3, 1)

  lemma TwoPagesArePlain()
    ensures PlainPages(SMALL, TWO_PAGES)
    ensures PiecesOn(SMALL, TWO_PAGES) == [Piece(["a"], Some(1)), Piece(["b", "c"], Some(2))]
  {
    hide Words, Tokens, PlainPage;
    ShortText();
    FewTokens();
    PlainLine(SMALL, TWO_PAGES[0]);
    PlainLine(SMALL, TWO_PAGES[1]);
    var pieces := PiecesOn(SMALL, TWO_PAGES);
    assert pieces == [pieces[0], pieces[1]];
  }

  /** The second chunk holds new words from page two only and is recorded under page one. */
  lemma WrongPage()
    ensures SMALL.Accepted() && PLAIN.Valid()
    ensures var laid := LayoutOf(PLAIN, ENGLISH, TWO_PAGES, SMALL);
            && |laid| == 2 && Fold(SMALL, ChunksIn(laid)) == ChunksIn(laid)
            && laid[1].layout == Pieces([Piece(["a"], Some(1)), Piece(["b", "c"], Some(2))], 1)
            && laid[1].chunk.page == Some(1) && !PageIsRight(laid[1])
  {
    hide Words, Tokens, LayoutOf, PlainPage, PieceAdded, PiecesAdded, Carry, TextOf, PieceTokens, PlainPages;
    var a, b := Piece(["a"], Some(1)), Piece(["b", "c"], Some(2));
    TwoPagesArePlain();
    PlainLayout(SMALL, TWO_PAGES);
    FewTokens();
    AddedOneByOne(SMALL, a, b, b);
    FirstPiece(SMALL, a);
    CarryOfTwo(b, a, 1);
    PieceOverflows(SMALL, State([], Current([a], 0, 1, None, Some(1))), b, [a]);
    TextOfTwo(a, b);
    assert |TextOf([a, b])| == 3;
    var chunks := ChunksIn(LayoutOf(PLAIN, ENGLISH, TWO_PAGES, SMALL));
    assert chunks[1].tokens == 4 && !Folds(SMALL, chunks[0], chunks[1]);
  }

  const THREE_LINES: seq<Page> := [Page(Some(1), ["a b"]), Page(Some(1), ["c"]), Page(Some(1), ["d"])]

  const FOLDING: Config := Config(4, 4, 1)

  lemma ThreeLinesArePlain()
    ensures PlainPages(FOLDING, THREE_LINES)
    ensures PiecesOn(FOLDING, THREE_LINES)
         == [Piece(["a", "b"], Some(1)), Piece(["c"], Some(1)), Piece(["d"], Some(1))]
  {
    hide Words, Tokens, PlainPage;
    ShortText();
    FewTokens();
    PlainLine(FOLDING, THREE_LINES[0]);
    PlainLine(FOLDING, THREE_LINES[1]);
    PlainLine(FOLDING, THREE_LINES[2]);
    var pieces := PiecesOn(FOLDING, THREE_LINES);
    assert pieces == [pieces[0], pieces[1], pieces[2]];
  }

  /** The document says "a b c d" and the one chunk returned says "a b c c d". */
  lemma RepeatedWord()
    ensures FOLDING.Accepted() && PLAIN.Valid()
    ensures var laid := LayoutOf(PLAIN, ENGLISH, THREE_LINES, FOLDING);
            && LastTwoFold(FOLDING, laid)
            && Fold(FOLDING, ChunksIn(laid))
               == [RawChunk(Prose(["a", "b", "c", "c", "d"]), Some(1), None, 0, Tokens(5))]
  {
    hide Words, Tokens, LayoutOf, PlainPage, PieceAdded, PiecesAdded, Carry, TextOf, PieceTokens, PlainPages;
    var a, c, d := Piece(["a", "b"], Some(1)), Piece(["c"], Some(1)), Piece(["d"], Some(1));
    ThreeLinesArePlain();
    PlainLayout(FOLDING, THREE_LINES);
    FewTokens();
    AddedOneByOne(FOLDING, a, c, d);
    FirstPiece(FOLDING, a);
    var one := State([], Current([a], 0, 3, None, Some(1)));
    var two := State([], Current([a, c], 0, 4, None, Some(1)));
    PieceFits(FOLDING, one, c);
    assert [a] + [c] == [a, c] && [c] + [d] == [c, d];
    CarryOfTwo(a, c, 1);
    PieceOverflows(FOLDING, two, d, [c]);
    TextOfTwo(a, c);
    TextOfTwo(c, d);
    assert ["a", "b"] + ["c"] == ["a", "b", "c"] && ["c"] + ["d"] == ["c", "d"];
    var laid := LayoutOf(PLAIN, ENGLISH, THREE_LINES, FOLDING);
    assert laid[0].chunk == RawChunk(Prose(["a", "b", "c"]), Some(1), None, 0, 4);
    assert laid[1].chunk == RawChunk(Prose(["c", "d"]), Some(1), None, 1, 3);
    assert Folds(FOLDING, laid[0].chunk, laid[1].chunk);
    assert ["a", "b", "c"] + ["c", "d"] == ["a", "b", "c", "c", "d"];
  }
}
