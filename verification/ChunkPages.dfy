/** Why a chunk ends, which page it is recorded under, and what the fold makes of carried text (app/rag/chunking.py). */
module ChunkPages {
  import opened Wrappers
  import opened ChunkText
  import opened Chunking
  import opened Packing

  // ---- Why a chunk ends ----

  /** The end of a chunk is too long to be carried over. */
  ghost predicate NothingToCarry(cfg: Config, last: Laid) {
    last.layout.Pieces? && last.layout.pieces != []
      && PieceTokens(last.layout.pieces[|last.layout.pieces| - 1..]) > cfg.overlapTokens
  }

  /** Where text goes on under the same heading, the chunk before had no room, and its end is carried if it can be. */
  ghost predicate GoesOn(cfg: Config, before: seq<Laid>, pieces: seq<Piece>, carried: nat) {
    && before != [] && carried < |pieces| && WasFull(cfg, before, pieces[carried])
    && (carried == 0 ==> NothingToCarry(cfg, before[|before| - 1]))
  }

  ghost predicate EndsInProse(laid: seq<Laid>, heading: Heading) {
    laid != [] && laid[|laid| - 1].layout.Pieces? && laid[|laid| - 1].chunk.heading == heading
  }

  ghost predicate BreakAt(cfg: Config, laid: seq<Laid>, j: nat)
    requires j < |laid|
  {
    laid[j].layout.Pieces? && EndsInProse(laid[..j], laid[j].chunk.heading) ==>
      GoesOn(cfg, laid[..j], laid[j].layout.pieces, laid[j].layout.carried)
  }

  ghost predicate BreaksOk(cfg: Config, laid: seq<Laid>) {
    forall j :: 0 <= j < |laid| ==> BreakAt(cfg, laid, j)
  }

  ghost predicate OpenOk(cfg: Config, s: State) {
    && BreaksOk(cfg, s.laid)
    && (EndsInProse(s.laid, s.cur.heading) ==> GoesOn(cfg, s.laid, s.cur.sents, s.cur.carried))
  }

  lemma BreaksAppend(cfg: Config, laid: seq<Laid>, x: Laid)
    requires BreaksOk(cfg, laid)
    requires x.layout.Pieces? && EndsInProse(laid, x.chunk.heading) ==>
      GoesOn(cfg, laid, x.layout.pieces, x.layout.carried)
    ensures BreaksOk(cfg, laid + [x])
  {
    hide GoesOn, EndsInProse;
    var more := laid + [x];
    forall j | 0 <= j < |more| ensures BreakAt(cfg, more, j) {
      assert more[..j] == laid[..j] && laid[..|laid|] == laid;
      assert j < |laid| ==> BreakAt(cfg, laid, j);
    }
  }

  lemma FlushedBreaks(cfg: Config, s: State)
    requires OpenOk(cfg, s)
    ensures BreaksOk(cfg, Flushed(s).laid)
  {
    hide GoesOn, BreaksOk, Tokens, TextOf;
    if s.cur.sents != [] {
      BreaksAppend(cfg, s.laid, Flushed(s).laid[|s.laid|]);
    }
  }

  lemma PieceAddedBreaks(isSpace: char -> bool, cfg: Config, s: State, p: Piece)
    requires StateOk(isSpace, cfg, s) && OpenOk(cfg, s)
    ensures OpenOk(cfg, PieceAdded(cfg, s, p)) && PieceAdded(cfg, s, p).cur.sents != []
  {
    hide AllLaid, BreaksOk, Tokens, PieceTokens, PageOk, PiecesOk, TextOf;
    if s.cur.sents != [] && s.cur.tokens + Tokens(|p.words|) > cfg.maxTokens {
      FlushedBreaks(cfg, s);
      CarryIsLongest(s.cur.sents, cfg.overlapTokens);
      var kept := Carry(s.cur.sents, cfg.overlapTokens);
      assert (kept + [p])[|kept|] == p;
    }
  }

  lemma {:induction false} PiecesAddedBreaks(isSpace: char -> bool, cfg: Config, s: State, ps: seq<Piece>)
    requires StateOk(isSpace, cfg, s) && OpenOk(cfg, s) && Addable(cfg, ps)
    ensures OpenOk(cfg, PiecesAdded(cfg, s, ps)) && (ps != [] ==> PiecesAdded(cfg, s, ps).cur.sents != [])
  {
    hide StateOk, OpenOk, Tokens, PieceAdded;
    if ps != [] {
      var n := |ps| - 1;
      PiecesAddedOk(isSpace, cfg, s, ps[..n]);
      PiecesAddedBreaks(isSpace, cfg, s, ps[..n]);
      PieceAddedBreaks(isSpace, cfg, PiecesAdded(cfg, s, ps[..n]), ps[n]);
    }
  }

  /** Between blocks either a chunk is being filled or the last one is no prose. */
  ghost predicate BetweenBlocks(cfg: Config, s: State) {
    OpenOk(cfg, s) && (s.cur.sents == [] ==> s.laid == [] || s.laid[|s.laid| - 1].layout.Rows?)
  }

  lemma {:induction false} PartsLaidBreaks(isSpace: char -> bool, cfg: Config, laid: seq<Laid>, parts: seq<seq<string>>,
                                           page: PageNo, heading: Heading)
    requires BreaksOk(cfg, laid)
    ensures var more := PartsLaid(isSpace, laid, parts, page, heading);
            BreaksOk(cfg, more) && (parts != [] ==> more != [] && more[|more| - 1].layout.Rows?)
  {
    hide BreaksOk, TableTokens;
    if parts != [] {
      var n := |parts| - 1;
      PartsLaidBreaks(isSpace, cfg, laid, parts[..n], page, heading);
      var before := PartsLaid(isSpace, laid, parts[..n], page, heading);
      BreaksAppend(cfg, before, Laid(PartChunk(isSpace, parts[n], page, heading, |before|), Rows(n > 0)));
    }
  }

  lemma BlockAddedBreaks(m: Markup, lang: Language, cfg: Config, s: State, b: Block)
    requires StateOk(m.isSpace, cfg, s) && BetweenBlocks(cfg, s) && HasText(m, b)
    ensures BetweenBlocks(cfg, BlockAdded(m.isSpace, lang, cfg, s, b))
  {
    hide AllLaid, BreaksOk, CurrentOk, PiecesOf, PartsOf, PartsLaid, PiecesAdded, Addable, GoesOn, Tokens, TextOf;
    FlushedBreaks(cfg, s);
    match b
    case TableBlock(rows, page, heading) =>
      PartsLaidBreaks(m.isSpace, cfg, Flushed(s).laid, PartsOf(m.isSpace, rows, cfg.maxTokens), page, heading);
    case ProseBlock(words, page, heading) =>
      var h := UnderHeading(s, heading);
      UnderHeadingOk(m.isSpace, cfg, s, heading);
      PiecesOfBlock(lang, cfg, words, page, heading);
      assert ItemsOfPieces([], heading) == [];
      PiecesAddedBreaks(m.isSpace, cfg, h, PiecesOf(lang, cfg, words, page));
  }

  lemma {:induction false} BlocksAddedBreaks(m: Markup, lang: Language, cfg: Config, blocks: seq<Block>)
    requires cfg.Accepted() && forall i :: 0 <= i < |blocks| ==> HasText(m, blocks[i])
    ensures BetweenBlocks(cfg, BlocksAdded(m.isSpace, lang, cfg, blocks))
  {
    hide HasText, BlockAdded, GoesOn;
    if blocks != [] {
      var n := |blocks| - 1;
      BlocksAddedBreaks(m, lang, cfg, blocks[..n]);
      BlocksAddedOk(m.isSpace, lang, cfg, blocks[..n]);
      BlockAddedBreaks(m, lang, cfg, BlocksAdded(m.isSpace, lang, cfg, blocks[..n]), blocks[n]);
    }
  }

  /** Prose goes on in a new chunk under the same heading only because the next piece had no room in the one before. */
  lemma EveryBreakHasAReason(m: Markup, lang: Language, pages: seq<Page>, cfg: Config)
    requires m.Valid() && cfg.Accepted()
    ensures BreaksOk(cfg, LayoutOf(m, lang, pages, cfg))
  {
    hide HasText, BlocksAdded, BlocksOf, BreaksOk, Flushed;
    BlocksHoldTheText(m, pages);
    BlocksAddedBreaks(m, lang, cfg, BlocksOf(m, pages));
    FlushedBreaks(cfg, BlocksAdded(m.isSpace, lang, cfg, BlocksOf(m, pages)));
  }

  // ---- Pages ----

  /** The last chunk at or before `j` that begins with text of its own. */
  ghost function StartOf(laid: seq<Laid>, j: nat): (i: nat)
    requires j < |laid|
    ensures i <= j
  {
    if j > 0 && laid[j].layout.Pieces? && laid[j].layout.carried > 0 then StartOf(laid, j - 1) else j
  }

  /** Along chunks that each carry something over the page stays that of the first piece of the first of them. */
  lemma {:induction false} PageComesFromTheStart(isSpace: char -> bool, cfg: Config, laid: seq<Laid>, j: nat)
    requires AllLaid(isSpace, cfg, laid) && j < |laid| && laid[j].layout.Pieces?
    ensures var start := laid[StartOf(laid, j)];
            start.layout.Pieces? && start.layout.pieces != [] && start.layout.carried == 0
            && laid[j].chunk.page == start.chunk.page == start.layout.pieces[0].page
  {
    assert LaidAt(isSpace, cfg, laid, j);
    if laid[j].layout.carried > 0 {
      PageComesFromTheStart(isSpace, cfg, laid, j - 1);
    }
  }

  /** The first of the pieces that are new in a prose chunk. */
  ghost function FirstNew(l: Laid): Piece
    requires l.layout.Pieces? && l.layout.carried < |l.layout.pieces|
  {
    l.layout.pieces[l.layout.carried]
  }

  /** Whether a chunk is recorded under the page that its own text begins on. */
  ghost predicate PageIsRight(l: Laid) {
    l.layout.Pieces? && l.layout.carried < |l.layout.pieces| ==> l.chunk.page == FirstNew(l).page
  }

  /** The page is right exactly when the chunk's own text begins on the page where the run of carrying chunks began. */
  lemma PageIsRightExactlyWhen(isSpace: char -> bool, cfg: Config, laid: seq<Laid>, j: nat)
    requires AllLaid(isSpace, cfg, laid) && j < |laid| && laid[j].layout.Pieces?
    ensures laid[j].layout.carried < |laid[j].layout.pieces|
    ensures laid[StartOf(laid, j)].layout.Pieces? && laid[StartOf(laid, j)].layout.pieces != []
    ensures PageIsRight(laid[j]) <==> FirstNew(laid[j]).page == laid[StartOf(laid, j)].layout.pieces[0].page
  {
    assert LaidAt(isSpace, cfg, laid, j);
    PageComesFromTheStart(isSpace, cfg, laid, j);
  }

  lemma NoTokensNoPieces(pieces: seq<Piece>)
    requires forall i :: 0 <= i < |pieces| ==> pieces[i].words != []
    ensures PieceTokens(pieces) == 0 ==> pieces == []
  {
    hide Tokens;
    if pieces != [] { WordsWithinTokens(|pieces[0].words|); }
  }

  /** Without overlap every page is right. */
  lemma NoOverlapNoWrongPage(isSpace: char -> bool, cfg: Config, laid: seq<Laid>)
    requires AllLaid(isSpace, cfg, laid) && cfg.overlapTokens == 0
    ensures forall j :: 0 <= j < |laid| ==> PageIsRight(laid[j])
  {
    forall j | 0 <= j < |laid| ensures PageIsRight(laid[j]) {
      assert LaidAt(isSpace, cfg, laid, j);
      if laid[j].layout.Pieces? {
        NoTokensNoPieces(laid[j].layout.pieces[..laid[j].layout.carried]);
      }
    }
  }

  ghost predicate AllFrom(items: seq<Item>, page: PageNo) {
    forall i :: 0 <= i < |items| ==> items[i].page == page
  }

  lemma {:induction false} PiecesFrom(pieces: seq<Piece>, heading: Heading, page: PageNo, k: nat)
    requires AllFrom(ItemsOfPieces(pieces, heading), page) && k < |pieces| && pieces[k].words != []
    ensures pieces[k].page == page
  {
    var n := |pieces| - 1;
    var before, here := ItemsOfPieces(pieces[..n], heading), WordItems(pieces[n].words, heading, pieces[n].page);
    if k == n {
      assert (before + here)[|before|] == here[0];
    } else {
      assert forall i :: 0 <= i < |before| ==> (before + here)[i] == before[i];
      PiecesFrom(pieces[..n], heading, page, k);
    }
  }

  lemma {:induction false} FreshFrom(laid: seq<Laid>, page: PageNo, j: nat)
    requires AllFrom(FreshOf(laid), page) && j < |laid|
    ensures AllFrom(FreshIn(laid[j]), page)
  {
    hide FreshIn;
    var n := |laid| - 1;
    var before, here := FreshOf(laid[..n]), FreshIn(laid[n]);
    if j == n {
      assert forall i :: 0 <= i < |here| ==> (before + here)[|before| + i] == here[i];
    } else {
      assert forall i :: 0 <= i < |before| ==> (before + here)[i] == before[i];
      FreshFrom(laid[..n], page, j);
    }
  }

  lemma FirstNewFrom(isSpace: char -> bool, cfg: Config, laid: seq<Laid>, page: PageNo, j: nat)
    requires AllLaid(isSpace, cfg, laid) && AllFrom(FreshOf(laid), page) && j < |laid| && laid[j].layout.Pieces?
    ensures laid[j].layout.carried < |laid[j].layout.pieces| && FirstNew(laid[j]).page == page
  {
    hide FreshOf, ItemsOfPieces, PieceTokens, CarriedFrom, WasFull;
    assert LaidAt(isSpace, cfg, laid, j);
    FreshFrom(laid, page, j);
    var pieces, carried := laid[j].layout.pieces, laid[j].layout.carried;
    assert pieces[carried..][0] == pieces[carried];
    PiecesFrom(pieces[carried..], laid[j].chunk.heading, page, 0);
  }

  /** Where all the text is from one page every recorded page is right. */
  lemma OnePageNoWrongPage(isSpace: char -> bool, cfg: Config, laid: seq<Laid>, page: PageNo)
    requires AllLaid(isSpace, cfg, laid) && AllFrom(FreshOf(laid), page)
    ensures forall j :: 0 <= j < |laid| ==> PageIsRight(laid[j])
  {
    forall j | 0 <= j < |laid| ensures PageIsRight(laid[j]) {
      if laid[j].layout.Pieces? {
        PageComesFromTheStart(isSpace, cfg, laid, j);
        FirstNewFrom(isSpace, cfg, laid, page, j);
        FirstNewFrom(isSpace, cfg, laid, page, StartOf(laid, j));
      }
    }
  }

  /** Every line is from one of the pages. */
  lemma {:induction false} TextFrom(m: Markup, lines: seq<Line>, page: PageNo)
    requires forall i :: 0 <= i < |lines| ==> lines[i].page == page
    ensures AllFrom(TextItems(m, lines), page)
  {
    hide IsBlank, IsTableLine, HeadingAfter;
    if lines != [] {
      TextFrom(m, lines[..|lines| - 1], page);
    }
  }

  lemma {:induction false} LinesFrom(pages: seq<Page>, page: PageNo)
    requires forall i :: 0 <= i < |pages| ==> pages[i].number == page
    ensures forall i :: 0 <= i < |AllLines(pages)| ==> AllLines(pages)[i].page == page
  {
    if pages != [] {
      LinesFrom(pages[..|pages| - 1], page);
    }
  }

  /** A caller can tell before chunking: with no overlap, or one page number throughout, every page is right. */
  lemma PagesOfDocument(m: Markup, lang: Language, pages: seq<Page>, cfg: Config, page: PageNo)
    requires m.Valid() && cfg.Accepted()
    requires cfg.overlapTokens == 0 || forall i :: 0 <= i < |pages| ==> pages[i].number == page
    ensures var laid := LayoutOf(m, lang, pages, cfg); forall j :: 0 <= j < |laid| ==> PageIsRight(laid[j])
  {
    hide AllLaid, FreshOf, TextItems, AllLines, LayoutOf, PageIsRight;
    LayoutSpellsTheDocument(m, lang, pages, cfg);
    if cfg.overlapTokens == 0 {
      NoOverlapNoWrongPage(m.isSpace, cfg, LayoutOf(m, lang, pages, cfg));
    } else {
      LinesFrom(pages, page);
      TextFrom(m, AllLines(pages), page);
      OnePageNoWrongPage(m.isSpace, cfg, LayoutOf(m, lang, pages, cfg), page);
    }
  }

  // ---- The fold and carried text ----

  lemma {:induction false} TextOfAppend(a: seq<Piece>, b: seq<Piece>)
    ensures TextOf(a + b) == TextOf(a) + TextOf(b)
  {
    if b == [] {
      assert a + b == a;
    } else {
      TextOfAppend(a, b[..|b| - 1]);
      assert (a + b)[..|a + b| - 1] == a + b[..|b| - 1];
    }
  }

  lemma {:induction false} SomeText(pieces: seq<Piece>)
    requires forall i :: 0 <= i < |pieces| ==> pieces[i].words != []
    ensures TextOf(pieces) == [] <==> pieces == []
  {
    if pieces != [] { SomeText(pieces[..|pieces| - 1]); }
  }

  ghost predicate LastTwoFold(cfg: Config, laid: seq<Laid>) {
    |laid| >= 2 && Folds(cfg, laid[|laid| - 2].chunk, laid[|laid| - 1].chunk)
  }

  lemma FoldedText(cfg: Config, laid: seq<Laid>)
    requires LastTwoFold(cfg, laid)
    ensures var n := |laid|; var folded := Fold(cfg, ChunksIn(laid));
            |folded| == n - 1 && folded[n - 2].body
              == Prose(laid[n - 2].chunk.body.words + laid[n - 1].chunk.body.words)
            && folded[n - 2].heading == laid[n - 2].chunk.heading && forall i :: 0 <= i < n - 2 ==>
               folded[i] == laid[i].chunk
  {
    hide Tokens;
  }

  /**
   The folded chunk is the text of the one before, the text carried over from its end, and the text that was new:
   what was carried stands there twice in a row.
   */
  lemma FoldRepeatsCarriedText(isSpace: char -> bool, cfg: Config, laid: seq<Laid>)
    requires AllLaid(isSpace, cfg, laid) && LastTwoFold(cfg, laid)
    ensures var n := |laid|;
            && |Fold(cfg, ChunksIn(laid))| == n - 1
            && laid[n - 1].layout.Pieces? && laid[n - 2].layout.Pieces?
            && laid[n - 1].layout.carried <= |laid[n - 1].layout.pieces|
            && var carried := TextOf(laid[n - 1].layout.pieces[..laid[n - 1].layout.carried]);
               var own := TextOf(laid[n - 1].layout.pieces[laid[n - 1].layout.carried..]);
               && Fold(cfg, ChunksIn(laid))[n - 2].body == Prose(TextOf(laid[n - 2].layout.pieces) + carried + own)
               && (exists before :: TextOf(laid[n - 2].layout.pieces) == before + carried)
               && (carried == [] <==> laid[n - 1].layout.carried == 0)
  {
    hide PieceTokens, WasFull, Tokens, TextOf;
    var n := |laid|;
    assert LaidAt(isSpace, cfg, laid, n - 1) && LaidAt(isSpace, cfg, laid, n - 2);
    assert laid[..n - 1][n - 2] == laid[n - 2];
    var prev, last, k := laid[n - 2].layout.pieces, laid[n - 1].layout.pieces, laid[n - 1].layout.carried;
    TextOfAppend(last[..k], last[k..]);
    assert last == last[..k] + last[k..];
    SomeText(last[..k]);
    if k > 0 {
      TextOfAppend(prev[..|prev| - k], last[..k]);
      assert prev == prev[..|prev| - k] + last[..k];
    } else {
      assert TextOf(prev) == TextOf(prev) + TextOf(last[..k]);
    }
    FoldedText(cfg, laid);
  }

  /** The words and rows of a chunk that remain when its first words, as many as were carried into it, are left out. */
  ghost function Uncarried(c: RawChunk, l: Laid): seq<Item> {
    if c.body.Prose? && l.layout.Pieces? && l.layout.carried <= |l.layout.pieces|
      && |TextOf(l.layout.pieces[..l.layout.carried])| <= |c.body.words| then
      WordItems(c.body.words[|TextOf(l.layout.pieces[..l.layout.carried])|..], c.heading, None)
    else if c.body.Table? then
      RowItems(if l.layout.Rows? && l.layout.repeatsHeader && c.body.rows != [] then c.body.rows[1..]
        else c.body.rows, c.heading, None)
    else []
  }

  /** What the chunks returned spell out, carried words and repeated headers left out and pages aside. */
  ghost function Spelled(chunks: seq<RawChunk>, laid: seq<Laid>): seq<Item>
    requires |chunks| <= |laid|
  {
    if chunks == [] then []
    else Spelled(chunks[..|chunks| - 1], laid) + Uncarried(chunks[|chunks| - 1], laid[|chunks| - 1])
  }

  ghost function Unpaged(items: seq<Item>): seq<Item> {
    seq(|items|, i requires 0 <= i < |items| => items[i].(page := None))
  }

  lemma UnpagedAppend(a: seq<Item>, b: seq<Item>)
    ensures Unpaged(a + b) == Unpaged(a) + Unpaged(b)
  {}

  lemma {:induction false} UnpagedPieces(pieces: seq<Piece>, heading: Heading)
    ensures Unpaged(ItemsOfPieces(pieces, heading)) == WordItems(TextOf(pieces), heading, None)
  {
    if pieces != [] {
      var n := |pieces| - 1;
      UnpagedPieces(pieces[..n], heading);
      UnpagedAppend(ItemsOfPieces(pieces[..n], heading), WordItems(pieces[n].words, heading, pieces[n].page));
      ItemsAppend(TextOf(pieces[..n]), pieces[n].words, heading, None);
    }
  }

  lemma UnpagedChunk(isSpace: char -> bool, cfg: Config, laid: seq<Laid>, j: nat)
    requires AllLaid(isSpace, cfg, laid) && j < |laid|
    ensures Uncarried(laid[j].chunk, laid[j]) == Unpaged(FreshIn(laid[j]))
  {
    hide PieceTokens, WasFull, Tokens, TextOf, CarriedFrom, ItemsOfPieces;
    assert LaidAt(isSpace, cfg, laid, j);
    if laid[j].layout.Pieces? {
      var pieces, k := laid[j].layout.pieces, laid[j].layout.carried;
      TextOfAppend(pieces[..k], pieces[k..]);
      assert pieces == pieces[..k] + pieces[k..];
      UnpagedPieces(pieces[k..], laid[j].chunk.heading);
    }
  }

  /** Chunks that are as they were laid spell out what was fresh in them. */
  lemma {:induction false} SpelledAsLaid(isSpace: char -> bool, cfg: Config, laid: seq<Laid>, chunks: seq<RawChunk>)
    requires AllLaid(isSpace, cfg, laid) && |chunks| <= |laid| && forall i :: 0 <= i < |chunks| ==>
      chunks[i] == laid[i].chunk
    ensures Spelled(chunks, laid) == Unpaged(FreshOf(laid[..|chunks|]))
  {
    hide AllLaid, Uncarried, FreshIn;
    if chunks != [] {
      var n := |chunks| - 1;
      SpelledAsLaid(isSpace, cfg, laid, chunks[..n]);
      UnpagedChunk(isSpace, cfg, laid, n);
      assert laid[..n + 1][..n] == laid[..n];
      UnpagedAppend(FreshOf(laid[..n]), FreshIn(laid[n]));
    }
  }

  /** The words of the folded chunk that are left when those carried into the chunk before are left out. */
  lemma FoldedSpells(isSpace: char -> bool, cfg: Config, laid: seq<Laid>)
    requires AllLaid(isSpace, cfg, laid) && LastTwoFold(cfg, laid)
    ensures var n := |laid|;
            && |Fold(cfg, ChunksIn(laid))| == n - 1
            && laid[n - 1].layout.Pieces? && laid[n - 1].layout.carried <= |laid[n - 1].layout.pieces|
            && var carried := TextOf(laid[n - 1].layout.pieces[..laid[n - 1].layout.carried]);
               && Uncarried(Fold(cfg, ChunksIn(laid))[n - 2], laid[n - 2])
                  == Unpaged(FreshIn(laid[n - 2])) + WordItems(carried, laid[n - 1].chunk.heading,
                    None) + Unpaged(FreshIn(laid[n - 1]))
               && (carried == [] <==> laid[n - 1].layout.carried == 0)
  {
    hide PieceTokens, WasFull, Tokens, TextOf, CarriedFrom, ItemsOfPieces;
    var n := |laid|;
    FoldRepeatsCarriedText(isSpace, cfg, laid);
    FoldedText(cfg, laid);
    assert LaidAt(isSpace, cfg, laid, n - 1) && LaidAt(isSpace, cfg, laid, n - 2);
    var prev, k, h := laid[n - 2].layout.pieces, laid[n - 2].layout.carried, laid[n - 1].chunk.heading;
    var last, j := laid[n - 1].layout.pieces, laid[n - 1].layout.carried;
    TextOfAppend(prev[..k], prev[k..]);
    assert prev == prev[..k] + prev[k..];
    UnpagedPieces(prev[k..], h);
    UnpagedPieces(last[j..], h);
    var skipped, kept, carried, own := TextOf(prev[..k]), TextOf(prev[k..]), TextOf(last[..j]), TextOf(last[j..]);
    assert (skipped + kept + carried + own)[|skipped|..] == kept + carried + own;
    ItemsAppend(kept, carried, h, None);
    ItemsAppend(kept + carried, own, h, None);
  }

  lemma SpelledLast(chunks: seq<RawChunk>, laid: seq<Laid>)
    requires chunks != [] && |chunks| <= |laid|
    ensures Spelled(chunks, laid) == Spelled(chunks[..|chunks| - 1], laid) + Uncarried(chunks[|chunks| - 1],
      laid[|chunks| - 1])
  {}

  lemma NotFolded(cfg: Config, chunks: seq<RawChunk>, laid: seq<Laid>)
    requires chunks == ChunksIn(laid) && !LastTwoFold(cfg, laid)
    ensures Fold(cfg, chunks) == chunks
  {}

  lemma Between(a: seq<Item>, b: seq<Item>, x: seq<Item>, c: seq<Item>)
    ensures a + (b + x + c) == a + b + c <==> x == []
  {
    assert |a + (b + x + c)| == |a + b + c| + |x|;
    if x == [] { assert a + (b + x + c) == a + b + c; }
  }

  /**
   Carried words and repeated headers left out, the chunks returned spell the document exactly, unless the last two
   were folded and the last began with carried text: then those words stand there twice.
   */
  lemma SpelledExactlyWhen(m: Markup, lang: Language, pages: seq<Page>, cfg: Config)
    requires m.Valid() && cfg.Accepted()
    ensures var laid := LayoutOf(m, lang, pages, cfg);
            && |Fold(cfg, ChunksIn(laid))| <= |laid|
            && (Spelled(Fold(cfg, ChunksIn(laid)), laid) == Unpaged(TextItems(m, AllLines(pages)))
                <==> !(LastTwoFold(cfg, laid) && laid[|laid| - 1].layout.Pieces?
                     && laid[|laid| - 1].layout.carried > 0))
  {
    hide AllLaid, TextItems, AllLines, LayoutOf, Fold, Uncarried, FreshIn, Spelled, FreshOf, Folds;
    var laid := LayoutOf(m, lang, pages, cfg);
    var chunks, n := ChunksIn(laid), |laid|;
    LayoutSpellsTheDocument(m, lang, pages, cfg);
    if LastTwoFold(cfg, laid) {
      var folded := Fold(cfg, chunks);
      FoldedSpells(m.isSpace, cfg, laid);
      FoldedText(cfg, laid);
      SpelledAsLaid(m.isSpace, cfg, laid, folded[..n - 2]);
      SpelledLast(folded, laid);
      assert laid == laid[..n - 2] + [laid[n - 2]] + [laid[n - 1]];
      FreshAppend(laid[..n - 2], laid[n - 2]);
      FreshAppend(laid[..n - 2] + [laid[n - 2]], laid[n - 1]);
      UnpagedAppend(FreshOf(laid[..n - 2]), FreshIn(laid[n - 2]));
      UnpagedAppend(FreshOf(laid[..n - 2]) + FreshIn(laid[n - 2]), FreshIn(laid[n - 1]));
      var h := laid[n - 1].chunk.heading;
      var carried := TextOf(laid[n - 1].layout.pieces[..laid[n - 1].layout.carried]);
      var a, b, c := Unpaged(FreshOf(laid[..n - 2])), Unpaged(FreshIn(laid[n - 2])), Unpaged(FreshIn(laid[n - 1]));
      Between(a, b, WordItems(carried, h, None), c);
    } else {
      NotFolded(cfg, chunks, laid);
      SpelledAsLaid(m.isSpace, cfg, laid, chunks);
      assert laid[..n] == laid;
    }
  }
}
