/** Packing sentences into chunks with carried overlap, tables kept apart, and the final fold (app/rag/chunking.py). */
module Packing {
  import opened Wrappers
  import opened ChunkText
  import opened Chunking

  /** A sentence, or a part of a long one, with the page of its block. The code keeps only the words. */
  datatype Piece = Piece(words: seq<string>, page: PageNo)

  datatype Config = Config(minTokens: int, maxTokens: int, overlapTokens: int) {
    /** What `ChunkConfig` insists on. */
    predicate Accepted() {
      0 < minTokens <= maxTokens && 0 <= overlapTokens < maxTokens
    }
  }

  datatype Body = Prose(words: seq<string>) | Table(rows: seq<string>)

  datatype RawChunk = RawChunk(body: Body, page: PageNo, heading: Heading, index: nat, tokens: nat)

  // ---- How a chunk is made up ----

  /** A prose chunk is a list of pieces, the first few carried over; a table chunk may repeat a header. */
  datatype Layout = Pieces(pieces: seq<Piece>, carried: nat) | Rows(repeatsHeader: bool)

  datatype Laid = Laid(chunk: RawChunk, layout: Layout)

  function PieceTokens(pieces: seq<Piece>): nat {
    if pieces == [] then 0 else Tokens(|pieces[0].words|) + PieceTokens(pieces[1..])
  }

  lemma {:induction false} PieceTokensAppend(a: seq<Piece>, b: seq<Piece>)
    ensures PieceTokens(a + b) == PieceTokens(a) + PieceTokens(b)
  {
    if a == [] {
      assert a + b == b;
    } else {
      PieceTokensAppend(a[1..], b);
      assert (a + b)[1..] == a[1..] + b;
    }
  }

  lemma OnePiece(p: Piece)
    ensures PieceTokens([p]) == Tokens(|p.words|) && PieceTokens([]) == 0
  {
    assert [p][1..] == [];
  }

  /** `" ".join(cur_sents)`, as words. */
  function TextOf(pieces: seq<Piece>): seq<string> {
    if pieces == [] then [] else TextOf(pieces[..|pieces| - 1]) + pieces[|pieces| - 1].words
  }

  ghost function ItemsOfPieces(pieces: seq<Piece>, heading: Heading): seq<Item> {
    if pieces == [] then []
    else
      var p := pieces[|pieces| - 1];
      ItemsOfPieces(pieces[..|pieces| - 1], heading) + WordItems(p.words, heading, p.page)
  }

  lemma ItemsOfMore(pieces: seq<Piece>, p: Piece, heading: Heading)
    ensures ItemsOfPieces(pieces + [p], heading) == ItemsOfPieces(pieces, heading) + WordItems(p.words, heading, p.page)
  {
    assert (pieces + [p])[..|pieces|] == pieces;
  }

  /** What a chunk adds to those before it: its words without the carried ones, its rows without a repeated header. */
  ghost function FreshIn(l: Laid): seq<Item> {
    if l.layout.Pieces? && l.layout.carried <= |l.layout.pieces| then
      ItemsOfPieces(l.layout.pieces[l.layout.carried..], l.chunk.heading)
    else if l.chunk.body.Table? then
      var rows := l.chunk.body.rows;
      RowItems(if l.layout.Rows? && l.layout.repeatsHeader && rows != [] then rows[1..]
        else rows, l.chunk.heading, l.chunk.page)
    else []
  }

  ghost function FreshOf(laid: seq<Laid>): seq<Item> {
    if laid == [] then [] else FreshOf(laid[..|laid| - 1]) + FreshIn(laid[|laid| - 1])
  }

  lemma FreshAppend(laid: seq<Laid>, x: Laid)
    ensures FreshOf(laid + [x]) == FreshOf(laid) + FreshIn(x)
  {
    assert (laid + [x])[..|laid|] == laid;
  }

  ghost predicate PiecesOk(cfg: Config, pieces: seq<Piece>) {
    forall i :: 0 <= i < |pieces| ==> pieces[i].words != [] && Tokens(|pieces[i].words|) <= cfg.maxTokens
  }

  ghost predicate IsSuffix(pieces: seq<Piece>, of: seq<Piece>) {
    |pieces| <= |of| && of[|of| - |pieces|..] == pieces
  }

  /**
   Pieces carried over are the longest run from the end of the chunk just before that stays within the overlap,
   under the same heading. The page of that chunk is carried over with them.
   */
  ghost predicate CarriedFrom(cfg: Config, before: seq<Laid>, pieces: seq<Piece>, heading: Heading, page: PageNo) {
    && before != []
    && var last := before[|before| - 1];
       && last.layout.Pieces? && last.chunk.heading == heading && last.chunk.page == page
          && IsSuffix(pieces, last.layout.pieces)
       && PieceTokens(pieces) <= cfg.overlapTokens
       && (|pieces| < |last.layout.pieces| ==>
             PieceTokens(last.layout.pieces[|last.layout.pieces| - |pieces| - 1..]) > cfg.overlapTokens)
  }

  /** The chunk just before could not have taken this piece. */
  ghost predicate WasFull(cfg: Config, before: seq<Laid>, p: Piece) {
    && before != [] && before[|before| - 1].layout.Pieces?
    && PieceTokens(before[|before| - 1].layout.pieces) + Tokens(|p.words|) > cfg.maxTokens
  }

  ghost predicate Repeats(earlier: RawChunk, c: RawChunk) {
    && earlier.body.Table? && c.body.Table? && |earlier.body.rows| >= 2 && |c.body.rows| >= 2
    && earlier.body.rows[0] == c.body.rows[0] && earlier.heading == c.heading && earlier.page == c.page
  }

  /**
   A chunk after those in `before`. A prose chunk is its pieces, at least one of them new, together within the
   limit and the overlap, and within the limit unless just one piece is new. Its page is that of its first piece,
   unless pieces were carried over, which happens only when the chunk before was full. A table chunk that repeats a
   header follows a part of the same table.
   */
  ghost predicate LaidOk(isSpace: char -> bool, cfg: Config, before: seq<Laid>, x: Laid) {
    && x.chunk.index == |before|
    && match x.layout
       case Pieces(pieces, carried) =>
         && carried < |pieces| && PiecesOk(cfg, pieces)
         && x.chunk.body == Prose(TextOf(pieces)) && x.chunk.tokens == Tokens(|TextOf(pieces)|)
         && PieceTokens(pieces) <= cfg.maxTokens + cfg.overlapTokens
         && (PieceTokens(pieces) <= cfg.maxTokens || |pieces| == carried + 1)
         && (if carried > 0
             then CarriedFrom(cfg, before, pieces[..carried], x.chunk.heading, x.chunk.page)
               && WasFull(cfg, before, pieces[carried])
             else x.chunk.page == pieces[0].page)
       case Rows(repeats) =>
         && x.chunk.body.Table? && x.chunk.tokens == TableTokens(isSpace, x.chunk.body.rows)
         && (repeats ==> before != [] && Repeats(before[|before| - 1].chunk, x.chunk))
  }

  ghost predicate LaidAt(isSpace: char -> bool, cfg: Config, laid: seq<Laid>, i: nat)
    requires i < |laid|
  {
    LaidOk(isSpace, cfg, laid[..i], laid[i])
  }

  ghost predicate AllLaid(isSpace: char -> bool, cfg: Config, laid: seq<Laid>) {
    forall i :: 0 <= i < |laid| ==> LaidAt(isSpace, cfg, laid, i)
  }

  lemma AllLaidAppend(isSpace: char -> bool, cfg: Config, laid: seq<Laid>, x: Laid)
    requires AllLaid(isSpace, cfg, laid) && LaidOk(isSpace, cfg, laid, x)
    ensures AllLaid(isSpace, cfg, laid + [x])
  {
    hide LaidOk;
    var more := laid + [x];
    forall i | 0 <= i < |more| ensures LaidAt(isSpace, cfg, more, i) {
      assert more[..i] == laid[..i];
      assert laid[..|laid|] == laid;
      if i < |laid| { assert LaidAt(isSpace, cfg, laid, i); }
    }
  }

  // ---- The chunk being filled ----

  datatype Current = Current(sents: seq<Piece>, carried: nat, tokens: int, heading: Heading, page: PageNo)

  ghost predicate PageOk(cfg: Config, laid: seq<Laid>, cur: Current) {
    && (cur.carried > 0 ==> cur.carried <= |cur.sents|
                            && CarriedFrom(cfg, laid, cur.sents[..cur.carried], cur.heading, cur.page))
    && (0 < cur.carried < |cur.sents| ==> WasFull(cfg, laid, cur.sents[cur.carried]))
    && (cur.carried == 0 && cur.sents != [] ==> cur.page == cur.sents[0].page)
  }

  ghost predicate CurrentOk(cfg: Config, laid: seq<Laid>, cur: Current) {
    && PiecesOk(cfg, cur.sents) && cur.tokens == PieceTokens(cur.sents) <= cfg.maxTokens + cfg.overlapTokens
    && (if cur.sents == [] then cur.carried == 0 else cur.carried < |cur.sents|)
    && (cur.tokens <= cfg.maxTokens || |cur.sents| == cur.carried + 1)
    && PageOk(cfg, laid, cur)
  }

  /** Everything packed so far. */
  ghost function Done(laid: seq<Laid>, cur: Current): seq<Item> {
    FreshOf(laid) + if cur.carried <= |cur.sents| then ItemsOfPieces(cur.sents[cur.carried..], cur.heading) else []
  }

  function ProseChunk(sents: seq<Piece>, page: PageNo, heading: Heading, index: nat): RawChunk {
    RawChunk(Prose(TextOf(sents)), page, heading, index, Tokens(|TextOf(sents)|))
  }

  // ---- Packing, step by step ----

  /** The chunks laid so far and the one being filled. */
  datatype State = State(laid: seq<Laid>, cur: Current)

  function Flushed(s: State): State {
    var c := s.cur;
    State(
      if c.sents == [] then s.laid
      else s.laid + [Laid(ProseChunk(c.sents, c.page, c.heading, |s.laid|), Pieces(c.sents, c.carried))],
      Current([], 0, 0, c.heading, c.page))
  }

  /** The longest run of pieces from the end that stays within the overlap. */
  function Carry(sents: seq<Piece>, overlap: int): seq<Piece> {
    if sents == [] || PieceTokens(sents) <= overlap then sents else Carry(sents[1..], overlap)
  }

  /** Where the piece does not fit, the chunk is flushed and the end of it carried over. */
  function RoomMade(cfg: Config, s: State, p: Piece): State {
    if s.cur.sents == [] || s.cur.tokens + Tokens(|p.words|) <= cfg.maxTokens then s
    else
      var kept := Carry(s.cur.sents, cfg.overlapTokens);
      Flushed(s).(cur := Current(kept, |kept|, PieceTokens(kept), s.cur.heading, s.cur.page))
  }

  function PieceAdded(cfg: Config, s: State, p: Piece): State {
    var made := RoomMade(cfg, s, p);
    var cur := if made.cur.sents == [] then made.cur.(page := p.page) else made.cur;
    made.(cur := cur.(sents := cur.sents + [p], tokens := cur.tokens + Tokens(|p.words|)))
  }

  function PiecesAdded(cfg: Config, s: State, ps: seq<Piece>): State {
    if ps == [] then s else PieceAdded(cfg, PiecesAdded(cfg, s, ps[..|ps| - 1]), ps[|ps| - 1])
  }

  lemma {:induction false} PiecesAddedAppend(cfg: Config, s: State, a: seq<Piece>, b: seq<Piece>)
    ensures PiecesAdded(cfg, s, a + b) == PiecesAdded(cfg, PiecesAdded(cfg, s, a), b)
  {
    hide PieceAdded;
    if b == [] {
      assert a + b == a;
    } else {
      var n := |b| - 1;
      PiecesAddedAppend(cfg, s, a, b[..n]);
      assert (a + b)[..|a + b| - 1] == a + b[..n];
    }
  }

  function OnPage(parts: seq<seq<string>>, page: PageNo): seq<Piece> {
    seq(|parts|, i requires 0 <= i < |parts| => Piece(parts[i], page))
  }

  /** A sentence over the limit is cut into parts. */
  function SentenceParts(cfg: Config, sent: seq<string>): seq<seq<string>> {
    if cfg.maxTokens > 0 && Tokens(|sent|) > cfg.maxTokens then SplitLong(sent, StepSize(cfg.maxTokens)) else [sent]
  }

  function AllParts(cfg: Config, sents: seq<seq<string>>): seq<seq<string>> {
    if sents == [] then [] else AllParts(cfg, sents[..|sents| - 1]) + SentenceParts(cfg, sents[|sents| - 1])
  }

  /** The pieces of a block: its sentences, the long ones cut. */
  function PiecesOf(lang: Language, cfg: Config, words: seq<string>, page: PageNo): seq<Piece> {
    OnPage(AllParts(cfg, SplitAfter(words, Breaker(lang))), page)
  }

  /** A new heading ends the chunk being filled. */
  function UnderHeading(s: State, heading: Heading): State {
    if heading == s.cur.heading then s
    else var f := Flushed(s); f.(cur := f.cur.(heading := heading))
  }

  function PartChunk(isSpace: char -> bool, rows: seq<string>, page: PageNo, heading: Heading, index: nat): RawChunk {
    RawChunk(Table(rows), page, heading, index, TableTokens(isSpace, rows))
  }

  function PartsLaid(isSpace: char -> bool, laid: seq<Laid>, parts: seq<seq<string>>, page: PageNo,
                     heading: Heading): seq<Laid> {
    if parts == [] then laid
    else
      var n := |parts| - 1;
      var before := PartsLaid(isSpace, laid, parts[..n], page, heading);
      before + [Laid(PartChunk(isSpace, parts[n], page, heading, |before|), Rows(n > 0))]
  }

  function BlockAdded(isSpace: char -> bool, lang: Language, cfg: Config, s: State, b: Block): State
    requires cfg.Accepted()
  {
    match b
    case TableBlock(rows, page, heading) =>
      var f := Flushed(s);
      f.(laid := PartsLaid(isSpace, f.laid, PartsOf(isSpace, rows, cfg.maxTokens), page, heading))
    case ProseBlock(words, page, heading) =>
      PiecesAdded(cfg, UnderHeading(s, heading), PiecesOf(lang, cfg, words, page))
  }

  function BlocksAdded(isSpace: char -> bool, lang: Language, cfg: Config, blocks: seq<Block>): State
    requires cfg.Accepted()
  {
    if blocks == [] then State([], Current([], 0, 0, None, None))
    else BlockAdded(isSpace, lang, cfg, BlocksAdded(isSpace, lang, cfg, blocks[..|blocks| - 1]), blocks[|blocks| - 1])
  }

  /** How the chunks of a document are laid, before the final fold. */
  function LayoutOf(m: Markup, lang: Language, pages: seq<Page>, cfg: Config): seq<Laid>
    requires cfg.Accepted()
  {
    Flushed(BlocksAdded(m.isSpace, lang, cfg, BlocksOf(m, pages))).laid
  }

  function ChunksIn(laid: seq<Laid>): (chunks: seq<RawChunk>)
    ensures |chunks| == |laid|
  {
    seq(|laid|, i requires 0 <= i < |laid| => laid[i].chunk)
  }

  // ---- What every step keeps ----

  ghost predicate StateOk(isSpace: char -> bool, cfg: Config, s: State) {
    cfg.Accepted() && AllLaid(isSpace, cfg, s.laid) && CurrentOk(cfg, s.laid, s.cur)
  }

  lemma NothingPending(cfg: Config, laid: seq<Laid>, heading: Heading, page: PageNo)
    requires cfg.Accepted()
    ensures CurrentOk(cfg, laid, Current([], 0, 0, heading, page))
      && Done(laid, Current([], 0, 0, heading, page)) == FreshOf(laid)
  {}

  ghost predicate JustFlushed(laid: seq<Laid>, sents: seq<Piece>, heading: Heading, page: PageNo) {
    && laid != []
    && var last := laid[|laid| - 1];
       last.layout.Pieces? && last.layout.pieces == sents && last.chunk.heading == heading && last.chunk.page == page
  }

  /** Flushing makes what is pending a chunk. */
  lemma PendingFlushed(isSpace: char -> bool, cfg: Config, laid: seq<Laid>, cur: Current)
    requires AllLaid(isSpace, cfg, laid) && CurrentOk(cfg, laid, cur) && cur.sents != []
    ensures var more := laid + [Laid(ProseChunk(cur.sents, cur.page, cur.heading, |laid|),
      Pieces(cur.sents, cur.carried))];
            AllLaid(isSpace, cfg, more) && FreshOf(more) == Done(laid, cur)
              && JustFlushed(more, cur.sents, cur.heading, cur.page)
  {
    hide CarriedFrom, WasFull, Tokens, FreshOf, AllLaid;
    var x := Laid(ProseChunk(cur.sents, cur.page, cur.heading, |laid|), Pieces(cur.sents, cur.carried));
    FreshAppend(laid, x);
    AllLaidAppend(isSpace, cfg, laid, x);
  }

  /** The run of pieces carried over from the chunk just flushed. */
  lemma CarriedOver(cfg: Config, laid: seq<Laid>, sents: seq<Piece>, k: nat, heading: Heading, page: PageNo)
    requires JustFlushed(laid, sents, heading, page) && k <= |sents| && PieceTokens(sents[k..]) <= cfg.overlapTokens
    requires k > 0 ==> PieceTokens(sents[k - 1..]) > cfg.overlapTokens
    ensures CarriedFrom(cfg, laid, sents[k..], heading, page)
  {
    hide PieceTokens;
    assert |sents| - |sents[k..]| == k;
  }

  /** A piece joins when it fits, or when nothing but carried pieces is there. */
  lemma PieceJoins(cfg: Config, laid: seq<Laid>, cur: Current, piece: Piece)
    requires cfg.Accepted() && piece.words != [] && Tokens(|piece.words|) <= cfg.maxTokens && PiecesOk(cfg, cur.sents)
    requires cur.tokens == PieceTokens(cur.sents) && cur.carried <= |cur.sents| && PageOk(cfg, laid, cur)
    requires cur.sents == [] ==> cur.page == piece.page
    requires 0 < cur.carried == |cur.sents| ==> WasFull(cfg, laid, piece)
    requires cur.tokens <= if cur.carried == |cur.sents| then cfg.overlapTokens
      else cfg.maxTokens - Tokens(|piece.words|)
    ensures var more := cur.(sents := cur.sents + [piece], tokens := cur.tokens + Tokens(|piece.words|));
            CurrentOk(cfg, laid, more) && Done(laid, more)
              == Done(laid, cur) + WordItems(piece.words, cur.heading, piece.page)
  {
    hide CarriedFrom, Tokens, FreshOf, PieceTokens, ItemsOfPieces, WasFull;
    var sents := cur.sents + [piece];
    assert PiecesOk(cfg, sents);
    PieceTokensAppend(cur.sents, [piece]);
    OnePiece(piece);
    assert sents[..cur.carried] == cur.sents[..cur.carried];
    assert sents[cur.carried..] == cur.sents[cur.carried..] + [piece];
    ItemsOfMore(cur.sents[cur.carried..], piece, cur.heading);
  }

  /** The parts of a table, each but the first repeating the header, add up to the table. */
  ghost function PartsFresh(parts: seq<seq<string>>): seq<string> {
    if parts == [] then []
    else
      var n := |parts| - 1;
      PartsFresh(parts[..n]) + if n > 0 && parts[n] != [] then parts[n][1..] else parts[n]
  }

  ghost predicate SameHeader(parts: seq<seq<string>>, k: nat)
    requires 0 < k < |parts|
  {
    |parts[k - 1]| >= 2 && |parts[k]| >= 2 && parts[k][0] == parts[k - 1][0]
  }

  lemma PartsLast(parts: seq<seq<string>>)
    requires parts != [] && parts[|parts| - 1] != []
    ensures var n := |parts| - 1;
            && PartsFresh(parts) == PartsFresh(parts[..n]) + (if n > 0 then parts[n][1..] else parts[n])
            && BodyRows(parts) == BodyRows(parts[..n]) + parts[n][1..]
            && (n == 0 ==> PartsFresh(parts[..n]) == [] && BodyRows(parts[..n]) == [])
  {}

  lemma {:induction false} HeaderOnce(parts: seq<seq<string>>)
    requires parts != [] && parts[0] != [] && forall p :: p in parts ==> p != []
    ensures PartsFresh(parts) == [parts[0][0]] + BodyRows(parts)
  {
    hide PartsFresh, BodyRows;
    var n := |parts| - 1;
    assert parts[n] in parts;
    PartsLast(parts);
    if n == 0 {
      assert parts[0] == [parts[0][0]] + parts[0][1..];
      assert [] + parts[0] == parts[0] && [] + parts[0][1..] == parts[0][1..];
    } else {
      forall p | p in parts[..n] ensures p != [] { assert p in parts; }
      HeaderOnce(parts[..n]);
    }
  }

  lemma {:induction false} PartsAreTheTable(isSpace: char -> bool, rows: seq<string>, maxTokens: nat,
                                            parts: seq<seq<string>>)
    requires TableParts(isSpace, rows, maxTokens, parts)
    ensures PartsFresh(parts) == rows
    ensures forall k :: 0 < k < |parts| ==> SameHeader(parts, k)
  {
    hide TableTokens;
    if SplitsTable(isSpace, rows, maxTokens) {
      assert parts[0] in parts;
      HeaderOnce(parts);
      assert rows == [rows[0]] + rows[1..];
    } else {
      assert [rows][..0] == [];
    }
  }

  lemma FlushedOk(isSpace: char -> bool, cfg: Config, s: State)
    requires StateOk(isSpace, cfg, s)
    ensures StateOk(isSpace, cfg, Flushed(s))
    ensures FreshOf(Flushed(s).laid) == Done(s.laid, s.cur) == Done(Flushed(s).laid, Flushed(s).cur)
    ensures s.cur.sents != [] ==> JustFlushed(Flushed(s).laid, s.cur.sents, s.cur.heading, s.cur.page)
  {
    hide AllLaid, CarriedFrom, FreshOf, JustFlushed;
    NothingPending(cfg, Flushed(s).laid, s.cur.heading, s.cur.page);
    if s.cur.sents != [] {
      PendingFlushed(isSpace, cfg, s.laid, s.cur);
    }
  }

  /** What is carried over is a run from the end within the overlap, and one piece more would exceed it. */
  lemma {:induction false} CarryIsLongest(sents: seq<Piece>, overlap: int)
    requires overlap >= 0
    ensures var k := |sents| - |Carry(sents, overlap)|;
            && 0 <= k <= |sents| && Carry(sents, overlap) == sents[k..] && PieceTokens(sents[k..]) <= overlap
            && (k > 0 ==> PieceTokens(sents[k - 1..]) > overlap)
  {
    hide Tokens;
    if sents != [] && PieceTokens(sents) > overlap {
      CarryIsLongest(sents[1..], overlap);
      var k := |sents| - |Carry(sents, overlap)|;
      assert sents[1..][k - 1..] == sents[k..];
      assert k > 1 ==> sents[1..][k - 2..] == sents[k - 1..];
    }
  }

  /** What the chunk being filled needs for a piece to join it. */
  ghost predicate Joinable(cfg: Config, s: State, p: Piece) {
    && PiecesOk(cfg, s.cur.sents) && s.cur.tokens == PieceTokens(s.cur.sents) && s.cur.carried <= |s.cur.sents|
    && (s.cur.sents == [] ==> s.cur.carried == 0)
    && (s.cur.sents != [] ==> PageOk(cfg, s.laid, s.cur))
    && (0 < s.cur.carried == |s.cur.sents| ==> WasFull(cfg, s.laid, p))
    && s.cur.tokens <= if s.cur.carried == |s.cur.sents| then cfg.overlapTokens else cfg.maxTokens - Tokens(|p.words|)
  }

  lemma NoPieces(heading: Heading)
    ensures PieceTokens([]) == 0 && ItemsOfPieces([], heading) == []
  {}

  lemma NoRoomLeft(cfg: Config, laid: seq<Laid>, sents: seq<Piece>, heading: Heading, page: PageNo, p: Piece)
    requires JustFlushed(laid, sents, heading, page) && PieceTokens(sents) + Tokens(|p.words|) > cfg.maxTokens
    ensures WasFull(cfg, laid, p)
  {}

  /** Just after a flush the carried pieces hold nothing new, and the page is still that of the flushed chunk. */
  lemma CarryJoinable(cfg: Config, laid: seq<Laid>, flushed: Current, p: Piece)
    requires cfg.Accepted() && PiecesOk(cfg, flushed.sents)
      && JustFlushed(laid, flushed.sents, flushed.heading, flushed.page)
    requires PieceTokens(flushed.sents) + Tokens(|p.words|) > cfg.maxTokens
    ensures var kept := Carry(flushed.sents, cfg.overlapTokens);
            var cur := Current(kept, |kept|, PieceTokens(kept), flushed.heading, flushed.page);
            Done(laid, cur) == FreshOf(laid) && Joinable(cfg, State(laid, cur), p)
  {
    hide FreshOf, ItemsOfPieces, PieceTokens, WasFull, Tokens, CarriedFrom, JustFlushed;
    var kept := Carry(flushed.sents, cfg.overlapTokens);
    CarryIsLongest(flushed.sents, cfg.overlapTokens);
    CarriedOver(cfg, laid, flushed.sents, |flushed.sents| - |kept|, flushed.heading, flushed.page);
    NoRoomLeft(cfg, laid, flushed.sents, flushed.heading, flushed.page, p);
    NoPieces(flushed.heading);
    assert kept[|kept|..] == [] && kept[..|kept|] == kept;
  }

  lemma RoomMadeOk(isSpace: char -> bool, cfg: Config, s: State, p: Piece)
    requires StateOk(isSpace, cfg, s) && p.words != []
    ensures var made := RoomMade(cfg, s, p);
            && AllLaid(isSpace, cfg, made.laid) && made.cur.heading == s.cur.heading
            && Done(made.laid, made.cur) == Done(s.laid, s.cur) && Joinable(cfg, made, p)
  {
    hide AllLaid, CarriedFrom, FreshOf, ItemsOfPieces, PieceTokens, WasFull, Tokens, Flushed, JustFlushed;
    NoPieces(s.cur.heading);
    if s.cur.sents != [] && s.cur.tokens + Tokens(|p.words|) > cfg.maxTokens {
      FlushedOk(isSpace, cfg, s);
      CarryJoinable(cfg, Flushed(s).laid, s.cur, p);
    }
  }

  /** A piece joins what is pending: nothing is lost, reordered or put under another heading. */
  lemma PieceAddedOk(isSpace: char -> bool, cfg: Config, s: State, p: Piece)
    requires StateOk(isSpace, cfg, s) && p.words != [] && Tokens(|p.words|) <= cfg.maxTokens
    ensures StateOk(isSpace, cfg, PieceAdded(cfg, s, p)) && PieceAdded(cfg, s, p).cur.heading == s.cur.heading
    ensures Done(PieceAdded(cfg, s, p).laid, PieceAdded(cfg, s, p).cur)
         == Done(s.laid, s.cur) + WordItems(p.words, s.cur.heading, p.page)
  {
    hide AllLaid, CarriedFrom, WasFull, FreshOf, ItemsOfPieces, PieceTokens, CurrentOk, Tokens, RoomMade, PiecesOk;
    RoomMadeOk(isSpace, cfg, s, p);
    var made := RoomMade(cfg, s, p);
    var cur := if made.cur.sents == [] then made.cur.(page := p.page) else made.cur;
    PieceJoins(cfg, made.laid, cur, p);
  }

  ghost predicate Addable(cfg: Config, ps: seq<Piece>) {
    forall i :: 0 <= i < |ps| ==> ps[i].words != [] && Tokens(|ps[i].words|) <= cfg.maxTokens
  }

  lemma {:induction false} PiecesAddedOk(isSpace: char -> bool, cfg: Config, s: State, ps: seq<Piece>)
    requires StateOk(isSpace, cfg, s) && Addable(cfg, ps)
    ensures StateOk(isSpace, cfg, PiecesAdded(cfg, s, ps)) && PiecesAdded(cfg, s, ps).cur.heading == s.cur.heading
    ensures Done(PiecesAdded(cfg, s, ps).laid, PiecesAdded(cfg, s, ps).cur)
         == Done(s.laid, s.cur) + ItemsOfPieces(ps, s.cur.heading)
  {
    hide StateOk, Done, Tokens, PieceAdded;
    if ps != [] {
      var n := |ps| - 1;
      PiecesAddedOk(isSpace, cfg, s, ps[..n]);
      PieceAddedOk(isSpace, cfg, PiecesAdded(cfg, s, ps[..n]), ps[n]);
    }
  }

  lemma {:induction false} AllPartsOk(cfg: Config, sents: seq<seq<string>>)
    requires cfg.Accepted() && forall i :: 0 <= i < |sents| ==> sents[i] != []
    ensures Concat(AllParts(cfg, sents)) == Concat(sents)
    ensures forall p :: p in AllParts(cfg, sents) ==> p != [] && Tokens(|p|) <= cfg.maxTokens
  {
    hide Tokens, SplitLong;
    if sents != [] {
      var n := |sents| - 1;
      AllPartsOk(cfg, sents[..n]);
      SplitLongPieces(sents[n], cfg.maxTokens);
      ConcatFew(sents[n]);
      ConcatAppend(AllParts(cfg, sents[..n]), SentenceParts(cfg, sents[n]));
    }
  }

  lemma {:induction false} ItemsOnPage(parts: seq<seq<string>>, page: PageNo, heading: Heading)
    ensures ItemsOfPieces(OnPage(parts, page), heading) == WordItems(Concat(parts), heading, page)
  {
    if parts != [] {
      var n := |parts| - 1;
      ItemsOnPage(parts[..n], page, heading);
      assert OnPage(parts, page)[..n] == OnPage(parts[..n], page);
      ItemsAppend(Concat(parts[..n]), parts[n], heading, page);
    }
  }

  /** The pieces of a block hold its words in order, each piece within the limit. */
  lemma PiecesOfBlock(lang: Language, cfg: Config, words: seq<string>, page: PageNo, heading: Heading)
    requires cfg.Accepted()
    ensures Addable(cfg, PiecesOf(lang, cfg, words, page))
    ensures ItemsOfPieces(PiecesOf(lang, cfg, words, page), heading) == WordItems(words, heading, page)
  {
    hide Tokens, ItemsOfPieces, Concat, AllParts, SplitAfter;
    var sents := SplitAfter(words, Breaker(lang));
    SplitAfterKeepsWords(words, Breaker(lang));
    AllPartsOk(cfg, sents);
    ItemsOnPage(AllParts(cfg, sents), page, heading);
    assert forall i :: 0 <= i < |AllParts(cfg, sents)| ==> AllParts(cfg, sents)[i] in AllParts(cfg, sents);
  }

  lemma HeaderOfPrefix(parts: seq<seq<string>>, n: nat, k: nat)
    requires 0 < k < n <= |parts| && SameHeader(parts, k)
    ensures SameHeader(parts[..n], k)
  {}

  ghost predicate LastIs(laid: seq<Laid>, rows: seq<string>, heading: Heading, page: PageNo) {
    && laid != []
    && var c := laid[|laid| - 1].chunk; c.body == Table(rows) && c.heading == heading && c.page == page
  }

  lemma PartLaid(isSpace: char -> bool, cfg: Config, laid: seq<Laid>, before: seq<Item>, parts: seq<seq<string>>,
                 page: PageNo, heading: Heading)
    requires AllLaid(isSpace, cfg, laid) && parts != []
    requires var n := |parts| - 1;
             && FreshOf(laid) == before + RowItems(PartsFresh(parts[..n]), heading, page)
             && (n > 0 ==> LastIs(laid, parts[n - 1], heading, page) && SameHeader(parts, n))
    ensures var n := |parts| - 1;
            var more := laid + [Laid(PartChunk(isSpace, parts[n], page, heading, |laid|), Rows(n > 0))];
            AllLaid(isSpace, cfg, more) && FreshOf(more) == before + RowItems(PartsFresh(parts), heading, page)
  {
    hide AllLaid, TableTokens, FreshOf;
    var n := |parts| - 1;
    var x := Laid(PartChunk(isSpace, parts[n], page, heading, |laid|), Rows(n > 0));
    FreshAppend(laid, x);
    AllLaidAppend(isSpace, cfg, laid, x);
    MoreRows(before, PartsFresh(parts[..n]), if n > 0 && parts[n] != [] then parts[n][1..]
      else parts[n], heading, page);
  }

  lemma {:induction false} PartsLaidOk(isSpace: char -> bool, cfg: Config, laid: seq<Laid>, parts: seq<seq<string>>,
                                       page: PageNo, heading: Heading)
    requires AllLaid(isSpace, cfg, laid) && forall k :: 0 < k < |parts| ==> SameHeader(parts, k)
    ensures var more := PartsLaid(isSpace, laid, parts, page, heading);
            && AllLaid(isSpace, cfg, more) && FreshOf(more)
               == FreshOf(laid) + RowItems(PartsFresh(parts), heading, page)
            && (parts != [] ==> LastIs(more, parts[|parts| - 1], heading, page))
  {
    hide AllLaid, TableTokens, FreshOf, SameHeader;
    if parts == [] {
      NoneAdded(FreshOf(laid), heading, page);
    } else {
      var n := |parts| - 1;
      forall k | 0 < k < n ensures SameHeader(parts[..n], k) {
        assert SameHeader(parts, k);
        HeaderOfPrefix(parts, n, k);
      }
      PartsLaidOk(isSpace, cfg, laid, parts[..n], page, heading);
      assert n > 0 ==> SameHeader(parts, n);
      PartLaid(isSpace, cfg, PartsLaid(isSpace, laid, parts[..n], page, heading), FreshOf(laid), parts, page, heading);
    }
  }

  lemma UnderHeadingOk(isSpace: char -> bool, cfg: Config, s: State, heading: Heading)
    requires StateOk(isSpace, cfg, s)
    ensures var h := UnderHeading(s, heading);
            StateOk(isSpace, cfg, h) && h.cur.heading == heading && Done(h.laid, h.cur) == Done(s.laid, s.cur)
  {
    hide AllLaid, CurrentOk, Done, FreshOf;
    FlushedOk(isSpace, cfg, s);
    NothingPending(cfg, Flushed(s).laid, heading, s.cur.page);
  }

  /** A block adds its words or rows, under its heading and from its page, to all that was there. */
  lemma BlockAddedOk(isSpace: char -> bool, lang: Language, cfg: Config, s: State, b: Block)
    requires StateOk(isSpace, cfg, s)
    ensures var next := BlockAdded(isSpace, lang, cfg, s, b);
            StateOk(isSpace, cfg, next) && Done(next.laid, next.cur) == Done(s.laid, s.cur) + ItemsIn(b)
  {
    hide AllLaid, CurrentOk, Done, FreshOf, TableParts, PiecesOf, PartsOf, PartsLaid, SameHeader, Addable, UnderHeading;
    match b
    case TableBlock(rows, page, heading) =>
      FlushedOk(isSpace, cfg, s);
      var parts := PartsOf(isSpace, rows, cfg.maxTokens);
      PartsOk(isSpace, rows, cfg.maxTokens);
      PartsAreTheTable(isSpace, rows, cfg.maxTokens, parts);
      PartsLaidOk(isSpace, cfg, Flushed(s).laid, parts, page, heading);
      NothingPending(cfg, PartsLaid(isSpace, Flushed(s).laid, parts, page, heading), s.cur.heading, s.cur.page);
    case ProseBlock(words, page, heading) =>
      UnderHeadingOk(isSpace, cfg, s, heading);
      PiecesOfBlock(lang, cfg, words, page, heading);
      PiecesAddedOk(isSpace, cfg, UnderHeading(s, heading), PiecesOf(lang, cfg, words, page));
  }

  lemma {:induction false} BlocksAddedOk(isSpace: char -> bool, lang: Language, cfg: Config, blocks: seq<Block>)
    requires cfg.Accepted()
    ensures var s := BlocksAdded(isSpace, lang, cfg, blocks);
            StateOk(isSpace, cfg, s) && Done(s.laid, s.cur) == ItemsOf(blocks)
  {
    hide CurrentOk, Done, BlockAdded;
    if blocks == [] {
      NothingPending(cfg, [], None, None);
    } else {
      var n := |blocks| - 1;
      BlocksAddedOk(isSpace, lang, cfg, blocks[..n]);
      BlockAddedOk(isSpace, lang, cfg, BlocksAdded(isSpace, lang, cfg, blocks[..n]), blocks[n]);
    }
  }

  /**
   Dropping carried words and repeated headers, the chunks before the fold spell out every prose word and table
   row of the document in order, each under its own heading and from its own page.
   */
  lemma LayoutSpellsTheDocument(m: Markup, lang: Language, pages: seq<Page>, cfg: Config)
    requires m.Valid() && cfg.Accepted()
    ensures AllLaid(m.isSpace, cfg, LayoutOf(m, lang, pages, cfg))
    ensures FreshOf(LayoutOf(m, lang, pages, cfg)) == TextItems(m, AllLines(pages))
  {
    hide AllLaid, CurrentOk, Done, BlocksAdded, Flushed, BlocksOf;
    BlocksAddedOk(m.isSpace, lang, cfg, BlocksOf(m, pages));
    FlushedOk(m.isSpace, cfg, BlocksAdded(m.isSpace, lang, cfg, BlocksOf(m, pages)));
    BlocksHoldTheText(m, pages);
  }

  lemma PieceTokensSuffix(sents: seq<Piece>, k: nat)
    requires k <= |sents|
    ensures PieceTokens(sents[k..]) <= PieceTokens(sents)
  {
    hide Tokens;
    PieceTokensAppend(sents[..k], sents[k..]);
    assert sents[..k] + sents[k..] == sents;
  }

  /** Going back from the end until the next piece would exceed the overlap carries the longest run. */
  lemma {:induction false} CarriesThisMuch(sents: seq<Piece>, overlap: int, k: nat)
    requires k <= |sents| && PieceTokens(sents[k..]) <= overlap && (k > 0 ==> PieceTokens(sents[k - 1..]) > overlap)
    ensures Carry(sents, overlap) == sents[k..]
    decreases k
  {
    hide Tokens;
    if k > 0 {
      PieceTokensSuffix(sents, k - 1);
      assert sents[1..][k - 1..] == sents[k..];
      assert k > 1 ==> sents[1..][k - 2..] == sents[k - 1..];
      CarriesThisMuch(sents[1..], overlap, k - 1);
    }
  }

  lemma NothingAdded(cfg: Config, s: State, page: PageNo)
    ensures OnPage([], page) == [] && PiecesAdded(cfg, s, []) == s
  {}

  lemma MoreParts(cfg: Config, s: State, a: seq<seq<string>>, b: seq<seq<string>>, page: PageNo)
    ensures PiecesAdded(cfg, PiecesAdded(cfg, s, OnPage(a, page)), OnPage(b, page))
      == PiecesAdded(cfg, s, OnPage(a + b, page))
  {
    hide PiecesAdded;
    PiecesAddedAppend(cfg, s, OnPage(a, page), OnPage(b, page));
    assert OnPage(a + b, page) == OnPage(a, page) + OnPage(b, page);
  }

  class Packer {
    const cfg: Config
    const isSpace: char -> bool
    var chunks: seq<RawChunk>
    var curSents: seq<Piece>
    var curTokens: int
    var curPage: PageNo
    var curHeading: Heading
    ghost var laid: seq<Laid>
    ghost var carried: nat

    ghost function Packed(): State
      reads this
    {
      State(laid, Current(curSents, carried, curTokens, curHeading, curPage))
    }

    ghost predicate Valid()
      reads this
    {
      cfg.Accepted() && chunks == ChunksIn(laid)
    }

    constructor (cfg: Config, isSpace: char -> bool)
      requires cfg.Accepted()
      ensures Valid() && Packed() == State([], Current([], 0, 0, None, None)) && this.cfg == cfg
        && this.isSpace == isSpace
    {
      this.cfg, this.isSpace, chunks, curSents, curTokens, curPage, curHeading := cfg, isSpace, [], [], 0, None, None;
      laid, carried := [], 0;
    }

    method Flush()
      requires Valid()
      modifies this
      ensures Valid() && Packed() == Flushed(old(Packed()))
    {
      if curSents != [] {
        var c := ProseChunk(curSents, curPage, curHeading, |chunks|);
        laid := laid + [Laid(c, Pieces(curSents, carried))];
        chunks := chunks + [c];
      }
      curSents, curTokens, carried := [], 0, 0;
    }

    /** The pieces from the end, as long as the next one stays within the overlap. */
    method CarryOver() returns (kept: seq<Piece>, tokens: int)
      requires Valid()
      ensures kept == Carry(curSents, cfg.overlapTokens) && tokens == PieceTokens(kept)
    {
      hide Tokens;
      kept, tokens := [], 0;
      var i := |curSents|;
      while i > 0
        invariant 0 <= i <= |curSents| && kept == curSents[i..] && tokens == PieceTokens(kept) <= cfg.overlapTokens
      {
        var t := Tokens(|curSents[i - 1].words|);
        assert curSents[i - 1..][1..] == curSents[i..];
        if tokens + t > cfg.overlapTokens {
          break;
        }
        kept, tokens := [curSents[i - 1]] + kept, tokens + t;
        assert kept == curSents[i - 1..];
        i := i - 1;
      }
      CarriesThisMuch(curSents, cfg.overlapTokens, i);
    }

    method AddPiece(words: seq<string>, page: PageNo)
      requires Valid()
      modifies this
      ensures Valid() && Packed() == PieceAdded(cfg, old(Packed()), Piece(words, page))
    {
      var t := Tokens(|words|);
      if curSents != [] && curTokens + t > cfg.maxTokens {
        var kept, tokens := CarryOver();
        Flush();
        curSents, curTokens, carried := kept, tokens, |kept|;
      }
      if curSents == [] {
        curPage := page;
      }
      curSents, curTokens := curSents + [Piece(words, page)], curTokens + t;
    }

    method AddSentence(sent: seq<string>, page: PageNo)
      requires Valid()
      modifies this
      ensures Valid() && Packed() == PiecesAdded(cfg, old(Packed()), OnPage(SentenceParts(cfg, sent), page))
    {
      hide Tokens, PieceAdded, SplitLong;
      var pieces := if Tokens(|sent|) > cfg.maxTokens then SplitLong(sent, StepSize(cfg.maxTokens)) else [sent];
      for i := 0 to |pieces|
        invariant Valid() && Packed() == PiecesAdded(cfg, old(Packed()), OnPage(pieces[..i], page))
      {
        AddPiece(pieces[i], page);
        assert OnPage(pieces[..i + 1], page)[..i] == OnPage(pieces[..i], page);
      }
      assert pieces[..|pieces|] == pieces;
    }

    method AddProse(lang: Language, words: seq<string>, page: PageNo, heading: Heading)
      requires Valid()
      modifies this
      ensures Valid() && Packed() == BlockAdded(isSpace, lang, cfg, old(Packed()), ProseBlock(words, page, heading))
    {
      hide SplitAfter, PiecesAdded, SentenceParts;
      if heading != curHeading {
        Flush();
        curHeading := heading;
      }
      var sents := SplitSentences(lang, words);
      ghost var start := Packed();
      NothingAdded(cfg, start, page);
      for i := 0 to |sents|
        invariant Valid() && Packed() == PiecesAdded(cfg, start, OnPage(AllParts(cfg, sents[..i]), page))
      {
        AddSentence(sents[i], page);
        assert sents[..i + 1][..i] == sents[..i];
        MoreParts(cfg, start, AllParts(cfg, sents[..i]), SentenceParts(cfg, sents[i]), page);
      }
      assert sents[..|sents|] == sents;
    }

    method AddTable(ghost lang: Language, rows: seq<string>, page: PageNo, heading: Heading)
      requires Valid()
      modifies this
      ensures Valid() && Packed() == BlockAdded(isSpace, lang, cfg, old(Packed()), TableBlock(rows, page, heading))
    {
      hide TableParts, PartsOf, TableTokens;
      Flush();
      ghost var start := Packed();
      var parts := SplitTable(isSpace, rows, cfg.maxTokens);
      for i := 0 to |parts|
        invariant Valid() && Packed() == start.(laid := PartsLaid(isSpace, start.laid, parts[..i], page, heading))
      {
        var c := PartChunk(isSpace, parts[i], page, heading, |chunks|);
        assert parts[..i + 1][..i] == parts[..i];
        laid := laid + [Laid(c, Rows(i > 0))];
        chunks := chunks + [c];
      }
      assert parts[..|parts|] == parts;
    }

    method AddBlock(lang: Language, b: Block)
      requires Valid()
      modifies this
      ensures Valid() && Packed() == BlockAdded(isSpace, lang, cfg, old(Packed()), b)
    {
      match b
      case TableBlock(rows, page, heading) => AddTable(lang, rows, page, heading);
      case ProseBlock(words, page, heading) => AddProse(lang, words, page, heading);
    }
  }

  // ---- The final fold ----

  predicate Folds(cfg: Config, prev: RawChunk, last: RawChunk) {
    && prev.body.Prose? && last.body.Prose? && last.heading == prev.heading && last.tokens < cfg.minTokens
    && prev.tokens + last.tokens <= cfg.maxTokens + cfg.minTokens
  }

  /** A tiny last prose chunk is appended to the one before. */
  function Fold(cfg: Config, chunks: seq<RawChunk>): seq<RawChunk> {
    var n := |chunks|;
    if n >= 2 && Folds(cfg, chunks[n - 2], chunks[n - 1]) then
      var words := chunks[n - 2].body.words + chunks[n - 1].body.words;
      chunks[..n - 2] + [chunks[n - 2].(body := Prose(words), tokens := Tokens(|words|))]
    else chunks
  }

  /** All the text of a chunk with its heading, whatever its page. */
  function FullItems(c: RawChunk): seq<Item> {
    if c.body.Prose? then WordItems(c.body.words, c.heading, None) else RowItems(c.body.rows, c.heading, None)
  }

  ghost function AllItems(chunks: seq<RawChunk>): seq<Item> {
    if chunks == [] then [] else AllItems(chunks[..|chunks| - 1]) + FullItems(chunks[|chunks| - 1])
  }

  lemma AllItemsAppend(chunks: seq<RawChunk>, c: RawChunk)
    ensures AllItems(chunks + [c]) == AllItems(chunks) + FullItems(c)
  {
    assert (chunks + [c])[..|chunks|] == chunks;
  }

  /** Folding changes no text, and the folded chunk stays within the limit and the minimum together, plus one. */
  lemma FoldKeepsText(cfg: Config, chunks: seq<RawChunk>)
    requires forall i :: 0 <= i < |chunks| && chunks[i].body.Prose? ==>
      chunks[i].tokens == Tokens(|chunks[i].body.words|)
    ensures AllItems(Fold(cfg, chunks)) == AllItems(chunks)
    ensures |Fold(cfg, chunks)| >= |chunks| - 1 && forall i :: 0 <= i < |Fold(cfg, chunks)| - 1 ==>
      Fold(cfg, chunks)[i] == chunks[i]
    ensures |Fold(cfg, chunks)| < |chunks| ==>
      var c := Fold(cfg, chunks)[|chunks| - 2];
      c.index == chunks[|chunks| - 2].index && c.tokens <= cfg.maxTokens + cfg.minTokens + 1
  {
    hide Tokens, AllItems;
    var n := |chunks|;
    if n >= 2 && Folds(cfg, chunks[n - 2], chunks[n - 1]) {
      var prev, last := chunks[n - 2], chunks[n - 1];
      var folded := Fold(cfg, chunks);
      TokensOfSum(|prev.body.words|, |last.body.words|);
      assert chunks == chunks[..n - 2] + [prev] + [last];
      AllItemsAppend(chunks[..n - 2], folded[n - 2]);
      AllItemsAppend(chunks[..n - 2], prev);
      AllItemsAppend(chunks[..n - 2] + [prev], last);
      MoreWords(AllItems(chunks[..n - 2]), prev.body.words, last.body.words, prev.heading, None);
    }
  }

  // ---- The whole ----

  lemma NoBlocks(isSpace: char -> bool, lang: Language, cfg: Config)
    requires cfg.Accepted()
    ensures BlocksAdded(isSpace, lang, cfg, []) == State([], Current([], 0, 0, None, None))
  {}

  lemma NextBlock(isSpace: char -> bool, lang: Language, cfg: Config, blocks: seq<Block>, i: nat)
    requires cfg.Accepted() && i < |blocks|
    ensures BlocksAdded(isSpace, lang, cfg, blocks[..i + 1])
         == BlockAdded(isSpace, lang, cfg, BlocksAdded(isSpace, lang, cfg, blocks[..i]), blocks[i])
  {
    hide BlockAdded;
    assert blocks[..i + 1][..i] == blocks[..i];
  }

  method ChunkDocument(m: Markup, lang: Language, pages: seq<Page>, cfg: Config)
    returns (r: Option<seq<RawChunk>>)
    requires m.Valid()
    ensures r.None? <==> !cfg.Accepted()
    ensures r.Some? ==> r.value == Fold(cfg, ChunksIn(LayoutOf(m, lang, pages, cfg)))
  {
    hide BlockAdded, BlocksAdded, BlocksOf, Flushed, Fold, ChunksIn;
    if !cfg.Accepted() {
      return None;
    }
    NoBlocks(m.isSpace, lang, cfg);
    var blocks := ParseBlocks(m, pages);
    var packer := new Packer(cfg, m.isSpace);
    for i := 0 to |blocks|
      invariant fresh(packer) && packer.Valid() && packer.cfg == cfg && packer.isSpace == m.isSpace
      invariant packer.Packed() == BlocksAdded(m.isSpace, lang, cfg, blocks[..i])
    {
      NextBlock(m.isSpace, lang, cfg, blocks, i);
      packer.AddBlock(lang, blocks[i]);
    }
    assert blocks[..|blocks|] == blocks;
    packer.Flush();
    r := Some(Fold(cfg, packer.chunks));
  }

  lemma {:induction false} WordsInPieces(pieces: seq<Piece>)
    ensures |TextOf(pieces)| <= PieceTokens(pieces)
  {
    hide Tokens;
    if pieces != [] {
      var n := |pieces| - 1;
      WordsInPieces(pieces[..n]);
      PieceTokensAppend(pieces[..n], [pieces[n]]);
      OnePiece(pieces[n]);
      assert pieces[..n] + [pieces[n]] == pieces;
      WordsWithinTokens(|pieces[n].words|);
    }
  }

  /** The words of a prose chunk, and its estimate, are bounded by the limit and the overlap together. */
  lemma {:induction false} ProseChunkSize(isSpace: char -> bool, cfg: Config, laid: seq<Laid>, i: nat)
    requires AllLaid(isSpace, cfg, laid) && i < |laid| && laid[i].layout.Pieces?
    ensures laid[i].chunk.body.Prose?
    ensures |laid[i].chunk.body.words| <= PieceTokens(laid[i].layout.pieces) <= cfg.maxTokens + cfg.overlapTokens
    ensures laid[i].chunk.tokens <= Tokens(cfg.maxTokens + cfg.overlapTokens)
    ensures PieceTokens(laid[i].layout.pieces) > cfg.maxTokens ==> |laid[i].layout.pieces| == laid[i].layout.carried + 1
  {
    hide Tokens;
    assert LaidAt(isSpace, cfg, laid, i);
    WordsInPieces(laid[i].layout.pieces);
    TokensMonotone(|laid[i].chunk.body.words|, cfg.maxTokens + cfg.overlapTokens);
  }
}
