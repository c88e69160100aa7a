/** Chunking a document: blocks, table splitting, packing with overlap, and the final fold (app/rag/chunking.py). */
module Chunking {
  import opened Wrappers
  import opened ChunkText
  import Ordering

  type Heading = Option<string>
  type PageNo = Option<int>

  /** A word or a table row of the document, with the heading it stands under and its page. */
  datatype Item = WordItem(word: string, heading: Heading, page: PageNo) | RowItem(row: string, heading: Heading,
    page: PageNo)

  function WordItems(words: seq<string>, h: Heading, page: PageNo): seq<Item> {
    seq(|words|, i requires 0 <= i < |words| => WordItem(words[i], h, page))
  }

  function RowItems(rows: seq<string>, h: Heading, page: PageNo): seq<Item> {
    seq(|rows|, i requires 0 <= i < |rows| => RowItem(rows[i], h, page))
  }

  lemma ItemsAppend(a: seq<string>, b: seq<string>, h: Heading, page: PageNo)
    ensures WordItems(a + b, h, page) == WordItems(a, h, page) + WordItems(b, h, page)
    ensures RowItems(a + b, h, page) == RowItems(a, h, page) + RowItems(b, h, page)
  {}

  lemma MoreWords(before: seq<Item>, a: seq<string>, b: seq<string>, h: Heading, page: PageNo)
    ensures before + WordItems(a, h, page) + WordItems(b, h, page) == before + WordItems(a + b, h, page)
  {
    ItemsAppend(a, b, h, page);
  }

  lemma MoreRows(before: seq<Item>, a: seq<string>, b: seq<string>, h: Heading, page: PageNo)
    ensures before + RowItems(a, h, page) + RowItems(b, h, page) == before + RowItems(a + b, h, page)
  {
    ItemsAppend(a, b, h, page);
  }

  lemma NoneAdded(before: seq<Item>, h: Heading, page: PageNo)
    ensures before + WordItems([], h, page) == before && before + RowItems([], h, page) == before
  {}

  // ---- The text and its blocks ----

  datatype Page = Page(number: PageNo, lines: seq<string>)

  datatype Line = Line(text: string, page: PageNo)

  function LinesOf(page: Page): seq<Line> {
    seq(|page.lines|, i requires 0 <= i < |page.lines| => Line(page.lines[i], page.number))
  }

  /** White space, what counts as a heading, and how a heading and a table line are trimmed. */
  datatype Markup = Markup(
    isSpace: char -> bool, isHeading: string -> bool, cleanHeading: string -> string, trimRight: string -> string)
  {
    ghost predicate Valid() {
      forall line :: Words(isSpace, trimRight(line)) == Words(isSpace, line)
    }
  }

  predicate IsBlank(m: Markup, line: string) {
    Words(m.isSpace, line) == []
  }

  function CountOf(c: char, line: string): nat {
    multiset(line)[c]
  }

  predicate IsTableLine(line: string) {
    CountOf('|', line) >= 2 || CountOf('\t', line) >= 2
  }

  /** What one line contributes under a heading. */
  ghost function LineItems(m: Markup, line: Line, h: Heading): seq<Item> {
    if IsBlank(m, line.text) then []
    else if IsTableLine(line.text) then [RowItem(m.trimRight(line.text), h, line.page)]
    else if m.isHeading(line.text) then []
    else WordItems(Words(m.isSpace, line.text), h, line.page)
  }

  ghost function HeadingAfter(m: Markup, lines: seq<Line>): Heading {
    if lines == [] then None
    else
      var line := lines[|lines| - 1].text;
      if !IsBlank(m, line) && !IsTableLine(line) && m.isHeading(line) then Some(m.cleanHeading(line))
      else HeadingAfter(m, lines[..|lines| - 1])
  }

  /** The whole document: every prose word and table row in order, each under the last heading before it. */
  ghost function TextItems(m: Markup, lines: seq<Line>): seq<Item> {
    if lines == [] then []
    else
      var n := |lines| - 1;
      TextItems(m, lines[..n]) + LineItems(m, lines[n], HeadingAfter(m, lines[..n]))
  }

  ghost function AllLines(pages: seq<Page>): seq<Line> {
    if pages == [] then [] else AllLines(pages[..|pages| - 1]) + LinesOf(pages[|pages| - 1])
  }

  datatype Block =
    | ProseBlock(words: seq<string>, page: PageNo, heading: Heading)
    | TableBlock(rows: seq<string>, page: PageNo, heading: Heading)

  function ItemsIn(b: Block): seq<Item> {
    if b.ProseBlock? then WordItems(b.words, b.heading, b.page) else RowItems(b.rows, b.heading, b.page)
  }

  ghost function ItemsOf(blocks: seq<Block>): seq<Item> {
    if blocks == [] then [] else ItemsOf(blocks[..|blocks| - 1]) + ItemsIn(blocks[|blocks| - 1])
  }

  lemma ItemsOfAppend(blocks: seq<Block>, b: Block)
    ensures ItemsOf(blocks + [b]) == ItemsOf(blocks) + ItemsIn(b)
  {
    assert (blocks + [b])[..|blocks|] == blocks;
  }

  function ParaWords(m: Markup, para: seq<string>): seq<string> {
    if para == [] then [] else ParaWords(m, para[..|para| - 1]) + Words(m.isSpace, para[|para| - 1])
  }

  function FlushPara(m: Markup, blocks: seq<Block>, para: seq<string>, page: PageNo, h: Heading): seq<Block> {
    if para == [] then blocks else blocks + [ProseBlock(ParaWords(m, para), page, h)]
  }

  function FlushTable(blocks: seq<Block>, table: seq<string>, page: PageNo, h: Heading): seq<Block> {
    if table == [] then blocks else blocks + [TableBlock(table, page, h)]
  }

  /** What has been read, with the paragraph or table being collected. */
  ghost predicate Parsed(m: Markup, so: seq<Line>, blocks: seq<Block>, para: seq<string>, table: seq<string>,
                         page: PageNo, h: Heading) {
    && (para == [] || table == [])
    && h == HeadingAfter(m, so)
    && TextItems(m, so) == ItemsOf(blocks) + WordItems(ParaWords(m, para), h, page) + RowItems(table, h, page)
  }

  lemma NoItems(m: Markup, h: Heading, page: PageNo)
    ensures WordItems([], h, page) == [] && RowItems([], h, page) == [] && ParaWords(m, []) == []
  {}

  lemma CloseKeeps(m: Markup, so: seq<Line>, blocks: seq<Block>, para: seq<string>, table: seq<string>, page: PageNo,
                h: Heading)
    requires Parsed(m, so, blocks, para, table, page, h)
    ensures Parsed(m, so, FlushPara(m, blocks, para, page, h), [], table, page, h)
    ensures Parsed(m, so, FlushTable(blocks, table, page, h), para, [], page, h)
  {
    hide HeadingAfter, TextItems, ItemsOf;
    ItemsOfAppend(blocks, ProseBlock(ParaWords(m, para), page, h));
    ItemsOfAppend(blocks, TableBlock(table, page, h));
    NoItems(m, h, page);
    var all, w, r := ItemsOf(blocks), WordItems(ParaWords(m, para), h, page), RowItems(table, h, page);
    assert all + w + [] + r == all + w + r;
    assert para == [] ==> all + w + r == all + r + w + [];
    assert table == [] ==> all + w + r == all + w + [];
  }

  lemma OneMoreLine(m: Markup, so: seq<Line>, line: Line)
    ensures TextItems(m, so + [line]) == TextItems(m, so) + LineItems(m, line, HeadingAfter(m, so))
    ensures HeadingAfter(m, so + [line])
         == if !IsBlank(m, line.text) && !IsTableLine(line.text)
           && m.isHeading(line.text) then Some(m.cleanHeading(line.text))
            else HeadingAfter(m, so)
  {
    assert (so + [line])[..|so|] == so;
  }

  /** A line that is set aside after what it ends has been flushed. */
  lemma LineTaken(m: Markup, so: seq<Line>, blocks: seq<Block>, para: seq<string>, table: seq<string>, page: PageNo,
                  h: Heading, line: string)
    requires Parsed(m, so, blocks, para, table, page, h)
    ensures IsBlank(m, line) ==> Parsed(m, so + [Line(line, page)], blocks, para, table, page, h)
    ensures !IsBlank(m, line) && IsTableLine(line) && para == [] ==>
      Parsed(m, so + [Line(line, page)], blocks, para, table + [m.trimRight(line)], page, h)
    ensures !IsBlank(m, line) && !IsTableLine(line) && m.isHeading(line) && para == [] && table == [] ==>
      Parsed(m, so + [Line(line, page)], blocks, para, table, page, Some(m.cleanHeading(line)))
    ensures !IsBlank(m, line) && !IsTableLine(line) && !m.isHeading(line) && table == [] ==>
      Parsed(m, so + [Line(line, page)], blocks, para + [line], table, page, h)
  {
    hide IsBlank, IsTableLine, HeadingAfter, TextItems, ItemsOf;
    OneMoreLine(m, so, Line(line, page));
    ItemsAppend(ParaWords(m, para), Words(m.isSpace, line), h, page);
    assert (para + [line])[..|para|] == para;
    ItemsAppend(table, [m.trimRight(line)], h, page);
  }

  predicate HasText(m: Markup, b: Block) {
    if b.ProseBlock? then b.words != [] else exists i :: 0 <= i < |b.rows| && !IsBlank(m, b.rows[i])
  }

  /** Blocks and collected lines that are all non-blank. */
  ghost predicate AllText(m: Markup, blocks: seq<Block>, para: seq<string>, table: seq<string>) {
    && (forall i :: 0 <= i < |blocks| ==> HasText(m, blocks[i]))
    && (forall i :: 0 <= i < |para| ==> !IsBlank(m, para[i]))
       && (forall i :: 0 <= i < |table| ==> !IsBlank(m, table[i]))
  }

  lemma FlushedText(m: Markup, blocks: seq<Block>, para: seq<string>, table: seq<string>, page: PageNo, h: Heading)
    requires AllText(m, blocks, para, table)
    ensures AllText(m, FlushPara(m, blocks, para, page, h), [], table)
    ensures AllText(m, FlushTable(blocks, table, page, h), para, [])
  {
    if table != [] { assert !IsBlank(m, table[0]); }
    if para != [] { assert !IsBlank(m, para[|para| - 1]); }
  }

  lemma {:induction false} KeepAll(m: Markup, blocks: seq<Block>)
    requires forall i :: 0 <= i < |blocks| ==> HasText(m, blocks[i])
    ensures Ordering.Filter(b => HasText(m, b), blocks) == blocks
  {
    if blocks != [] {
      KeepAll(m, blocks[..|blocks| - 1]);
      assert blocks == blocks[..|blocks| - 1] + [blocks[|blocks| - 1]];
    }
  }

  lemma FlushedBoth(m: Markup, so: seq<Line>, blocks: seq<Block>, para: seq<string>, table: seq<string>,
                    page: PageNo, h: Heading)
    requires Parsed(m, so, blocks, para, table, page, h) && AllText(m, blocks, para, table)
    ensures var b := FlushPara(m, blocks, para, page, h);
            && Parsed(m, so, b, [], table, page, h) && AllText(m, b, [], table)
            && Parsed(m, so, FlushTable(b, table, page, h), [], [], page, h)
               && AllText(m, FlushTable(b, table, page, h), [], [])
    ensures var b := FlushTable(blocks, table, page, h);
            Parsed(m, so, b, para, [], page, h) && AllText(m, b, para, [])
  {
    hide Parsed, AllText, FlushPara, FlushTable;
    var b := FlushPara(m, blocks, para, page, h);
    CloseKeeps(m, so, blocks, para, table, page, h);
    FlushedText(m, blocks, para, table, page, h);
    CloseKeeps(m, so, b, [], table, page, h);
    FlushedText(m, b, [], table, page, h);
  }

  lemma TrimmedLine(m: Markup, line: string)
    requires m.Valid()
    ensures IsBlank(m, m.trimRight(line)) <==> IsBlank(m, line)
  {}

  /** With nothing being collected, the page is of no account. */
  lemma OtherPage(m: Markup, so: seq<Line>, blocks: seq<Block>, page: PageNo, next: PageNo, h: Heading)
    requires Parsed(m, so, blocks, [], [], page, h)
    ensures Parsed(m, so, blocks, [], [], next, h)
  {
    NoItems(m, h, page);
    NoItems(m, h, next);
  }

  // ---- Reading line by line ----

  /** The blocks so far, the paragraph or table being collected, and the heading. */
  datatype Reading = Reading(blocks: seq<Block>, para: seq<string>, table: seq<string>, heading: Heading)

  function ParaClosed(m: Markup, r: Reading, page: PageNo): Reading {
    r.(blocks := FlushPara(m, r.blocks, r.para, page, r.heading), para := [])
  }

  function TableClosed(r: Reading, page: PageNo): Reading {
    r.(blocks := FlushTable(r.blocks, r.table, page, r.heading), table := [])
  }

  /** A blank line or a heading ends what is collected, a table line ends a paragraph, other text ends a table. */
  function LineRead(m: Markup, r: Reading, line: Line): Reading {
    if IsBlank(m, line.text) then TableClosed(ParaClosed(m, r, line.page), line.page)
    else if IsTableLine(line.text) then
      var closed := ParaClosed(m, r, line.page);
      closed.(table := closed.table + [m.trimRight(line.text)])
    else if m.isHeading(line.text) then
      TableClosed(ParaClosed(m, r, line.page), line.page).(heading := Some(m.cleanHeading(line.text)))
    else
      var closed := TableClosed(r, line.page);
      closed.(para := closed.para + [line.text])
  }

  function LinesRead(m: Markup, r: Reading, lines: seq<Line>): Reading {
    if lines == [] then r else LineRead(m, LinesRead(m, r, lines[..|lines| - 1]), lines[|lines| - 1])
  }

  /** The end of a page ends what is collected; the heading stays. */
  function PageRead(m: Markup, r: Reading, page: Page): Reading {
    TableClosed(ParaClosed(m, LinesRead(m, r, LinesOf(page)), page.number), page.number)
  }

  function PagesRead(m: Markup, pages: seq<Page>): Reading {
    if pages == [] then Reading([], [], [], None)
    else PageRead(m, PagesRead(m, pages[..|pages| - 1]), pages[|pages| - 1])
  }

  function BlocksOf(m: Markup, pages: seq<Page>): seq<Block> {
    Ordering.Filter(b => HasText(m, b), PagesRead(m, pages).blocks)
  }

  ghost predicate ReadOk(m: Markup, so: seq<Line>, r: Reading, page: PageNo) {
    Parsed(m, so, r.blocks, r.para, r.table, page, r.heading) && AllText(m, r.blocks, r.para, r.table)
  }

  lemma LineReadOk(m: Markup, so: seq<Line>, r: Reading, line: Line)
    requires m.Valid() && ReadOk(m, so, r, line.page)
    ensures ReadOk(m, so + [line], LineRead(m, r, line), line.page)
  {
    hide Parsed, HasText, IsBlank, IsTableLine, FlushPara, FlushTable;
    FlushedBoth(m, so, r.blocks, r.para, r.table, line.page, r.heading);
    var para, table := ParaClosed(m, r, line.page), TableClosed(r, line.page);
    var both := TableClosed(para, line.page);
    TrimmedLine(m, line.text);
    assert Line(line.text, line.page) == line;
    LineTaken(m, so, both.blocks, both.para, both.table, line.page, both.heading, line.text);
    LineTaken(m, so, para.blocks, para.para, para.table, line.page, para.heading, line.text);
    LineTaken(m, so, table.blocks, table.para, table.table, line.page, table.heading, line.text);
  }

  lemma {:induction false} LinesReadOk(m: Markup, so: seq<Line>, r: Reading, lines: seq<Line>, page: PageNo)
    requires m.Valid() && ReadOk(m, so, r, page) && forall i :: 0 <= i < |lines| ==> lines[i].page == page
    ensures ReadOk(m, so + lines, LinesRead(m, r, lines), page)
  {
    hide ReadOk, LineRead;
    if lines == [] {
      assert so + lines == so;
    } else {
      var n := |lines| - 1;
      LinesReadOk(m, so, r, lines[..n], page);
      LineReadOk(m, so + lines[..n], LinesRead(m, r, lines[..n]), lines[n]);
      assert so + lines[..n] + [lines[n]] == so + lines;
    }
  }

  lemma NoText(m: Markup)
    ensures Parsed(m, [], [], [], [], None, None)
  {}

  lemma {:induction false} PagesReadOk(m: Markup, pages: seq<Page>)
    requires m.Valid()
    ensures ReadOk(m, AllLines(pages), PagesRead(m, pages), None)
    ensures PagesRead(m, pages).para == [] && PagesRead(m, pages).table == []
  {
    hide Parsed, HasText, LinesRead, FlushPara, FlushTable, ParaWords;
    if pages == [] {
      NoText(m);
    } else {
      var n := |pages| - 1;
      var before, page := PagesRead(m, pages[..n]), pages[n].number;
      var so := AllLines(pages[..n]);
      PagesReadOk(m, pages[..n]);
      OtherPage(m, so, before.blocks, None, page, before.heading);
      LinesReadOk(m, so, before, LinesOf(pages[n]), page);
      var r := LinesRead(m, before, LinesOf(pages[n]));
      FlushedBoth(m, AllLines(pages), r.blocks, r.para, r.table, page, r.heading);
      OtherPage(m, AllLines(pages), PagesRead(m, pages).blocks, page, None, r.heading);
    }
  }

  /** The blocks hold every word and row of the pages in order, under the right headings and on the right pages. */
  lemma BlocksHoldTheText(m: Markup, pages: seq<Page>)
    requires m.Valid()
    ensures ItemsOf(BlocksOf(m, pages)) == TextItems(m, AllLines(pages))
    ensures forall i :: 0 <= i < |BlocksOf(m, pages)| ==> HasText(m, BlocksOf(m, pages)[i])
  {
    hide HasText, PagesRead;
    PagesReadOk(m, pages);
    KeepAll(m, PagesRead(m, pages).blocks);
    NoItems(m, PagesRead(m, pages).heading, None);
  }

  /** The loop over the lines of one page. */
  method ParsePage(m: Markup, page: Page, blocks0: seq<Block>, heading0: Heading)
    returns (blocks: seq<Block>, heading: Heading)
    ensures Reading(blocks, [], [], heading) == PageRead(m, Reading(blocks0, [], [], heading0), page)
  {
    hide IsBlank, IsTableLine, FlushPara, FlushTable;
    blocks, heading := blocks0, heading0;
    var para: seq<string>, table: seq<string> := [], [];
    ghost var start, lines := Reading(blocks0, [], [], heading0), LinesOf(page);
    for i := 0 to |page.lines|
      invariant Reading(blocks, para, table, heading) == LinesRead(m, start, lines[..i])
    {
      var line := page.lines[i];
      assert lines[..i + 1][..i] == lines[..i];
      if IsBlank(m, line) {
        blocks, para := FlushPara(m, blocks, para, page.number, heading), [];
        blocks, table := FlushTable(blocks, table, page.number, heading), [];
      } else if IsTableLine(line) {
        blocks, para := FlushPara(m, blocks, para, page.number, heading), [];
        table := table + [m.trimRight(line)];
      } else if m.isHeading(line) {
        blocks, para := FlushPara(m, blocks, para, page.number, heading), [];
        blocks, table := FlushTable(blocks, table, page.number, heading), [];
        heading := Some(m.cleanHeading(line));
      } else {
        blocks, table := FlushTable(blocks, table, page.number, heading), [];
        para := para + [line];
      }
    }
    assert lines[..|page.lines|] == lines;
    blocks := FlushPara(m, blocks, para, page.number, heading);
    blocks := FlushTable(blocks, table, page.number, heading);
  }

  method ParseBlocks(m: Markup, pages: seq<Page>) returns (blocks: seq<Block>)
    requires m.Valid()
    ensures blocks == BlocksOf(m, pages)
    ensures ItemsOf(blocks) == TextItems(m, AllLines(pages))
    ensures forall i :: 0 <= i < |blocks| ==> HasText(m, blocks[i])
  {
    hide HasText, PageRead;
    blocks := [];
    var heading: Heading := None;
    for p := 0 to |pages|
      invariant Reading(blocks, [], [], heading) == PagesRead(m, pages[..p])
    {
      assert pages[..p + 1][..p] == pages[..p];
      blocks, heading := ParsePage(m, pages[p], blocks, heading);
    }
    assert pages[..|pages|] == pages;
    BlocksHoldTheText(m, pages);
    blocks := Ordering.Filter(b => HasText(m, b), blocks);
  }

  // ---- Tables ----

  function WordCount(isSpace: char -> bool, rows: seq<string>): nat {
    if rows == [] then 0 else WordCount(isSpace, rows[..|rows| - 1]) + |Words(isSpace, rows[|rows| - 1])|
  }

  /** The estimate for rows joined by line breaks. */
  function TableTokens(isSpace: char -> bool, rows: seq<string>): nat {
    Tokens(WordCount(isSpace, rows))
  }

  predicate SplitsTable(isSpace: char -> bool, rows: seq<string>, maxTokens: nat) {
    TableTokens(isSpace, rows) > maxTokens && |rows| >= 3
  }

  /** The body rows of the parts, in order. */
  ghost function BodyRows(parts: seq<seq<string>>): seq<string> {
    if parts == [] then []
    else BodyRows(parts[..|parts| - 1]) + if parts[|parts| - 1] == [] then [] else parts[|parts| - 1][1..]
  }

  /** The part before the `k`-th could not have taken its first row. */
  ghost predicate NoRoom(isSpace: char -> bool, maxTokens: nat, parts: seq<seq<string>>, k: nat)
    requires 0 < k < |parts|
  {
    |parts[k]| >= 2 && TableTokens(isSpace, parts[k - 1] + [parts[k][1]]) > maxTokens
  }

  /**
   A table within the limit, or of fewer than three rows, stays whole. Otherwise every part repeats the header,
   the parts hold each body row once and in order, a part over the limit has a single body row, and no part could
   have taken the next row.
   */
  ghost predicate TableParts(isSpace: char -> bool, rows: seq<string>, maxTokens: nat, parts: seq<seq<string>>) {
    if !SplitsTable(isSpace, rows, maxTokens) then parts == [rows]
    else
      && |parts| >= 1 && (forall p :: p in parts ==> |p| >= 2 && p[0] == rows[0])
      && BodyRows(parts) == rows[1..]
      && (forall p :: p in parts && TableTokens(isSpace, p) > maxTokens ==> |p| == 2)
      && (forall k :: 0 < k < |parts| ==> NoRoom(isSpace, maxTokens, parts, k))
  }

  /** The parts after some rows of the body, the last one still being filled. */
  ghost predicate PartsSoFar(isSpace: char -> bool, header: string, maxTokens: nat, body: seq<string>,
                             parts: seq<seq<string>>) {
    && parts != []
    && (forall p :: p in parts ==> |p| >= 1 && p[0] == header && (TableTokens(isSpace, p) > maxTokens ==> |p| <= 2))
    && (forall p :: p in parts && |p| == 1 ==> body == [])
    && BodyRows(parts) == body
    && (forall k :: 0 < k < |parts| ==> NoRoom(isSpace, maxTokens, parts, k))
  }

  lemma NoPartsYet(isSpace: char -> bool, header: string, maxTokens: nat)
    ensures PartsSoFar(isSpace, header, maxTokens, [], [[header]])
  {
    assert [[header]][..0] == [];
  }

  lemma LastBodyRows(parts: seq<seq<string>>, cur: seq<string>)
    requires cur != []
    ensures BodyRows(parts + [cur]) == BodyRows(parts) + cur[1..]
  {
    assert (parts + [cur])[..|parts|] == parts;
  }

  lemma StillNoRoom(isSpace: char -> bool, maxTokens: nat, parts: seq<seq<string>>, cur: seq<string>, row: string,
                    k: nat)
    requires 0 < k <= |parts| && NoRoom(isSpace, maxTokens, parts + [cur], k)
    ensures NoRoom(isSpace, maxTokens, parts + [cur + [row]], k)
  {
    hide TableTokens;
    var before, after := parts + [cur], parts + [cur + [row]];
    assert after[k - 1] == before[k - 1] && after[k][1] == before[k][1];
  }

  lemma RowsPresent(parts: seq<seq<string>>, cur: seq<string>)
    requires |cur| > 1
    ensures BodyRows(parts + [cur]) != []
  {
    LastBodyRows(parts, cur);
  }

  /** Only the very first part is ever down to its header. */
  lemma OnlyPart(isSpace: char -> bool, header: string, maxTokens: nat, body: seq<string>, parts: seq<seq<string>>,
                 cur: seq<string>)
    requires PartsSoFar(isSpace, header, maxTokens, body, parts + [cur])
    ensures forall p :: p in parts ==> |p| > 1
    ensures parts != [] ==> |cur| > 1
  {
    hide TableTokens;
    var all := parts + [cur];
    if parts != [] {
      assert NoRoom(isSpace, maxTokens, all, |parts|);
      RowsPresent(parts, cur);
    }
  }

  /** A row that fits joins the last part. */
  lemma RowJoins(isSpace: char -> bool, header: string, maxTokens: nat, body: seq<string>, parts: seq<seq<string>>,
                 cur: seq<string>, row: string)
    requires PartsSoFar(isSpace, header, maxTokens, body, parts + [cur])
    requires |cur| == 1 || TableTokens(isSpace, cur + [row]) <= maxTokens
    ensures PartsSoFar(isSpace, header, maxTokens, body + [row], parts + [cur + [row]])
  {
    hide TableTokens, BodyRows, NoRoom;
    var before, after := parts + [cur], parts + [cur + [row]];
    assert cur in before;
    OnlyPart(isSpace, header, maxTokens, body, parts, cur);
    LastBodyRows(parts, cur);
    LastBodyRows(parts, cur + [row]);
    assert cur[1..] + [row] == (cur + [row])[1..];
    forall p | p in after ensures p == cur + [row] || (p in before && |p| > 1) {
      assert p != cur + [row] ==> p in parts;
    }
    forall k | 0 < k < |after| ensures NoRoom(isSpace, maxTokens, after, k) {
      assert NoRoom(isSpace, maxTokens, before, k);
      StillNoRoom(isSpace, maxTokens, parts, cur, row, k);
    }
  }

  lemma NoRoomBefore(isSpace: char -> bool, maxTokens: nat, parts: seq<seq<string>>, next: seq<string>, k: nat)
    requires 0 < k <= |parts| && |next| == 2
    requires if k < |parts| then NoRoom(isSpace, maxTokens, parts, k)
             else TableTokens(isSpace, parts[k - 1] + [next[1]]) > maxTokens
    ensures NoRoom(isSpace, maxTokens, parts + [next], k)
  {
    hide TableTokens;
  }

  /** A row that does not fit starts a part with the header. */
  lemma RowStartsPart(isSpace: char -> bool, header: string, maxTokens: nat, body: seq<string>,
                      parts: seq<seq<string>>, row: string)
    requires PartsSoFar(isSpace, header, maxTokens, body, parts) && |parts[|parts| - 1]| > 1
    requires TableTokens(isSpace, parts[|parts| - 1] + [row]) > maxTokens
    ensures PartsSoFar(isSpace, header, maxTokens, body + [row], parts + [[header, row]])
  {
    hide TableTokens, BodyRows, NoRoom;
    var n := |parts| - 1;
    var after := parts + [[header, row]];
    LastBodyRows(parts, [header, row]);
    assert parts == parts[..n] + [parts[n]];
    OnlyPart(isSpace, header, maxTokens, body, parts[..n], parts[n]);
    assert forall p :: p in after ==> p in parts || p == [header, row];
    forall k | 0 < k < |after| ensures NoRoom(isSpace, maxTokens, after, k) {
      assert k < |parts| ==> NoRoom(isSpace, maxTokens, parts, k);
      NoRoomBefore(isSpace, maxTokens, parts, [header, row], k);
    }
  }

  /** A row joins the last part, or starts one with the header where it has no room. */
  function RowAdded(isSpace: char -> bool, header: string, maxTokens: nat, parts: seq<seq<string>>,
                    row: string): seq<seq<string>>
    requires parts != []
  {
    var cur := parts[|parts| - 1];
    if |cur| > 1 && TableTokens(isSpace, cur + [row]) > maxTokens then parts + [[header, row]]
    else parts[..|parts| - 1] + [cur + [row]]
  }

  function RowsAdded(isSpace: char -> bool, header: string, maxTokens: nat,
                     body: seq<string>): (parts: seq<seq<string>>)
    ensures parts != []
  {
    if body == [] then [[header]]
    else RowAdded(isSpace, header, maxTokens, RowsAdded(isSpace, header, maxTokens, body[..|body| - 1]),
      body[|body| - 1])
  }

  function PartsOf(isSpace: char -> bool, rows: seq<string>, maxTokens: nat): (parts: seq<seq<string>>)
    ensures parts != []
  {
    if SplitsTable(isSpace, rows, maxTokens) then RowsAdded(isSpace, rows[0], maxTokens, rows[1..]) else [rows]
  }

  lemma HeaderPresent(isSpace: char -> bool, header: string, maxTokens: nat, body: seq<string>, parts: seq<seq<string>>)
    requires PartsSoFar(isSpace, header, maxTokens, body, parts)
    ensures parts != [] && |parts[|parts| - 1]| >= 1
  {
    hide TableTokens, BodyRows, NoRoom;
    assert parts[|parts| - 1] in parts;
  }

  lemma {:induction false} RowsAddedOk(isSpace: char -> bool, header: string, maxTokens: nat, body: seq<string>)
    ensures PartsSoFar(isSpace, header, maxTokens, body, RowsAdded(isSpace, header, maxTokens, body))
  {
    hide TableTokens, PartsSoFar;
    if body == [] {
      NoPartsYet(isSpace, header, maxTokens);
    } else {
      var n := |body| - 1;
      var before := RowsAdded(isSpace, header, maxTokens, body[..n]);
      var k := |before| - 1;
      RowsAddedOk(isSpace, header, maxTokens, body[..n]);
      assert before == before[..k] + [before[k]] && body == body[..n] + [body[n]];
      if |before[k]| > 1 && TableTokens(isSpace, before[k] + [body[n]]) > maxTokens {
        RowStartsPart(isSpace, header, maxTokens, body[..n], before, body[n]);
      } else {
        HeaderPresent(isSpace, header, maxTokens, body[..n], before);
        RowJoins(isSpace, header, maxTokens, body[..n], before[..k], before[k], body[n]);
      }
    }
  }

  lemma PartsFinished(isSpace: char -> bool, rows: seq<string>, maxTokens: nat, parts: seq<seq<string>>)
    requires SplitsTable(isSpace, rows, maxTokens) && PartsSoFar(isSpace, rows[0], maxTokens, rows[1..], parts)
    ensures TableParts(isSpace, rows, maxTokens, parts)
  {
    hide TableTokens;
  }

  lemma PartsOk(isSpace: char -> bool, rows: seq<string>, maxTokens: nat)
    ensures TableParts(isSpace, rows, maxTokens, PartsOf(isSpace, rows, maxTokens))
  {
    hide PartsSoFar, RowsAdded, TableTokens;
    if SplitsTable(isSpace, rows, maxTokens) {
      RowsAddedOk(isSpace, rows[0], maxTokens, rows[1..]);
      PartsFinished(isSpace, rows, maxTokens, PartsOf(isSpace, rows, maxTokens));
    }
  }

  method SplitTable(isSpace: char -> bool, rows: seq<string>, maxTokens: nat) returns (parts: seq<seq<string>>)
    ensures parts == PartsOf(isSpace, rows, maxTokens) && TableParts(isSpace, rows, maxTokens, parts)
  {
    hide TableTokens, TableParts;
    PartsOk(isSpace, rows, maxTokens);
    if TableTokens(isSpace, rows) <= maxTokens || |rows| < 3 {
      return [rows];
    }
    var header, body := rows[0], rows[1..];
    parts := [];
    var cur := [header];
    for i := 0 to |body|
      invariant parts + [cur] == RowsAdded(isSpace, header, maxTokens, body[..i])
    {
      assert body[..i + 1][..i] == body[..i];
      assert (parts + [cur])[..|parts|] == parts;
      if |cur| > 1 && TableTokens(isSpace, cur + [body[i]]) > maxTokens {
        parts := parts + [cur];
        cur := [header];
        assert cur + [body[i]] == [header, body[i]];
      }
      cur := cur + [body[i]];
    }
    assert body[..|body|] == body;
    parts := parts + [cur];
  }
}
