/**
 The blocks of a document as runs of lines (app/rag/chunking.py): reading line by line, with a paragraph and a table
 being collected, is the same as cutting each page into its longest runs of like lines.
 */
module ChunkBlocks {
  import opened Wrappers
  import opened ChunkText
  import opened Chunking
  import Ordering

  // ---- What a line is ----

  /** A line is blank when it holds nothing but white space. */
  lemma {:induction false} BlankExactlyWhen(m: Markup, line: string)
    ensures IsBlank(m, line) <==> forall i :: 0 <= i < |line| ==> m.isSpace(line[i])
  {
    if line != [] {
      var n := |line| - 1;
      BlankExactlyWhen(m, line[..n]);
      assert forall i :: 0 <= i < n ==> line[..n][i] == line[i];
      WordsByChar(m.isSpace, line);
    }
  }

  lemma {:induction false} TwiceExactlyWhen(c: char, line: string)
    ensures CountOf(c, line) >= 1 <==> c in line
    ensures CountOf(c, line) >= 2 <==> exists i, j :: 0 <= i < j < |line| && line[i] == line[j] == c
  {
    assert CountOf(c, line) >= 1 <==> c in multiset(line);
    if line != [] {
      var n := |line| - 1;
      var before := line[..n];
      assert line == before + [line[n]];
      TwiceExactlyWhen(c, before);
      if CountOf(c, line) >= 2 {
        if CountOf(c, before) >= 2 {
          var i, j :| 0 <= i < j < n && before[i] == before[j] == c;
          assert line[i] == line[j] == c;
        } else {
          var i :| 0 <= i < n && before[i] == c;
          assert line[i] == line[n] == c;
        }
      }
      if i, j :| 0 <= i < j < |line| && line[i] == line[j] == c {
        assert before[i] == c;
        assert j < n ==> before[j] == c;
      }
    }
  }

  /** A table line has two bars or two tabs. */
  lemma TableLineExactlyWhen(line: string)
    ensures IsTableLine(line)
       <==> || (exists i, j :: 0 <= i < j < |line| && line[i] == line[j] == '|')
            || exists i, j :: 0 <= i < j < |line| && line[i] == line[j] == '\t'
  {
    TwiceExactlyWhen('|', line);
    TwiceExactlyWhen('\t', line);
  }

  datatype Kind = Blank | Row | Title | Text

  function KindOf(m: Markup, line: string): Kind {
    if IsBlank(m, line) then Blank
    else if IsTableLine(line) then Row
    else if m.isHeading(line) then Title
    else Text
  }

  // ---- Runs ----

  /** How many of the first lines are of one kind. */
  function RunLength(m: Markup, lines: seq<string>, k: Kind): (n: nat)
    ensures n <= |lines|
    ensures forall i :: 0 <= i < n ==> KindOf(m, lines[i]) == k
    ensures n < |lines| ==> KindOf(m, lines[n]) != k
  {
    if lines == [] || KindOf(m, lines[0]) != k then 0 else 1 + RunLength(m, lines[1..], k)
  }

  function Trimmed(m: Markup, rows: seq<string>): seq<string> {
    if rows == [] then [] else Trimmed(m, rows[..|rows| - 1]) + [m.trimRight(rows[|rows| - 1])]
  }

  /** A page cut from the front: each longest run of text is a paragraph and each of rows a table. */
  function Runs(m: Markup, lines: seq<string>, page: PageNo, h: Heading): seq<Block>
    decreases |lines|
  {
    if lines == [] then []
    else
      match KindOf(m, lines[0])
      case Blank => Runs(m, lines[1..], page, h)
      case Title => Runs(m, lines[1..], page, Some(m.cleanHeading(lines[0])))
      case Text =>
        var n := RunLength(m, lines, Text);
        [ProseBlock(ParaWords(m, lines[..n]), page, h)] + Runs(m, lines[n..], page, h)
      case Row =>
        var n := RunLength(m, lines, Row);
        [TableBlock(Trimmed(m, lines[..n]), page, h)] + Runs(m, lines[n..], page, h)
  }

  ghost function PagesInRuns(m: Markup, pages: seq<Page>): seq<Block> {
    if pages == [] then []
    else
      var n := |pages| - 1;
      PagesInRuns(m, pages[..n])
      + Runs(m, pages[n].lines, pages[n].number, HeadingAfter(m, AllLines(pages[..n])))
  }

  // ---- Reading line by line gives the runs ----

  function OnPage(lines: seq<string>, page: PageNo): seq<Line> {
    LinesOf(Page(page, lines))
  }

  lemma {:induction false} ReadInTwo(m: Markup, r: Reading, a: seq<Line>, b: seq<Line>)
    ensures LinesRead(m, r, a + b) == LinesRead(m, LinesRead(m, r, a), b)
  {
    hide LineRead;
    if b == [] {
      assert a + b == a;
    } else {
      var n := |b| - 1;
      ReadInTwo(m, r, a, b[..n]);
      assert (a + b)[..|a + b| - 1] == a + b[..n];
    }
  }

  lemma ReadCut(m: Markup, r: Reading, lines: seq<string>, page: PageNo, n: nat)
    requires n <= |lines|
    ensures LinesRead(m, r, OnPage(lines, page))
         == LinesRead(m, LinesRead(m, r, OnPage(lines[..n], page)), OnPage(lines[n..], page))
  {
    assert OnPage(lines, page) == OnPage(lines[..n], page) + OnPage(lines[n..], page);
    ReadInTwo(m, r, OnPage(lines[..n], page), OnPage(lines[n..], page));
  }

  lemma ReadOne(m: Markup, r: Reading, line: string, page: PageNo)
    ensures LinesRead(m, r, OnPage([line], page)) == LineRead(m, r, Line(line, page))
  {
    hide LineRead;
    var one := OnPage([line], page);
    assert one[..0] == [] && one[0] == Line(line, page);
  }

  lemma ReadFirst(m: Markup, r: Reading, lines: seq<string>, page: PageNo)
    requires lines != []
    ensures LinesRead(m, r, OnPage(lines, page))
         == LinesRead(m, LineRead(m, r, Line(lines[0], page)), OnPage(lines[1..], page))
  {
    ReadCut(m, r, lines, page, 1);
    assert lines[..1] == [lines[0]];
    ReadOne(m, r, lines[0], page);
  }

  predicate NothingCollected(r: Reading) {
    r.para == [] && r.table == []
  }

  function Closed(m: Markup, r: Reading, page: PageNo): Reading {
    TableClosed(ParaClosed(m, r, page), page)
  }

  /** A run of text is collected as a paragraph. */
  lemma {:induction false} TextCollected(m: Markup, r: Reading, lines: seq<string>, page: PageNo)
    requires NothingCollected(r) && forall i :: 0 <= i < |lines| ==> KindOf(m, lines[i]) == Text
    ensures LinesRead(m, r, OnPage(lines, page)) == r.(para := lines)
  {
    hide IsBlank, IsTableLine;
    if lines != [] {
      var n := |lines| - 1;
      TextCollected(m, r, lines[..n], page);
      ReadCut(m, r, lines, page, n);
      assert lines[n..] == [lines[n]] && lines == lines[..n] + [lines[n]];
      ReadOne(m, r.(para := lines[..n]), lines[n], page);
    }
  }

  /** A run of rows is collected as a table. */
  lemma {:induction false} RowsCollected(m: Markup, r: Reading, lines: seq<string>, page: PageNo)
    requires NothingCollected(r) && forall i :: 0 <= i < |lines| ==> KindOf(m, lines[i]) == Row
    ensures LinesRead(m, r, OnPage(lines, page)) == r.(table := Trimmed(m, lines))
  {
    hide IsBlank, IsTableLine;
    if lines != [] {
      var n := |lines| - 1;
      RowsCollected(m, r, lines[..n], page);
      ReadCut(m, r, lines, page, n);
      assert lines[n..] == [lines[n]] && lines == lines[..n] + [lines[n]];
      ReadOne(m, r.(table := Trimmed(m, lines[..n])), lines[n], page);
    }
  }

  /** A line of another kind, or the end of the page, closes what is collected. */
  lemma ClosedByNext(m: Markup, r: Reading, lines: seq<string>, page: PageNo)
    requires r.para == [] || (r.table == [] && (lines == [] || KindOf(m, lines[0]) != Text))
    requires r.table == [] || (r.para == [] && (lines == [] || KindOf(m, lines[0]) != Row))
    ensures Closed(m, LinesRead(m, r, OnPage(lines, page)), page)
         == Closed(m, LinesRead(m, Closed(m, r, page), OnPage(lines, page)), page)
  {
    hide IsBlank, IsTableLine;
    if lines == [] {
      assert OnPage(lines, page) == [];
    } else {
      ReadFirst(m, r, lines, page);
      ReadFirst(m, Closed(m, r, page), lines, page);
    }
  }

  lemma TrimmedCount(m: Markup, rows: seq<string>)
    requires rows != []
    ensures Trimmed(m, rows) != []
  {}

  /** A run read from the front is collected, and closed by what follows. */
  lemma RunRead(m: Markup, r: Reading, lines: seq<string>, page: PageNo)
    requires NothingCollected(r) && lines != [] && (KindOf(m, lines[0]) == Text || KindOf(m, lines[0]) == Row)
    ensures var k := KindOf(m, lines[0]);
            var n := RunLength(m, lines, k);
            var b := if k == Text then ProseBlock(ParaWords(m, lines[..n]), page, r.heading)
                     else TableBlock(Trimmed(m, lines[..n]), page, r.heading);
            && 0 < n
            && Closed(m, LinesRead(m, r, OnPage(lines, page)), page)
               == Closed(m, LinesRead(m, r.(blocks := r.blocks + [b]), OnPage(lines[n..], page)), page)
  {
    hide KindOf, ParaWords, LinesRead;
    var k := KindOf(m, lines[0]);
    var n := RunLength(m, lines, k);
    ReadCut(m, r, lines, page, n);
    if k.Text? { TextCollected(m, r, lines[..n], page); } else { RowsCollected(m, r, lines[..n], page); }
    var collected := LinesRead(m, r, OnPage(lines[..n], page));
    ClosedByNext(m, collected, lines[n..], page);
    assert lines[..n] != [];
    TrimmedCount(m, lines[..n]);
  }

  /** A blank line or a heading read with nothing collected adds nothing. */
  lemma FirstRead(m: Markup, r: Reading, line: Line)
    requires NothingCollected(r)
    ensures KindOf(m, line.text) == Blank ==> LineRead(m, r, line) == r
    ensures KindOf(m, line.text) == Title ==> LineRead(m, r, line) == r.(heading := Some(m.cleanHeading(line.text)))
  {
    hide IsBlank, IsTableLine, ParaWords;
  }

  lemma RunsAdded(before: seq<Block>, b: Block, rest: seq<Block>)
    ensures before + [b] + rest == before + ([b] + rest)
  {}

  lemma NothingRead(m: Markup, r: Reading, page: PageNo)
    ensures LinesRead(m, r, OnPage([], page)) == r
    ensures NothingCollected(r) ==> Closed(m, r, page) == r
  {}

  /** Reading a page with nothing collected adds its runs. */
  lemma {:induction false} PageInRuns(m: Markup, r: Reading, lines: seq<string>, page: PageNo)
    requires NothingCollected(r)
    ensures Closed(m, LinesRead(m, r, OnPage(lines, page)), page).blocks == r.blocks + Runs(m, lines, page, r.heading)
    decreases |lines|
  {
    hide KindOf, ParaWords, LinesRead, LineRead, Trimmed, Closed;
    if lines == [] {
      NothingRead(m, r, page);
    } else {
      var k := KindOf(m, lines[0]);
      if k.Blank? || k.Title? {
        var next := LineRead(m, r, Line(lines[0], page));
        ReadFirst(m, r, lines, page);
        FirstRead(m, r, Line(lines[0], page));
        PageInRuns(m, next, lines[1..], page);
      } else {
        var n := RunLength(m, lines, k);
        var b := if k == Text then ProseBlock(ParaWords(m, lines[..n]), page, r.heading)
                 else TableBlock(Trimmed(m, lines[..n]), page, r.heading);
        RunRead(m, r, lines, page);
        PageInRuns(m, r.(blocks := r.blocks + [b]), lines[n..], page);
        RunsAdded(r.blocks, b, Runs(m, lines[n..], page, r.heading));
      }
    }
  }

  lemma HeadingOfPages(m: Markup, pages: seq<Page>)
    requires m.Valid()
    ensures PagesRead(m, pages).heading == HeadingAfter(m, AllLines(pages)) && NothingCollected(PagesRead(m, pages))
  {
    PagesReadOk(m, pages);
  }

  lemma {:induction false} PagesReadInRuns(m: Markup, pages: seq<Page>)
    requires m.Valid()
    ensures PagesRead(m, pages).blocks == PagesInRuns(m, pages)
  {
    hide LinesRead, Runs, HeadingAfter, AllLines;
    if pages != [] {
      var n := |pages| - 1;
      PagesReadInRuns(m, pages[..n]);
      HeadingOfPages(m, pages[..n]);
      PageInRuns(m, PagesRead(m, pages[..n]), pages[n].lines, pages[n].number);
      assert LinesOf(pages[n]) == OnPage(pages[n].lines, pages[n].number);
    }
  }

  /** The blocks of a document are the longest runs of text lines and of table lines on its pages. */
  lemma BlocksAreRuns(m: Markup, pages: seq<Page>)
    requires m.Valid()
    ensures BlocksOf(m, pages) == PagesInRuns(m, pages)
  {
    hide HasText, PagesRead, PagesInRuns;
    PagesReadInRuns(m, pages);
    PagesReadOk(m, pages);
    KeepAll(m, PagesRead(m, pages).blocks);
  }

  // ---- Neighbours ----

  /** A line that is part of a block where the line before it, if there is one, is of another kind. */
  ghost predicate Starts(m: Markup, lines: seq<string>, i: nat)
    requires i < |lines|
  {
    && (KindOf(m, lines[i]) == Row || KindOf(m, lines[i]) == Text)
    && (i > 0 ==> KindOf(m, lines[i - 1]) != KindOf(m, lines[i]))
  }

  ghost function Count(m: Markup, lines: seq<string>, n: nat): nat
    requires n <= |lines|
  {
    if n == 0 then 0 else Count(m, lines, n - 1) + if Starts(m, lines, n - 1) then 1 else 0
  }

  lemma {:induction false} CountInTwo(m: Markup, lines: seq<string>, c: nat, n: nat)
    requires 0 < c <= n <= |lines| && (c < |lines| ==> KindOf(m, lines[c]) != KindOf(m, lines[c - 1]))
    ensures Count(m, lines, n) == Count(m, lines, c) + Count(m, lines[c..], n - c)
  {
    if n > c {
      CountInTwo(m, lines, c, n - 1);
      assert lines[c..][n - 1 - c] == lines[n - 1];
      assert n - 1 > c ==> lines[c..][n - 2 - c] == lines[n - 2];
    }
  }

  lemma {:induction false} CountOfRun(m: Markup, lines: seq<string>, n: nat)
    requires 0 < n <= |lines| && forall i :: 0 <= i < n ==> KindOf(m, lines[i]) == KindOf(m, lines[0])
    ensures Count(m, lines, n) == if KindOf(m, lines[0]) == Row || KindOf(m, lines[0]) == Text then 1 else 0
  {
    if n > 1 { CountOfRun(m, lines, n - 1); }
  }

  lemma {:induction false} StartsAfterTitle(m: Markup, lines: seq<string>, n: nat)
    requires 1 <= n <= |lines| && (KindOf(m, lines[0]) == Blank || KindOf(m, lines[0]) == Title)
    ensures Count(m, lines, n) == Count(m, lines[1..], n - 1)
  {
    if n > 1 {
      StartsAfterTitle(m, lines, n - 1);
      assert lines[1..][n - 2] == lines[n - 1];
      assert n > 2 ==> lines[1..][n - 3] == lines[n - 2];
    }
  }

  /**
   A page has one block for each line of text or row that does not follow a line of its own kind: so a blank line
   between two tables keeps them apart, and nothing but a line of another kind does.
   */
  lemma {:induction false} OneBlockPerRun(m: Markup, lines: seq<string>, page: PageNo, h: Heading)
    ensures |Runs(m, lines, page, h)| == Count(m, lines, |lines|)
    decreases |lines|
  {
    hide KindOf, ParaWords;
    if lines != [] {
      var k := KindOf(m, lines[0]);
      if k.Blank? || k.Title? {
        StartsAfterTitle(m, lines, |lines|);
        OneBlockPerRun(m, lines[1..], page, if k.Title? then Some(m.cleanHeading(lines[0])) else h);
      } else {
        var n := RunLength(m, lines, k);
        OneBlockPerRun(m, lines[n..], page, h);
        CountOfRun(m, lines, n);
        CountInTwo(m, lines, n, |lines|);
      }
    }
  }
}
