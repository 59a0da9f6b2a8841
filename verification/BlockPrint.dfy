/**
 Documents as the serializer lays them out (src/doc/serialize.rs `serialize_block`: headings, fences, quotes, raw
 blocks, tables and paragraphs, a blank line between two of them), and what the block parser makes of them.
 */
module BlockPrint {
  import opened OpIds
  import opened TableText
  import opened LineKinds
  import opened LineShapes
  import opened Blocks
  import opened BlocksUnique
  import BlockParser

  /** A block with its text in lines; a heading may also be underlined. */
  datatype Plain =
    | Title(level: nat, title: string)
    | Underlined(level: nat, title: string, width: nat)
    | Prose(lines: seq<string>)
    | Fenced(fence: Fence, info: string, lines: seq<string>)
    | RawLines(lines: seq<string>)
    | Sheet(table: Table)
    | Quoted(blocks: seq<Plain>)

  // ----- printing

  function Repeat(c: char, n: nat): (s: string)
    ensures s == Times(c, n)
  {
    seq(n, i => c)
  }

  function LinesOf(p: Plain): seq<string>
    decreases p
  {
    match p
    case Title(level, title) => [Repeat('#', level) + " " + title]
    case Underlined(level, title, width) => [title, Repeat(if level == 1 then '=' else '-', width)]
    case Prose(lines) => lines
    case Fenced(fence, info, lines) =>
      [Repeat(fence.symbol, fence.length) + info] + lines + [Repeat(fence.symbol, fence.length)]
    case RawLines(lines) => lines
    case Sheet(table) => PrintTable(table)
    case Quoted(blocks) => Prefixed(DocLines(blocks))
  }

  /** The lines of a document: a blank line between two blocks. */
  function DocLines(ps: seq<Plain>): seq<string>
    decreases ps
  {
    if ps == [] then []
    else if |ps| == 1 then LinesOf(ps[0])
    else LinesOf(ps[0]) + [""] + DocLines(ps[1..])
  }

  function Prefixed(lines: seq<string>): (out: seq<string>)
    ensures |out| == |lines| && forall i :: 0 <= i < |out| ==> out[i] == if lines[i] == "" then ">" else "> " + lines[i]
  {
    seq(|lines|, i requires 0 <= i < |lines| => if lines[i] == "" then ">" else "> " + lines[i])
  }

  // ----- which blocks print as themselves

  ghost predicate PlainOk(p: Plain)
    decreases p
  {
    match p
    case Title(level, title) => 1 <= level <= 6 && title != "" && Trimmed(title) && title[|title| - 1] != '#'
    case Underlined(level, title, width) => 1 <= level <= 2 && width > 0 && Trimmed(title) && !Breaks(title)
    case Prose(lines) =>
      && lines != [] && (forall i :: 0 <= i < |lines| ==> !Breaks(Trim(lines[i])))
      && (|lines| > 1 ==> SetextUnderline(Trim(lines[1])).None? && TableOf(lines).None?)
    case Fenced(fence, info, lines) =>
      && (fence.symbol == '`' || fence.symbol == '~') && 3 <= fence.length <= 255
      && Trimmed(info) && !([fence.symbol] <= info) && (fence.symbol == '`' ==> '`' !in info)
      && forall i :: 0 <= i < |lines| ==> !FenceCloses(Trim(lines[i]), fence)
    case RawLines(lines) =>
      lines != [] && RawLine(Trim(lines[0])) && forall i :: 0 <= i < |lines| ==> !Blank(lines[i])
    case Sheet(table) => WellFormed(table) && Width(table) > 0 && Squared(table) == table
    case Quoted(blocks) =>
      && blocks != [] && (forall i :: 0 <= i < |blocks| ==> PlainOk(blocks[i]))
      && forall i :: 0 <= i < |DocLines(blocks)| ==> Trimmed(DocLines(blocks)[i])
  }

  // ----- the blocks they stand for, and the ids those draw

  ghost function KindOf(p: Plain, marks: string -> nat, lo: nat): Kind
    decreases p, 0
  {
    match p
    case Title(level, title) => Heading(level, title)
    case Underlined(level, title, _) => Heading(level, title)
    case Prose(lines) => Paragraph(Join(lines, "\n"))
    case Fenced(fence, info, lines) => Code(fence, info, Join(lines, "\n"))
    case RawLines(lines) => Raw(Join(lines, "\n"))
    case Sheet(table) => Grid(table)
    case Quoted(blocks) => Quote(BlocksFor(blocks, marks, lo))
  }

  /** The id of the block: a quote takes its own after those of its children. */
  ghost function IdOf(p: Plain, marks: string -> nat, lo: nat): nat
    decreases p, 0
  {
    if p.Quoted? then NextAfter(p.blocks, marks, lo) else lo
  }

  /** The counter after the block. */
  ghost function NextOf(p: Plain, marks: string -> nat, lo: nat): nat
    decreases p, 1
  {
    match p
    case Title(_, title) => lo + 1 + marks(title)
    case Underlined(_, title, _) => lo + 1 + marks(title)
    case Prose(lines) => lo + 1 + marks(Join(lines, "\n"))
    case Fenced(_, _, _) => lo + 1
    case RawLines(_) => lo + 1
    case Sheet(table) => lo + 1 + |table.alignments| + |table.rows|
    case Quoted(blocks) => NextAfter(blocks, marks, lo) + 1
  }

  ghost function NextAfter(ps: seq<Plain>, marks: string -> nat, lo: nat): nat
    decreases ps, 2
  {
    if ps == [] then lo else NextAfter(ps[1..], marks, NextOf(ps[0], marks, lo))
  }

  ghost function BlockFor(p: Plain, marks: string -> nat, lo: nat): Block
    decreases p, 1
  {
    Block(IdOf(p, marks, lo), KindOf(p, marks, lo))
  }

  ghost function BlocksFor(ps: seq<Plain>, marks: string -> nat, lo: nat): (bs: seq<Block>)
    ensures |bs| == |ps|
    decreases ps, 2
  {
    if ps == [] then [] else [BlockFor(ps[0], marks, lo)] + BlocksFor(ps[1..], marks, NextOf(ps[0], marks, lo))
  }

  ghost function CountersFor(ps: seq<Plain>, marks: string -> nat, lo: nat): (cs: seq<nat>)
    ensures |cs| == |ps| + 1 && cs[0] == lo
    decreases ps, 2
  {
    if ps == [] then [lo] else [lo] + CountersFor(ps[1..], marks, NextOf(ps[0], marks, lo))
  }

  // ----- each kind of block, with blank lines or nothing around it

  /** The block ends where the text ends or a blank line follows. */
  ghost predicate Ends(after: seq<string>) {
    after == [] || after[0] == ""
  }

  lemma NoPipeNoTable(lines: seq<string>)
    requires |lines| >= 2 ==> '|' !in Trim(lines[1])
    ensures TableOf(lines).None?
  {
  }

  lemma TrimEmpty()
    ensures Trim("") == "" && Breaks("") && SetextUnderline("").None? && !QuoteLine("")
  {
  }

  /** The lines from the start of a block on. */
  lemma Below(before: seq<string>, mine: seq<string>, after: seq<string>)
    requires mine != []
    ensures var lines := before + mine + after;
      && lines[|before|..] == mine + after && lines[|before|] == mine[0]
      && lines[|before|..|before| + |mine|] == mine
      && (after != [] ==> lines[|before| + |mine|] == after[0])
      && forall i :: 0 <= i < |mine| ==> lines[|before| + i] == mine[i]
  {
  }

  lemma TitleLine(level: nat, title: string)
    requires 1 <= level <= 6 && title != "" && Trimmed(title) && title[|title| - 1] != '#'
    ensures var first := Repeat('#', level) + " " + title;
      && Trim(first) == first && first != "" && AtxHeading(first) == Some((level, title))
      && FenceOpen(first).None? && !QuoteLine(first) && !RawLine(first)
  {
    var first := Times('#', level) + " " + title;
    assert Trimmed(first) && first[0] == '#';
    TrimNothing(first);
    assert first == Times('#', level) + " " + title + "" + Times('#', 0) + "";
    HeadingText(level, " ", title, "", 0, "");
  }

  lemma TitleShaped(before: seq<string>, p: Plain, after: seq<string>, marks: string -> nat, lo: nat)
    requires p.Title? && PlainOk(p) && Ends(after)
    ensures var lines := before + LinesOf(p) + after;
      Shaped(lines, marks, Span(|before|, |before| + 1), BlockFor(p, marks, lo), lo, NextOf(p, marks, lo))
  {
    Below(before, LinesOf(p), after);
    TitleLine(p.level, p.title);
    TrimEmpty();
    NoPipeNoTable(LinesOf(p) + after);
    hide AtxHeading, Trim, TableOf, FenceOpen, QuoteLine, RawLine, IsList, IsParagraph;
  }

  lemma UnderlinedShaped(before: seq<string>, p: Plain, after: seq<string>, marks: string -> nat, lo: nat)
    requires p.Underlined? && PlainOk(p) && Ends(after)
    ensures var lines := before + LinesOf(p) + after;
      Shaped(lines, marks, Span(|before|, |before| + 2), BlockFor(p, marks, lo), lo, NextOf(p, marks, lo))
  {
    var mine := LinesOf(p);
    Below(before, mine, after);
    var rule := Times(if p.level == 1 then '=' else '-', p.width);
    assert mine[1] == rule && Trimmed(rule);
    TrimNothing(rule);
    TrimNothing(p.title);
    UnderlineLevel(rule, p.level);
    NoPipeNoTable(mine + after);
    hide AtxHeading, Trim, TableOf, FenceOpen, ListStart, SetextUnderline;
  }

  /** Lines that open nothing, up to one that does, are a paragraph. */
  lemma ParagraphShapes(lines: seq<string>, marks: string -> nat, s: Span, lo: nat)
    requires s.start < s.end <= |lines| && forall i :: s.start <= i < s.end ==> !Breaks(Trim(lines[i]))
    requires (s.end < |lines| ==> Breaks(Trim(lines[s.end]))) && TableOf(lines[s.start..]).None?
    requires s.start + 1 < |lines| ==> SetextUnderline(Trim(lines[s.start + 1])).None?
    ensures var text := Join(lines[s.start..s.end], "\n");
      Shaped(lines, marks, s, Block(lo, Paragraph(text)), lo, lo + 1 + marks(text))
  {
    hide AtxHeading, Trim, FenceOpen, ListStart, SetextUnderline, TableOf, QuoteLine, RawLine, Join;
    assert !Breaks(Trim(lines[s.start]));
  }

  lemma ProseShaped(before: seq<string>, p: Plain, after: seq<string>, marks: string -> nat, lo: nat)
    requires p.Prose? && PlainOk(p) && Ends(after)
    ensures var lines := before + LinesOf(p) + after;
      Shaped(lines, marks, Span(|before|, |before| + |LinesOf(p)|), BlockFor(p, marks, lo), lo, NextOf(p, marks, lo))
  {
    TrimEmpty();
    hide Breaks, Trim, SetextUnderline, TableOf, Shaped, Join;
    var mine, n := p.lines, |before|;
    Below(before, mine, after);
    if |mine| == 1 {
      NoPipeNoTable(mine + after);
    } else {
      TableByTwo(mine, after);
    }
    var lines := before + mine + after;
    forall i | n <= i < n + |mine| ensures !Breaks(Trim(lines[i])) {
      assert lines[n + (i - n)] == mine[i - n];
    }
    assert |mine| > 1 ==> lines[n + 1] == mine[1];
    ParagraphShapes(lines, marks, Span(n, n + |mine|), lo);
  }

  /** Whether lines start a table is decided by the first two. */
  lemma TableByTwo(mine: seq<string>, after: seq<string>)
    requires |mine| >= 2
    ensures TableOf(mine).None? <==> TableOf(mine + after).None?
  {
    hide CellsOf, DelimiterOf, RowsOf;
    assert (mine + after)[0] == mine[0] && (mine + after)[1] == mine[1];
  }

  lemma FenceLines(fence: Fence, info: string)
    requires (fence.symbol == '`' || fence.symbol == '~') && 3 <= fence.length <= 255
    requires Trimmed(info) && !([fence.symbol] <= info) && (fence.symbol == '`' ==> '`' !in info)
    ensures var first, close := Repeat(fence.symbol, fence.length) + info, Repeat(fence.symbol, fence.length);
      && FenceOpen(Trim(first)) == Some((fence, info)) && Trim(first) != "" && Trim(info) == info
      && FenceCloses(Trim(close), fence)
  {
    var c, n := fence.symbol, fence.length;
    var first, close := Times(c, n) + info, Times(c, n);
    assert Trimmed(first) && Trimmed(close) && first[0] == c;
    TrimNothing(first);
    TrimNothing(close);
    TrimNothing(info);
    FenceShape(first, c, n, info);
    assert close == close + "" && AllSpace("");
    FenceEnd(close, fence);
  }

  lemma FenceLinesOf(p: Plain)
    requires p.Fenced? && PlainOk(p)
    ensures var close := Repeat(p.fence.symbol, p.fence.length);
      && FenceOpen(Trim(close + p.info)) == Some((p.fence, p.info)) && Trim(close + p.info) != ""
      && Trim(p.info) == p.info && FenceCloses(Trim(close), p.fence)
  {
    hide Trim, FenceOpen, FenceCloses, Trimmed;
    FenceLines(p.fence, p.info);
  }

  /** A fence, lines that do not close it, and one that does. */
  lemma CodeShapes(lines: seq<string>, marks: string -> nat, s: Span, fence: Fence, info: string, lo: nat)
    requires s.start + 1 < s.end <= |lines| && Trim(lines[s.start]) != "" && Trim(info) == info
    requires FenceOpen(Trim(lines[s.start])) == Some((fence, info)) && FenceCloses(Trim(lines[s.end - 1]), fence)
    requires forall i :: s.start < i < s.end - 1 ==> !FenceCloses(Trim(lines[i]), fence)
    ensures Shaped(lines, marks, s, Block(lo, Code(fence, info, Join(lines[s.start + 1..s.end - 1], "\n"))), lo, lo + 1)
  {
    hide Trim, FenceOpen, FenceCloses, Join, Reads, IsRaw, IsList, IsParagraph, TableOf, AtxHeading;
  }

  lemma Framed(before: seq<string>, first: string, body: seq<string>, last: string, after: seq<string>)
    ensures var lines, n := before + ([first] + body + [last]) + after, |before|;
      && n + |body| + 2 <= |lines| && lines[n] == first && lines[n + |body| + 1] == last
      && lines[n + 1..n + |body| + 1] == body
      && forall i :: n < i < n + |body| + 1 ==> lines[i] == body[i - n - 1]
  {
  }

  lemma FencedAt(before: seq<string>, first: string, body: seq<string>, last: string, after: seq<string>,
          marks: string -> nat, fence: Fence, info: string, lo: nat)
    requires FenceOpen(Trim(first)) == Some((fence, info)) && Trim(first) != "" && Trim(info) == info
    requires FenceCloses(Trim(last), fence) && forall i :: 0 <= i < |body| ==> !FenceCloses(Trim(body[i]), fence)
    ensures Shaped(before + ([first] + body + [last]) + after, marks, Span(|before|, |before| + |body| + 2),
                   Block(lo, Code(fence, info, Join(body, "\n"))), lo, lo + 1)
  {
    hide *;
    Framed(before, first, body, last, after);
    var lines, n := before + ([first] + body + [last]) + after, |before|;
    CodeShapes(lines, marks, Span(n, n + |body| + 2), fence, info, lo);
  }

  lemma FencedIs(p: Plain, marks: string -> nat, lo: nat)
    requires p.Fenced? && PlainOk(p)
    ensures var rule := Repeat(p.fence.symbol, p.fence.length); LinesOf(p) == [rule + p.info] + p.lines + [rule]
    ensures BlockFor(p, marks, lo) == Block(lo, Code(p.fence, p.info, Join(p.lines, "\n")))
    ensures NextOf(p, marks, lo) == lo + 1
    ensures forall i :: 0 <= i < |p.lines| ==> !FenceCloses(Trim(p.lines[i]), p.fence)
  {
    hide Trim, FenceCloses, Join, Repeat;
  }

  lemma FencedShaped(before: seq<string>, p: Plain, after: seq<string>, marks: string -> nat, lo: nat)
    requires p.Fenced? && PlainOk(p) && Ends(after)
    ensures var lines := before + LinesOf(p) + after;
      Shaped(lines, marks, Span(|before|, |before| + |LinesOf(p)|), BlockFor(p, marks, lo), lo, NextOf(p, marks, lo))
  {
    hide *;
    var rule := Repeat(p.fence.symbol, p.fence.length);
    FenceLinesOf(p);
    FencedIs(p, marks, lo);
    FencedAt(before, rule + p.info, p.lines, rule, after, marks, p.fence, p.info, lo);
  }

  lemma RawShaped(before: seq<string>, p: Plain, after: seq<string>, marks: string -> nat, lo: nat)
    requires p.RawLines? && PlainOk(p) && Ends(after)
    ensures var lines := before + LinesOf(p) + after;
      Shaped(lines, marks, Span(|before|, |before| + |LinesOf(p)|), BlockFor(p, marks, lo), lo, NextOf(p, marks, lo))
  {
    var mine := p.lines;
    Below(before, mine, after);
    TrimEmpty();
    var first := Trim(mine[0]);
    assert first[0] == ':' by {
      assert ":::"[0] == first[0];
    }
    hide Trim;
    var lines := before + mine + after;
    forall i | |before| <= i < |before| + |mine| ensures !Blank(lines[i]) {
      assert lines[|before| + (i - |before|)] == mine[i - |before|];
    }
  }

  lemma SheetLine(t: Table)
    ensures var first := PrintTable(t)[0];
      Trim(first) == first && first != "" && FenceOpen(first).None? && !QuoteLine(first) && !RawLine(first)
  {
    RowIsTrimmed(EscapeAll(t.header));
    TrimNothing(PrintTable(t)[0]);
    hide PrintRow;
  }

  lemma GridShapes(lines: seq<string>, marks: string -> nat, s: Span, t: Table, lo: nat)
    requires s.start < s.end <= |lines| && s.end == s.start + 2 + |t.rows| && TableOf(lines[s.start..]) == Some(t)
    requires var first := Trim(lines[s.start]);
      first != "" && FenceOpen(first).None? && !QuoteLine(first) && !RawLine(first)
    ensures Shaped(lines, marks, s, Block(lo, Grid(t)), lo, lo + 1 + |t.alignments| + |t.rows|)
  {
    hide Trim, TableOf, FenceOpen, QuoteLine, RawLine, IsList, IsParagraph, AtxHeading, IsRaw, IsCode, Reads;
  }

  lemma SheetShaped(before: seq<string>, p: Plain, after: seq<string>, marks: string -> nat, lo: nat)
    requires p.Sheet? && PlainOk(p) && Ends(after)
    ensures var lines := before + LinesOf(p) + after;
      Shaped(lines, marks, Span(|before|, |before| + |LinesOf(p)|), BlockFor(p, marks, lo), lo, NextOf(p, marks, lo))
  {
    hide Trim, TableOf, PrintTable, FenceOpen, QuoteLine, RawLine, Shaped, Width, Squared, TableText.WellFormed;
    TableRoundTrip(p.table);
    TableThenBlank(p.table, after);
    SheetLine(p.table);
    Below(before, PrintTable(p.table), after);
    var n := |before|;
    GridShapes(before + PrintTable(p.table) + after, marks, Span(n, n + |PrintTable(p.table)|), p.table, lo);
  }

  lemma RowIsTrimmed(parts: seq<string>)
    ensures var row := PrintRow(parts); Trimmed(row) && row != "" && row[0] == '|'
  {
  }

  /** A blank line ends a table. */
  lemma TableThenBlank(t: Table, after: seq<string>)
    requires TableOf(PrintTable(t)) == Some(t) && Ends(after)
    ensures TableOf(PrintTable(t) + after) == Some(t) && |PrintTable(t)| == 2 + |t.rows|
  {
    hide CellsOf, DelimiterOf, PrintRow;
    var mine := PrintTable(t);
    assert (mine + after)[2..] == mine[2..] + after;
    RowsThenBlank(mine[2..], |t.alignments|, after);
  }

  lemma {:induction false} RowsThenBlank(rows: seq<string>, n: nat, after: seq<string>)
    requires Ends(after)
    ensures RowsOf(rows + after, n) == RowsOf(rows, n)
  {
    if rows == [] {
      assert rows + after == after;
      assert after != [] ==> CellsOf(after[0]).None?;
    } else {
      assert (rows + after)[1..] == rows[1..] + after;
      RowsThenBlank(rows[1..], n, after);
    }
  }

  // ----- quotes and whole documents

  ghost function SpansFor(ps: seq<Plain>, at: nat): (spans: seq<Span>)
    ensures |spans| == |ps|
  {
    if ps == [] then []
    else [Span(at, at + |LinesOf(ps[0])|)] + SpansFor(ps[1..], at + |LinesOf(ps[0])| + 1)
  }

  lemma {:induction false} HasLines(p: Plain)
    requires PlainOk(p)
    ensures LinesOf(p) != []
    decreases p
  {
    if p.Quoted? {
      HasLines(p.blocks[0]);
    }
  }

  lemma UnprefixedLine(line: string)
    requires Trimmed(line)
    ensures var quoted := if line == "" then ">" else "> " + line; QuoteLine(Trim(quoted)) && Unquoted(quoted) == line
  {
    var pad := if line == "" then "" else " ";
    UnquotedShape("", 1, pad, line, "");
    assert (if line == "" then ">" else "> " + line) == "" + (Times('>', 1) + pad + line) + "";
  }

  /** Taking the quote markers off gives the lines back. */
  lemma {:induction false} Unprefixed(lines: seq<string>)
    requires forall i :: 0 <= i < |lines| ==> Trimmed(lines[i])
    ensures AllQuoted(Prefixed(lines)) && QuoteBody(Prefixed(lines)) == lines
  {
    hide Trim, QuoteLine, Unquoted, Trimmed;
    var quoted := Prefixed(lines);
    if lines != [] {
      UnprefixedLine(lines[0]);
      Unprefixed(lines[1..]);
      assert quoted[1..] == Prefixed(lines[1..]) && quoted == [quoted[0]] + quoted[1..];
      assert lines == [lines[0]] + lines[1..];
    }
  }

  lemma {:induction false} QuotedShaped(before: seq<string>, p: Plain, after: seq<string>, marks: string -> nat,
          lo: nat)
    requires p.Quoted? && PlainOk(p) && Ends(after)
    ensures LinesOf(p) != []
    ensures var lines := before + LinesOf(p) + after;
      Shaped(lines, marks, Span(|before|, |before| + |LinesOf(p)|), BlockFor(p, marks, lo), lo, NextOf(p, marks, lo))
    decreases p, 0
  {
    HasLines(p);
    DocReads(p.blocks, marks, lo);
    Unprefixed(DocLines(p.blocks));
    hide *;
    QuotePlaced(before, p, after, marks, lo);
  }

  lemma QuotedIs(p: Plain, marks: string -> nat, lo: nat)
    requires p.Quoted?
    ensures BlockFor(p, marks, lo) == Block(NextAfter(p.blocks, marks, lo), Quote(BlocksFor(p.blocks, marks, lo)))
    ensures NextOf(p, marks, lo) == NextAfter(p.blocks, marks, lo) + 1 && LinesOf(p) == Prefixed(DocLines(p.blocks))
  {
    hide NextAfter, BlocksFor, DocLines, Prefixed;
  }

  lemma {:induction false} QuotePlaced(before: seq<string>, p: Plain, after: seq<string>, marks: string -> nat, lo: nat)
    requires p.Quoted? && LinesOf(p) != [] && Ends(after)
    requires var mine := Prefixed(DocLines(p.blocks)); AllQuoted(mine) && QuoteBody(mine) == DocLines(p.blocks)
    requires Reads(DocLines(p.blocks), marks, lo, NextAfter(p.blocks, marks, lo), BlocksFor(p.blocks, marks, lo),
                   SpansFor(p.blocks, 0), CountersFor(p.blocks, marks, lo))
    ensures var lines := before + LinesOf(p) + after;
      Shaped(lines, marks, Span(|before|, |before| + |LinesOf(p)|), BlockFor(p, marks, lo), lo, NextOf(p, marks, lo))
  {
    hide Trim, Reads, QuoteBody, Unquoted, DocLines, AllQuoted, Shaped, NextAfter, BlocksFor, SpansFor, CountersFor,
         Prefixed;
    QuotedIs(p, marks, lo);
    Below(before, LinesOf(p), after);
    TrimEmpty();
    hide LinesOf, BlockFor, NextOf;
    var lines, n := before + LinesOf(p) + after, |before|;
    QuoteShapes(lines, marks, Span(n, n + |LinesOf(p)|), BlockFor(p, marks, lo), lo, DocLines(p.blocks),
                SpansFor(p.blocks, 0), CountersFor(p.blocks, marks, lo));
  }

  lemma {:induction false} QuoteShapes(lines: seq<string>, marks: string -> nat, s: Span, b: Block, lo: nat,
          inner: seq<string>, spans: seq<Span>, counters: seq<nat>)
    requires s.start < s.end <= |lines| && AllQuoted(lines[s.start..s.end]) && b.kind.Quote?
    requires QuoteBody(lines[s.start..s.end]) == inner
    requires s.end < |lines| ==> !QuoteLine(Trim(lines[s.end]))
    requires Reads(inner, marks, lo, b.id, b.kind.children, spans, counters)
    ensures Shaped(lines, marks, s, b, lo, b.id + 1)
  {
    assert lines[s.start..s.end][0] == lines[s.start];
    var first := Trim(lines[s.start]);
    assert QuoteLine(first) && FenceOpen(first).None?;
    hide Trim, QuoteBody, Reads, TableOf, AtxHeading, IsList, IsParagraph;
  }

  /** Every printable block is read as itself, wherever it stands. */
  lemma {:induction false} PlainShaped(before: seq<string>, p: Plain, after: seq<string>, marks: string -> nat, lo: nat)
    requires PlainOk(p) && Ends(after)
    ensures LinesOf(p) != []
    ensures var lines := before + LinesOf(p) + after;
      Shaped(lines, marks, Span(|before|, |before| + |LinesOf(p)|), BlockFor(p, marks, lo), lo, NextOf(p, marks, lo))
    decreases p, 1
  {
    HasLines(p);
    hide Shaped, PlainOk;
    match p
    case Title(_, _) => TitleShaped(before, p, after, marks, lo);
    case Underlined(_, _, _) => UnderlinedShaped(before, p, after, marks, lo);
    case Prose(_) => ProseShaped(before, p, after, marks, lo);
    case Fenced(_, _, _) => FencedShaped(before, p, after, marks, lo);
    case RawLines(_) => RawShaped(before, p, after, marks, lo);
    case Sheet(_) => SheetShaped(before, p, after, marks, lo);
    case Quoted(_) => QuotedShaped(before, p, after, marks, lo);
  }

  /** Block `k` of the lines from `at` on. */
  ghost predicate ReadAs(lines: seq<string>, marks: string -> nat, ps: seq<Plain>, at: nat, lo: nat, k: nat)
    requires k < |ps|
  {
    var s, cs := SpansFor(ps, at)[k], CountersFor(ps, marks, lo);
    && s.start < s.end <= |lines|
    && Shaped(lines, marks, s, BlocksFor(ps, marks, lo)[k], cs[k], cs[k + 1])
  }

  lemma CoveredFirst(s: Span, rest: seq<Span>, i: nat)
    ensures Covered([s] + rest, i) <==> InSpan(s, i) || Covered(rest, i)
  {
    var all := [s] + rest;
    if InSpan(s, i) {
      assert InSpan(all[0], i);
    }
    if Covered(rest, i) {
      var k :| 0 <= k < |rest| && InSpan(rest[k], i);
      assert InSpan(all[k + 1], i);
    }
    if Covered(all, i) {
      var k :| 0 <= k < |all| && InSpan(all[k], i);
      assert k > 0 ==> InSpan(rest[k - 1], i);
    }
  }

  lemma LayoutFirst(lines: seq<string>, s: Span, rest: seq<Span>)
    requires s.start < s.end <= |lines| && !Blank(lines[s.start])
    requires if s.end == |lines| then rest == []
             else Blank(lines[s.end]) && Layout(lines, s.end + 1, |lines|, rest)
    ensures Layout(lines, s.start, |lines|, [s] + rest)
  {
    hide Blank, Covered;
    var all := [s] + rest;
    assert forall k :: 0 < k < |all| ==> all[k] == rest[k - 1];
    forall i | s.start <= i < |lines| ensures Blank(lines[i]) || Covered(all, i) {
      CoveredFirst(s, rest, i);
    }
  }

  lemma FirstNotBlank(lines: seq<string>, marks: string -> nat, s: Span, b: Block, lo: nat, hi: nat)
    requires s.start < s.end <= |lines| && Shaped(lines, marks, s, b, lo, hi)
    ensures !Blank(lines[s.start])
  {
    hide Trim, TableOf, AtxHeading, IsList, IsParagraph, FenceOpen, IsCode, IsRaw, Reads;
  }

  /** The lines from `at` on hold the printed blocks. */
  ghost predicate DocAt(lines: seq<string>, ps: seq<Plain>, marks: string -> nat, at: nat, lo: nat) {
    && Layout(lines, at, |lines|, SpansFor(ps, at))
    && (forall k :: 0 <= k < |ps| ==> ReadAs(lines, marks, ps, at, lo, k))
    && CountersFor(ps, marks, lo)[|ps|] == NextAfter(ps, marks, lo)
  }

  ghost predicate AllOk(ps: seq<Plain>) {
    forall i :: 0 <= i < |ps| ==> PlainOk(ps[i])
  }

  lemma NothingThere(lines: seq<string>, before: seq<string>, marks: string -> nat, lo: nat)
    requires lines == before + DocLines([])
    ensures DocAt(lines, [], marks, |before|, lo)
  {
    assert lines == before;
  }

  lemma {:induction false} DocSplit(lines: seq<string>, before: seq<string>, ps: seq<Plain>)
    returns (mine: seq<string>, after: seq<string>)
    requires ps != [] && AllOk(ps) && lines == before + DocLines(ps)
    ensures mine == LinesOf(ps[0]) && lines == before + mine + after && Ends(after)
    ensures PlainOk(ps[0]) && AllOk(ps[1..]) && (|ps| == 1 <==> after == [])
    ensures |ps| > 1 ==> lines == (before + mine + [""]) + DocLines(ps[1..])
  {
    hide PlainOk, LinesOf;
    mine, after := LinesOf(ps[0]), if |ps| == 1 then [] else [""] + DocLines(ps[1..]);
    assert |ps| > 1 ==> (before + mine + [""]) + DocLines(ps[1..]) == before + (mine + [""] + DocLines(ps[1..]));
  }

  lemma {:induction false} DocFrom(lines: seq<string>, before: seq<string>, ps: seq<Plain>, marks: string -> nat,
          lo: nat)
    requires AllOk(ps) && lines == before + DocLines(ps)
    ensures DocAt(lines, ps, marks, |before|, lo)
    decreases ps, 2
  {
    hide *;
    if ps == [] {
      NothingThere(lines, before, marks, lo);
    } else {
      var mine, after := DocSplit(lines, before, ps);
      PlainShaped(before, ps[0], after, marks, lo);
      if |ps| > 1 {
        DocFrom(lines, before + mine + [""], ps[1..], marks, NextOf(ps[0], marks, lo));
      }
      DocStep(lines, ps, |before|, after, marks, lo);
    }
  }

  /** The first block and the rest. */
  lemma Unfolded(ps: seq<Plain>, marks: string -> nat, at: nat, lo: nat)
    requires ps != []
    ensures var n, next := at + |LinesOf(ps[0])|, NextOf(ps[0], marks, lo);
      && SpansFor(ps, at) == [Span(at, n)] + SpansFor(ps[1..], n + 1)
      && BlocksFor(ps, marks, lo) == [BlockFor(ps[0], marks, lo)] + BlocksFor(ps[1..], marks, next)
      && CountersFor(ps, marks, lo) == [lo] + CountersFor(ps[1..], marks, next)
      && NextAfter(ps, marks, lo) == NextAfter(ps[1..], marks, next)
  {
    hide LinesOf, NextOf, BlockFor;
  }

  lemma NothingFor(marks: string -> nat, at: nat, lo: nat)
    ensures SpansFor([], at) == [] && CountersFor([], marks, lo) == [lo] && NextAfter([], marks, lo) == lo
  {
  }

  lemma {:induction false} DocStep(lines: seq<string>, ps: seq<Plain>, at: nat, after: seq<string>,
          marks: string -> nat, lo: nat)
    requires ps != [] && LinesOf(ps[0]) != [] && Ends(after) && (|ps| == 1 <==> after == [])
    requires at + |LinesOf(ps[0])| + |after| == |lines| && lines[at + |LinesOf(ps[0])|..] == after
    requires var n := at + |LinesOf(ps[0])|;
      && Shaped(lines, marks, Span(at, n), BlockFor(ps[0], marks, lo), lo, NextOf(ps[0], marks, lo))
      && (|ps| > 1 ==> DocAt(lines, ps[1..], marks, n + 1, NextOf(ps[0], marks, lo)))
    ensures DocAt(lines, ps, marks, at, lo)
  {
    hide *;
    LayoutStep(lines, ps, at, after, marks, lo);
    forall k | 0 <= k < |ps| ensures ReadAs(lines, marks, ps, at, lo, k) {
      ReadStep(lines, ps, at, marks, lo, k);
    }
    CountersEnd(ps, marks, lo);
    DocAtIs(lines, ps, marks, at, lo);
  }

  lemma DocAtIs(lines: seq<string>, ps: seq<Plain>, marks: string -> nat, at: nat, lo: nat)
    requires Layout(lines, at, |lines|, SpansFor(ps, at))
    requires forall k :: 0 <= k < |ps| ==> ReadAs(lines, marks, ps, at, lo, k)
    requires CountersFor(ps, marks, lo)[|ps|] == NextAfter(ps, marks, lo)
    ensures DocAt(lines, ps, marks, at, lo)
  {
  }

  lemma {:induction false} CountersEnd(ps: seq<Plain>, marks: string -> nat, lo: nat)
    ensures CountersFor(ps, marks, lo)[|ps|] == NextAfter(ps, marks, lo)
    decreases |ps|
  {
    hide NextOf;
    if ps != [] {
      CountersEnd(ps[1..], marks, NextOf(ps[0], marks, lo));
    }
  }

  lemma LayoutStep(lines: seq<string>, ps: seq<Plain>, at: nat, after: seq<string>, marks: string -> nat, lo: nat)
    requires ps != [] && LinesOf(ps[0]) != [] && Ends(after) && (|ps| == 1 <==> after == [])
    requires at + |LinesOf(ps[0])| + |after| == |lines| && lines[at + |LinesOf(ps[0])|..] == after
    requires var n := at + |LinesOf(ps[0])|;
      && Shaped(lines, marks, Span(at, n), BlockFor(ps[0], marks, lo), lo, NextOf(ps[0], marks, lo))
      && (|ps| > 1 ==> DocAt(lines, ps[1..], marks, n + 1, NextOf(ps[0], marks, lo)))
    ensures Layout(lines, at, |lines|, SpansFor(ps, at))
  {
    hide *;
    var n, next := at + |LinesOf(ps[0])|, NextOf(ps[0], marks, lo);
    Unfolded(ps, marks, at, lo);
    FirstNotBlank(lines, marks, Span(at, n), BlockFor(ps[0], marks, lo), lo, next);
    if |ps| > 1 {
      BlankNext(lines, n, after);
      DocAtGives(lines, ps[1..], marks, n + 1, next);
    } else {
      NothingFor(marks, n + 1, next);
    }
    LayoutFirst(lines, Span(at, n), SpansFor(ps[1..], n + 1));
  }

  lemma BlankNext(lines: seq<string>, n: nat, after: seq<string>)
    requires n < |lines| && lines[n..] == after && Ends(after)
    ensures Blank(lines[n])
  {
    assert after[0] == lines[n];
    TrimEmpty();
  }

  lemma DocAtGives(lines: seq<string>, ps: seq<Plain>, marks: string -> nat, at: nat, lo: nat)
    requires DocAt(lines, ps, marks, at, lo)
    ensures Layout(lines, at, |lines|, SpansFor(ps, at))
    ensures forall k :: 0 <= k < |ps| ==> ReadAs(lines, marks, ps, at, lo, k)
  {
    hide Layout, ReadAs, SpansFor, CountersFor;
  }

  lemma ReadStep(lines: seq<string>, ps: seq<Plain>, at: nat, marks: string -> nat, lo: nat, k: nat)
    requires ps != [] && LinesOf(ps[0]) != [] && at + |LinesOf(ps[0])| <= |lines| && k < |ps|
    requires var n := at + |LinesOf(ps[0])|;
      && Shaped(lines, marks, Span(at, n), BlockFor(ps[0], marks, lo), lo, NextOf(ps[0], marks, lo))
      && (|ps| > 1 ==> DocAt(lines, ps[1..], marks, n + 1, NextOf(ps[0], marks, lo)))
    ensures ReadAs(lines, marks, ps, at, lo, k)
  {
    hide Shaped, Layout, LinesOf, NextOf, BlockFor, SpansFor, BlocksFor, CountersFor, NextAfter, DocAt;
    var n, next := at + |LinesOf(ps[0])|, NextOf(ps[0], marks, lo);
    Unfolded(ps, marks, at, lo);
    if k > 0 {
      DocAtGives(lines, ps[1..], marks, n + 1, next);
      assert ReadAs(lines, marks, ps[1..], n + 1, next, k - 1);
    }
  }

  /** A printed document reads as the blocks it was printed from. */
  lemma {:induction false} DocReads(ps: seq<Plain>, marks: string -> nat, lo: nat)
    requires AllOk(ps)
    ensures Reads(DocLines(ps), marks, lo, NextAfter(ps, marks, lo), BlocksFor(ps, marks, lo), SpansFor(ps, 0),
                  CountersFor(ps, marks, lo))
    decreases ps, 3
  {
    DocFrom(DocLines(ps), [], ps, marks, lo);
    hide Shaped, Layout, DocLines, BlocksFor, SpansFor, CountersFor, NextAfter;
    var lines, blocks := DocLines(ps), BlocksFor(ps, marks, lo);
    forall k | 0 <= k < |blocks| ensures ReadsAt(lines, marks, blocks, SpansFor(ps, 0), CountersFor(ps, marks, lo), k) {
      assert ReadAs(lines, marks, ps, 0, lo, k);
    }
  }

  /** Printing and parsing: whatever reads the printed lines finds the blocks they were printed from. */
  lemma PrintThenRead(ps: seq<Plain>, marks: string -> nat, lo: nat, hi: nat, blocks: seq<Block>, spans: seq<Span>,
          counters: seq<nat>)
    requires AllOk(ps) && Reads(DocLines(ps), marks, lo, hi, blocks, spans, counters)
    ensures blocks == BlocksFor(ps, marks, lo) && spans == SpansFor(ps, 0) && hi == NextAfter(ps, marks, lo)
  {
    hide Reads;
    DocReads(ps, marks, lo);
    ReadsUnique(DocLines(ps), marks, lo, hi, blocks, spans, counters, NextAfter(ps, marks, lo),
                BlocksFor(ps, marks, lo), SpansFor(ps, 0), CountersFor(ps, marks, lo));
  }

  /** Print a document and parse it. */
  method PrintAndParse(ps: seq<Plain>, marks: string -> nat, lo: nat) returns (blocks: seq<Block>, next: nat)
    requires AllOk(ps)
    ensures blocks == BlocksFor(ps, marks, lo) && next == NextAfter(ps, marks, lo)
  {
    hide Reads, AllOk;
    var spans;
    ghost var counters;
    blocks, spans, next, counters := BlockParser.ParseBlocks(DocLines(ps), lo, marks);
    PrintThenRead(ps, marks, lo, next, blocks, spans, counters);
  }
}
