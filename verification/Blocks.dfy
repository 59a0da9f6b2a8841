/** Blocks, their ids, and what the blocks of a list of lines are (src/doc/parser.rs). */
module Blocks {
  import opened OpIds
  import opened TableText
  import opened LineKinds

  /** Text blocks hold their Markdown; the inline parser is not part of this model. */
  datatype Block = Block(id: nat, kind: Kind)

  datatype Kind =
    | Code(fence: Fence, info: string, text: string)
    | Quote(children: seq<Block>)
    | Raw(raw: string)
    | Grid(table: Table)
    | Heading(level: nat, title: string)
    | Bullets(style: ListStyle, items: seq<Item>)
    | Paragraph(text: string)

  datatype Item = Item(id: nat, task: Option<bool>, children: seq<Block>)

  datatype Span = Span(start: nat, end: nat)

  // ----- ids

  /** `x` names the block, one of its items, or a block nested in it. */
  ghost predicate Within(b: Block, x: nat) {
    || b.id == x
    || (b.kind.Quote? && exists k :: 0 <= k < |b.kind.children| && Within(b.kind.children[k], x))
    || (b.kind.Bullets? && exists k :: 0 <= k < |b.kind.items| && WithinItem(b.kind.items[k], x))
  }

  ghost predicate WithinItem(i: Item, x: nat) {
    i.id == x || exists k :: 0 <= k < |i.children| && Within(i.children[k], x)
  }

  /** Every id under the block lies in [lo, b.id], and the block's own id is below `hi`. */
  ghost predicate Drawn(b: Block, lo: nat, hi: nat) {
    b.id < hi && forall x: nat :: Within(b, x) ==> lo <= x <= b.id
  }

  /** Blocks numbered one after the other from a counter that went from `lo` to `hi`. */
  ghost predicate Numbered(blocks: seq<Block>, lo: nat, hi: nat) {
    && lo <= hi
    && forall k :: 0 <= k < |blocks| ==> DrawnAt(blocks, k, lo, hi)
  }

  /** Block `k` draws its ids after block `k - 1`. */
  ghost predicate DrawnAt(blocks: seq<Block>, k: nat, lo: nat, hi: nat)
    requires k < |blocks|
  {
    Drawn(blocks[k], if k == 0 then lo else blocks[k - 1].id + 1, hi)
  }

  lemma NumberedNext(blocks: seq<Block>, b: Block, lo: nat, mid: nat, hi: nat)
    requires Numbered(blocks, lo, mid) && Drawn(b, mid, hi)
    ensures Numbered(blocks + [b], lo, hi)
  {
    var all := blocks + [b];
    assert Within(b, b.id);
    forall k | 0 <= k < |all| ensures DrawnAt(all, k, lo, hi) {
      if k < |blocks| {
        assert DrawnAt(blocks, k, lo, mid);
      } else if k > 0 {
        assert DrawnAt(blocks, k - 1, lo, mid);
      }
    }
  }

  lemma {:induction false} NumberedBounds(blocks: seq<Block>, lo: nat, hi: nat, k: nat, x: nat)
    requires Numbered(blocks, lo, hi) && k < |blocks| && Within(blocks[k], x)
    ensures lo <= x < hi
    decreases k
  {
    assert DrawnAt(blocks, k, lo, hi);
    if k > 0 {
      assert Within(blocks[k - 1], blocks[k - 1].id);
      NumberedBounds(blocks, lo, hi, k - 1, blocks[k - 1].id);
    }
  }

  /** No id occurs under two of the blocks. */
  lemma {:induction false} NumberedApart(blocks: seq<Block>, lo: nat, hi: nat, j: nat, k: nat, x: nat)
    requires Numbered(blocks, lo, hi) && j < k < |blocks| && Within(blocks[k], x)
    ensures blocks[j].id < x && !Within(blocks[j], x)
    decreases k
  {
    assert DrawnAt(blocks, k, lo, hi) && DrawnAt(blocks, j, lo, hi);
    if j < k - 1 {
      assert Within(blocks[k - 1], blocks[k - 1].id);
      NumberedApart(blocks, lo, hi, j, k - 1, blocks[k - 1].id);
    }
  }

  lemma NumberedNone(lo: nat)
    ensures Numbered([], lo, lo)
  {
  }

  lemma NumberedGrows(blocks: seq<Block>, lo: nat, hi: nat)
    requires Numbered(blocks, lo, hi)
    ensures lo <= hi
  {
  }

  // ----- lines and spans

  function Total(lines: seq<string>): nat {
    if lines == [] then 0 else |lines[0]| + Total(lines[1..])
  }

  lemma {:induction false} TotalSplit(lines: seq<string>, at: nat)
    requires at <= |lines|
    ensures Total(lines) == Total(lines[..at]) + Total(lines[at..])
  {
    if at == 0 {
      assert lines[..at] == [] && lines[at..] == lines;
    } else {
      TotalSplit(lines[1..], at - 1);
      assert lines[..at][1..] == lines[1..][..at - 1] && lines[1..][at - 1..] == lines[at..];
    }
  }

  lemma TotalSlice(lines: seq<string>, from: nat, to: nat)
    requires from <= to <= |lines|
    ensures Total(lines[from..to]) <= Total(lines)
  {
    TotalSplit(lines, to);
    TotalSplit(lines[..to], from);
    assert lines[..to][from..] == lines[from..to];
  }

  predicate AllQuoted(lines: seq<string>) {
    forall i :: 0 <= i < |lines| ==> QuoteLine(Trim(lines[i]))
  }

  /** The lines inside a quote. */
  function QuoteBody(lines: seq<string>): (out: seq<string>)
    requires AllQuoted(lines)
    ensures |out| == |lines| && Total(out) + |lines| <= Total(lines)
  {
    if lines == [] then [] else [Unquoted(lines[0])] + QuoteBody(lines[1..])
  }

  lemma {:induction false} QuoteBodyNext(lines: seq<string>, line: string)
    requires AllQuoted(lines) && QuoteLine(Trim(line))
    ensures AllQuoted(lines + [line]) && QuoteBody(lines + [line]) == QuoteBody(lines) + [Unquoted(line)]
  {
    assert forall i :: 0 <= i < |lines| ==> (lines + [line])[i] == lines[i];
    if lines != [] {
      QuoteBodyNext(lines[1..], line);
      assert (lines + [line])[1..] == lines[1..] + [line];
    }
  }

  predicate InSpan(s: Span, i: nat) {
    s.start <= i < s.end
  }

  ghost predicate Covered(spans: seq<Span>, i: nat) {
    exists k :: 0 <= k < |spans| && InSpan(spans[k], i)
  }

  /** Non-empty spans in increasing order, each from a line that is not blank, and only blank lines outside. */
  ghost predicate Layout(lines: seq<string>, from: nat, upto: nat, spans: seq<Span>)
    requires upto <= |lines|
  {
    && (forall k :: 0 <= k < |spans| ==> from <= spans[k].start < spans[k].end <= upto && !Blank(lines[spans[k].start]))
    && (forall j, k :: 0 <= j < k < |spans| ==> spans[j].end <= spans[k].start)
    && (forall i :: from <= i < upto ==> Blank(lines[i]) || Covered(spans, i))
  }

  lemma LayoutNext(lines: seq<string>, from: nat, spans: seq<Span>, s: Span)
    requires from <= s.start < s.end <= |lines| && Layout(lines, from, s.start, spans) && !Blank(lines[s.start])
    ensures Layout(lines, from, s.end, spans + [s])
  {
    hide Blank;
    forall i | from <= i < s.end ensures Blank(lines[i]) || Covered(spans + [s], i) {
      CoveredNext(spans, s, i);
    }
  }

  lemma CoveredNext(spans: seq<Span>, s: Span, i: nat)
    ensures Covered(spans + [s], i) <==> Covered(spans, i) || InSpan(s, i)
  {
    var all := spans + [s];
    if Covered(spans, i) {
      var k :| 0 <= k < |spans| && InSpan(spans[k], i);
      assert InSpan(all[k], i);
    }
    if InSpan(s, i) {
      assert InSpan(all[|spans|], i);
    }
    if Covered(all, i) {
      var k :| 0 <= k < |all| && InSpan(all[k], i);
      assert k < |spans| ==> InSpan(spans[k], i);
    }
  }

  lemma LayoutSkip(lines: seq<string>, from: nat, upto: nat, spans: seq<Span>)
    requires upto < |lines| && Layout(lines, from, upto, spans) && Blank(lines[upto])
    ensures Layout(lines, from, upto + 1, spans)
  {
    hide Blank;
  }

  /** The first line from `i` on that is not blank, or the end. */
  function NonBlankFrom(lines: seq<string>, i: nat): (j: nat)
    requires i <= |lines|
    ensures i <= j <= |lines| && forall k :: i <= k < j ==> Blank(lines[k])
    ensures j < |lines| ==> !Blank(lines[j])
    decreases |lines| - i
  {
    if i < |lines| && Blank(lines[i]) then NonBlankFrom(lines, i + 1) else i
  }

  /** The counter goes from `lo` to `hi` in `n` steps. */
  ghost predicate Threads(counters: seq<nat>, n: nat, lo: nat, hi: nat) {
    |counters| == n + 1 && counters[0] == lo && counters[n] == hi
  }

  // ----- what the blocks are

  /**
   * The lines hold these blocks. `spans` says which lines each takes, `counters` which ids it draws, and
   * `marks` how many of those the inline parser draws for a text.
   */
  ghost predicate Reads(lines: seq<string>, marks: string -> nat, lo: nat, hi: nat, blocks: seq<Block>,
          spans: seq<Span>, counters: seq<nat>)
    decreases Total(lines), 2
  {
    && |spans| == |blocks| && Threads(counters, |blocks|, lo, hi)
    && Layout(lines, 0, |lines|, spans)
    && forall k :: 0 <= k < |blocks| ==> ReadsAt(lines, marks, blocks, spans, counters, k)
  }

  ghost predicate ReadsAt(lines: seq<string>, marks: string -> nat, blocks: seq<Block>, spans: seq<Span>,
          counters: seq<nat>, k: nat)
    requires k < |blocks| == |spans| && |counters| == |blocks| + 1
    decreases Total(lines), 1
  {
    && spans[k].start < spans[k].end <= |lines|
    && Shaped(lines, marks, spans[k], blocks[k], counters[k], counters[k + 1])
  }

  /** The first line decides the kind of a block; the kind decides where it ends, what it holds and its ids. */
  ghost predicate Shaped(lines: seq<string>, marks: string -> nat, s: Span, b: Block, lo: nat, hi: nat)
    requires s.start < s.end <= |lines|
    decreases Total(lines), 0
  {
    var first, below := Trim(lines[s.start]), lines[s.start..];
    && first != ""
    && if FenceOpen(first).Some? then
         IsCode(lines, s, FenceOpen(first).value, b.kind) && b.id == lo && hi == lo + 1
       else if QuoteLine(first) then
         && AllQuoted(lines[s.start..s.end]) && (s.end < |lines| ==> !QuoteLine(Trim(lines[s.end])))
         && b.kind.Quote? && hi == b.id + 1
         && (TotalSlice(lines, s.start, s.end);
             exists inner, counters ::
               Reads(QuoteBody(lines[s.start..s.end]), marks, lo, b.id, b.kind.children, inner, counters))
       else if RawLine(first) then IsRaw(lines, s, b.kind) && b.id == lo && hi == lo + 1
       else if TableOf(below).Some? then
         && b == Block(lo, Grid(TableOf(below).value)) && s.end == s.start + 2 + |b.kind.table.rows|
         && hi == lo + 1 + |b.kind.table.alignments| + |b.kind.table.rows|
       else if AtxHeading(first).Some? then
         && b == Block(lo, Heading(AtxHeading(first).value.0, AtxHeading(first).value.1)) && s.end == s.start + 1
         && hi == lo + 1 + marks(b.kind.title)
       else if ListStart(first) then IsList(lines, marks, s, b, lo, hi)
       else if UnderlineAt(lines, s.start + 1).Some? then
         && b == Block(lo, Heading(UnderlineAt(lines, s.start + 1).value, first)) && s.end == s.start + 2
         && hi == lo + 1 + marks(first)
       else IsParagraph(lines, s, b.kind) && b.id == lo && hi == lo + 1 + marks(b.kind.text)
  }

  /** A fence runs to its first closing line, or to the end. */
  ghost predicate IsCode(lines: seq<string>, s: Span, open: (Fence, string), kind: Kind)
    requires s.start < s.end <= |lines|
  {
    var close: nat := if s.end > s.start + 1 && FenceCloses(Trim(lines[s.end - 1]), open.0) then s.end - 1 else s.end;
    && kind == Code(open.0, Trim(open.1), Join(lines[s.start + 1..close], "\n"))
    && (forall i :: s.start < i < close ==> !FenceCloses(Trim(lines[i]), open.0))
    && (close == s.end ==> s.end == |lines|)
  }

  ghost predicate IsRaw(lines: seq<string>, s: Span, kind: Kind)
    requires s.start < s.end <= |lines|
  {
    && kind == Raw(Join(lines[s.start..s.end], "\n"))
    && (forall i :: s.start < i < s.end ==> !Blank(lines[i]))
    && (s.end < |lines| ==> Blank(lines[s.end]))
  }

  ghost predicate IsParagraph(lines: seq<string>, s: Span, kind: Kind)
    requires s.start < s.end <= |lines|
  {
    && kind == Paragraph(Join(lines[s.start..s.end], "\n"))
    && (forall i :: s.start <= i < s.end ==> !Breaks(Trim(lines[i])))
    && (s.end < |lines| ==> Breaks(Trim(lines[s.end])))
  }

  function UnderlineAt(lines: seq<string>, i: nat): Option<nat> {
    if i < |lines| then SetextUnderline(Trim(lines[i])) else None
  }

  // ----- what the items of a list are

  predicate OpensItem(line: string, style: ListStyle, base: nat) {
    Indent(line) == base && ItemBody(Trim(line), style).Some?
  }

  /** A line that goes on with a paragraph of an item. */
  predicate Continues(line: string, base: nat) {
    !Blank(line) && Indent(line) > base && !ListStart(Trim(line))
  }

  /** How a list is divided: where each item starts and stops, the counter before each, and which are loose. */
  datatype Listing = Listing(heads: seq<nat>, stops: seq<nat>, counters: seq<nat>, looses: seq<bool>)

  /** A list of the style and indent of its first line. */
  ghost predicate IsList(lines: seq<string>, marks: string -> nat, s: Span, b: Block, lo: nat, hi: nat)
    requires s.start < s.end <= |lines| && ListStart(Trim(lines[s.start]))
    decreases |lines| - s.start, 5
  {
    && b.kind.Bullets? && hi == b.id + 1
    && var style := StyleOf(Trim(lines[s.start]));
    && b.kind.style == style.(loose := b.kind.style.loose)
    && exists w :: ListReads(lines, marks, s, style, b.kind.style.loose, b.kind.items, lo, b.id, w)
  }

  /**
   * The items follow each other with only blank lines between them, from the first line of the list to its
   * last, and the next line that is not blank opens no further one. A list is loose if a blank line stands
   * between two items or between two parts of one.
   */
  ghost predicate ListReads(lines: seq<string>, marks: string -> nat, s: Span, style: ListStyle, loose: bool,
          items: seq<Item>, lo: nat, hi: nat, w: Listing)
    requires s.start < s.end <= |lines|
    decreases |lines| - s.start, 4
  {
    && items != [] && |w.heads| == |w.stops| == |w.looses| == |items| && Threads(w.counters, |items|, lo, hi)
    && w.heads[0] == s.start && w.stops[|items| - 1] == s.end
    && (forall k :: 0 <= k < |items| ==> ItemAt(lines, marks, s.start, style, Indent(lines[s.start]), items, w, k))
    && (loose <==> Loose(w))
    && (NonBlankFrom(lines, s.end) < |lines| ==>
          !OpensItem(lines[NonBlankFrom(lines, s.end)], style, Indent(lines[s.start])))
  }

  ghost predicate Loose(w: Listing)
    requires |w.looses| == |w.stops| == |w.heads|
  {
    exists k :: 0 <= k < |w.looses| && (w.looses[k] || GapAfter(w, k))
  }

  predicate GapAfter(w: Listing, k: nat)
    requires k < |w.stops| == |w.heads|
  {
    k + 1 < |w.heads| && w.stops[k] < w.heads[k + 1]
  }

  ghost predicate ItemAt(lines: seq<string>, marks: string -> nat, start: nat, style: ListStyle, base: nat,
          items: seq<Item>, w: Listing, k: nat)
    requires k < |items| == |w.heads| == |w.stops| == |w.looses| && |w.counters| == |items| + 1 && start < |lines|
    decreases |lines| - start, 3
  {
    && start <= w.heads[k] < w.stops[k] <= |lines|
    && ItemShaped(lines, marks, style, base, w.heads[k], w.stops[k], items[k], w.counters[k], w.counters[k + 1],
        w.looses[k])
    && (k + 1 < |items| ==> w.heads[k + 1] == NonBlankFrom(lines, w.stops[k]))
  }

  /** One item: its marker line, and the lines after it that are blank or indented further, up to the last of these. */
  ghost predicate ItemShaped(lines: seq<string>, marks: string -> nat, style: ListStyle, base: nat, head: nat,
          stop: nat, item: Item, lo: nat, hi: nat, loose: bool)
    requires head < stop <= |lines|
    decreases |lines| - head, 2
  {
    && OpensItem(lines[head], style, base) && ItemEnds(lines, base, head, stop)
    && var (task, text) := TaskMarker(ItemBody(Trim(lines[head]), style).value);
    && item.id == lo && item.task == task
    && exists spans, counters ::
        ItemReads(lines, marks, base, head, stop, text, lo, hi, loose, item.children, spans, counters)
  }

  ghost predicate ItemEnds(lines: seq<string>, base: nat, head: nat, stop: nat)
    requires head < stop <= |lines|
  {
    && (forall i :: head < i < stop ==> Blank(lines[i]) || Indent(lines[i]) > base)
    && (stop > head + 1 ==> !Blank(lines[stop - 1]))
    && (NonBlankFrom(lines, stop) < |lines| ==> Indent(lines[NonBlankFrom(lines, stop)]) <= base)
  }

  ghost predicate BlankBetween(lines: seq<string>, head: nat, stop: nat, spans: seq<Span>)
    requires stop <= |lines|
  {
    exists i :: head < i < stop && Blank(lines[i]) && !Covered(spans, i)
  }

  /** The children of an item take the text after its marker and every further line that is not blank. */
  ghost predicate ItemReads(lines: seq<string>, marks: string -> nat, base: nat, head: nat, stop: nat, text: string,
          lo: nat, hi: nat, loose: bool, children: seq<Block>, spans: seq<Span>, counters: seq<nat>)
    requires head < stop <= |lines|
    decreases |lines| - head, 1
  {
    && |spans| == |children| && Threads(counters, |children|, lo + 1, hi)
    && Layout(lines[head := text], head, stop, spans) && (loose <==> BlankBetween(lines, head, stop, spans))
    && forall k :: 0 <= k < |children| ==> ChildAt(lines, marks, base, head, text, children, spans, counters, k)
  }

  /** A nested list from each line that starts one, and a paragraph from each maximal run of other lines. */
  ghost predicate ChildAt(lines: seq<string>, marks: string -> nat, base: nat, head: nat, text: string,
          children: seq<Block>, spans: seq<Span>, counters: seq<nat>, k: nat)
    requires head < |lines| && k < |children| == |spans| && |counters| == |children| + 1
    decreases |lines| - head, 0
  {
    var s := spans[k];
    && head <= s.start < s.end <= |lines|
    && if s.start > head && ListStart(Trim(lines[s.start]))
       then IsList(lines, marks, s, children[k], counters[k], counters[k + 1])
       else IsItemText(lines, marks, base, head, text, s, children[k], counters[k], counters[k + 1])
  }

  ghost predicate IsItemText(lines: seq<string>, marks: string -> nat, base: nat, head: nat, text: string, s: Span,
          b: Block, lo: nat, hi: nat)
    requires head <= s.start < s.end <= |lines|
  {
    && (forall i :: s.start <= i < s.end && i != head ==> Continues(lines[i], base))
    && (s.end < |lines| ==> !Continues(lines[s.end], base))
    && b == Block(lo, Paragraph(Join(Pieces(lines, head, text, s.start, s.end), "\n")))
    && hi == lo + 1 + marks(b.kind.text)
  }

  /** The text of an item's lines: after the marker on the first, trimmed on the others. */
  function Pieces(lines: seq<string>, head: nat, text: string, from: nat, to: nat): (out: seq<string>)
    requires head <= from <= to <= |lines|
    ensures |out| == to - from
    ensures forall i :: 0 <= i < |out| ==> out[i] == if from + i == head then text else Trim(lines[from + i])
  {
    seq(to - from, i requires 0 <= i < to - from => if from + i == head then text else Trim(lines[from + i]))
  }
}
