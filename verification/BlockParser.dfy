/** The block parser: lines into blocks, with the lines each block takes (src/doc/parser.rs). */
module BlockParser {
  import opened OpIds
  import opened TableText
  import opened LineKinds
  import opened Blocks

  /** All blocks of `lines`; `marks` gives how many ids the inline parser draws for a text. */
  method ParseBlocks(lines: seq<string>, counter: nat, marks: string -> nat)
    returns (blocks: seq<Block>, spans: seq<Span>, next: nat, ghost counters: seq<nat>)
    ensures Reads(lines, marks, counter, next, blocks, spans, counters)
    ensures Numbered(blocks, counter, next)
    decreases Total(lines), 1
  {
    hide Blank, Numbered, Drawn, Layout, ReadsAt;
    blocks, spans, next, counters := [], [], counter, [counter];
    NumberedNone(counter);
    LayoutNone(lines);
    var index: nat := 0;
    while index < |lines|
      invariant index <= |lines| && |blocks| == |spans| && Threads(counters, |blocks|, counter, next)
      invariant Layout(lines, 0, index, spans)
      invariant forall k :: 0 <= k < |blocks| ==> ReadsAt(lines, marks, blocks, spans, counters, k)
      invariant Numbered(blocks, counter, next)
    {
      if IsBlank(lines[index]) {
        LayoutSkip(lines, 0, index, spans);
        index := index + 1;
        continue;
      }
      var b, end, after := ReadBlock(lines, index, next, marks);
      var s := Span(index, end);
      LayoutNext(lines, 0, spans, s);
      NumberedNext(blocks, b, counter, next, after);
      ReadsNext(lines, marks, blocks, spans, counters, b, s, after);
      blocks, spans, counters := blocks + [b], spans + [s], counters + [after];
      index, next := end, after;
    }
  }

  predicate IsBlank(line: string)
    ensures IsBlank(line) == Blank(line)
  {
    Trim(line) == ""
  }

  lemma LayoutNone(lines: seq<string>)
    ensures Layout(lines, 0, 0, [])
  {
  }

  lemma {:induction false} ReadsNext(lines: seq<string>, marks: string -> nat, blocks: seq<Block>, spans: seq<Span>,
          counters: seq<nat>, b: Block, s: Span, hi: nat)
    requires |spans| == |blocks| && |counters| == |blocks| + 1
    requires forall k :: 0 <= k < |blocks| ==> ReadsAt(lines, marks, blocks, spans, counters, k)
    requires s.start < s.end <= |lines| && Shaped(lines, marks, s, b, counters[|blocks|], hi)
    ensures forall k :: 0 <= k < |blocks| + 1 ==> ReadsAt(lines, marks, blocks + [b], spans + [s], counters + [hi], k)
  {
    hide ReadsAt, Shaped;
    forall k | 0 <= k < |blocks| + 1 ensures ReadsAt(lines, marks, blocks + [b], spans + [s], counters + [hi], k) {
      ReadsOne(lines, marks, blocks, spans, counters, b, s, hi, k);
    }
  }

  lemma ReadsOne(lines: seq<string>, marks: string -> nat, blocks: seq<Block>, spans: seq<Span>, counters: seq<nat>,
          b: Block, s: Span, hi: nat, k: nat)
    requires |spans| == |blocks| && |counters| == |blocks| + 1 && k <= |blocks|
    requires k < |blocks| ==> ReadsAt(lines, marks, blocks, spans, counters, k)
    requires s.start < s.end <= |lines| && Shaped(lines, marks, s, b, counters[|blocks|], hi)
    ensures ReadsAt(lines, marks, blocks + [b], spans + [s], counters + [hi], k)
  {
    hide Shaped;
    assert (counters + [hi])[k] == counters[k];
    assert k < |blocks| ==> (counters + [hi])[k + 1] == counters[k + 1];
  }

  /** The block that starts at a line that is not blank. */
  method ReadBlock(lines: seq<string>, index: nat, counter: nat, marks: string -> nat)
    returns (b: Block, end: nat, next: nat)
    requires index < |lines| && !Blank(lines[index])
    ensures index < end <= |lines| && Shaped(lines, marks, Span(index, end), b, counter, next)
    ensures Drawn(b, counter, next)
    decreases Total(lines), 0
  {
    hide Numbered, IsCode, IsRaw, IsParagraph, IsList, FenceOpen, QuoteLine, RawLine, AtxHeading, ListStart, TableOf,
         Trim, Indent, SetextUnderline, Reads;
    var first := Trim(lines[index]);
    var open := FenceOpen(first);
    if open.Some? {
      var kind;
      kind, end := ReadFence(lines, index, open.value);
      return Block(counter, kind), end, counter + 1;
    }
    if QuoteLine(first) {
      ghost var inner, counters;
      b, end, next, inner, counters := ReadQuote(lines, index, counter, marks);
      return;
    }
    if RawLine(first) {
      var kind;
      kind, end := ReadRaw(lines, index);
      return Block(counter, kind), end, counter + 1;
    }
    var table := ParseTable(lines[index..]);
    if table.Some? {
      TableFits(lines[index..]);
      return Block(counter, Grid(table.value)), index + 2 + |table.value.rows|,
             counter + 1 + |table.value.alignments| + |table.value.rows|;
    }
    var atx := AtxHeading(first);
    if atx.Some? {
      return Block(counter, Heading(atx.value.0, atx.value.1)), index + 1, counter + 1 + marks(atx.value.1);
    }
    if ListStart(first) {
      b, end, next := ParseList(lines, index, counter, marks, Indent(lines[index]));
      return;
    }
    var level := UnderlineAt(lines, index + 1);
    if level.Some? {
      return Block(counter, Heading(level.value, first)), index + 2, counter + 1 + marks(first);
    }
    assert !Breaks(first);
    var text;
    text, end := ReadParagraph(lines, index);
    return Block(counter, Paragraph(text)), end, counter + 1 + marks(text);
  }

  lemma {:induction false} RowsWithin(lines: seq<string>, n: nat)
    ensures |RowsOf(lines, n)| <= |lines|
  {
    hide CellsOf;
    if lines != [] {
      RowsWithin(lines[1..], n);
    }
  }

  lemma TableFits(lines: seq<string>)
    requires TableOf(lines).Some?
    ensures 2 + |TableOf(lines).value.rows| <= |lines|
  {
    hide CellsOf, DelimiterOf;
    RowsWithin(lines[2..], |TableOf(lines).value.alignments|);
  }

  method ReadFence(lines: seq<string>, index: nat, open: (Fence, string)) returns (kind: Kind, end: nat)
    requires index < |lines|
    ensures index < end <= |lines| && kind.Code? && IsCode(lines, Span(index, end), open, kind)
  {
    hide FenceCloses, Trim;
    var close: nat := index + 1;
    var contents: seq<string> := [];
    while close < |lines| && !FenceCloses(Trim(lines[close]), open.0)
      invariant index < close <= |lines| && contents == lines[index + 1..close]
      invariant forall i :: index < i < close ==> !FenceCloses(Trim(lines[i]), open.0)
    {
      contents := contents + [lines[close]];
      close := close + 1;
    }
    end := if close + 1 < |lines| then close + 1 else |lines|;
    var text := JoinParts(contents, "\n");
    kind := Code(open.0, Trim(open.1), text);
  }

  method ReadRaw(lines: seq<string>, index: nat) returns (kind: Kind, end: nat)
    requires index < |lines| && !Blank(lines[index])
    ensures index < end <= |lines| && kind.Raw? && IsRaw(lines, Span(index, end), kind)
  {
    hide Trim;
    end := index;
    var raw: seq<string> := [];
    while end < |lines| && !(IsBlank(lines[end]) && end > index)
      invariant index <= end <= |lines| && raw == lines[index..end]
      invariant forall i :: index < i < end ==> !Blank(lines[i])
    {
      raw := raw + [lines[end]];
      end := end + 1;
    }
    var text := JoinParts(raw, "\n");
    kind := Raw(text);
  }

  method ReadParagraph(lines: seq<string>, index: nat) returns (text: string, end: nat)
    requires index < |lines| && !Breaks(Trim(lines[index]))
    ensures index < end <= |lines| && IsParagraph(lines, Span(index, end), Paragraph(text))
  {
    hide Breaks, Trim;
    end := index;
    var taken: seq<string> := [];
    while end < |lines| && !Breaks(Trim(lines[end]))
      invariant index <= end <= |lines| && taken == lines[index..end]
      invariant forall i :: index <= i < end ==> !Breaks(Trim(lines[i]))
    {
      taken := taken + [lines[end]];
      end := end + 1;
    }
    text := JoinParts(taken, "\n");
  }

  /** A quote takes the whole run of quoted lines and parses what is inside them. */
  method ReadQuote(lines: seq<string>, index: nat, counter: nat, marks: string -> nat)
    returns (b: Block, end: nat, next: nat, ghost inner: seq<Span>, ghost counters: seq<nat>)
    requires index < |lines| && QuoteLine(Trim(lines[index]))
    ensures index < end <= |lines| && AllQuoted(lines[index..end])
    ensures end < |lines| ==> !QuoteLine(Trim(lines[end]))
    ensures b.kind.Quote? && next == b.id + 1
    ensures Reads(QuoteBody(lines[index..end]), marks, counter, b.id, b.kind.children, inner, counters)
    ensures Drawn(b, counter, next)
    decreases Total(lines), 0, 0
  {
    hide QuoteLine, Trim, Reads, Numbered, Unquoted;
    var body: seq<string> := [];
    end := index;
    while end < |lines| && QuoteLine(Trim(lines[end]))
      invariant index <= end <= |lines| && (end == index ==> QuoteLine(Trim(lines[index])))
      invariant AllQuoted(lines[index..end]) && body == QuoteBody(lines[index..end])
    {
      QuoteBodyNext(lines[index..end], lines[end]);
      assert lines[index..end + 1] == lines[index..end] + [lines[end]];
      body := body + [Unquoted(lines[end])];
      end := end + 1;
    }
    TotalSlice(lines, index, end);
    var children, at;
    children, inner, at, counters := ParseBlocks(body, counter, marks);
    b, next := Block(at, Quote(children)), at + 1;
    forall x: nat | Within(b, x) ensures counter <= x <= at {
      if x != at {
        var k :| 0 <= k < |children| && Within(children[k], x);
        NumberedBounds(children, counter, at, k, x);
      } else {
        NumberedGrows(children, counter, at);
      }
    }
  }

  // ----- lists

  method NextNonBlank(lines: seq<string>, from: nat) returns (j: nat)
    requires from <= |lines|
    ensures j == NonBlankFrom(lines, from)
  {
    hide Trim;
    j := from;
    while j < |lines| && IsBlank(lines[j])
      invariant from <= j <= |lines| && NonBlankFrom(lines, j) == NonBlankFrom(lines, from)
    {
      j := j + 1;
    }
  }

  /** The items so far have drawn ids from `lo` up to below `hi`. */
  ghost predicate ItemsNumbered(items: seq<Item>, lo: nat, hi: nat) {
    lo <= hi && forall k, x: nat :: 0 <= k < |items| && WithinItem(items[k], x) ==> lo <= x < hi
  }

  lemma ItemsNone(lo: nat)
    ensures ItemsNumbered([], lo, lo)
  {
  }

  lemma ItemsNext(items: seq<Item>, item: Item, lo: nat, mid: nat, hi: nat)
    requires ItemsNumbered(items, lo, mid) && item.id == mid && Numbered(item.children, mid + 1, hi)
    ensures ItemsNumbered(items + [item], lo, hi)
  {
    var all := items + [item];
    forall k, x: nat | 0 <= k < |all| && WithinItem(all[k], x) ensures lo <= x < hi {
      if k == |items| && x != mid {
        var c :| 0 <= c < |item.children| && Within(item.children[c], x);
        NumberedBounds(item.children, mid + 1, hi, c, x);
      }
    }
  }

  lemma ListDrawn(b: Block, lo: nat)
    requires b.kind.Bullets? && ItemsNumbered(b.kind.items, lo, b.id)
    ensures Drawn(b, lo, b.id + 1)
  {
    forall x: nat | Within(b, x) ensures lo <= x <= b.id {
      if x != b.id {
        var k :| 0 <= k < |b.kind.items| && WithinItem(b.kind.items[k], x);
      }
    }
  }

  /** Whether the list goes on after the blank lines at `i`. */
  method MoreFollows(lines: seq<string>, i: nat, style: ListStyle, base: nat) returns (more: bool)
    requires i < |lines| && Blank(lines[i])
    ensures more <==> GoesOn(lines, i, style, base)
  {
    var j := NextNonBlank(lines, i + 1);
    more := j < |lines| && (Indent(lines[j]) > base || OpensItem(lines[j], style, base));
  }

  /** The next line that is not blank belongs to the list. */
  predicate GoesOn(lines: seq<string>, i: nat, style: ListStyle, base: nat)
    requires i <= |lines|
  {
    var j := NonBlankFrom(lines, i);
    j < |lines| && (Indent(lines[j]) > base || OpensItem(lines[j], style, base))
  }

  /** The list read so far: whole items up to the last stop, then blank lines before a further item. */
  ghost predicate ListSofar(lines: seq<string>, marks: string -> nat, start: nat, style: ListStyle, base: nat, end: nat,
          items: seq<Item>, lo: nat, hi: nat, loose: bool, w: Listing)
    requires start < |lines|
  {
    && |w.heads| == |w.stops| == |w.looses| == |items| && Threads(w.counters, |items|, lo, hi)
    && (forall k :: 0 <= k < |items| ==> ItemAt(lines, marks, start, style, base, items, w, k))
    && if items == [] then end == start && !loose
       else
         && w.heads[0] == start && w.stops[|items| - 1] <= end <= |lines|
         && (forall i :: w.stops[|items| - 1] <= i < end ==> Blank(lines[i]))
         && (end > w.stops[|items| - 1] ==> GoesOn(lines, end, style, base))
         && (loose <==> Loose(w) || end > w.stops[|items| - 1])
  }

  lemma ListSofarNone(lines: seq<string>, marks: string -> nat, start: nat, style: ListStyle, base: nat, lo: nat)
    requires start < |lines|
    ensures ListSofar(lines, marks, start, style, base, start, [], lo, lo, false, Listing([], [], [lo], []))
  {
  }

  lemma ListSofarSkip(lines: seq<string>, marks: string -> nat, start: nat, style: ListStyle, base: nat, end: nat,
          items: seq<Item>, lo: nat, hi: nat, loose: bool, w: Listing)
    requires start <= end < |lines| && items != []
        && ListSofar(lines, marks, start, style, base, end, items, lo, hi, loose, w)
    requires Blank(lines[end]) && GoesOn(lines, end, style, base)
    ensures ListSofar(lines, marks, start, style, base, end + 1, items, lo, hi, true, w)
  {
    hide ItemAt, Blank, Indent, OpensItem, Loose;
  }

  /** Nothing but blank lines lies between the last stop and the item that starts at `end`. */
  lemma NextHead(lines: seq<string>, from: nat, end: nat)
    requires from <= end < |lines| && !Blank(lines[end]) && forall i :: from <= i < end ==> Blank(lines[i])
    ensures NonBlankFrom(lines, from) == end
  {
    hide Blank;
  }

  lemma ListSofarNext(lines: seq<string>, marks: string -> nat, start: nat, style: ListStyle, base: nat, end: nat,
          items: seq<Item>, lo: nat, hi: nat, loose: bool, w: Listing, item: Item, stop: nat, further: bool, after: nat)
    requires start <= end < stop <= |lines| && ListSofar(lines, marks, start, style, base, end, items, lo, hi, loose, w)
    requires !Blank(lines[end]) && ItemShaped(lines, marks, style, base, end, stop, item, hi, after, further)
    ensures ListSofar(lines, marks, start, style, base, stop, items + [item], lo, after, loose || further,
                      Listing(w.heads + [end], w.stops + [stop], w.counters + [after], w.looses + [further]))
  {
    hide ItemShaped, Blank, NonBlankFrom;
    var n := |items|;
    var all, v := items + [item],
        Listing(w.heads + [end], w.stops + [stop], w.counters + [after], w.looses + [further]);
    if n > 0 {
      NextHead(lines, w.stops[n - 1], end);
    }
    forall k | 0 <= k < n + 1 ensures ItemAt(lines, marks, start, style, base, all, v, k) {
      assert k < n ==> ItemAt(lines, marks, start, style, base, items, w, k);
    }
    hide ItemAt, GoesOn;
    LooseNext(w, end, stop, further, v);
  }

  lemma LooseNext(w: Listing, head: nat, stop: nat, further: bool, v: Listing)
    requires |w.heads| == |w.stops| == |w.looses|
    requires v.heads == w.heads + [head] && v.stops == w.stops + [stop] && v.looses == w.looses + [further]
    ensures Loose(v) <==> Loose(w) || further || (w.heads != [] && head > w.stops[|w.stops| - 1])
  {
    var n := |w.heads|;
    assert forall k :: 0 <= k < n ==> v.looses[k] == w.looses[k];
    assert forall k :: 0 <= k < n - 1 ==> GapAfter(v, k) == GapAfter(w, k);
    assert !GapAfter(v, n) && v.looses[n] == further;
    assert n > 0 ==> !GapAfter(w, n - 1) && (GapAfter(v, n - 1) <==> head > w.stops[n - 1]);
    if Loose(w) {
      var k :| 0 <= k < n && (w.looses[k] || GapAfter(w, k));
      assert v.looses[k] || GapAfter(v, k);
    }
    if n > 0 && head > w.stops[n - 1] {
      assert GapAfter(v, n - 1);
    }
    if Loose(v) {
      var k :| 0 <= k < n + 1 && (v.looses[k] || GapAfter(v, k));
      assert k < n - 1 ==> w.looses[k] || GapAfter(w, k);
    }
  }

  lemma ListDone(lines: seq<string>, marks: string -> nat, s: Span, style: ListStyle, items: seq<Item>, lo: nat,
          hi: nat, loose: bool, w: Listing)
    requires s.start < |lines| && items != []
    requires ListSofar(lines, marks, s.start, style, Indent(lines[s.start]), s.end, items, lo, hi, loose, w)
    requires s.end < |lines| ==> !GoesOn(lines, s.end, style, Indent(lines[s.start]))
    ensures s.start < s.end <= |lines| && ListReads(lines, marks, s, style, loose, items, lo, hi, w)
  {
    hide ItemShaped, Blank, OpensItem, Loose, Indent;
    var n := |items|;
    assert ItemAt(lines, marks, s.start, style, Indent(lines[s.start]), items, w, n - 1);
  }

  /** After a whole item, a line that is neither blank nor an opener is not part of the list. */
  lemma ListStops(lines: seq<string>, marks: string -> nat, start: nat, style: ListStyle, base: nat, end: nat,
          items: seq<Item>, lo: nat, hi: nat, loose: bool, w: Listing)
    requires start <= end < |lines| && items != []
        && ListSofar(lines, marks, start, style, base, end, items, lo, hi, loose, w)
    requires !Blank(lines[end]) && !OpensItem(lines[end], style, base)
    ensures !GoesOn(lines, end, style, base)
  {
    hide Blank, OpensItem, ItemReads;
    var n := |items|;
    assert ItemAt(lines, marks, start, style, base, items, w, n - 1);
    ItemStops(lines, marks, style, base, w.heads[n - 1], w.stops[n - 1], items[n - 1], w.counters[n - 1],
        w.counters[n], w.looses[n - 1]);
    NextHead(lines, w.stops[n - 1], end);
    NextHead(lines, end, end);
  }

  lemma ItemStops(lines: seq<string>, marks: string -> nat, style: ListStyle, base: nat, head: nat, stop: nat,
          item: Item, lo: nat, hi: nat, loose: bool)
    requires head < stop <= |lines| && ItemShaped(lines, marks, style, base, head, stop, item, lo, hi, loose)
    ensures ItemEnds(lines, base, head, stop) && OpensItem(lines[head], style, base)
  {
  }

  method ParseList(lines: seq<string>, index: nat, counter: nat, marks: string -> nat, base: nat)
    returns (b: Block, end: nat, next: nat)
    requires index < |lines| && ListStart(Trim(lines[index])) && base == Indent(lines[index])
    ensures index < end <= |lines| && IsList(lines, marks, Span(index, end), b, counter, next)
    ensures Drawn(b, counter, next)
    ensures !Blank(lines[end - 1]) && forall i :: index <= i < end ==> Blank(lines[i]) || Indent(lines[i]) >= base
    decreases |lines| - index, 1
  {
    hide Trim, ListStart, ItemBody, Indent, Numbered, ItemsNumbered, StyleOf, OpensItem, Drawn, ListSofar, ItemShaped,
         GoesOn, ListReads;
    FirstItemFits(Trim(lines[index]));
    var style := StyleOf(Trim(lines[index]));
    FirstOpens(lines[index], style, base);
    var items: seq<Item>, at: nat, loose: bool := [], counter, false;
    ItemsNone(counter);
    ghost var w := Listing([], [], [counter], []);
    ListSofarNone(lines, marks, index, style, base, counter);
    end := index;
    while end < |lines| && (IsBlank(lines[end]) || OpensItem(lines[end], style, base))
      invariant index <= end <= |lines| && (end == index <==> items == [])
      invariant ListSofar(lines, marks, index, style, base, end, items, counter, at, loose, w)
      invariant ItemsNumbered(items, counter, at)
    {
      if IsBlank(lines[end]) {
        var more := MoreFollows(lines, end, style, base);
        if !more {
          break;
        }
        ListSofarSkip(lines, marks, index, style, base, end, items, counter, at, loose, w);
        loose := true;
        end := end + 1;
      } else {
        var item, stop, further, after := ReadItem(lines, end, at, marks, base, style);
        ListSofarNext(lines, marks, index, style, base, end, items, counter, at, loose, w, item, stop, further, after);
        w := Listing(w.heads + [end], w.stops + [stop], w.counters + [after], w.looses + [further]);
        ItemsNext(items, item, counter, at, after);
        items, at, end, loose := items + [item], after, stop, loose || further;
      }
    }
    if end < |lines| && !IsBlank(lines[end]) {
      ListStops(lines, marks, index, style, base, end, items, counter, at, loose, w);
    }
    b, next := Block(at, Bullets(style.(loose := loose), items)), at + 1;
    ListDrawn(b, counter);
    ListDone(lines, marks, Span(index, end), style, items, counter, at, loose, w);
    ListLines(lines, marks, Span(index, end), style, loose, items, counter, at, w);
  }

  lemma FirstOpens(line: string, style: ListStyle, base: nat)
    requires ItemBody(Trim(line), style).Some? && base == Indent(line)
    ensures OpensItem(line, style, base)
  {
  }

  /** Every line of a list opens an item, is blank, or is indented further; the last is not blank. */
  lemma ListLines(lines: seq<string>, marks: string -> nat, s: Span, style: ListStyle, loose: bool, items: seq<Item>,
          lo: nat, hi: nat, w: Listing)
    requires s.start < s.end <= |lines| && ListReads(lines, marks, s, style, loose, items, lo, hi, w)
    ensures forall i :: s.start <= i < s.end ==>
      Blank(lines[i]) || Indent(lines[i]) > Indent(lines[s.start]) || OpensItem(lines[i], style, Indent(lines[s.start]))
    ensures forall i :: s.start <= i < s.end ==> Blank(lines[i]) || Indent(lines[i]) >= Indent(lines[s.start])
    ensures !Blank(lines[s.end - 1])
  {
    hide Blank, Indent;
    var base, n := Indent(lines[s.start]), |items|;
    ListLinesUpTo(lines, marks, s, style, loose, items, lo, hi, w, n);
    assert ItemAt(lines, marks, s.start, style, base, items, w, n - 1);
    ItemStops(lines, marks, style, base, w.heads[n - 1], s.end, items[n - 1], w.counters[n - 1], w.counters[n],
        w.looses[n - 1]);
    OpenerIsText(lines[w.heads[n - 1]], style, base);
  }

  lemma OpenerIsText(line: string, style: ListStyle, base: nat)
    requires OpensItem(line, style, base)
    ensures !Blank(line)
  {
  }

  lemma {:induction false} ListLinesUpTo(lines: seq<string>, marks: string -> nat, s: Span, style: ListStyle,
          loose: bool, items: seq<Item>, lo: nat, hi: nat, w: Listing, k: nat)
    requires s.start < s.end <= |lines| && ListReads(lines, marks, s, style, loose, items, lo, hi, w)
        && 0 < k <= |items|
    ensures w.stops[k - 1] <= |lines|
    ensures forall i :: s.start <= i < w.stops[k - 1] ==>
      Blank(lines[i]) || Indent(lines[i]) > Indent(lines[s.start]) || OpensItem(lines[i], style, Indent(lines[s.start]))
    decreases k
  {
    hide Blank, Indent, ItemBody, ItemReads;
    var base := Indent(lines[s.start]);
    assert ItemAt(lines, marks, s.start, style, base, items, w, k - 1);
    ItemStops(lines, marks, style, base, w.heads[k - 1], w.stops[k - 1], items[k - 1], w.counters[k - 1],
        w.counters[k], w.looses[k - 1]);
    if k > 1 {
      ListLinesUpTo(lines, marks, s, style, loose, items, lo, hi, w, k - 1);
      assert ItemAt(lines, marks, s.start, style, base, items, w, k - 2);
    }
  }

  // ----- items

  /** An item read so far: children up to line `p`, a paragraph in hand from `p` to `q`, blank lines after it. */
  datatype Draft = Draft(spans: seq<Span>, counters: seq<nat>, p: nat, q: nat)

  /** The finished children, over the lines up to `p`. */
  ghost predicate Built(lines: seq<string>, marks: string -> nat, base: nat, head: nat, text: string, lo: nat, p: nat,
          children: seq<Block>, next: nat, spans: seq<Span>, counters: seq<nat>)
    requires head < |lines|
  {
    && head <= p <= |lines| && |spans| == |children| && Threads(counters, |children|, lo + 1, next)
    && Layout(lines[head := text], head, p, spans)
    && forall k :: 0 <= k < |children| ==> ChildAt(lines, marks, base, head, text, children, spans, counters, k)
  }

  /** The paragraph in hand. */
  ghost predicate InHand(lines: seq<string>, base: nat, head: nat, text: string, end: nat, pending: seq<string>, p: nat,
          q: nat)
    requires head < end <= |lines|
  {
    && head <= p <= q <= end && (p == q ==> q == end) && (p == head ==> !Blank(text))
    && pending == Pieces(lines, head, text, p, q)
    && (forall i :: p <= i < q && i != head ==> Continues(lines[i], base))
    && (forall i :: q <= i < end ==> Blank(lines[i]))
    && (p < q < end ==> NonBlankFrom(lines, end) < |lines| && ListStart(Trim(lines[NonBlankFrom(lines, end)])))
  }

  /** Everything so far belongs to the item, and after blank lines so does what comes next. */
  ghost predicate Belongs(lines: seq<string>, base: nat, head: nat, end: nat)
    requires head < end <= |lines|
  {
    && (forall i :: head < i < end ==> Blank(lines[i]) || Indent(lines[i]) > base)
    && (end > head + 1 && Blank(lines[end - 1]) ==>
          NonBlankFrom(lines, end) < |lines| && Indent(lines[NonBlankFrom(lines, end)]) > base)
  }

  ghost predicate ItemSofar(lines: seq<string>, marks: string -> nat, base: nat, head: nat, text: string, lo: nat,
          end: nat, children: seq<Block>, pending: seq<string>, next: nat, loose: bool, d: Draft)
  {
    && head < end <= |lines|
    && Built(lines, marks, base, head, text, lo, d.p, children, next, d.spans, d.counters)
    && InHand(lines, base, head, text, end, pending, d.p, d.q)
    && Belongs(lines, base, head, end)
    && (loose <==> BlankBetween(lines, head, end, d.spans))
  }

  lemma SofarStart(lines: seq<string>, marks: string -> nat, base: nat, head: nat, text: string, lo: nat)
    requires head < |lines| && (text != "" ==> !Blank(text))
    ensures var d := Draft([], [lo + 1], if text == "" then head + 1 else head, head + 1);
      ItemSofar(lines, marks, base, head, text, lo, head + 1, [], if text == "" then [] else [text], lo + 1, false, d)
  {
    hide Indent;
    assert Blank("");
  }

  lemma {:induction false} LayoutSkips(lines: seq<string>, from: nat, p: nat, q: nat, spans: seq<Span>)
    requires p <= q <= |lines| && Layout(lines, from, p, spans) && forall i :: p <= i < q ==> Blank(lines[i])
    ensures Layout(lines, from, q, spans)
    decreases q - p
  {
    hide Blank;
    if p < q {
      LayoutSkip(lines, from, p, spans);
      LayoutSkips(lines, from, p + 1, q, spans);
    }
  }

  /** One more child, from `s.start` on, with blank lines after it. */
  lemma BuiltNext(lines: seq<string>, marks: string -> nat, base: nat, head: nat, text: string, lo: nat,
          children: seq<Block>, next: nat, spans: seq<Span>, counters: seq<nat>, s: Span, b: Block, after: nat,
          end: nat)
    requires head < |lines| && Built(lines, marks, base, head, text, lo, s.start, children, next, spans, counters)
    requires head <= s.start < s.end <= end <= |lines| && !Blank(lines[head := text][s.start])
    requires forall i :: s.end <= i < end ==> Blank(lines[i])
    requires if s.start > head && ListStart(Trim(lines[s.start]))
             then IsList(lines, marks, s, b, next, after)
                 else IsItemText(lines, marks, base, head, text, s, b, next, after)
    ensures Built(lines, marks, base, head, text, lo, end, children + [b], after, spans + [s], counters + [after])
  {
    hide Blank, IsList, IsItemText;
    LayoutNext(lines[head := text], head, spans, s);
    LayoutSkips(lines[head := text], head, s.end, end, spans + [s]);
    hide Layout;
    forall k | 0 <= k < |children| + 1
      ensures ChildAt(lines, marks, base, head, text, children + [b], spans + [s], counters + [after], k)
    {
      ChildOne(lines, marks, base, head, text, children, spans, counters, s, b, after, k);
    }
  }

  lemma ChildOne(lines: seq<string>, marks: string -> nat, base: nat, head: nat, text: string, children: seq<Block>,
          spans: seq<Span>, counters: seq<nat>, s: Span, b: Block, after: nat, k: nat)
    requires head < |lines| && |spans| == |children| && |counters| == |children| + 1 && k <= |children|
    requires k < |children| ==> ChildAt(lines, marks, base, head, text, children, spans, counters, k)
    requires head <= s.start < s.end <= |lines|
    requires if s.start > head && ListStart(Trim(lines[s.start]))
             then IsList(lines, marks, s, b, counters[|children|], after)
             else IsItemText(lines, marks, base, head, text, s, b, counters[|children|], after)
    ensures ChildAt(lines, marks, base, head, text, children + [b], spans + [s], counters + [after], k)
  {
    hide IsList, IsItemText;
    assert (counters + [after])[k] == counters[k];
    assert k < |children| ==> (counters + [after])[k + 1] == counters[k + 1];
  }

  /** A child that takes no blank line, or only its own, leaves the blank lines between children as they are. */
  lemma BlanksStay(lines: seq<string>, head: nat, end: nat, end': nat, spans: seq<Span>, s: Span)
    requires end <= end' <= |lines|
    requires forall i :: end <= i < end' ==> InSpan(s, i)
    requires forall i :: head < i < end && InSpan(s, i) ==> !Blank(lines[i])
    ensures BlankBetween(lines, head, end', spans + [s]) <==> BlankBetween(lines, head, end, spans)
  {
    hide Blank;
    forall i: nat ensures Covered(spans + [s], i) <==> Covered(spans, i) || InSpan(s, i) {
      CoveredNext(spans, s, i);
    }
    hide Covered;
    if BlankBetween(lines, head, end, spans) {
      var i :| head < i < end && Blank(lines[i]) && !Covered(spans, i);
      assert !Covered(spans + [s], i);
    }
  }

  /** Closing the paragraph in hand. */
  lemma Flushed(lines: seq<string>, marks: string -> nat, base: nat, head: nat, text: string, lo: nat, end: nat,
          children: seq<Block>, pending: seq<string>, next: nat, loose: bool, d: Draft)
    requires ItemSofar(lines, marks, base, head, text, lo, end, children, pending, next, loose, d) && pending != []
    requires end < |lines| ==> !Continues(lines[end], base)
    ensures var b := Block(next, Paragraph(Join(pending, "\n")));
      var after := next + 1 + marks(b.kind.text);
      ItemSofar(lines, marks, base, head, text, lo, end, children + [b], [], after, loose,
                Draft(d.spans + [Span(d.p, d.q)], d.counters + [after], end, end))
  {
    hide Built, Belongs, Indent, ListStart, Trim, Join, BlankBetween;
    var s, b := Span(d.p, d.q), Block(next, Paragraph(Join(pending, "\n")));
    var after := next + 1 + marks(b.kind.text);
    assert d.q < |lines| ==> !Continues(lines[d.q], base);
    assert d.p > head ==> Continues(lines[d.p], base);
    assert IsItemText(lines, marks, base, head, text, s, b, next, after);
    BuiltNext(lines, marks, base, head, text, lo, children, next, d.spans, d.counters, s, b, after, end);
    BlanksStay(lines, head, end, end, d.spans, s);
  }

  /** A blank line inside the item, before a line that belongs to it. */
  lemma SkippedBlank(lines: seq<string>, marks: string -> nat, base: nat, head: nat, text: string, lo: nat, end: nat,
          children: seq<Block>, pending: seq<string>, next: nat, loose: bool, d: Draft)
    requires ItemSofar(lines, marks, base, head, text, lo, end, children, pending, next, loose, d)
    requires end < |lines| && Blank(lines[end])
    requires NonBlankFrom(lines, end) < |lines| && Indent(lines[NonBlankFrom(lines, end)]) > base
    requires pending == [] || ListStart(Trim(lines[NonBlankFrom(lines, end)]))
    ensures ItemSofar(lines, marks, base, head, text, lo, end + 1, children, pending, next, true,
                      if pending == [] then d.(p := end + 1, q := end + 1) else d)
  {
    hide Indent, ListStart, ChildAt;
    if pending == [] {
      LayoutSkip(lines[head := text], head, end, d.spans);
    }
    assert !Covered(d.spans, end);
    assert BlankBetween(lines, head, end + 1, d.spans);
    hide Blank, Layout;
  }

  /** A nested list, once the paragraph before it is closed. */
  lemma Nested(lines: seq<string>, marks: string -> nat, base: nat, head: nat, text: string, lo: nat, end: nat,
          children: seq<Block>, next: nat, loose: bool, d: Draft, b: Block, stop: nat, after: nat)
    requires ItemSofar(lines, marks, base, head, text, lo, end, children, [], next, loose, d)
    requires end < stop <= |lines| && !Blank(lines[end]) && Indent(lines[end]) > base && ListStart(Trim(lines[end]))
    requires IsList(lines, marks, Span(end, stop), b, next, after)
    requires !Blank(lines[stop - 1]) && forall i :: end <= i < stop ==>
        Blank(lines[i]) || Indent(lines[i]) >= Indent(lines[end])
    ensures ItemSofar(lines, marks, base, head, text, lo, stop, children + [b], [], after, loose,
                      Draft(d.spans + [Span(end, stop)], d.counters + [after], stop, stop))
  {
    hide Built, Indent, ListStart, Trim, IsList, BlankBetween, Blank;
    BuiltNext(lines, marks, base, head, text, lo, children, next, d.spans, d.counters, Span(end, stop), b, after, stop);
    BlanksStay(lines, head, end, stop, d.spans, Span(end, stop));
  }

  /** A line that goes on with the paragraph in hand, or starts one. */
  lemma Continued(lines: seq<string>, marks: string -> nat, base: nat, head: nat, text: string, lo: nat, end: nat,
          children: seq<Block>, pending: seq<string>, next: nat, loose: bool, d: Draft)
    requires ItemSofar(lines, marks, base, head, text, lo, end, children, pending, next, loose, d)
    requires end < |lines| && Continues(lines[end], base)
    ensures ItemSofar(lines, marks, base, head, text, lo, end + 1, children, pending + [Trim(lines[end])], next, loose,
        d.(q := end + 1))
  {
    hide Built, Indent, ListStart, Trim, Blank;
    NextHead(lines, end, end);
    assert d.q == end;
    assert Pieces(lines, head, text, d.p, end + 1) == Pieces(lines, head, text, d.p, end) + [Trim(lines[end])];
  }

  lemma ItemDone(lines: seq<string>, marks: string -> nat, style: ListStyle, base: nat, head: nat, text: string,
          lo: nat, end: nat, item: Item, next: nat, loose: bool, d: Draft)
    requires ItemSofar(lines, marks, base, head, text, lo, end, item.children, [], next, loose, d)
    requires OpensItem(lines[head], style, base)
    requires (item.task, text) == TaskMarker(ItemBody(Trim(lines[head]), style).value) && item.id == lo
    requires NonBlankFrom(lines, end) < |lines| ==> Indent(lines[NonBlankFrom(lines, end)]) <= base
    ensures ItemShaped(lines, marks, style, base, head, end, item, lo, next, loose)
  {
    hide Indent, Trim, Blank, ChildAt, Layout, BlankBetween;
    assert ItemReads(lines, marks, base, head, end, text, lo, next, loose, item.children, d.spans, d.counters);
  }

  /** One item: its marker line and the blank or further indented lines that belong to it. */
  method ReadItem(lines: seq<string>, index: nat, counter: nat, marks: string -> nat, base: nat, style: ListStyle)
    returns (item: Item, end: nat, loose: bool, next: nat)
    requires index < |lines| && OpensItem(lines[index], style, base)
    ensures index < end <= |lines| && ItemShaped(lines, marks, style, base, index, end, item, counter, next, loose)
    ensures item.id == counter && Numbered(item.children, counter + 1, next)
    decreases |lines| - index, 0
  {
    hide Trim, Indent, ListStart, Numbered, IsList, Drawn, ItemBody, TaskMarker, ItemSofar, ItemShaped;
    var (task, text) := TaskMarker(ItemBody(Trim(lines[index]), style).value);
    TextIsNotBlank(Trim(lines[index]), style);
    var pending: seq<string> := if text == "" then [] else [text];
    var children: seq<Block> := [];
    loose, end, next := false, index + 1, counter + 1;
    NumberedNone(next);
    SofarStart(lines, marks, base, index, text, counter);
    ghost var d := Draft([], [counter + 1], if text == "" then index + 1 else index, index + 1);
    while end < |lines|
      invariant index < end <= |lines|
      invariant ItemSofar(lines, marks, base, index, text, counter, end, children, pending, next, loose, d)
      invariant Numbered(children, counter + 1, next)
    {
      var line := lines[end];
      if IsBlank(line) {
        var j := NextNonBlank(lines, end + 1);
        if j == |lines| || Indent(lines[j]) <= base {
          break;
        }
        if !ListStart(Trim(lines[j])) {
          children, pending, next,
              d := PushParagraph(lines, children, pending, next, marks, base, index, text, counter, end, loose, d);
        }
        SkippedBlank(lines, marks, base, index, text, counter, end, children, pending, next, loose, d);
        d := if pending == [] then d.(p := end + 1, q := end + 1) else d;
        loose := true;
        end := end + 1;
      } else if Indent(line) <= base {
        break;
      } else if ListStart(Trim(line)) {
        children, pending, next,
            d := PushParagraph(lines, children, pending, next, marks, base, index, text, counter, end, loose, d);
        var nested, stop, after := ParseList(lines, end, next, marks, Indent(line));
        Nested(lines, marks, base, index, text, counter, end, children, next, loose, d, nested, stop, after);
        d := Draft(d.spans + [Span(end, stop)], d.counters + [after], stop, stop);
        NumberedNext(children, nested, counter + 1, next, after);
        children, end, next := children + [nested], stop, after;
      } else {
        Continued(lines, marks, base, index, text, counter, end, children, pending, next, loose, d);
        d := d.(q := end + 1);
        pending := pending + [Trim(line)];
        end := end + 1;
      }
    }
    children, pending, next, d := PushParagraph(lines, children, pending, next, marks, base, index, text, counter, end,
        loose, d);
    item := Item(counter, task, children);
    ItemDone(lines, marks, style, base, index, text, counter, end, item, next, loose, d);
  }

  /** Close the paragraph that is being collected, if there is one. */
  method PushParagraph(lines: seq<string>, children: seq<Block>, pending: seq<string>, counter: nat,
          marks: string -> nat, ghost base: nat, ghost head: nat, ghost text: string, ghost lo: nat, ghost end: nat,
          ghost loose: bool, ghost d: Draft)
    returns (more: seq<Block>, rest: seq<string>, next: nat, ghost after: Draft)
    requires ItemSofar(lines, marks, base, head, text, lo, end, children, pending, counter, loose, d)
    requires Numbered(children, lo + 1, counter) && (end < |lines| ==> !Continues(lines[end], base))
    ensures rest == [] && Numbered(more, lo + 1, next)
    ensures ItemSofar(lines, marks, base, head, text, lo, end, more, rest, next, loose, after)
  {
    hide Numbered, ItemSofar, Continues;
    if pending == [] {
      return children, [], counter, d;
    }
    var joined := JoinParts(pending, "\n");
    var b := Block(counter, Paragraph(joined));
    next := counter + 1 + marks(joined);
    Flushed(lines, marks, base, head, text, lo, end, children, pending, counter, loose, d);
    NumberedNext(children, b, lo + 1, counter, next);
    return children + [b], [], next, Draft(d.spans + [Span(d.p, d.q)], d.counters + [next], end, end);
  }
}
