/** The lines decide their blocks: no two different readings of the same lines exist. */
module BlocksUnique {
  import opened OpIds
  import opened TableText
  import opened LineKinds
  import opened Blocks

  /** Two layouts that agree so far have their next span start at the same line. */
  lemma NextStart(lines: seq<string>, from: nat, upto: nat, a: seq<Span>, b: seq<Span>, k: nat)
    requires upto <= |lines| && Layout(lines, from, upto, a) && Layout(lines, from, upto, b)
    requires k < |a| && k <= |b| && a[..k] == b[..k]
    ensures k < |b| && b[k].start <= a[k].start
  {
    hide Blank;
    forall x | 0 <= x < k ensures !InSpan(b[x], a[k].start) {
      assert a[..k][x] == b[..k][x];
    }
    assert Covered(b, a[k].start);
    var m :| 0 <= m < |b| && InSpan(b[m], a[k].start);
  }

  lemma Snoc<T>(a: seq<T>, b: seq<T>, k: nat)
    requires k < |a| && k < |b| && a[..k] == b[..k] && a[k] == b[k]
    ensures a[..k + 1] == b[..k + 1]
  {
    assert a[..k + 1] == a[..k] + [a[k]] && b[..k + 1] == b[..k] + [b[k]];
  }

  lemma SameAt<T>(a: seq<T>, b: seq<T>, k: nat, i: nat)
    requires i < k <= |a| && k <= |b| && a[..k] == b[..k]
    ensures a[i] == b[i]
  {
    assert a[i] == a[..k][i] == b[..k][i] == b[i];
  }

  lemma SameStart(lines: seq<string>, from: nat, upto: nat, a: seq<Span>, b: seq<Span>, k: nat)
    requires upto <= |lines| && Layout(lines, from, upto, a) && Layout(lines, from, upto, b)
    requires k <= |a| && k <= |b| && a[..k] == b[..k]
    ensures k < |a| <==> k < |b|
    ensures k < |a| && k < |b| ==> a[k].start == b[k].start
  {
    if k < |a| {
      NextStart(lines, from, upto, a, b, k);
    }
    if k < |b| {
      NextStart(lines, from, upto, b, a, k);
    }
  }

  // ----- lists

  lemma ItemEndsUnique(lines: seq<string>, base: nat, head: nat, a: nat, b: nat)
    requires head < a <= |lines| && head < b <= |lines| && ItemEnds(lines, base, head, a)
        && ItemEnds(lines, base, head, b)
    ensures a == b
  {
    NoEarlierEnd(lines, base, head, a, b);
    NoEarlierEnd(lines, base, head, b, a);
  }

  lemma NoEarlierEnd(lines: seq<string>, base: nat, head: nat, a: nat, b: nat)
    requires head < a <= |lines| && head < b <= |lines| && ItemEnds(lines, base, head, a)
        && ItemEnds(lines, base, head, b)
    ensures a >= b
  {
    hide Blank, Indent;
    var j := NonBlankFrom(lines, a);
    if a < b {
      assert false;
    }
  }

  lemma TextUnique(lines: seq<string>, marks: string -> nat, base: nat, head: nat, text: string, s: Span, b: Block,
          hi: nat, t: Span, c: Block, hi': nat, lo: nat)
    requires head <= s.start < s.end <= |lines| && s.start == t.start < t.end <= |lines|
    requires IsItemText(lines, marks, base, head, text, s, b, lo, hi)
        && IsItemText(lines, marks, base, head, text, t, c, lo, hi')
    ensures s == t && b == c && hi == hi'
  {
    hide Continues;
  }

  lemma {:induction false} ListUnique(lines: seq<string>, marks: string -> nat, s: Span, b: Block, hi: nat, t: Span,
          c: Block, hi': nat, lo: nat)
    requires s.start < s.end <= |lines| && s.start == t.start < t.end <= |lines| && ListStart(Trim(lines[s.start]))
    requires IsList(lines, marks, s, b, lo, hi) && IsList(lines, marks, t, c, lo, hi')
    ensures s == t && b == c && hi == hi'
    decreases |lines| - s.start, 3
  {
    hide ListReads;
    var style := StyleOf(Trim(lines[s.start]));
    var w :| ListReads(lines, marks, s, style, b.kind.style.loose, b.kind.items, lo, b.id, w);
    var v :| ListReads(lines, marks, t, style, c.kind.style.loose, c.kind.items, lo, c.id, v);
    ListingUnique(lines, marks, style, s, b.kind.style.loose, b.kind.items, b.id, w, t, c.kind.style.loose,
        c.kind.items, c.id, v, lo);
    assert b.kind == c.kind;
  }

  lemma {:induction false} ListingUnique(lines: seq<string>, marks: string -> nat, style: ListStyle, s: Span, l: bool,
          xs: seq<Item>, hi: nat, w: Listing, t: Span, m: bool, ys: seq<Item>, hi': nat, v: Listing, lo: nat)
    requires s.start < s.end <= |lines| && s.start == t.start < t.end <= |lines|
    requires ListReads(lines, marks, s, style, l, xs, lo, hi, w) && ListReads(lines, marks, t, style, m, ys, lo, hi', v)
    ensures s == t && l == m && xs == ys && hi == hi'
    decreases |lines| - s.start, 2, |xs|
  {
    var n := if |xs| <= |ys| then |xs| else |ys|;
    ListingAgrees(lines, marks, style, s, l, xs, hi, w, t, m, ys, hi', v, lo, n);
    NoFurther(lines, marks, style, s, l, xs, hi, w, t, m, ys, hi', v, lo, n);
    NoFurther(lines, marks, style, t, m, ys, hi', v, s, l, xs, hi, w, lo, n);
    assert w.stops == w.stops[..n] == v.stops[..n] == v.stops;
    assert w.heads == w.heads[..n] == v.heads[..n] == v.heads;
    assert w.looses == w.looses[..n] == v.looses[..n] == v.looses;
    assert w.counters == w.counters[..n + 1] == v.counters[..n + 1] == v.counters;
    assert xs == xs[..n] == ys[..n] == ys;
    assert w == v;
  }

  /** A listing that agrees with another up to the other's end has no further item. */
  lemma NoFurther(lines: seq<string>, marks: string -> nat, style: ListStyle, s: Span, l: bool, xs: seq<Item>, hi: nat,
          w: Listing, t: Span, m: bool, ys: seq<Item>, hi': nat, v: Listing, lo: nat, n: nat)
    requires s.start < s.end <= |lines| && s.start == t.start < t.end <= |lines|
    requires ListReads(lines, marks, s, style, l, xs, lo, hi, w) && ListReads(lines, marks, t, style, m, ys, lo, hi', v)
    requires n <= |xs| && n <= |ys| && w.stops[..n] == v.stops[..n]
    ensures |xs| == n ==> |ys| == n
  {
    hide ItemEnds, ItemReads, OpensItem, NonBlankFrom;
    var base := Indent(lines[s.start]);
    if |xs| == n {
      SameAt(w.stops, v.stops, n, n - 1);
      assert ItemAt(lines, marks, s.start, style, base, ys, v, n - 1);
      if n < |ys| {
        ItemsAt(lines, marks, style, t, m, ys, lo, hi', v, n);
        assert false;
      }
    }
  }

  lemma ItemsAt(lines: seq<string>, marks: string -> nat, style: ListStyle, s: Span, l: bool, xs: seq<Item>, lo: nat,
          hi: nat, w: Listing, k: nat)
    requires s.start < s.end <= |lines| && ListReads(lines, marks, s, style, l, xs, lo, hi, w) && k < |xs|
    ensures ItemAt(lines, marks, s.start, style, Indent(lines[s.start]), xs, w, k)
    ensures w.heads[0] == s.start && w.counters[0] == lo
  {
  }

  /** The first `k` items of two listings agree. */
  lemma {:induction false} ListingAgrees(lines: seq<string>, marks: string -> nat, style: ListStyle, s: Span, l: bool,
          xs: seq<Item>, hi: nat, w: Listing, t: Span, m: bool, ys: seq<Item>, hi': nat, v: Listing, lo: nat, k: nat)
    requires s.start < s.end <= |lines| && s.start == t.start < t.end <= |lines|
    requires ListReads(lines, marks, s, style, l, xs, lo, hi, w) && ListReads(lines, marks, t, style, m, ys, lo, hi', v)
    requires k <= |xs| && k <= |ys|
    ensures w.heads[..k] == v.heads[..k] && w.stops[..k] == v.stops[..k] && w.looses[..k] == v.looses[..k]
    ensures w.counters[..k + 1] == v.counters[..k + 1] && xs[..k] == ys[..k]
    decreases |lines| - s.start, 1, k
  {
    hide ItemShaped;
    if k > 0 {
      var base, i := Indent(lines[s.start]), k - 1;
      ListingAgrees(lines, marks, style, s, l, xs, hi, w, t, m, ys, hi', v, lo, i);
      SameAt(w.counters, v.counters, k, i);
      ItemsAt(lines, marks, style, s, l, xs, lo, hi, w, i);
      ItemsAt(lines, marks, style, t, m, ys, lo, hi', v, i);
      if i > 0 {
        ItemsAt(lines, marks, style, s, l, xs, lo, hi, w, i - 1);
        ItemsAt(lines, marks, style, t, m, ys, lo, hi', v, i - 1);
        SameAt(w.stops, v.stops, i, i - 1);
      }
      ItemUnique(lines, marks, style, base, w.heads[i], w.counters[i],
                 w.stops[i], xs[i], w.counters[k], w.looses[i], v.stops[i], ys[i], v.counters[k], v.looses[i]);
      Snoc(w.heads, v.heads, i);
      Snoc(w.stops, v.stops, i);
      Snoc(w.looses, v.looses, i);
      Snoc(w.counters, v.counters, k);
      Snoc(xs, ys, i);
    } else {
      assert w.counters[..1] == [lo] == v.counters[..1];
    }
  }

  lemma {:induction false} ItemUnique(lines: seq<string>, marks: string -> nat, style: ListStyle, base: nat, head: nat,
          lo: nat, stop: nat, x: Item, hi: nat, l: bool, stop': nat, y: Item, hi': nat, m: bool)
    requires head < stop <= |lines| && head < stop' <= |lines|
    requires ItemShaped(lines, marks, style, base, head, stop, x, lo, hi, l)
    requires ItemShaped(lines, marks, style, base, head, stop', y, lo, hi', m)
    ensures stop == stop' && x == y && hi == hi' && l == m
    decreases |lines| - head, 0
  {
    hide ItemReads, ItemEnds;
    ItemEndsUnique(lines, base, head, stop, stop');
    var (task, text) := TaskMarker(ItemBody(Trim(lines[head]), style).value);
    var spans, counters :| ItemReads(lines, marks, base, head, stop, text, lo, hi, l, x.children, spans, counters);
    var spans', counters' :| ItemReads(lines, marks, base, head, stop, text, lo, hi', m, y.children, spans', counters');
    ChildrenUnique(lines, marks, base, head, stop, text, lo, hi, l, x.children, spans, counters, hi', m, y.children,
        spans', counters');
  }

  lemma {:induction false} ChildrenUnique(lines: seq<string>, marks: string -> nat, base: nat, head: nat, stop: nat,
          text: string, lo: nat, hi: nat, l: bool, xs: seq<Block>, spans: seq<Span>, counters: seq<nat>, hi': nat,
          m: bool, ys: seq<Block>, spans': seq<Span>, counters': seq<nat>)
    requires head < stop <= |lines|
    requires ItemReads(lines, marks, base, head, stop, text, lo, hi, l, xs, spans, counters)
    requires ItemReads(lines, marks, base, head, stop, text, lo, hi', m, ys, spans', counters')
    ensures xs == ys && hi == hi' && l == m
    decreases |lines| - head, 0, 1
  {
    var n := if |xs| <= |ys| then |xs| else |ys|;
    ChildrenAgree(lines, marks, base, head, stop, text, lo, hi, l, xs, spans, counters, hi', m, ys, spans', counters',
        n);
    SameStart(lines[head := text], head, stop, spans, spans', n);
    assert spans == spans[..n] == spans'[..n] == spans';
    assert xs == xs[..n] == ys[..n] == ys;
    assert counters == counters[..n + 1] == counters'[..n + 1] == counters';
  }

  lemma {:induction false} ChildrenAgree(lines: seq<string>, marks: string -> nat, base: nat, head: nat, stop: nat,
          text: string, lo: nat, hi: nat, l: bool, xs: seq<Block>, spans: seq<Span>, counters: seq<nat>, hi': nat,
          m: bool, ys: seq<Block>, spans': seq<Span>, counters': seq<nat>, k: nat)
    requires head < stop <= |lines|
    requires ItemReads(lines, marks, base, head, stop, text, lo, hi, l, xs, spans, counters)
    requires ItemReads(lines, marks, base, head, stop, text, lo, hi', m, ys, spans', counters')
    requires k <= |xs| && k <= |ys|
    ensures spans[..k] == spans'[..k] && xs[..k] == ys[..k] && counters[..k + 1] == counters'[..k + 1]
    decreases |lines| - head, 0, 0, k
  {
    hide Layout;
    if k > 0 {
      var i := k - 1;
      ChildrenAgree(lines, marks, base, head, stop, text, lo, hi, l, xs, spans, counters, hi', m, ys, spans',
          counters', i);
      SameStart(lines[head := text], head, stop, spans, spans', i);
      SameAt(counters, counters', k, i);
      ChildUnique(lines, marks, base, head, text, xs, spans, counters, ys, spans', counters', i);
      Snoc(spans, spans', i);
      Snoc(xs, ys, i);
      Snoc(counters, counters', k);
    } else {
      assert counters[..1] == [lo + 1] == counters'[..1];
    }
  }

  lemma {:induction false} ChildUnique(lines: seq<string>, marks: string -> nat, base: nat, head: nat, text: string,
          xs: seq<Block>, spans: seq<Span>, counters: seq<nat>, ys: seq<Block>, spans': seq<Span>, counters': seq<nat>,
          i: nat)
    requires head < |lines| && i < |xs| == |spans| && |counters| == |xs| + 1 && i < |ys| == |spans'|
        && |counters'| == |ys| + 1
    requires ChildAt(lines, marks, base, head, text, xs, spans, counters, i)
    requires ChildAt(lines, marks, base, head, text, ys, spans', counters', i)
    requires spans[i].start == spans'[i].start && counters[i] == counters'[i]
    ensures spans[i] == spans'[i] && xs[i] == ys[i] && counters[i + 1] == counters'[i + 1]
    decreases |lines| - head, 0, 0, 0
  {
    hide IsList, IsItemText;
    var s, t := spans[i], spans'[i];
    if s.start > head && ListStart(Trim(lines[s.start])) {
      ListUnique(lines, marks, s, xs[i], counters[i + 1], t, ys[i], counters'[i + 1], counters[i]);
    } else {
      TextUnique(lines, marks, base, head, text, s, xs[i], counters[i + 1], t, ys[i], counters'[i + 1], counters[i]);
    }
  }

  // ----- blocks

  lemma CodeUnique(lines: seq<string>, open: (Fence, string), s: Span, a: Kind, t: Span, b: Kind)
    requires s.start < s.end <= |lines| && s.start == t.start < t.end <= |lines|
    requires IsCode(lines, s, open, a) && IsCode(lines, t, open, b)
    ensures s == t && a == b
  {
    hide FenceCloses, Trim, Join;
  }

  lemma RawUnique(lines: seq<string>, s: Span, a: Kind, t: Span, b: Kind)
    requires s.start < s.end <= |lines| && s.start == t.start < t.end <= |lines|
    requires IsRaw(lines, s, a) && IsRaw(lines, t, b)
    ensures s == t && a == b
  {
    hide Blank, Join;
  }

  lemma ParagraphUnique(lines: seq<string>, s: Span, a: Kind, t: Span, b: Kind)
    requires s.start < s.end <= |lines| && s.start == t.start < t.end <= |lines|
    requires IsParagraph(lines, s, a) && IsParagraph(lines, t, b)
    ensures s == t && a == b
  {
    hide Breaks, Trim, Join;
  }

  lemma QuoteEndUnique(lines: seq<string>, start: nat, a: nat, b: nat)
    requires start < a <= |lines| && start < b <= |lines|
    requires AllQuoted(lines[start..a]) && AllQuoted(lines[start..b])
    requires a < |lines| ==> !QuoteLine(Trim(lines[a]))
    requires b < |lines| ==> !QuoteLine(Trim(lines[b]))
    ensures a == b
  {
    hide QuoteLine, Trim, AllQuoted;
    QuotedAt(lines, start, a);
    QuotedAt(lines, start, b);
  }

  lemma QuotedAt(lines: seq<string>, start: nat, end: nat)
    requires start <= end <= |lines| && AllQuoted(lines[start..end])
    ensures forall i :: start <= i < end ==> QuoteLine(Trim(lines[i]))
  {
    forall i | start <= i < end ensures QuoteLine(Trim(lines[i])) {
      assert lines[start..end][i - start] == lines[i];
    }
  }

  /** The blocks of a list of lines, with their spans and ids, are determined. */
  lemma {:induction false} ReadsUnique(lines: seq<string>, marks: string -> nat, lo: nat, hi: nat, xs: seq<Block>,
          spans: seq<Span>, counters: seq<nat>, hi': nat, ys: seq<Block>, spans': seq<Span>, counters': seq<nat>)
    requires Reads(lines, marks, lo, hi, xs, spans, counters) && Reads(lines, marks, lo, hi', ys, spans', counters')
    ensures hi == hi' && xs == ys && spans == spans'
    decreases Total(lines), 2
  {
    var n := if |xs| <= |ys| then |xs| else |ys|;
    ReadsAgree(lines, marks, lo, hi, xs, spans, counters, hi', ys, spans', counters', n);
    SameStart(lines, 0, |lines|, spans, spans', n);
    assert spans == spans[..n] == spans'[..n] == spans';
    assert xs == xs[..n] == ys[..n] == ys;
    assert counters == counters[..n + 1] == counters'[..n + 1] == counters';
  }

  lemma {:induction false} ReadsAgree(lines: seq<string>, marks: string -> nat, lo: nat, hi: nat, xs: seq<Block>,
          spans: seq<Span>, counters: seq<nat>, hi': nat, ys: seq<Block>, spans': seq<Span>, counters': seq<nat>,
          k: nat)
    requires Reads(lines, marks, lo, hi, xs, spans, counters) && Reads(lines, marks, lo, hi', ys, spans', counters')
    requires k <= |xs| && k <= |ys|
    ensures spans[..k] == spans'[..k] && xs[..k] == ys[..k] && counters[..k + 1] == counters'[..k + 1]
    decreases Total(lines), 1, k
  {
    hide Layout, Shaped;
    if k > 0 {
      var i := k - 1;
      ReadsAgree(lines, marks, lo, hi, xs, spans, counters, hi', ys, spans', counters', i);
      SameStart(lines, 0, |lines|, spans, spans', i);
      SameAt(counters, counters', k, i);
      assert ReadsAt(lines, marks, xs, spans, counters, i) && ReadsAt(lines, marks, ys, spans', counters', i);
      ShapedUnique(lines, marks, counters[i], spans[i], xs[i], counters[k], spans'[i], ys[i], counters'[k]);
      Snoc(spans, spans', i);
      Snoc(xs, ys, i);
      Snoc(counters, counters', k);
    } else {
      assert counters[..1] == [lo] == counters'[..1];
    }
  }

  lemma {:induction false} ShapedUnique(lines: seq<string>, marks: string -> nat, lo: nat, s: Span, b: Block, hi: nat,
          t: Span, c: Block, hi': nat)
    requires s.start < s.end <= |lines| && s.start == t.start < t.end <= |lines|
    requires Shaped(lines, marks, s, b, lo, hi) && Shaped(lines, marks, t, c, lo, hi')
    ensures s == t && b == c && hi == hi'
    decreases Total(lines), 0
  {
    hide IsCode, IsRaw, IsParagraph, IsList, TableOf, FenceOpen, QuoteLine, RawLine, AtxHeading, ListStart,
         UnderlineAt, Trim, Reads, AllQuoted, QuoteBody;
    var first := Trim(lines[s.start]);
    if FenceOpen(first).Some? {
      CodeUnique(lines, FenceOpen(first).value, s, b.kind, t, c.kind);
    } else if QuoteLine(first) {
      QuoteUnique(lines, marks, lo, s, b, hi, t, c, hi');
    } else if RawLine(first) {
      RawUnique(lines, s, b.kind, t, c.kind);
    } else if TableOf(lines[s.start..]).Some? {
    } else if AtxHeading(first).Some? {
    } else if ListStart(first) {
      ListUnique(lines, marks, s, b, hi, t, c, hi', lo);
    } else if UnderlineAt(lines, s.start + 1).Some? {
    } else {
      ParagraphUnique(lines, s, b.kind, t, c.kind);
    }
  }

  lemma {:induction false} QuoteUnique(lines: seq<string>, marks: string -> nat, lo: nat, s: Span, b: Block, hi: nat,
          t: Span, c: Block, hi': nat)
    requires s.start < s.end <= |lines| && s.start == t.start < t.end <= |lines|
    requires Shaped(lines, marks, s, b, lo, hi) && Shaped(lines, marks, t, c, lo, hi')
    requires QuoteLine(Trim(lines[s.start])) && FenceOpen(Trim(lines[s.start])).None?
    ensures s == t && b == c && hi == hi'
    decreases Total(lines), 0, 0
  {
    hide QuoteLine, Trim, AllQuoted, QuoteBody, Reads, IsList;
    QuoteEndUnique(lines, s.start, s.end, t.end);
    var quoted := lines[s.start..s.end];
    TotalSlice(lines, s.start, s.end);
    var inner, counters :| Reads(QuoteBody(quoted), marks, lo, b.id, b.kind.children, inner, counters);
    var inner', counters' :| Reads(QuoteBody(quoted), marks, lo, c.id, c.kind.children, inner', counters');
    ReadsUnique(QuoteBody(quoted), marks, lo, b.id, b.kind.children, inner, counters, c.id, c.kind.children, inner',
        counters');
  }
}
