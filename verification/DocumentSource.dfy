/** Rendering a parsed document back to its exact source (src/doc/source.rs, `Parser::parse`). */
module DocumentSources {
  import opened OpIds
  import opened TableText
  import opened LineKinds
  import opened SourceLines
  import opened Blocks
  import opened BlocksUnique
  import opened BlockParser
  import opened SourceText

  datatype Region = Region(leadingStart: nat, leadingEnd: nat, bodyStart: nat, bodyEnd: nat)

  // ----- which root an id belongs to

  /** `after` is `before` with `root` stored under every id of `added`. */
  ghost predicate Stores(before: map<nat, nat>, after: map<nat, nat>, root: nat, added: iset<nat>) {
    && (forall x :: x in after <==> x in before || x in added)
    && (forall x :: x in after ==> after[x] == if x in added then root else before[x])
  }

  ghost function UnderFirst(blocks: seq<Block>, k: nat): iset<nat>
    requires k <= |blocks|
  {
    iset x: nat | WithinFirst(blocks, k, x)
  }

  ghost predicate WithinFirst(blocks: seq<Block>, k: nat, x: nat)
    requires k <= |blocks|
  {
    exists c :: 0 <= c < k && Within(blocks[c], x)
  }

  ghost function UnderFirstItems(items: seq<Item>, k: nat): iset<nat>
    requires k <= |items|
  {
    iset x: nat | WithinFirstItems(items, k, x)
  }

  ghost predicate WithinFirstItems(items: seq<Item>, k: nat, x: nat)
    requires k <= |items|
  {
    exists c :: 0 <= c < k && WithinItem(items[c], x)
  }

  ghost function Under(b: Block): iset<nat> {
    iset x: nat | Within(b, x)
  }

  ghost function UnderItem(i: Item): iset<nat> {
    iset x: nat | WithinItem(i, x)
  }

  method IndexBlock(b: Block, root: nat, byBlock: map<nat, nat>) returns (more: map<nat, nat>)
    ensures Stores(byBlock, more, root, Under(b))
    decreases b, 1
  {
    hide Stores;
    more := byBlock[b.id := root];
    StoresOne(byBlock, b.id, root);
    match b.kind
    case Quote(children) =>
      ghost var own := more;
      more := IndexBlocks(children, root, more);
      StoresBoth(byBlock, own, more, root, iset{b.id}, UnderFirst(children, |children|));
      assert Under(b) == iset{b.id} + UnderFirst(children, |children|);
    case Bullets(_, items) =>
      ghost var own := more;
      StoresNone(more, root);
      assert UnderFirstItems(items, 0) == iset{};
      for k := 0 to |items|
        invariant Stores(own, more, root, UnderFirstItems(items, k))
      {
        ghost var before := more;
        more := IndexItem(items[k], root, more);
        StoresBoth(own, before, more, root, UnderFirstItems(items, k), UnderItem(items[k]));
        assert UnderFirstItems(items, k + 1) == UnderFirstItems(items, k) + UnderItem(items[k]);
      }
      StoresBoth(byBlock, own, more, root, iset{b.id}, UnderFirstItems(items, |items|));
      assert Under(b) == iset{b.id} + UnderFirstItems(items, |items|);
    case _ =>
      assert Under(b) == iset{b.id};
  }

  method IndexBlocks(blocks: seq<Block>, root: nat, byBlock: map<nat, nat>) returns (more: map<nat, nat>)
    ensures Stores(byBlock, more, root, UnderFirst(blocks, |blocks|))
    decreases blocks, 0
  {
    hide Stores;
    more := byBlock;
    StoresNone(byBlock, root);
    assert UnderFirst(blocks, 0) == iset{};
    for k := 0 to |blocks|
      invariant Stores(byBlock, more, root, UnderFirst(blocks, k))
    {
      ghost var before := more;
      more := IndexBlock(blocks[k], root, more);
      StoresBoth(byBlock, before, more, root, UnderFirst(blocks, k), Under(blocks[k]));
      assert UnderFirst(blocks, k + 1) == UnderFirst(blocks, k) + Under(blocks[k]);
    }
  }

  lemma StoresNone(m: map<nat, nat>, root: nat)
    ensures Stores(m, m, root, iset{})
  {
  }

  lemma StoresOne(m: map<nat, nat>, id: nat, root: nat)
    ensures Stores(m, m[id := root], root, iset{id})
  {
  }

  lemma StoresBoth(a: map<nat, nat>, b: map<nat, nat>, c: map<nat, nat>, root: nat, x: iset<nat>, y: iset<nat>)
    requires Stores(a, b, root, x) && Stores(b, c, root, y)
    ensures Stores(a, c, root, x + y)
  {
  }

  method IndexItem(item: Item, root: nat, byBlock: map<nat, nat>) returns (more: map<nat, nat>)
    ensures Stores(byBlock, more, root, UnderItem(item))
    decreases item, 1
  {
    hide Stores;
    more := byBlock[item.id := root];
    StoresOne(byBlock, item.id, root);
    ghost var own := more;
    more := IndexBlocks(item.children, root, more);
    StoresBoth(byBlock, own, more, root, iset{item.id}, UnderFirst(item.children, |item.children|));
    assert UnderItem(item) == iset{item.id} + UnderFirst(item.children, |item.children|);
  }

  ghost predicate Apart(blocks: seq<Block>) {
    forall j, k, x: nat :: 0 <= j < k < |blocks| && Within(blocks[k], x) ==> !Within(blocks[j], x)
  }

  /** The index gives each id in the document its root, and holds no other id. */
  ghost predicate RootsIndexed(byBlock: map<nat, nat>, blocks: seq<Block>) {
    && (forall x :: x in byBlock <==> x in UnderFirst(blocks, |blocks|))
    && (forall k, x: nat :: 0 <= k < |blocks| && Within(blocks[k], x) ==> x in byBlock && byBlock[x] == blocks[k].id)
  }

  method IndexRoots(blocks: seq<Block>) returns (byBlock: map<nat, nat>)
    requires Apart(blocks)
    ensures RootsIndexed(byBlock, blocks)
  {
    byBlock := map[];
    for i := 0 to |blocks|
      invariant forall x :: x in byBlock <==> x in UnderFirst(blocks, i)
      invariant forall k, x: nat :: 0 <= k < i && Within(blocks[k], x) ==> x in byBlock && byBlock[x] == blocks[k].id
    {
      byBlock := IndexBlock(blocks[i], blocks[i].id, byBlock);
      assert UnderFirst(blocks, i + 1) == UnderFirst(blocks, i) + Under(blocks[i]);
    }
  }

  // ----- the source of a document

  method PositionOf(order: seq<nat>, id: nat) returns (at: Option<nat>)
    ensures at.None? ==> id !in order
    ensures at.Some? ==> at.value < |order| && order[at.value] == id
  {
    for i := 0 to |order|
      invariant id !in order[..i]
    {
      if order[i] == id {
        return Some(i);
      }
    }
    return None;
  }

  function RegionOf(bodies: seq<Body>, k: nat): Region
    requires k < |bodies|
  {
    Region(if k == 0 then bodies[0].start else bodies[k - 1].end, bodies[k].start, bodies[k].start, bodies[k].end)
  }

  /** Order and regions of the first `k` bodies. */
  ghost predicate RegionsOf(bodies: seq<Body>, k: nat, order: seq<nat>, regions: map<nat, Region>)
    requires k <= |bodies|
  {
    && |order| == k && (forall i :: 0 <= i < k ==> order[i] == bodies[i].id)
    && (forall id :: id in regions ==> id in order)
    && (forall i :: 0 <= i < k ==> bodies[i].id in regions && regions[bodies[i].id] == RegionOf(bodies, i))
  }

  lemma RegionsNext(bodies: seq<Body>, k: nat, order: seq<nat>, regions: map<nat, Region>)
    requires k < |bodies| && DistinctBodies(bodies) && RegionsOf(bodies, k, order, regions)
    ensures RegionsOf(bodies, k + 1, order + [bodies[k].id], regions[bodies[k].id := RegionOf(bodies, k)])
  {
    hide RegionOf;
  }

  method BuildRegions(bodies: seq<Body>) returns (order: seq<nat>, regions: map<nat, Region>)
    requires DistinctBodies(bodies)
    ensures RegionsOf(bodies, |bodies|, order, regions)
  {
    hide RegionsOf, DistinctBodies;
    order, regions := [], map[];
    var previous := if bodies == [] then 0 else bodies[0].start;
    RegionsNone(bodies);
    for k := 0 to |bodies|
      invariant RegionsOf(bodies, k, order, regions)
      invariant k > 0 ==> previous == bodies[k - 1].end
      invariant k == 0 && bodies != [] ==> previous == bodies[0].start
    {
      var s := bodies[k];
      RegionsNext(bodies, k, order, regions);
      regions := regions[s.id := Region(previous, s.start, s.start, s.end)];
      order := order + [s.id];
      previous := s.end;
    }
  }

  lemma RegionsNone(bodies: seq<Body>)
    ensures RegionsOf(bodies, 0, [], map[])
  {
  }

  class DocumentSource {
    const original: string
    const preambleEnd: nat
    const trailerStart: nat
    const order: seq<nat>
    const regions: map<nat, Region>
    const rootByBlock: map<nat, nat>
    var dirty: set<nat>
    ghost const bodies: seq<Body>
    ghost const parsed: seq<Block>

    ghost predicate Valid() {
      && Ordered(original, bodies) && DistinctBodies(bodies)
      && RegionsOf(bodies, |bodies|, order, regions)
      && preambleEnd == PreambleEnd(original, bodies) && trailerStart == TrailerStart(original, bodies)
      && RootsIndexed(rootByBlock, parsed)
    }

    constructor (text: string, spans: seq<Body>, blocks: seq<Block>)
      requires Ordered(text, spans) && DistinctBodies(spans) && Apart(blocks)
      ensures Valid() && original == text && bodies == spans && parsed == blocks && dirty == {}
    {
      var preamble, trailer := |text|, |text|;
      if spans != [] {
        preamble, trailer := spans[0].start, spans[|spans| - 1].end;
      }
      var order, regions := BuildRegions(spans);
      var roots := IndexRoots(blocks);
      original, preambleEnd, trailerStart, this.order, this.regions := text, preamble, trailer, order, regions;
      rootByBlock, dirty, bodies, parsed := roots, {}, spans, blocks;
    }

    /** An edit anywhere inside a root makes that root dirty and no other. */
    method MarkBlockDirty(id: nat)
      requires Valid()
      modifies this
      ensures forall k :: 0 <= k < |parsed| && Within(parsed[k], id) ==> dirty == old(dirty) + {parsed[k].id}
      ensures (forall k :: 0 <= k < |parsed| ==> !Within(parsed[k], id)) ==> dirty == old(dirty)
    {
      if id in rootByBlock {
        dirty := dirty + {rootByBlock[id]};
        ghost var k :| 0 <= k < |parsed| && Within(parsed[k], id);
      }
    }

    /** The exact serialization of the blocks; `show` prints a block that has no clean source. */
    method Render(blocks: seq<Block>, show: Block -> string) returns (output: string)
      requires Valid()
      ensures output == Rendered(original, bodies, dirty, blocks, show)
      ensures Lays(original, bodies, dirty, blocks, show, output)
    {
      hide Ordered, Separator, RegionsOf, RootsIndexed, GapBefore, Written, Lays;
      Inside(original, bodies);
      RenderedLays(original, bodies, dirty, blocks, show);
      output := original[..preambleEnd];
      var previous: Option<nat> := None;
      for k := 0 to |blocks|
        invariant output == Upto(original, bodies, dirty, blocks, show, k)
        invariant previous == if k == 0 then None else At(bodies, blocks[k - 1].id)
      {
        var at, gap := Lead(blocks, k, previous, output);
        var body := BodyText(blocks[k], show);
        output := output + gap + body;
        previous := at;
      }
      if blocks != [] || output != "" {
        output := output + original[trailerStart..];
      }
    }

    /** The text that goes before block `k`. */
    method Lead(blocks: seq<Block>, k: nat, previous: Option<nat>, output: string)
      returns (at: Option<nat>, gap: string)
      requires Valid() && k < |blocks| && previous == if k == 0 then None else At(bodies, blocks[k - 1].id)
      ensures at == At(bodies, blocks[k].id)
      ensures gap == GapBefore(original, bodies, blocks, k, output)
    {
      hide Ordered, Separator, RootsIndexed;
      at := PositionOf(order, blocks[k].id);
      AtIs(bodies, blocks[k].id, at);
      if at.Some? && ((k == 0 && at.value == 0) || (previous.Some? && previous.value + 1 == at.value)) {
        var region := regions[blocks[k].id];
        RegionInside(original, bodies, at.value);
        gap := original[region.leadingStart..region.leadingEnd];
      } else if k > 0 || output != "" {
        gap := Separator(output);
      } else {
        gap := "";
      }
    }

    method BodyText(b: Block, show: Block -> string) returns (body: string)
      requires Valid()
      ensures body == Written(original, bodies, dirty, b, show)
    {
      hide Ordered, RootsIndexed;
      ghost var at := At(bodies, b.id);
      if b.id in regions {
        ghost var k :| 0 <= k < |bodies| && bodies[k].id == b.id;
        AtIs(bodies, b.id, Some(k));
        RegionInside(original, bodies, k);
        var region := regions[b.id];
        body := if b.id in dirty then show(b) else original[region.bodyStart..region.bodyEnd];
      } else {
        body := show(b);
      }
    }
  }

  // ----- parsing a whole text

  /** One past the first closing `---` line from `i` on, or 0. */
  function ClosingFrom(lines: seq<string>, i: nat): (start: nat)
    ensures start <= |lines| && (start > 0 ==> start > i && Trim(lines[start - 1]) == "---")
    ensures forall k :: i <= k < (if start > 0 then start - 1 else |lines|) ==> Trim(lines[k]) != "---"
    decreases |lines| - i
  {
    if i >= |lines| then 0 else if Trim(lines[i]) == "---" then i + 1 else ClosingFrom(lines, i + 1)
  }

  /** The line after the frontmatter, or 0 when there is none. */
  function FrontmatterOf(lines: seq<string>): (start: nat)
    ensures start <= |lines|
  {
    if lines != [] && Trim(lines[0]) == "---" then ClosingFrom(lines, 1) else 0
  }

  /** Frontmatter is what stands between a first line of three dashes and the next such line. */
  lemma FrontmatterShape(lines: seq<string>, n: nat)
    requires n > 0
    ensures FrontmatterOf(lines) == n <==>
      && 2 <= n <= |lines| && Trim(lines[0]) == "---" && Trim(lines[n - 1]) == "---"
      && forall k :: 1 <= k < n - 1 ==> Trim(lines[k]) != "---"
  {
    hide Trim;
    if lines != [] && Trim(lines[0]) == "---" {
      var start := ClosingFrom(lines, 1);
      assert start > 0 ==> start - 1 >= 1;
    }
  }

  method FrontmatterEnd(lines: seq<string>) returns (start: nat)
    ensures start == FrontmatterOf(lines)
  {
    hide Trim;
    start := 0;
    if lines != [] && Trim(lines[0]) == "---" {
      var index: nat := 1;
      while index < |lines|
        invariant 1 <= index <= |lines| && ClosingFrom(lines, index) == ClosingFrom(lines, 1)
      {
        if Trim(lines[index]) == "---" {
          return index + 1;
        }
        index := index + 1;
      }
    }
  }

  /** Later lines start after earlier lines end. */
  lemma {:induction false} StartsGrow(text: string, from: nat, lines: seq<Line>, i: nat, j: nat)
    requires LinesTile(text, from, lines) && i < j < |lines|
    ensures lines[i].contentEnd <= lines[j].start
    decreases j
  {
    assert LineTiles(text, lines, j - 1);
    if i < j - 1 {
      StartsGrow(text, from, lines, i, j - 1);
    }
  }

  /** The part of the text that a span of lines takes. */
  function BodyOf(lines: seq<Line>, offset: nat, s: Span, id: nat): Body
    requires s.start < s.end && offset + s.end <= |lines|
  {
    Body(id, lines[offset + s.start].start, lines[offset + s.end - 1].contentEnd)
  }

  /** A line starts the text or follows a newline. */
  lemma LineStarts(text: string, lines: seq<Line>, i: nat)
    requires LinesTile(text, 0, lines) && i < |lines|
    ensures lines[i].start == 0 || (lines[i].start <= |text| && text[lines[i].start - 1] == '\n')
  {
    if i > 0 {
      var line, next := lines[i - 1], lines[i].start;
      assert LineTiles(text, lines, i - 1) && SourceLines.NextStart(text, lines, i - 1) == next;
      assert text[line.contentEnd..next][next - line.contentEnd - 1] == text[next - 1];
    }
  }

  /** A line ends with the text or before a line terminator, and its content is what lies between. */
  lemma LineEnds(text: string, lines: seq<Line>, i: nat)
    requires LinesTile(text, 0, lines) && i < |lines|
    ensures var end := lines[i].contentEnd;
      && lines[i].start <= end <= |text| && lines[i].text == text[lines[i].start..end]
      && (end == |text| || text[end] == '\n' || (end + 1 < |text| && text[end] == '\r' && text[end + 1] == '\n'))
  {
    assert LineTiles(text, lines, i);
    var end, next := lines[i].contentEnd, SourceLines.NextStart(text, lines, i);
    if end < |text| {
      assert text[end..next][0] == text[end];
      assert next - end == 2 ==> text[end..next][1] == text[end + 1];
    }
  }

  /** A body starts with its first line, ends with its last, and holds its lines whole. */
  lemma BodyShape(text: string, lines: seq<Line>, offset: nat, s: Span, id: nat, k: nat)
    requires LinesTile(text, 0, lines) && s.start <= k < s.end && offset + s.end <= |lines|
    ensures var b := BodyOf(lines, offset, s, id);
      && b.id == id && b.start <= lines[offset + k].start <= lines[offset + k].contentEnd <= b.end
      && (k == s.start ==> lines[offset + k].start == b.start)
      && (k + 1 == s.end ==> lines[offset + k].contentEnd == b.end)
  {
    var first, last, at: nat := offset + s.start, offset + s.end - 1, offset + k;
    assert LineTiles(text, lines, first) && LineTiles(text, lines, last) && LineTiles(text, lines, at);
    hide LinesTile;
    if first < at {
      StartsGrow(text, 0, lines, first, at);
    }
    if at < last {
      StartsGrow(text, 0, lines, at, last);
    }
  }

  ghost predicate BodiesOf(lines: seq<Line>, offset: nat, spans: seq<Span>, blocks: seq<Block>, bodies: seq<Body>) {
    && |bodies| == |spans| == |blocks|
    && forall k :: 0 <= k < |spans| ==>
         && spans[k].start < spans[k].end && offset + spans[k].end <= |lines|
         && bodies[k] == BodyOf(lines, offset, spans[k], blocks[k].id)
  }

  lemma BodiesOrdered(text: string, lines: seq<Line>, offset: nat, spans: seq<Span>, blocks: seq<Block>,
          bodies: seq<Body>)
    requires LinesTile(text, 0, lines) && BodiesOf(lines, offset, spans, blocks, bodies)
    requires forall j, k :: 0 <= j < k < |spans| ==> spans[j].end <= spans[k].start
    ensures Ordered(text, bodies)
  {
    forall k | 0 <= k < |bodies| ensures bodies[k].start <= bodies[k].end <= |text| {
      var first, last: nat := offset + spans[k].start, offset + spans[k].end - 1;
      assert LineTiles(text, lines, first) && LineTiles(text, lines, last);
      if first < last {
        StartsGrow(text, 0, lines, first, last);
      }
    }
    forall j, k | 0 <= j < k < |bodies| ensures bodies[j].end <= bodies[k].start {
      StartsGrow(text, 0, lines, offset + spans[j].end - 1, offset + spans[k].start);
    }
  }

  lemma NumberedIsApart(blocks: seq<Block>, lo: nat, hi: nat)
    requires Numbered(blocks, lo, hi)
    ensures Apart(blocks)
    ensures forall j, k :: 0 <= j < k < |blocks| ==> blocks[j].id != blocks[k].id
  {
    forall j, k, x: nat | 0 <= j < k < |blocks| && Within(blocks[k], x) ensures !Within(blocks[j], x) {
      NumberedApart(blocks, lo, hi, j, k, x);
    }
    forall j, k | 0 <= j < k < |blocks| ensures blocks[j].id != blocks[k].id {
      assert Within(blocks[k], blocks[k].id) && Within(blocks[j], blocks[j].id);
    }
  }

  /** The blocks of a text, where each lies, and the source that remembers it. */
  method Parse(text: string, marks: string -> nat)
    returns (blocks: seq<Block>, bodies: seq<Body>, source: DocumentSource)
    ensures fresh(source) && source.Valid() && source.original == text && source.dirty == {}
    ensures source.parsed == blocks && source.bodies == bodies && SameRoots(bodies, blocks)
    ensures ReadFrom(text, marks, blocks, bodies)
  {
    hide Reads, Ordered, LinesTile, Numbered, Apart, RootsIndexed, RegionsOf, ReadFrom, BodiesOf, DistinctBodies,
         SameRoots, FrontmatterOf;
    var cut := CutLines(text);
    CutTiles(text, 0);
    var lines := Texts(cut);
    var start := FrontmatterEnd(lines);
    var spans, next;
    ghost var counters;
    blocks, spans, next, counters := ParseBlocks(lines[start..], 1, marks);
    SpansLaidOut(lines[start..], marks, 1, next, blocks, spans, counters);
    bodies := Locate(cut, start, spans, blocks);
    BodiesOrdered(text, cut, start, spans, blocks, bodies);
    NumberedIsApart(blocks, 1, next);
    RootsInPlace(cut, start, spans, blocks, bodies);
    source := new DocumentSource(text, bodies, blocks);
    FoundIn(text, marks, next, spans, counters, blocks, bodies);
  }

  method Locate(cut: seq<Line>, start: nat, spans: seq<Span>, blocks: seq<Block>) returns (bodies: seq<Body>)
    requires |blocks| == |spans| && start <= |cut|
    requires forall k :: 0 <= k < |spans| ==> spans[k].start < spans[k].end <= |cut| - start
    ensures BodiesOf(cut, start, spans, blocks, bodies)
  {
    bodies := seq(|spans|, k requires 0 <= k < |spans| => BodyOf(cut, start, spans[k], blocks[k].id));
  }

  lemma RootsInPlace(cut: seq<Line>, start: nat, spans: seq<Span>, blocks: seq<Block>, bodies: seq<Body>)
    requires BodiesOf(cut, start, spans, blocks, bodies)
    requires forall j, k :: 0 <= j < k < |blocks| ==> blocks[j].id != blocks[k].id
    ensures SameRoots(bodies, blocks) && DistinctBodies(bodies)
  {
  }

  lemma FoundIn(text: string, marks: string -> nat, hi: nat, spans: seq<Span>, counters: seq<nat>, blocks: seq<Block>,
          bodies: seq<Body>)
    requires FoundAt(text, marks, hi, spans, counters, blocks, bodies)
    ensures ReadFrom(text, marks, blocks, bodies)
  {
  }

  lemma SpansLaidOut(lines: seq<string>, marks: string -> nat, lo: nat, hi: nat, blocks: seq<Block>, spans: seq<Span>,
          counters: seq<nat>)
    requires Reads(lines, marks, lo, hi, blocks, spans, counters)
    ensures |blocks| == |spans| && forall k :: 0 <= k < |spans| ==> spans[k].start < spans[k].end <= |lines|
    ensures forall j, k :: 0 <= j < k < |spans| ==> spans[j].end <= spans[k].start
  {
    hide ReadsAt, Blank;
  }

  /** The lines after the frontmatter hold these blocks, numbered from 1, each in its place in the text. */
  ghost predicate FoundAt(text: string, marks: string -> nat, hi: nat, spans: seq<Span>, counters: seq<nat>,
          blocks: seq<Block>, bodies: seq<Body>) {
    var cut := Cut(text, 0);
    var start := FrontmatterOf(Texts(cut));
    && Reads(Texts(cut)[start..], marks, 1, hi, blocks, spans, counters) && Numbered(blocks, 1, hi)
    && BodiesOf(cut, start, spans, blocks, bodies)
  }

  ghost predicate ReadFrom(text: string, marks: string -> nat, blocks: seq<Block>, bodies: seq<Body>) {
    exists hi, spans, counters :: FoundAt(text, marks, hi, spans, counters, blocks, bodies)
  }

  /** The text decides its blocks and where they lie. */
  lemma ReadFromUnique(text: string, marks: string -> nat, blocks: seq<Block>, bodies: seq<Body>, blocks': seq<Block>,
          bodies': seq<Body>)
    requires ReadFrom(text, marks, blocks, bodies) && ReadFrom(text, marks, blocks', bodies')
    ensures blocks == blocks' && bodies == bodies'
  {
    hide Reads, FrontmatterOf, Cut;
    var hi, spans, counters :| FoundAt(text, marks, hi, spans, counters, blocks, bodies);
    var hi', spans', counters' :| FoundAt(text, marks, hi', spans', counters', blocks', bodies');
    var cut := Cut(text, 0);
    var lines := Texts(cut)[FrontmatterOf(Texts(cut))..];
    ReadsUnique(lines, marks, 1, hi, blocks, spans, counters, hi', blocks', spans', counters');
  }

  /** Every id of the document lies under exactly one root. */
  lemma ReadFromApart(text: string, marks: string -> nat, blocks: seq<Block>, bodies: seq<Body>)
    requires ReadFrom(text, marks, blocks, bodies)
    ensures Apart(blocks)
  {
    hide Reads, FrontmatterOf, Cut, Numbered, BodiesOf;
    var hi, spans, counters :| FoundAt(text, marks, hi, spans, counters, blocks, bodies);
    NumberedIsApart(blocks, 1, hi);
  }

  // ----- main results

  ghost predicate Touched(b: Block, touched: seq<nat>) {
    exists t :: 0 <= t < |touched| && Within(b, touched[t])
  }

  /** What each body of the text becomes: the edited block if its root was touched, its own source if not. */
  ghost function PutsFor(text: string, blocks: seq<Block>, bodies: seq<Body>, touched: seq<nat>, show: Block -> string,
          edit: Block -> Block): (put: seq<string>)
    requires Ordered(text, bodies) && |bodies| == |blocks|
    ensures |put| == |blocks|
    ensures forall k :: 0 <= k < |blocks| ==>
              put[k] == if Touched(blocks[k], touched) then show(edit(blocks[k]))
                  else text[bodies[k].start..bodies[k].end]
  {
    seq(|blocks|, k requires 0 <= k < |blocks| =>
      if Touched(blocks[k], touched) then show(edit(blocks[k])) else text[bodies[k].start..bodies[k].end])
  }

  /**
   * Parse a text, edit some blocks at any depth, serialize: the text with the bodies of the roots that hold a
   * touched id replaced, and nothing else changed. Without an edit it is the text itself.
   */
  method EditAndSerialize(text: string, marks: string -> nat, show: Block -> string, touched: seq<nat>,
          edit: Block -> Block)
    returns (output: string, blocks: seq<Block>, bodies: seq<Body>)
    requires forall b :: edit(b).id == b.id
    ensures ReadFrom(text, marks, blocks, bodies) && Ordered(text, bodies) && |bodies| == |blocks|
    ensures output == Patched(text, bodies, PutsFor(text, blocks, bodies, touched, show, edit))
    ensures (forall k :: 0 <= k < |blocks| ==> !Touched(blocks[k], touched)) ==> output == text
    ensures touched == [] ==> output == text
  {
    hide Rendered, ReadFrom, Within, Touched, Ordered, DistinctBodies, RegionsOf, RootsIndexed, Patched;
    var source;
    blocks, bodies, source := Parse(text, marks);
    MarkAll(source, touched);
    var edited := seq(|blocks|, k requires 0 <= k < |blocks| => edit(blocks[k]));
    output := source.Render(edited, show);
    EditIsLocal(text, blocks, bodies, source.dirty, touched, show, edit, edited);
  }

  lemma EditIsLocal(text: string, blocks: seq<Block>, bodies: seq<Body>, dirty: set<nat>, touched: seq<nat>,
          show: Block -> string, edit: Block -> Block, edited: seq<Block>)
    requires Ordered(text, bodies) && DistinctBodies(bodies) && SameRoots(bodies, blocks)
    requires |edited| == |blocks| && forall k :: 0 <= k < |blocks| ==>
        edited[k] == edit(blocks[k]) && edited[k].id == blocks[k].id
    requires forall k :: 0 <= k < |blocks| ==> (blocks[k].id in dirty <==> Touched(blocks[k], touched))
    ensures Rendered(text, bodies, dirty, edited, show) == Patched(text, bodies,
        PutsFor(text, blocks, bodies, touched, show, edit))
    ensures (forall k :: 0 <= k < |blocks| ==> !Touched(blocks[k], touched)) ==>
        Rendered(text, bodies, dirty, edited, show) == text
    ensures touched == [] ==> forall k :: 0 <= k < |blocks| ==> !Touched(blocks[k], touched)
  {
    hide Rendered, Patched, Within;
    RenderedIsPatched(text, bodies, dirty, edited, show);
    var put := AllWritten(text, bodies, dirty, edited, show);
    forall k | 0 <= k < |put|
      ensures put[k] == if Touched(blocks[k], touched) then show(edit(blocks[k]))
          else text[bodies[k].start..bodies[k].end]
    {
      AtIs(bodies, edited[k].id, Some(k));
    }
    assert put == PutsFor(text, blocks, bodies, touched, show, edit);
    if forall k :: 0 <= k < |blocks| ==> !Touched(blocks[k], touched) {
      PatchedBySame(text, bodies, put);
    }
  }

  /** After marking, a root is dirty exactly if an edit touched it. */
  method MarkAll(source: DocumentSource, touched: seq<nat>)
    requires source.Valid() && source.dirty == {} && SameRoots(source.bodies, source.parsed)
    modifies source
    ensures source.Valid()
    ensures forall k :: 0 <= k < |source.parsed| ==>
        (source.parsed[k].id in source.dirty <==> Touched(source.parsed[k], touched))
  {
    hide Within;
    for t := 0 to |touched|
      invariant forall k :: 0 <= k < |source.parsed| ==>
                  (source.parsed[k].id in source.dirty <==> Touched(source.parsed[k], touched[..t]))
    {
      ghost var before := source.dirty;
      source.MarkBlockDirty(touched[t]);
      MarkedNext(source.rootByBlock, source.bodies, source.parsed, before, source.dirty, touched, t);
    }
    assert touched[..|touched|] == touched;
  }

  lemma MarkedNext(byBlock: map<nat, nat>, bodies: seq<Body>, blocks: seq<Block>, before: set<nat>, after: set<nat>,
          touched: seq<nat>, t: nat)
    requires t < |touched| && RootsIndexed(byBlock, blocks) && SameRoots(bodies, blocks) && DistinctBodies(bodies)
    requires forall k :: 0 <= k < |blocks| ==> (blocks[k].id in before <==> Touched(blocks[k], touched[..t]))
    requires forall k :: 0 <= k < |blocks| && Within(blocks[k], touched[t]) ==> after == before + {blocks[k].id}
    requires (forall k :: 0 <= k < |blocks| ==> !Within(blocks[k], touched[t])) ==> after == before
    ensures forall k :: 0 <= k < |blocks| ==> (blocks[k].id in after <==> Touched(blocks[k], touched[..t + 1]))
  {
    hide Within;
    forall k | 0 <= k < |blocks| ensures blocks[k].id in after <==> Touched(blocks[k], touched[..t + 1]) {
      TouchedNext(blocks[k], touched, t);
    }
  }

  lemma TouchedNext(b: Block, touched: seq<nat>, t: nat)
    requires t < |touched|
    ensures Touched(b, touched[..t + 1]) <==> Touched(b, touched[..t]) || Within(b, touched[t])
  {
    hide Within;
    if Within(b, touched[t]) {
      assert Within(b, touched[..t + 1][t]);
    }
    if Touched(b, touched[..t]) {
      var i :| 0 <= i < t && Within(b, touched[..t][i]);
      assert Within(b, touched[..t + 1][i]);
    }
    if Touched(b, touched[..t + 1]) {
      var i :| 0 <= i < t + 1 && Within(b, touched[..t + 1][i]);
      assert i < t ==> Within(b, touched[..t][i]);
    }
  }
}
