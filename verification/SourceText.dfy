/**
 What an exact rendering writes (src/doc/source.rs): the source's own bytes for blocks that kept their place and were
 not edited, blank lines around blocks that are new or moved.
 */
module SourceText {
  import opened OpIds
  import opened Blocks

  /** Where the body of a root block lies in the text. */
  datatype Body = Body(id: nat, start: nat, end: nat)

  // ----- substitution: what an edit of some bodies means for the text

  /** Bodies lie one after the other inside the text. */
  ghost predicate Ordered(text: string, bodies: seq<Body>) {
    && (forall k :: 0 <= k < |bodies| ==> bodies[k].start <= bodies[k].end <= |text|)
    && (forall j, k :: 0 <= j < k < |bodies| ==> bodies[j].end <= bodies[k].start)
  }

  ghost predicate DistinctBodies(bodies: seq<Body>) {
    forall j, k :: 0 <= j < k < |bodies| ==> bodies[j].id != bodies[k].id
  }

  ghost function Splice(text: string, b: Body, put: string): string
    requires b.start <= b.end <= |text|
  {
    text[..b.start] + put + text[b.end..]
  }

  /** The text with each body replaced, the last one first. */
  ghost function Patched(text: string, bodies: seq<Body>, put: seq<string>): string
    requires Ordered(text, bodies) && |put| == |bodies|
    decreases |bodies|
  {
    if bodies == [] then text
    else
      var n := |bodies| - 1;
      Patched(Splice(text, bodies[n], put[n]), bodies[..n], put[..n])
  }

  /** Replacing every body by itself changes nothing. */
  lemma {:induction false} PatchedBySame(text: string, bodies: seq<Body>, put: seq<string>)
    requires Ordered(text, bodies) && |put| == |bodies|
    requires forall k :: 0 <= k < |bodies| ==> put[k] == text[bodies[k].start..bodies[k].end]
    ensures Patched(text, bodies, put) == text
    decreases |bodies|
  {
    if bodies != [] {
      var n := |bodies| - 1;
      assert Splice(text, bodies[n], put[n]) == text;
      PatchedBySame(text, bodies[..n], put[..n]);
    }
  }

  ghost function PreambleEnd(text: string, bodies: seq<Body>): nat {
    if bodies == [] then |text| else bodies[0].start
  }

  ghost function TrailerStart(text: string, bodies: seq<Body>): nat {
    if bodies == [] then |text| else bodies[|bodies| - 1].end
  }

  /** Where the lead of body `k` starts. */
  ghost function LeadStart(text: string, bodies: seq<Body>, k: nat): nat
    requires k <= |bodies|
  {
    if k == 0 then PreambleEnd(text, bodies) else bodies[k - 1].end
  }

  /** What is written up to and including body `k - 1`, left to right. */
  ghost function Front(text: string, bodies: seq<Body>, put: seq<string>, k: nat): string
    requires Ordered(text, bodies) && |put| == |bodies| && k <= |bodies|
  {
    if k == 0 then text[..PreambleEnd(text, bodies)]
    else Front(text, bodies, put, k - 1) + text[LeadStart(text, bodies, k - 1)..bodies[k - 1].start] + put[k - 1]
  }

  /** The front depends on the text before the last body's start alone. */
  lemma {:induction false} FrontAgrees(text: string, other: string, bodies: seq<Body>, put: seq<string>, k: nat, j: nat)
    requires 0 < k < |bodies| && |put| == |bodies| && Ordered(text, bodies) && j <= k
    requires bodies[k].start <= |other| && other[..bodies[k].start] == text[..bodies[k].start]
    ensures Ordered(other, bodies[..k])
    ensures Front(other, bodies[..k], put[..k], j) == Front(text, bodies, put, j)
  {
    OrderedFewer(text, other, bodies, k);
    if j == 0 {
      SliceAgrees(text, other, bodies[k].start, 0, bodies[0].start);
    } else {
      FrontAgrees(text, other, bodies, put, k, j - 1);
      var from := LeadStart(text, bodies, j - 1);
      SliceAgrees(text, other, bodies[k].start, from, bodies[j - 1].start);
      hide Ordered;
      assert from == LeadStart(other, bodies[..k], j - 1);
    }
  }

  lemma OrderedFewer(text: string, other: string, bodies: seq<Body>, k: nat)
    requires k < |bodies| && Ordered(text, bodies) && bodies[k].start <= |other|
    ensures Ordered(other, bodies[..k])
  {
  }

  lemma SliceAgrees(text: string, other: string, m: nat, a: nat, b: nat)
    requires a <= b <= m <= |text| && m <= |other| && other[..m] == text[..m]
    ensures other[a..b] == text[a..b] && other[..b] == text[..b]
  {
    assert other[a..b] == other[..m][a..b] && text[a..b] == text[..m][a..b];
    assert other[..b] == other[..m][..b] && text[..b] == text[..m][..b];
  }

  /** Writing left to right is replacing in place. */
  lemma {:induction false} FrontIsPatched(text: string, bodies: seq<Body>, put: seq<string>)
    requires Ordered(text, bodies) && |put| == |bodies|
    ensures Front(text, bodies, put, |bodies|) + text[TrailerStart(text, bodies)..] == Patched(text, bodies, put)
    decreases |bodies|
  {
    if bodies == [] {
      assert text[..|text|] + text[|text|..] == text;
    } else if |bodies| == 1 {
      OnlyPatched(text, bodies, put);
    } else {
      var n := |bodies| - 1;
      var last, lead := bodies[n], bodies[n - 1].end;
      var spliced := Splice(text, last, put[n]);
      assert spliced[..last.start] == text[..last.start];
      FrontAgrees(text, spliced, bodies, put, n, n);
      FrontIsPatched(spliced, bodies[..n], put[..n]);
      SplicedTail(text, last, put[n], lead);
      PatchedLast(text, bodies, put);
      hide Ordered, Splice, Patched, Front;
      Regroup(Front(text, bodies, put, n), text[lead..last.start], put[n], text[last.end..]);
    }
  }

  lemma PatchedLast(text: string, bodies: seq<Body>, put: seq<string>)
    requires Ordered(text, bodies) && |put| == |bodies| > 1
    ensures var n := |bodies| - 1;
      && Ordered(Splice(text, bodies[n], put[n]), bodies[..n])
      && Patched(text, bodies, put) == Patched(Splice(text, bodies[n], put[n]), bodies[..n], put[..n])
      && Front(text, bodies, put, n + 1) == Front(text, bodies, put,
          n) + text[bodies[n - 1].end..bodies[n].start] + put[n]
  {
  }

  lemma Regroup(a: string, b: string, c: string, d: string)
    ensures a + (b + c + d) == (a + b + c) + d
  {
  }

  lemma OnlyPatched(text: string, bodies: seq<Body>, put: seq<string>)
    requires Ordered(text, bodies) && |put| == |bodies| == 1
    ensures Front(text, bodies, put, 1) + text[bodies[0].end..] == Patched(text, bodies, put)
  {
    assert text[bodies[0].start..bodies[0].start] == "" && bodies[..0] == [] && put[..0] == [];
    assert Patched(text, bodies, put) == Splice(text, bodies[0], put[0]);
    assert Front(text, bodies, put, 1) == text[..bodies[0].start] + put[0];
  }

  lemma SplicedTail(text: string, b: Body, put: string, from: nat)
    requires from <= b.start <= b.end <= |text|
    ensures Splice(text, b, put)[from..] == text[from..b.start] + put + text[b.end..]
  {
  }

  // ----- what rendering writes

  predicate EndsBlank(out: string) {
    |out| >= 2 && out[|out| - 1] == '\n' && out[|out| - 2] == '\n'
  }

  /** The newlines that must follow `out` so that a blank line ends it. */
  function Separator(out: string): (newlines: string)
    ensures EndsBlank(out + newlines)
  {
    if EndsBlank(out) then "" else if out != "" && out[|out| - 1] == '\n' then "\n" else "\n\n"
  }

  ghost function At(bodies: seq<Body>, id: nat): (at: Option<nat>)
    ensures at.Some? ==> at.value < |bodies| && bodies[at.value].id == id
  {
    if exists k :: 0 <= k < |bodies| && bodies[k].id == id then
      var k: nat :| k < |bodies| && bodies[k].id == id;
      Some(k)
    else None
  }

  lemma AtIs(bodies: seq<Body>, id: nat, at: Option<nat>)
    requires DistinctBodies(bodies)
    requires at.Some? ==> at.value < |bodies| && bodies[at.value].id == id
    requires at.None? ==> forall k :: 0 <= k < |bodies| ==> bodies[k].id != id
    ensures At(bodies, id) == at
  {
  }

  lemma Inside(text: string, bodies: seq<Body>)
    requires Ordered(text, bodies)
    ensures PreambleEnd(text, bodies) <= |text| && TrailerStart(text, bodies) <= |text|
  {
  }

  lemma RegionInside(text: string, bodies: seq<Body>, k: nat)
    requires Ordered(text, bodies) && k < |bodies|
    ensures LeadStart(text, bodies, k) <= bodies[k].start <= bodies[k].end <= |text|
  {
  }

  /** What is written for a block: its own source, unless it is dirty or new. */
  ghost function Written(text: string, bodies: seq<Body>, dirty: set<nat>, b: Block, show: Block -> string): string
    requires Ordered(text, bodies)
  {
    var at := At(bodies, b.id);
    if at.Some? && b.id !in dirty then text[bodies[at.value].start..bodies[at.value].end] else show(b)
  }

  /** Block `k` comes right after the block that preceded it in the source. */
  ghost predicate Follows(bodies: seq<Body>, blocks: seq<Block>, k: nat)
    requires k < |blocks|
  {
    var at := At(bodies, blocks[k].id);
    && at.Some?
    && if k == 0 then at.value == 0
       else var before := At(bodies, blocks[k - 1].id); before.Some? && before.value + 1 == at.value
  }

  /** The source's own gap before a block that kept its place, else a blank line. */
  ghost function GapBefore(text: string, bodies: seq<Body>, blocks: seq<Block>, k: nat, sofar: string): string
    requires Ordered(text, bodies) && k < |blocks|
  {
    if Follows(bodies, blocks, k) then
      var at := At(bodies, blocks[k].id).value;
      RegionInside(text, bodies, at);
      text[LeadStart(text, bodies, at)..bodies[at].start]
    else if k == 0 && sofar == "" then ""
    else Separator(sofar)
  }

  ghost function Upto(text: string, bodies: seq<Body>, dirty: set<nat>, blocks: seq<Block>, show: Block -> string,
          k: nat): string
    requires Ordered(text, bodies) && k <= |blocks|
  {
    if k == 0 then text[..PreambleEnd(text, bodies)]
    else
      var sofar := Upto(text, bodies, dirty, blocks, show, k - 1);
      sofar + GapBefore(text, bodies, blocks, k - 1, sofar) + Written(text, bodies, dirty, blocks[k - 1], show)
  }

  ghost function Rendered(text: string, bodies: seq<Body>, dirty: set<nat>, blocks: seq<Block>, show: Block -> string)
          : string
    requires Ordered(text, bodies)
  {
    var all := Upto(text, bodies, dirty, blocks, show, |blocks|);
    if blocks == [] && all == "" then all else all + text[TrailerStart(text, bodies)..]
  }

  /** Roots keep their ids and their order, whatever happens inside them. */
  ghost predicate SameRoots(bodies: seq<Body>, blocks: seq<Block>) {
    |blocks| == |bodies| && forall k :: 0 <= k < |blocks| ==> blocks[k].id == bodies[k].id
  }

  ghost function AllWritten(text: string, bodies: seq<Body>, dirty: set<nat>, blocks: seq<Block>, show: Block -> string)
          : (put: seq<string>)
    requires Ordered(text, bodies)
    ensures |put| == |blocks|
  {
    seq(|blocks|, k requires 0 <= k < |blocks| => Written(text, bodies, dirty, blocks[k], show))
  }

  /** With the roots in place, rendering is the text with the bodies of dirty roots replaced. */
  lemma RenderedIsPatched(text: string, bodies: seq<Body>, dirty: set<nat>, blocks: seq<Block>, show: Block -> string)
    requires Ordered(text, bodies) && DistinctBodies(bodies) && SameRoots(bodies, blocks)
    ensures Rendered(text, bodies, dirty, blocks, show) == Patched(text, bodies,
        AllWritten(text, bodies, dirty, blocks, show))
  {
    var put := AllWritten(text, bodies, dirty, blocks, show);
    UptoIsFront(text, bodies, dirty, blocks, show, |blocks|);
    FrontIsPatched(text, bodies, put);
    if blocks == [] {
      assert text[|text|..] == "";
    }
  }

  lemma {:induction false} UptoIsFront(text: string, bodies: seq<Body>, dirty: set<nat>, blocks: seq<Block>,
          show: Block -> string, k: nat)
    requires Ordered(text, bodies) && DistinctBodies(bodies) && SameRoots(bodies, blocks) && k <= |blocks|
    ensures Upto(text, bodies, dirty, blocks, show, k)
         == Front(text, bodies, AllWritten(text, bodies, dirty, blocks, show), k)
    decreases k
  {
    hide Ordered, GapBefore, Written, Follows, AllWritten, DistinctBodies;
    if k > 0 {
      UptoIsFront(text, bodies, dirty, blocks, show, k - 1);
      UptoStep(text, bodies, dirty, blocks, show, k);
      FrontStep(text, bodies, AllWritten(text, bodies, dirty, blocks, show), k);
      GapKept(text, bodies, blocks, k - 1, Upto(text, bodies, dirty, blocks, show, k - 1));
      WrittenAt(text, bodies, dirty, blocks, show, k - 1);
      hide Upto, Front;
    }
  }

  lemma {:induction false} UptoStep(text: string, bodies: seq<Body>, dirty: set<nat>, blocks: seq<Block>,
          show: Block -> string, k: nat)
    requires Ordered(text, bodies) && 0 < k <= |blocks|
    ensures var sofar := Upto(text, bodies, dirty, blocks, show, k - 1);
      Upto(text, bodies, dirty, blocks, show, k)
        == sofar + GapBefore(text, bodies, blocks, k - 1, sofar) + Written(text, bodies, dirty, blocks[k - 1], show)
  {
    hide Ordered, GapBefore, Written;
  }

  lemma {:induction false} FrontStep(text: string, bodies: seq<Body>, put: seq<string>, k: nat)
    requires Ordered(text, bodies) && |put| == |bodies| && 0 < k <= |bodies|
    ensures LeadStart(text, bodies, k - 1) <= bodies[k - 1].start <= |text|
    ensures Front(text, bodies, put, k)
         == Front(text, bodies, put, k - 1) + text[LeadStart(text, bodies, k - 1)..bodies[k - 1].start] + put[k - 1]
  {
    RegionInside(text, bodies, k - 1);
    hide Ordered;
  }

  lemma WrittenAt(text: string, bodies: seq<Body>, dirty: set<nat>, blocks: seq<Block>, show: Block -> string, k: nat)
    requires Ordered(text, bodies) && k < |blocks|
    ensures |AllWritten(text, bodies, dirty, blocks, show)| == |blocks|
    ensures AllWritten(text, bodies, dirty, blocks, show)[k] == Written(text, bodies, dirty, blocks[k], show)
  {
    hide Ordered, Written;
  }

  /** With the roots in place, every gap is the source's own. */
  lemma GapKept(text: string, bodies: seq<Body>, blocks: seq<Block>, k: nat, sofar: string)
    requires Ordered(text, bodies) && DistinctBodies(bodies) && SameRoots(bodies, blocks) && k < |blocks|
    ensures LeadStart(text, bodies, k) <= bodies[k].start <= |text|
    ensures GapBefore(text, bodies, blocks, k, sofar) == text[LeadStart(text, bodies, k)..bodies[k].start]
  {
    hide Ordered, At, Separator;
    RegionInside(text, bodies, k);
    AtIs(bodies, blocks[k].id, Some(k));
    if k > 0 {
      AtIs(bodies, blocks[k - 1].id, Some(k - 1));
    }
  }

  // ----- the layout of any list of blocks, stated over the output alone

  ghost predicate BlankBefore(output: string, at: nat) {
    2 <= at <= |output| && output[at - 1] == '\n' && output[at - 2] == '\n'
  }

  /** Only newlines, and no more of them than it takes to end in a blank line. */
  ghost predicate SetApart(output: string, from: nat, to: nat) {
    && from <= to <= |output| && BlankBefore(output, to)
    && (forall x :: from <= x < to ==> output[x] == '\n' && !BlankBefore(output, x))
  }

  /** The two blocks were neighbours in the source. */
  ghost predicate Neighbours(bodies: seq<Body>, i: nat, a: Block, b: Block) {
    i + 1 < |bodies| && bodies[i].id == a.id && bodies[i + 1].id == b.id
  }

  ghost predicate WereNeighbours(bodies: seq<Body>, a: Block, b: Block) {
    exists i: nat :: Neighbours(bodies, i, a, b)
  }

  /** A block is written as its own source bytes if it has any and was not edited. */
  ghost predicate Stands(text: string, bodies: seq<Body>, dirty: set<nat>, b: Block, show: Block -> string,
          piece: string)
    requires Ordered(text, bodies)
  {
    if b.id in dirty || forall i :: 0 <= i < |bodies| ==> bodies[i].id != b.id then piece == show(b)
    else forall i :: 0 <= i < |bodies| && bodies[i].id == b.id ==> piece == text[bodies[i].start..bodies[i].end]
  }

  /** What is between two blocks: the source's own gap if they were neighbours there, else a blank line. */
  ghost predicate Parted(text: string, bodies: seq<Body>, a: Block, b: Block, output: string, from: nat, to: nat)
    requires Ordered(text, bodies)
  {
    if WereNeighbours(bodies, a, b)
    then from <= to <= |output| && forall i: nat :: Neighbours(bodies, i, a, b) ==>
        output[from..to] == text[bodies[i].end..bodies[i + 1].start]
    else SetApart(output, from, to)
  }

  /** What is before the first block: the source's own front, and a blank line unless the block was first there too or
      nothing precedes it. */
  ghost predicate Headed(text: string, bodies: seq<Body>, b: Block, output: string, to: nat) {
    var front := PreambleEnd(text, bodies);
    && front <= |text| && front <= to <= |output| && output[..front] == text[..front]
    && if front == 0 || (bodies != [] && bodies[0].id == b.id) then to == front else SetApart(output, front, to)
  }

  /** Where the blocks of `output` stand. */
  datatype Place = Place(start: nat, end: nat)

  ghost predicate LaidOut(text: string, bodies: seq<Body>, dirty: set<nat>, blocks: seq<Block>, show: Block -> string,
          output: string, places: seq<Place>)
    requires Ordered(text, bodies)
  {
    && |places| == |blocks|
    && (forall k :: 0 <= k < |places| ==>
          && places[k].start <= places[k].end <= |output|
          && Stands(text, bodies, dirty, blocks[k], show, output[places[k].start..places[k].end]))
    && (places != [] ==> Headed(text, bodies, blocks[0], output, places[0].start))
    && (forall k :: 0 < k < |places| ==> PartedAt(text, bodies, blocks, output, places, k))
  }

  ghost predicate PartedAt(text: string, bodies: seq<Body>, blocks: seq<Block>, output: string, places: seq<Place>,
          k: nat)
    requires Ordered(text, bodies) && 0 < k < |places| == |blocks|
  {
    Parted(text, bodies, blocks[k - 1], blocks[k], output, places[k - 1].end, places[k].start)
  }

  /** The whole output: the blocks, and after them what followed the last one in the source. */
  ghost predicate Lays(text: string, bodies: seq<Body>, dirty: set<nat>, blocks: seq<Block>, show: Block -> string,
          output: string)
    requires Ordered(text, bodies)
  {
    var front, tail := PreambleEnd(text, bodies), TrailerStart(text, bodies);
    && front <= |text| && tail <= |text|
    && if blocks == [] then output == if front == 0 then "" else text[..front] + text[tail..]
       else exists places: seq<Place> ::
         && LaidOut(text, bodies, dirty, blocks, show, output, places)
         && output[places[|places| - 1].end..] == text[tail..]
  }

  // ----- rendering lays the blocks out so

  lemma SeparatorParts(sofar: string, more: string)
    ensures SetApart(sofar + Separator(sofar) + more, |sofar|, |sofar + Separator(sofar)|)
  {
  }

  /** Nothing written later moves what is there. */
  lemma ApartStays(output: string, more: string, from: nat, to: nat)
    requires SetApart(output, from, to)
    ensures SetApart(output + more, from, to)
  {
  }

  lemma WrittenStands(text: string, bodies: seq<Body>, dirty: set<nat>, b: Block, show: Block -> string)
    requires Ordered(text, bodies) && DistinctBodies(bodies)
    ensures Stands(text, bodies, dirty, b, show, Written(text, bodies, dirty, b, show))
  {
    var at := At(bodies, b.id);
    assert at.None? ==> forall i :: 0 <= i < |bodies| ==> bodies[i].id != b.id;
  }

  lemma FollowsIsNeighbour(bodies: seq<Body>, blocks: seq<Block>, k: nat)
    requires DistinctBodies(bodies) && 0 < k < |blocks|
    ensures Follows(bodies, blocks, k) <==> WereNeighbours(bodies, blocks[k - 1], blocks[k])
    ensures Follows(bodies, blocks, k) ==>
      && At(bodies, blocks[k].id).value > 0
      && Neighbours(bodies, At(bodies, blocks[k].id).value - 1, blocks[k - 1], blocks[k])
  {
    var a, b := blocks[k - 1], blocks[k];
    if WereNeighbours(bodies, a, b) {
      var i: nat :| Neighbours(bodies, i, a, b);
      AtIs(bodies, a.id, Some(i));
      AtIs(bodies, b.id, Some(i + 1));
    }
    if Follows(bodies, blocks, k) {
      assert Neighbours(bodies, At(bodies, b.id).value - 1, a, b);
    }
  }

  lemma NeighboursOnce(bodies: seq<Body>, a: Block, b: Block, i: nat, j: nat)
    requires DistinctBodies(bodies) && Neighbours(bodies, i, a, b) && Neighbours(bodies, j, a, b)
    ensures i == j
  {
  }

  lemma GapParts(text: string, bodies: seq<Body>, blocks: seq<Block>, k: nat, sofar: string, more: string)
    requires Ordered(text, bodies) && DistinctBodies(bodies) && 0 < k < |blocks|
    ensures var gap := GapBefore(text, bodies, blocks, k, sofar);
      Parted(text, bodies, blocks[k - 1], blocks[k], sofar + gap + more, |sofar|, |sofar + gap|)
  {
    hide Separator, SetApart;
    var gap, a, b := GapBefore(text, bodies, blocks, k, sofar), blocks[k - 1], blocks[k];
    FollowsIsNeighbour(bodies, blocks, k);
    SeparatorParts(sofar, more);
    if Follows(bodies, blocks, k) {
      var at := At(bodies, b.id).value;
      assert (sofar + gap + more)[|sofar|..|sofar + gap|] == gap;
      RegionInside(text, bodies, at);
      forall i: nat | Neighbours(bodies, i, a, b) ensures i == at - 1 {
        NeighboursOnce(bodies, a, b, i, at - 1);
      }
    }
  }

  lemma GapHeads(text: string, bodies: seq<Body>, blocks: seq<Block>, more: string)
    requires Ordered(text, bodies) && DistinctBodies(bodies) && blocks != []
    ensures PreambleEnd(text, bodies) <= |text|
    ensures var sofar := text[..PreambleEnd(text, bodies)];
      var gap := GapBefore(text, bodies, blocks, 0, sofar);
      Headed(text, bodies, blocks[0], sofar + gap + more, |sofar + gap|)
  {
    hide Separator, SetApart;
    var sofar := text[..PreambleEnd(text, bodies)];
    var gap := GapBefore(text, bodies, blocks, 0, sofar);
    SeparatorParts(sofar, more);
    assert (sofar + gap + more)[..|sofar|] == sofar;
    if bodies != [] && bodies[0].id == blocks[0].id {
      AtIs(bodies, blocks[0].id, Some(0));
      assert text[bodies[0].start..bodies[0].start] == "";
    } else {
      assert !Follows(bodies, blocks, 0);
    }
  }

  /** What stands where it stood. */
  lemma LaidStays(text: string, bodies: seq<Body>, dirty: set<nat>, blocks: seq<Block>, show: Block -> string,
          output: string, more: string, places: seq<Place>)
    requires Ordered(text, bodies) && LaidOut(text, bodies, dirty, blocks, show, output, places)
    ensures LaidOut(text, bodies, dirty, blocks, show, output + more, places)
  {
    hide Ordered, SetApart, Stands, Neighbours;
    var now := output + more;
    forall k | 0 <= k < |places|
      ensures now[places[k].start..places[k].end] == output[places[k].start..places[k].end]
    {
    }
    if places != [] {
      HeadStays(text, bodies, blocks[0], output, more, places[0].start);
    }
    forall k | 0 < k < |places| ensures PartedAt(text, bodies, blocks, now, places, k) {
      assert PartedAt(text, bodies, blocks, output, places, k);
      PartStays(text, bodies, blocks[k - 1], blocks[k], output, more, places[k - 1].end, places[k].start);
    }
  }

  lemma HeadStays(text: string, bodies: seq<Body>, b: Block, output: string, more: string, to: nat)
    requires Headed(text, bodies, b, output, to)
    ensures Headed(text, bodies, b, output + more, to)
  {
    hide SetApart;
    var front := PreambleEnd(text, bodies);
    assert (output + more)[..front] == output[..front];
    if SetApart(output, front, to) {
      ApartStays(output, more, front, to);
    }
  }

  lemma PartStays(text: string, bodies: seq<Body>, a: Block, b: Block, output: string, more: string, from: nat, to: nat)
    requires Ordered(text, bodies) && Parted(text, bodies, a, b, output, from, to)
    ensures Parted(text, bodies, a, b, output + more, from, to)
  {
    hide Ordered, SetApart, Neighbours;
    if WereNeighbours(bodies, a, b) {
      assert (output + more)[from..to] == output[from..to];
    } else {
      ApartStays(output, more, from, to);
    }
  }

  /** The first `k` blocks, with nothing after them. */
  ghost predicate LaidSofar(text: string, bodies: seq<Body>, dirty: set<nat>, blocks: seq<Block>, show: Block -> string,
          k: nat, output: string, places: seq<Place>)
    requires Ordered(text, bodies) && k <= |blocks| && PreambleEnd(text, bodies) <= |text|
  {
    && LaidOut(text, bodies, dirty, blocks[..k], show, output, places)
    && if k == 0 then output == text[..PreambleEnd(text, bodies)] else places[k - 1].end == |output|
  }

  /** One more block. */
  lemma LaidNext(text: string, bodies: seq<Body>, dirty: set<nat>, blocks: seq<Block>, show: Block -> string, k: nat,
          sofar: string, places: seq<Place>)
    returns (now: string, more: seq<Place>)
    requires Ordered(text, bodies) && DistinctBodies(bodies) && k < |blocks| && PreambleEnd(text, bodies) <= |text|
    requires LaidSofar(text, bodies, dirty, blocks, show, k, sofar, places)
    ensures now == sofar + GapBefore(text, bodies, blocks, k, sofar) + Written(text, bodies, dirty, blocks[k], show)
    ensures LaidSofar(text, bodies, dirty, blocks, show, k + 1, now, more)
  {
    var gap, body := GapBefore(text, bodies, blocks, k, sofar), Written(text, bodies, dirty, blocks[k], show);
    var place := Place(|sofar + gap|, |sofar + gap + body|);
    now, more := sofar + gap + body, places + [place];
    WrittenStands(text, bodies, dirty, blocks[k], show);
    if k == 0 {
      GapHeads(text, bodies, blocks, body);
    } else {
      GapParts(text, bodies, blocks, k, sofar, body);
    }
    LaidStays(text, bodies, dirty, blocks[..k], show, sofar, gap + body, places);
    assert sofar + (gap + body) == now && now[place.start..place.end] == body;
    hide Ordered, GapBefore, Written, Stands, Headed, Parted;
    var first := blocks[..k + 1];
    assert first == blocks[..k] + [blocks[k]];
    forall j | 0 < j < |more| ensures PartedAt(text, bodies, first, now, more, j) {
      assert j < k ==> PartedAt(text, bodies, blocks[..k], now, places, j);
    }
  }

  lemma OneMoreLaid(text: string, bodies: seq<Body>, dirty: set<nat>, blocks: seq<Block>, show: Block -> string, k: nat,
          places: seq<Place>)
    returns (more: seq<Place>)
    requires Ordered(text, bodies) && DistinctBodies(bodies) && k < |blocks| && PreambleEnd(text, bodies) <= |text|
    requires LaidSofar(text, bodies, dirty, blocks, show, k, Upto(text, bodies, dirty, blocks, show, k), places)
    ensures LaidSofar(text, bodies, dirty, blocks, show, k + 1, Upto(text, bodies, dirty, blocks, show, k + 1), more)
  {
    hide Ordered, DistinctBodies, GapBefore, Written, PreambleEnd, Upto, LaidSofar;
    var now;
    now, more := LaidNext(text, bodies, dirty, blocks, show, k, Upto(text, bodies, dirty, blocks, show, k), places);
    UptoStep(text, bodies, dirty, blocks, show, k + 1);
  }

  lemma NothingSofar(text: string, bodies: seq<Body>, dirty: set<nat>, blocks: seq<Block>, show: Block -> string)
    requires Ordered(text, bodies) && PreambleEnd(text, bodies) <= |text|
    ensures LaidSofar(text, bodies, dirty, blocks, show, 0, Upto(text, bodies, dirty, blocks, show, 0), [])
  {
  }

  lemma {:induction false} UptoLaid(text: string, bodies: seq<Body>, dirty: set<nat>, blocks: seq<Block>,
          show: Block -> string)
    returns (places: seq<Place>)
    requires Ordered(text, bodies) && DistinctBodies(bodies) && PreambleEnd(text, bodies) <= |text|
    ensures LaidSofar(text, bodies, dirty, blocks, show, |blocks|,
                      Upto(text, bodies, dirty, blocks, show, |blocks|), places)
  {
    hide *;
    places := [];
    NothingSofar(text, bodies, dirty, blocks, show);
    for k := 0 to |blocks|
      invariant LaidSofar(text, bodies, dirty, blocks, show, k, Upto(text, bodies, dirty, blocks, show, k), places)
    {
      places := OneMoreLaid(text, bodies, dirty, blocks, show, k, places);
    }
  }

  lemma LaidLength(text: string, bodies: seq<Body>, dirty: set<nat>, blocks: seq<Block>, show: Block -> string,
          output: string, places: seq<Place>)
    requires Ordered(text, bodies) && LaidOut(text, bodies, dirty, blocks, show, output, places)
    ensures |places| == |blocks|
  {
  }

  lemma TailLaid(text: string, bodies: seq<Body>, dirty: set<nat>, blocks: seq<Block>, show: Block -> string,
          all: string, places: seq<Place>)
    requires Ordered(text, bodies) && blocks != [] && LaidOut(text, bodies, dirty, blocks, show, all, places)
    requires places[|places| - 1].end == |all|
    ensures TrailerStart(text, bodies) <= |text|
        && Lays(text, bodies, dirty, blocks, show, all + text[TrailerStart(text, bodies)..])
  {
    Inside(text, bodies);
    hide Ordered, PartedAt, Stands, Headed;
    var tail := text[TrailerStart(text, bodies)..];
    LaidStays(text, bodies, dirty, blocks, show, all, tail, places);
    assert (all + tail)[|all|..] == tail;
  }

  /** Rendering lays out any list of blocks, whatever was inserted, removed, reordered or edited. */
  lemma RenderedLays(text: string, bodies: seq<Body>, dirty: set<nat>, blocks: seq<Block>, show: Block -> string)
    requires Ordered(text, bodies) && DistinctBodies(bodies)
    ensures Lays(text, bodies, dirty, blocks, show, Rendered(text, bodies, dirty, blocks, show))
  {
    Inside(text, bodies);
    hide Ordered, DistinctBodies, LaidOut;
    if blocks == [] {
      assert text[..0] == "";
    } else {
      hide Upto, Lays;
      var places := UptoLaid(text, bodies, dirty, blocks, show);
      assert blocks[..|blocks|] == blocks;
      LaidLength(text, bodies, dirty, blocks, show, Upto(text, bodies, dirty, blocks, show, |blocks|), places);
      TailLaid(text, bodies, dirty, blocks, show, Upto(text, bodies, dirty, blocks, show, |blocks|), places);
    }
  }

  // ----- one block inserted, one removed

  /** Blocks `a` to `a + m` are the clean roots `i` to `i + m`, in source order. */
  ghost predicate CleanRun(bodies: seq<Body>, dirty: set<nat>, blocks: seq<Block>, a: nat, i: nat, m: nat) {
    && a + m <= |blocks| && i + m <= |bodies|
    && forall x :: a <= x < a + m ==> blocks[x].id == bodies[x - a + i].id && blocks[x].id !in dirty
  }

  /** A run of clean roots is written as the source has it, gaps included. */
  lemma {:induction false} RunWritten(text: string, bodies: seq<Body>, dirty: set<nat>, blocks: seq<Block>,
          show: Block -> string, a: nat, i: nat, m: nat)
    requires Ordered(text, bodies) && DistinctBodies(bodies) && CleanRun(bodies, dirty, blocks, a, i, m) && m > 0
    ensures bodies[i].end <= bodies[i + m - 1].end <= |text|
    ensures Upto(text, bodies, dirty, blocks, show, a + m)
         == Upto(text, bodies, dirty, blocks, show, a + 1) + text[bodies[i].end..bodies[i + m - 1].end]
    decreases m
  {
    hide Upto, GapBefore, Written;
    RegionInside(text, bodies, i);
    hide Ordered, DistinctBodies;
    if m == 1 {
      assert text[bodies[i].end..bodies[i].end] == "";
    } else {
      RunShorter(bodies, dirty, blocks, a, i, m);
      hide CleanRun;
      RunWritten(text, bodies, dirty, blocks, show, a, i, m - 1);
      RunNext(text, bodies, dirty, blocks, show, a, i, m);
    }
  }

  lemma RunShorter(bodies: seq<Body>, dirty: set<nat>, blocks: seq<Block>, a: nat, i: nat, m: nat)
    requires CleanRun(bodies, dirty, blocks, a, i, m) && m > 0
    ensures CleanRun(bodies, dirty, blocks, a, i, m - 1)
  {
  }

  lemma RunNext(text: string, bodies: seq<Body>, dirty: set<nat>, blocks: seq<Block>, show: Block -> string, a: nat,
          i: nat, m: nat)
    requires Ordered(text, bodies) && DistinctBodies(bodies) && CleanRun(bodies, dirty, blocks, a, i, m) && m > 1
    requires bodies[i].end <= bodies[i + m - 2].end <= |text|
    requires Upto(text, bodies, dirty, blocks, show, a + m - 1)
          == Upto(text, bodies, dirty, blocks, show, a + 1) + text[bodies[i].end..bodies[i + m - 2].end]
    ensures bodies[i].end <= bodies[i + m - 1].end <= |text|
    ensures Upto(text, bodies, dirty, blocks, show, a + m)
         == Upto(text, bodies, dirty, blocks, show, a + 1) + text[bodies[i].end..bodies[i + m - 1].end]
  {
    hide Upto, GapBefore, Written, Ordered, DistinctBodies;
    UptoStep(text, bodies, dirty, blocks, show, a + m);
    NextWritten(text, bodies, dirty, blocks, show, a + m - 1, i + m - 1,
                Upto(text, bodies, dirty, blocks, show, a + m - 1));
    Sliced(text, bodies[i].end, bodies[i + m - 2].end, bodies[i + m - 1].end);
    Append(Upto(text, bodies, dirty, blocks, show, a + 1), text[bodies[i].end..bodies[i + m - 2].end],
           text[bodies[i + m - 2].end..bodies[i + m - 1].end], "");
  }

  lemma Sliced(text: string, a: nat, b: nat, c: nat)
    requires a <= b <= c <= |text|
    ensures text[a..b] + text[b..c] == text[a..c]
  {
  }

  /** A clean root right after its source neighbour. */
  lemma NextWritten(text: string, bodies: seq<Body>, dirty: set<nat>, blocks: seq<Block>, show: Block -> string, k: nat,
          at: nat, sofar: string)
    requires Ordered(text, bodies) && DistinctBodies(bodies) && 0 < k < |blocks| && 0 < at < |bodies|
    requires blocks[k].id == bodies[at].id && blocks[k - 1].id == bodies[at - 1].id && bodies[at].id !in dirty
    ensures bodies[at - 1].end <= bodies[at].end <= |text|
    ensures sofar + GapBefore(text, bodies, blocks, k, sofar) + Written(text, bodies, dirty, blocks[k], show)
         == sofar + text[bodies[at - 1].end..bodies[at].end]
  {
    hide Separator;
    AtIs(bodies, blocks[k].id, Some(at));
    AtIs(bodies, blocks[k - 1].id, Some(at - 1));
    RegionInside(text, bodies, at);
    Sliced(text, bodies[at - 1].end, bodies[at].start, bodies[at].end);
  }

  /** Text that needs two newlines after it. */
  ghost predicate EndsInText(s: string) {
    s != "" && s[|s| - 1] != '\n'
  }

  /** A block whose source neighbour is not before it. */
  lemma SetApartWritten(text: string, bodies: seq<Body>, dirty: set<nat>, blocks: seq<Block>, show: Block -> string,
          k: nat)
    requires Ordered(text, bodies) && 0 < k < |blocks| && !Follows(bodies, blocks, k)
    requires EndsInText(Upto(text, bodies, dirty, blocks, show, k))
    ensures Upto(text, bodies, dirty, blocks, show, k + 1)
         == Upto(text, bodies, dirty, blocks, show, k) + "\n\n" + Written(text, bodies, dirty, blocks[k], show)
  {
    UptoStep(text, bodies, dirty, blocks, show, k + 1);
  }

  lemma FirstWritten(text: string, bodies: seq<Body>, dirty: set<nat>, blocks: seq<Block>, show: Block -> string)
    requires Ordered(text, bodies) && DistinctBodies(bodies) && CleanRun(bodies, dirty, blocks, 0, 0, 1)
    ensures bodies[0].end <= |text| && Upto(text, bodies, dirty, blocks, show, 1) == text[..bodies[0].end]
  {
    hide Separator;
    RegionInside(text, bodies, 0);
    AtIs(bodies, blocks[0].id, Some(0));
    UptoStep(text, bodies, dirty, blocks, show, 1);
    assert text[bodies[0].start..bodies[0].start] == "";
    assert text[..bodies[0].end] == text[..bodies[0].start] + text[bodies[0].start..bodies[0].end];
  }

  /** The source up to the end of root `m - 1`, if the document starts with the clean roots up to it. */
  lemma StartWritten(text: string, bodies: seq<Body>, dirty: set<nat>, blocks: seq<Block>, show: Block -> string,
          m: nat)
    requires Ordered(text, bodies) && DistinctBodies(bodies) && m > 0 && CleanRun(bodies, dirty, blocks, 0, 0, m)
    ensures bodies[m - 1].end <= |text|
    ensures Upto(text, bodies, dirty, blocks, show, m) == text[..bodies[m - 1].end]
  {
    hide Upto, Ordered, DistinctBodies;
    RunWritten(text, bodies, dirty, blocks, show, 0, 0, m);
    FirstWritten(text, bodies, dirty, blocks, show);
    Sliced(text, 0, bodies[0].end, bodies[m - 1].end);
  }

  /** The rest of the source from root `i` on, if the document ends with the clean roots from it. */
  lemma EndWritten(text: string, bodies: seq<Body>, dirty: set<nat>, blocks: seq<Block>, show: Block -> string, a: nat,
          i: nat, sofar: string)
    requires Ordered(text, bodies) && DistinctBodies(bodies) && i < |bodies| && a + |bodies| - i == |blocks|
    requires CleanRun(bodies, dirty, blocks, a, i, |bodies| - i)
    requires bodies[i].start <= bodies[i].end <= |text|
    requires Upto(text, bodies, dirty, blocks, show, a + 1) == sofar + text[bodies[i].start..bodies[i].end]
    ensures Rendered(text, bodies, dirty, blocks, show) == sofar + text[bodies[i].start..]
  {
    hide Upto, Ordered, DistinctBodies, CleanRun;
    var last := bodies[|bodies| - 1].end;
    RunWritten(text, bodies, dirty, blocks, show, a, i, |bodies| - i);
    Sliced(text, bodies[i].start, bodies[i].end, last);
    Sliced(text, bodies[i].start, last, |text|);
    Append(sofar, text[bodies[i].start..bodies[i].end], text[bodies[i].end..last], text[last..]);
  }

  lemma Append(a: string, b: string, c: string, d: string)
    ensures ((a + b) + c) + d == a + ((b + c) + d)
  {
  }

  /** The text up to the end of a body ends as the body does. */
  lemma EndsAsBody(text: string, b: Body)
    requires b.start <= b.end <= |text| && EndsInText(text[b.start..b.end])
    ensures EndsInText(text[..b.end])
  {
    assert text[..b.end][b.end - 1] == text[b.start..b.end][b.end - b.start - 1];
  }

  /** A root that comes back after something else. */
  lemma RootAgain(text: string, bodies: seq<Body>, dirty: set<nat>, blocks: seq<Block>, show: Block -> string, k: nat,
          at: nat)
    requires Ordered(text, bodies) && DistinctBodies(bodies) && 0 < k < |blocks| && 0 < at < |bodies|
    requires blocks[k].id == bodies[at].id && bodies[at].id !in dirty && blocks[k - 1].id != bodies[at - 1].id
    requires EndsInText(Upto(text, bodies, dirty, blocks, show, k))
    ensures bodies[at].start <= bodies[at].end <= |text|
    ensures Upto(text, bodies, dirty, blocks, show, k + 1)
         == Upto(text, bodies, dirty, blocks, show, k) + "\n\n" + text[bodies[at].start..bodies[at].end]
  {
    hide Upto;
    AtIs(bodies, blocks[k].id, Some(at));
    SetApartWritten(text, bodies, dirty, blocks, show, k);
  }

  /** A block that is not in the source. */
  lemma NewWritten(text: string, bodies: seq<Body>, dirty: set<nat>, blocks: seq<Block>, show: Block -> string, k: nat)
    requires Ordered(text, bodies) && DistinctBodies(bodies) && 0 < k < |blocks|
    requires forall t :: 0 <= t < |bodies| ==> bodies[t].id != blocks[k].id
    requires EndsInText(Upto(text, bodies, dirty, blocks, show, k)) && EndsInText(show(blocks[k]))
    ensures var now := Upto(text, bodies, dirty, blocks, show, k + 1);
      EndsInText(now) && now == Upto(text, bodies, dirty, blocks, show, k) + "\n\n" + show(blocks[k])
  {
    hide Upto;
    AtIs(bodies, blocks[k].id, None);
    SetApartWritten(text, bodies, dirty, blocks, show, k);
  }

  /** A new block after root `k` stands between blank lines; nothing else in the text changes. */
  lemma InsertedBetween(text: string, bodies: seq<Body>, blocks: seq<Block>, show: Block -> string, k: nat)
    requires Ordered(text, bodies) && DistinctBodies(bodies) && k + 1 < |bodies| && |blocks| == |bodies| + 1
    requires forall t :: 0 <= t <= k ==> blocks[t].id == bodies[t].id
    requires forall t :: k + 1 < t < |blocks| ==> blocks[t].id == bodies[t - 1].id
    requires forall t :: 0 <= t < |bodies| ==> bodies[t].id != blocks[k + 1].id
    requires EndsInText(text[bodies[k].start..bodies[k].end]) && EndsInText(show(blocks[k + 1]))
    ensures Rendered(text, bodies, {}, blocks, show) ==
      text[..bodies[k].end] + "\n\n" + show(blocks[k + 1]) + "\n\n" + text[bodies[k + 1].start..]
  {
    hide Upto, Rendered, EndsInText;
    StartWritten(text, bodies, {}, blocks, show, k + 1);
    EndsAsBody(text, bodies[k]);
    NewWritten(text, bodies, {}, blocks, show, k + 1);
    RootAgain(text, bodies, {}, blocks, show, k + 2, k + 1);
    EndWritten(text, bodies, {}, blocks, show, k + 2, k + 1,
               text[..bodies[k].end] + "\n\n" + show(blocks[k + 1]) + "\n\n");
  }

  /** Without root `j`, its neighbours stand a blank line apart; nothing else in the text changes. */
  lemma RemovedBetween(text: string, bodies: seq<Body>, blocks: seq<Block>, show: Block -> string, j: nat)
    requires Ordered(text, bodies) && DistinctBodies(bodies) && 0 < j && j + 1 < |bodies| && |blocks| + 1 == |bodies|
    requires forall t :: 0 <= t < j ==> blocks[t].id == bodies[t].id
    requires forall t :: j <= t < |blocks| ==> blocks[t].id == bodies[t + 1].id
    requires EndsInText(text[bodies[j - 1].start..bodies[j - 1].end])
    ensures Rendered(text, bodies, {}, blocks, show) ==
      text[..bodies[j - 1].end] + "\n\n" + text[bodies[j + 1].start..]
  {
    hide Upto, Rendered, EndsInText;
    StartWritten(text, bodies, {}, blocks, show, j);
    EndsAsBody(text, bodies[j - 1]);
    RootAgain(text, bodies, {}, blocks, show, j, j + 1);
    EndWritten(text, bodies, {}, blocks, show, j, j + 1, text[..bodies[j - 1].end] + "\n\n");
  }
}
