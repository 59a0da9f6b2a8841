/** Causal mark sets, their rendering as spans, and range removal (src/core/mark.rs, src/doc/mark_ops.rs). */
module Marks {
  import opened OpIds

  datatype Bias = Before | After

  datatype Anchor = Anchor(elemId: OpId, bias: Bias)

  datatype MarkKind = Bold | Italic | Code | Link | Custom(name: string)

  datatype MarkValue = StringValue(text: string) | BoolValue(flag: bool)

  datatype Attr = Attr(value: MarkValue, opId: OpId)

  datatype MarkInterval = MarkInterval(id: OpId, kind: MarkKind, start: Anchor, end: Anchor, attrs: map<string, Attr>,
      opId: OpId)

  datatype RemoveMark = RemoveMark(observed: StateVector, opId: OpId)

  type Intervals = map<OpId, MarkInterval>
  type Removes = map<OpId, RemoveMark>

  datatype Span = Span(start: nat, end: nat, marks: seq<OpId>)

  /** A mark resolved to a half-open range of visible graphemes. */
  datatype Range = Range(mark: MarkInterval, start: nat, end: nat)

  // ----- activity and position

  /** An interval is removed once some remove had observed it. */
  predicate IsActive(intervals: Intervals, removes: Removes, id: OpId) {
    && id in intervals
    && (id in removes ==> Get(removes[id].observed, intervals[id].id.peer) < intervals[id].id.counter)
  }

  predicate NoRepeats(order: seq<OpId>) {
    forall i, j :: 0 <= i < j < |order| ==> order[i] != order[j]
  }

  function IndexOf(order: seq<OpId>, id: OpId): (i: nat)
    ensures id in order ==> i < |order| && order[i] == id
    ensures id !in order ==> i == 0
  {
    if id !in order then 0
    else if order[0] == id then 0 else 1 + IndexOf(order[1..], id)
  }

  /** An anchor whose element is not visible falls back to the start. */
  function Resolve(a: Anchor, order: seq<OpId>, len: nat): nat {
    var base := IndexOf(order, a.elemId);
    match a.bias
    case Before => base
    case After => if base + 1 < len then base + 1 else len
  }

  predicate Reaches(m: MarkInterval, order: seq<OpId>, len: nat, g: nat) {
    var s, e := Resolve(m.start, order, len), Resolve(m.end, order, len);
    if s <= e then s <= g < e else e <= g < s
  }

  lemma {:induction false} IndexIs(order: seq<OpId>, i: nat)
    requires NoRepeats(order) && i < |order|
    ensures IndexOf(order, order[i]) == i
  {
    var k := IndexOf(order, order[i]);
    assert order[k] == order[i];
  }

  /** The position an anchor names: before or after its element, or at the start of the text if the element is gone. */
  ghost predicate Stands(a: Anchor, order: seq<OpId>, at: nat) {
    match a.bias
    case Before => (at < |order| && order[at] == a.elemId) || (a.elemId !in order && at == 0)
    case After =>
      || (0 < at <= |order| && order[at - 1] == a.elemId)
      || (a.elemId !in order && at == if order == [] then 0 else 1)
  }

  /** A mark covers exactly the graphemes between the positions its anchors name, whichever comes first. */
  lemma ReachesBetween(m: MarkInterval, order: seq<OpId>, s: nat, e: nat, g: nat)
    requires NoRepeats(order) && Stands(m.start, order, s) && Stands(m.end, order, e)
    ensures Reaches(m, order, |order|, g) <==> s <= g < e || e <= g < s
  {
    StandsThere(m.start, order, s);
    StandsThere(m.end, order, e);
  }

  lemma StandsThere(a: Anchor, order: seq<OpId>, at: nat)
    requires NoRepeats(order) && Stands(a, order, at)
    ensures Resolve(a, order, |order|) == at
  {
    if a.elemId in order {
      IndexIs(order, if a.bias.Before? then at else at - 1);
    }
  }

  /** From before one grapheme to after another: the two and all between them. */
  lemma CoversBetween(m: MarkInterval, order: seq<OpId>, i: nat, j: nat, g: nat)
    requires NoRepeats(order) && i <= j < |order|
    requires m.start == Anchor(order[i], Before) && m.end == Anchor(order[j], After)
    ensures Reaches(m, order, |order|, g) <==> i <= g <= j
  {
    ReachesBetween(m, order, i, j + 1, g);
  }

  ghost predicate MarkedAt(intervals: Intervals, removes: Removes, order: seq<OpId>, len: nat, id: OpId, g: nat) {
    IsActive(intervals, removes, id) && Reaches(intervals[id], order, len, g)
  }

  /** The range of graphemes a mark resolves to, its ends in order. */
  function RangeOf(m: MarkInterval, order: seq<OpId>): Range {
    var s, e := Resolve(m.start, order, |order|), Resolve(m.end, order, |order|);
    Range(m, if s <= e then s else e, if s <= e then e else s)
  }

  /** The range of an active interval. */
  ghost predicate IsRange(intervals: Intervals, removes: Removes, order: seq<OpId>, r: Range) {
    IsActive(intervals, removes, r.mark.id) && r.mark == intervals[r.mark.id] && r == RangeOf(r.mark, order)
  }

  ghost predicate Listed(m: MarkInterval, order: seq<OpId>, rs: seq<Range>) {
    RangeOf(m, order) in rs
  }

  predicate AscendingIds(rs: seq<Range>) {
    forall i, j :: 0 <= i < j < |rs| ==> Less(rs[i].mark.id, rs[j].mark.id)
  }

  /** The ranges of exactly the active intervals, by ascending id. */
  ghost predicate Resolved(intervals: Intervals, removes: Removes, order: seq<OpId>, rs: seq<Range>) {
    && AscendingIds(rs) && (forall r :: r in rs ==> IsRange(intervals, removes, order, r))
    && (forall id :: IsActive(intervals, removes, id) ==> intervals[id].id == id && Listed(intervals[id], order, rs))
  }

  /** The same, of the intervals under the first `i` ids. */
  ghost predicate ResolvedFirst(intervals: Intervals, removes: Removes, order: seq<OpId>, ids: seq<OpId>, i: nat,
          rs: seq<Range>)
    requires i <= |ids|
  {
    && AscendingIds(rs) && (forall r :: r in rs ==> IsRange(intervals, removes, order, r) && r.mark.id in ids[..i])
    && (forall id :: id in ids[..i] && IsActive(intervals, removes, id) ==> Listed(intervals[id], order, rs))
  }

  lemma ResolvedNone(intervals: Intervals, removes: Removes, order: seq<OpId>, ids: seq<OpId>)
    ensures ResolvedFirst(intervals, removes, order, ids, 0, [])
  {
  }

  lemma ResolvedAll(intervals: Intervals, removes: Removes, order: seq<OpId>, ids: seq<OpId>, rs: seq<Range>)
    requires ResolvedFirst(intervals, removes, order, ids, |ids|, rs)
    requires forall id :: id in intervals ==> id in ids && intervals[id].id == id
    ensures Resolved(intervals, removes, order, rs)
    ensures forall i, j :: 0 <= i < j < |rs| ==> rs[i].mark.id != rs[j].mark.id
  {
    hide IsRange, Listed;
    assert ids[..|ids|] == ids;
    assert forall i, j :: 0 <= i < j < |rs| ==> Less(rs[i].mark.id, rs[j].mark.id);
  }

  lemma ResolvedNext(intervals: Intervals, removes: Removes, order: seq<OpId>, ids: seq<OpId>, i: nat, rs: seq<Range>)
    requires i < |ids| && SortedIds(ids) && ids[i] in intervals && intervals[ids[i]].id == ids[i]
    requires ResolvedFirst(intervals, removes, order, ids, i, rs)
    ensures ResolvedFirst(intervals, removes, order, ids, i + 1,
                          if IsActive(intervals, removes, ids[i]) then rs + [RangeOf(intervals[ids[i]], order)] else rs)
  {
    var id := ids[i];
    var r := RangeOf(intervals[id], order);
    assert r.mark == intervals[id];
    assert ids[..i + 1] == ids[..i] + [id];
    if IsActive(intervals, removes, id) {
      assert IsRange(intervals, removes, order, r);
      AppendAscends(ids, i, rs, r);
      forall x | x in ids[..i + 1] && IsActive(intervals, removes, x) ensures Listed(intervals[x], order, rs + [r]) {
        assert x != id ==> Listed(intervals[x], order, rs);
      }
    }
    hide IsRange, Listed, RangeOf, IsActive;
  }

  lemma AppendAscends(ids: seq<OpId>, i: nat, rs: seq<Range>, r: Range)
    requires i < |ids| && SortedIds(ids) && AscendingIds(rs) && r.mark.id == ids[i] && forall x :: x in rs ==>
        x.mark.id in ids[..i]
    ensures AscendingIds(rs + [r])
  {
    forall k | 0 <= k < |rs| ensures Less(rs[k].mark.id, ids[i]) {
      assert rs[k] in rs;
    }
  }

  // ----- spans

  /** The ids of the active intervals that cover `g`, ascending. */
  ghost predicate MarksAt(intervals: Intervals, removes: Removes, order: seq<OpId>, len: nat, g: nat, marks: seq<OpId>)
          {
    SortedIds(marks) && forall id :: id in marks <==> MarkedAt(intervals, removes, order, len, id, g)
  }

  /** Span `k` starts where the one before it ends, and its marks differ. */
  predicate Meets(spans: seq<Span>, k: nat)
    requires 0 < k < |spans|
  {
    spans[k - 1].end == spans[k].start && spans[k - 1].marks != spans[k].marks
  }

  /** Spans tile [from, len) in order, none empty, neighbours differ, and each position has its marks. */
  ghost predicate SpansOk(intervals: Intervals, removes: Removes, order: seq<OpId>, len: nat, from: nat,
          spans: seq<Span>) {
    && (if spans == [] then from == len else spans[0].start == from && spans[|spans| - 1].end == len)
    && (forall k :: 0 <= k < |spans| ==> spans[k].start < spans[k].end <= len)
    && (forall k :: 0 < k < |spans| ==> Meets(spans, k))
    && (forall k, g :: 0 <= k < |spans| && spans[k].start <= g < spans[k].end ==>
        MarksAt(intervals, removes, order, len, g, spans[k].marks))
  }

  lemma MarksAtUnique(intervals: Intervals, removes: Removes, order: seq<OpId>, len: nat, g: nat, a: seq<OpId>,
          b: seq<OpId>)
    requires MarksAt(intervals, removes, order, len, g, a) && MarksAt(intervals, removes, order, len, g, b)
    ensures a == b
  {
    SameSorted(a, b);
  }

  lemma {:induction false} SameSorted(a: seq<OpId>, b: seq<OpId>)
    requires SortedIds(a) && SortedIds(b) && forall id :: id in a <==> id in b
    ensures a == b
  {
    assert a != [] ==> a[0] in b;
    assert b != [] ==> b[0] in a;
    if a != [] {
      assert a[0] == b[0];
      forall id ensures id in a[1..] <==> id in b[1..] {
        assert id in a[1..] ==> id in b && id != a[0];
        assert id in b[1..] ==> id in a && id != b[0];
      }
      SameSorted(a[1..], b[1..]);
      assert a == [a[0]] + a[1..] && b == [b[0]] + b[1..];
    }
  }

  /** There is only one such partition: the first spans agree, and so on. */
  lemma {:induction false} SpansUnique(intervals: Intervals, removes: Removes, order: seq<OpId>, len: nat, from: nat,
          a: seq<Span>, b: seq<Span>)
    requires SpansOk(intervals, removes, order, len, from, a) && SpansOk(intervals, removes, order, len, from, b)
    ensures a == b
    decreases |a|
  {
    hide SpansOk, MarksAt;
    NoSpans(intervals, removes, order, len, from, a);
    NoSpans(intervals, removes, order, len, from, b);
    if a != [] && b != [] {
      FirstMarks(intervals, removes, order, len, from, a);
      FirstMarks(intervals, removes, order, len, from, b);
      MarksAtUnique(intervals, removes, order, len, from, a[0].marks, b[0].marks);
      FirstNoLonger(intervals, removes, order, len, from, a, b);
      FirstNoLonger(intervals, removes, order, len, from, b, a);
      SpansTail(intervals, removes, order, len, from, a);
      SpansTail(intervals, removes, order, len, from, b);
      SpansUnique(intervals, removes, order, len, a[0].end, a[1..], b[1..]);
      assert a == [a[0]] + a[1..] && b == [b[0]] + b[1..];
    }
  }

  lemma FirstMarks(intervals: Intervals, removes: Removes, order: seq<OpId>, len: nat, from: nat, a: seq<Span>)
    requires SpansOk(intervals, removes, order, len, from, a) && a != []
    ensures a[0].start == from < len && MarksAt(intervals, removes, order, len, from, a[0].marks)
  {
    hide MarksAt;
  }

  lemma NoSpans(intervals: Intervals, removes: Removes, order: seq<OpId>, len: nat, from: nat, a: seq<Span>)
    requires SpansOk(intervals, removes, order, len, from, a)
    ensures a == [] <==> from == len
  {
    hide MarksAt;
  }

  lemma SpansTail(intervals: Intervals, removes: Removes, order: seq<OpId>, len: nat, from: nat, a: seq<Span>)
    requires SpansOk(intervals, removes, order, len, from, a) && a != []
    ensures SpansOk(intervals, removes, order, len, a[0].end, a[1..])
  {
    hide MarksAt;
    assert |a| > 1 ==> Meets(a, 1);
    forall k | 0 < k < |a[1..]| ensures Meets(a[1..], k) {
      assert Meets(a, k + 1);
    }
  }

  lemma FirstNoLonger(intervals: Intervals, removes: Removes, order: seq<OpId>, len: nat, from: nat, a: seq<Span>,
          b: seq<Span>)
    requires SpansOk(intervals, removes, order, len, from, a) && SpansOk(intervals, removes, order, len, from, b)
    requires a != [] && b != [] && a[0].marks == b[0].marks
    ensures a[0].end <= b[0].end
  {
    if a[0].end > b[0].end {
      assert |b| > 1 && Meets(b, 1);
      var g := b[1].start;
      MarksAtUnique(intervals, removes, order, len, g, a[0].marks, b[1].marks);
      assert false;
    }
  }

  class MarkSet {
    var intervals: Intervals
    var removes: Removes

    ghost predicate Valid()
      reads this
    {
      forall id :: id in intervals ==> intervals[id].id == id
    }

    constructor ()
      ensures Valid() && intervals == map[] && removes == map[]
    {
      intervals, removes := map[], map[];
    }

    /** The lists of active marks per position; each interval adds itself to the positions it covers. */
    method MarksPerPosition(order: seq<OpId>, len: nat) returns (marksAt: seq<seq<OpId>>)
      requires Valid() && NoRepeats(order)
      ensures |marksAt| == len && forall g :: 0 <= g < len ==> MarksAt(intervals, removes, order, len, g, marksAt[g])
    {
      var ids := SortedKeys(intervals);
      marksAt := seq(len, g => []);
      for i := 0 to |ids|
        invariant |marksAt| == len
        invariant forall g :: 0 <= g < len ==> SortedIds(marksAt[g])
        invariant forall g, id :: 0 <= g < len ==>
            (id in marksAt[g] <==> id in ids[..i] && MarkedAt(intervals, removes, order, len, id, g))
      {
        var id := ids[i];
        assert id in intervals && ids[..i + 1] == ids[..i] + [id];
        if IsActive(intervals, removes, id) {
          marksAt := AddInterval(marksAt, intervals[id], order, ids, i);
        }
      }
      assert ids[..|ids|] == ids;
    }

    static method AddInterval(marksAt: seq<seq<OpId>>, m: MarkInterval, order: seq<OpId>, ghost ids: seq<OpId>,
            ghost i: nat)
      returns (out: seq<seq<OpId>>)
      requires SortedIds(ids) && i < |ids| && m.id == ids[i]
      requires forall g :: 0 <= g < |marksAt| ==> SortedIds(marksAt[g]) && forall id :: id in marksAt[g] ==>
          id in ids[..i]
      ensures |out| == |marksAt|
      ensures forall g :: 0 <= g < |out| ==> SortedIds(out[g])
      ensures forall g, id :: 0 <= g < |out| ==>
          (id in out[g] <==> id in marksAt[g] || (id == m.id && Reaches(m, order, |marksAt|, g)))
    {
      var len := |marksAt|;
      var start, end := Resolve(m.start, order, len), Resolve(m.end, order, len);
      var from, to := if start <= end then start else end, if start <= end then end else start;
      out := marksAt;
      for g := from to to
        invariant |out| == len
        invariant forall x :: 0 <= x < len ==> out[x] == if from <= x < g then marksAt[x] + [m.id] else marksAt[x]
      {
        if g < |out| {
          out := out[g := out[g] + [m.id]];
        }
      }
      forall x | 0 <= x < len ensures SortedIds(marksAt[x] + [m.id]) {
        forall j | 0 <= j < |marksAt[x]| ensures Less(marksAt[x][j], m.id) {
          assert marksAt[x][j] in ids[..i];
        }
      }
    }

    /** Group equal neighbours into maximal spans. */
    method RenderSpans(order: seq<OpId>, len: nat) returns (spans: seq<Span>)
      requires Valid() && NoRepeats(order)
      ensures SpansOk(intervals, removes, order, len, 0, spans)
    {
      var marksAt := MarksPerPosition(order, len);
      spans := GroupSpans(marksAt);
      forall k, g | 0 <= k < |spans| && spans[k].start <= g < spans[k].end
        ensures MarksAt(intervals, removes, order, len, g, spans[k].marks)
      {
        assert marksAt[g] == spans[k].marks;
      }
    }

    /** Active intervals resolved to half-open visible ranges. */
    method ResolvedIntervals(order: seq<OpId>) returns (rs: seq<Range>)
      requires Valid()
      ensures Resolved(intervals, removes, order, rs)
      ensures forall i, j :: 0 <= i < j < |rs| ==> rs[i].mark.id != rs[j].mark.id
    {
      hide RangeOf, IsActive, ResolvedFirst;
      var ids := SortedKeys(intervals);
      rs := [];
      ResolvedNone(intervals, removes, order, ids);
      for i := 0 to |ids|
        invariant ResolvedFirst(intervals, removes, order, ids, i, rs)
      {
        assert ids[i] in ids;
        ResolvedNext(intervals, removes, order, ids, i, rs);
        if IsActive(intervals, removes, ids[i]) {
          rs := rs + [RangeOf(intervals[ids[i]], order)];
        }
      }
      ResolvedAll(intervals, removes, order, ids, rs);
    }

    /** Create an interval, or update it if this operation is at least as new as its last one. */
    method SetMark(id: OpId, kind: MarkKind, start: Anchor, end: Anchor, attrs: map<string, MarkValue>, opId: OpId)
      requires Valid()
      modifies this`intervals
      ensures Valid() && id in intervals && intervals == old(intervals)[id := intervals[id]]
      ensures var m := intervals[id];
        if id in old(intervals) && Less(opId, old(intervals)[id].opId)
        then m.(attrs := map[]) == old(intervals)[id].(attrs := map[])
        else m.(attrs := map[]) == MarkInterval(id, kind, start, end, map[], opId)
      ensures intervals[id].attrs == MergeAttrs(if id in old(intervals) then old(intervals)[id].attrs
          else map[], attrs, opId)
    {
      var entry := if id in intervals then intervals[id] else MarkInterval(id, kind, start, end, map[], opId);
      if !Less(opId, entry.opId) {
        entry := entry.(kind := kind, start := start, end := end, opId := opId);
      }
      intervals := intervals[id := entry.(attrs := MergeAttrs(entry.attrs, attrs, opId))];
    }

    /** Record a remove unless a newer one is already recorded. */
    method Remove(id: OpId, observed: StateVector, opId: OpId)
      modifies this`removes
      ensures removes == if id in old(removes) && !Less(old(removes)[id].opId, opId) then old(removes)
                         else old(removes)[id := RemoveMark(observed, opId)]
    {
      if id !in removes || Less(removes[id].opId, opId) {
        removes := removes[id := RemoveMark(observed, opId)];
      }
    }

    /** Remove the part of one mark between two anchors: strike the interval and put back what
        lies outside, under ids that follow `removeId`. A removal that had not seen the mark strikes nothing. */
    method RemoveRange(id: OpId, removeId: OpId, observed: StateVector, from: Anchor, to: Anchor, order: seq<OpId>)
      returns (pieces: seq<MarkInterval>)
      requires Valid() && id in intervals && FreshFor(intervals, removes, id, removeId)
      modifies this
      ensures Valid()
      ensures pieces == if IsActive(old(intervals), old(removes), id)
          then Pieces(old(intervals)[id], from, to, removeId, order) else []
      ensures forall p :: p in pieces ==> SameLook(p, old(intervals)[id])
      ensures Replaced(old(intervals), old(removes), intervals, removes, id,
                       Strikes(old(intervals), old(removes), id, removeId, observed), pieces)
      ensures
        && IsActive(old(intervals), old(removes), id)
        && Strikes(old(intervals), old(removes), id, removeId, observed) ==>
        (RangeMeets(old(intervals)[id], from, to, order)
         <==> LosesExactly(old(intervals), old(removes), intervals, removes, id, removeId, from, to, order))
    {
      hide FreshFor, Pieces, Replaced, FreshPieces, WithPieces;
      pieces := LowerRemoveRange(id, from, to, OpId(removeId.counter + 1, removeId.peer), order);
      PiecesLook(intervals[id], from, to, removeId, order);
      ghost var was := intervals;
      Remove(id, observed, removeId);
      PiecesFresh(was, old(removes), removes, id, from, to, removeId, order);
      InsertPieces(pieces);
      PiecesReplace(was, old(removes), removes, id, pieces);
      if IsActive(was, old(removes), id) && Strikes(was, old(removes), id, removeId, observed) {
        CoverageLost(was, old(removes), intervals, removes, id, removeId, from, to, order);
      }
    }

    method InsertPieces(pieces: seq<MarkInterval>)
      requires Valid() && FreshPieces(intervals, removes, pieces)
      modifies this`intervals
      ensures Valid() && intervals == WithPieces(old(intervals), pieces)
    {
      ghost var was := intervals;
      for k := 0 to |pieces|
        invariant Valid() && intervals == WithPieces(was, pieces[..k])
      {
        var p := pieces[k];
        assert pieces[..k + 1][..k] == pieces[..k];
        PieceStillFresh(was, removes, pieces, k);
        SetMark(p.id, p.kind, p.start, p.end, map a | a in p.attrs :: p.attrs[a].value, p.opId);
        assert intervals[p.id].attrs == p.attrs;
      }
      assert pieces[..|pieces|] == pieces;
    }

    /** The pieces of an active interval outside the removed range; none if it is not active. */
    method LowerRemoveRange(id: OpId, from: Anchor, to: Anchor, nextId: OpId, order: seq<OpId>)
      returns (pieces: seq<MarkInterval>)
      requires nextId.counter > 0
      ensures pieces == if IsActive(intervals, removes, id)
                        then Pieces(intervals[id], from, to, OpId(nextId.counter - 1, nextId.peer), order) else []
    {
      pieces := [];
      if !IsActive(intervals, removes, id) {
        return;
      }
      var m, len := intervals[id], |order|;
      if Resolve(m.start, order, len) < Resolve(from, order, len) {
        pieces := pieces + [Piece(m, m.start, from, nextId)];
      }
      if Resolve(to, order, len) < Resolve(m.end, order, len) {
        pieces := pieces + [Piece(m, to, m.end, OpId(nextId.counter + 1, nextId.peer))];
      }
    }

    static method GroupSpans(marksAt: seq<seq<OpId>>) returns (spans: seq<Span>)
      ensures Grouped(marksAt, |marksAt|, spans)
    {
      hide Grouped;
      spans := [];
      var start: nat := 0;
      GroupedNone(marksAt);
      while start < |marksAt|
        invariant start <= |marksAt| && Grouped(marksAt, start, spans)
        invariant spans != [] && start < |marksAt| ==> spans[|spans| - 1].marks != marksAt[start]
      {
        var end := RunEnd(marksAt, start);
        GroupedNext(marksAt, start, end, spans);
        spans := spans + [Span(start, end, marksAt[start])];
        start := end;
      }
    }

    static method RunEnd(marksAt: seq<seq<OpId>>, start: nat) returns (end: nat)
      requires start < |marksAt|
      ensures start < end <= |marksAt| && forall g :: start <= g < end ==> marksAt[g] == marksAt[start]
      ensures end < |marksAt| ==> marksAt[end] != marksAt[start]
    {
      end := start + 1;
      while end < |marksAt| && marksAt[end] == marksAt[start]
        invariant start < end <= |marksAt| && forall g :: start <= g < end ==> marksAt[g] == marksAt[start]
      {
        end := end + 1;
      }
    }
  }

  lemma GroupedNone(marksAt: seq<seq<OpId>>)
    ensures Grouped(marksAt, 0, [])
  {
  }

  lemma GroupedNext(marksAt: seq<seq<OpId>>, start: nat, end: nat, spans: seq<Span>)
    requires Grouped(marksAt, start, spans) && start < end <= |marksAt|
    requires spans != [] ==> spans[|spans| - 1].marks != marksAt[start]
    requires forall g :: start <= g < end ==> marksAt[g] == marksAt[start]
    ensures Grouped(marksAt, end, spans + [Span(start, end, marksAt[start])])
  {
    var all := spans + [Span(start, end, marksAt[start])];
    forall k | 0 < k < |all| ensures Meets(all, k) {
      assert k < |spans| ==> Meets(spans, k);
    }
    forall k, g | 0 <= k < |all| && all[k].start <= g < all[k].end ensures marksAt[g] == all[k].marks {
    }
  }

  /** Maximal runs of equal lists, up to `to`. */
  predicate Grouped(marksAt: seq<seq<OpId>>, to: nat, spans: seq<Span>) {
    && to <= |marksAt|
    && (if spans == [] then to == 0 else spans[0].start == 0 && spans[|spans| - 1].end == to)
    && (forall k :: 0 <= k < |spans| ==> spans[k].start < spans[k].end <= to)
    && (forall k :: 0 < k < |spans| ==> Meets(spans, k))
    && (forall k, g :: 0 <= k < |spans| && spans[k].start <= g < spans[k].end ==> marksAt[g] == spans[k].marks)
  }

  function MergeAttrs(attrs: map<string, Attr>, more: map<string, MarkValue>, opId: OpId): map<string, Attr> {
    map a | a in attrs.Keys + more.Keys ::
      if a !in more then attrs[a]
      else if a in attrs && Less(opId, attrs[a].opId) then attrs[a] else Attr(more[a], opId)
  }

  /** A copy of `m` over other anchors, all of it stamped with `id`. */
  function Piece(m: MarkInterval, start: Anchor, end: Anchor, id: OpId): MarkInterval {
    MarkInterval(id, m.kind, start, end, map a | a in m.attrs :: Attr(m.attrs[a].value, id), id)
  }

  function Pieces(m: MarkInterval, from: Anchor, to: Anchor, removeId: OpId, order: seq<OpId>): seq<MarkInterval> {
    var len := |order|;
    var left := if Resolve(m.start, order, len) < Resolve(from, order, len)
                then [Piece(m, m.start, from, OpId(removeId.counter + 1, removeId.peer))] else [];
    var right := if Resolve(to, order, len) < Resolve(m.end, order, len)
                 then [Piece(m, to, m.end, OpId(removeId.counter + 2, removeId.peer))] else [];
    left + right
  }

  /** The same kind of mark with the same attribute values. */
  ghost predicate SameLook(p: MarkInterval, m: MarkInterval) {
    && p.kind == m.kind && p.attrs.Keys == m.attrs.Keys
    && forall a :: a in m.attrs ==> p.attrs[a].value == m.attrs[a].value
  }

  lemma PiecesLook(m: MarkInterval, from: Anchor, to: Anchor, removeId: OpId, order: seq<OpId>)
    ensures forall p :: p in Pieces(m, from, to, removeId, order) ==> SameLook(p, m)
  {
  }

  /** Whether the mark is inactive after the removal: by this removal, or by one already recorded that outranks it. */
  predicate Strikes(intervals: Intervals, removes: Removes, id: OpId, removeId: OpId, observed: StateVector)
    requires id in intervals
  {
    if id in removes && !Less(removes[id].opId, removeId) then !IsActive(intervals, removes, id)
    else Get(observed, intervals[id].id.peer) >= intervals[id].id.counter
  }

  /** The ids after the removal's own are unused. */
  ghost predicate FreshFor(intervals: Intervals, removes: Removes, id: OpId, removeId: OpId) {
    forall c :: c == removeId.counter + 1 || c == removeId.counter + 2 ==>
      OpId(c, removeId.peer) !in intervals && OpId(c, removeId.peer) !in removes
  }

  /** Pieces carry new ids, each once, and every part of a piece bears its piece's stamp. */
  ghost predicate FreshPieces(intervals: Intervals, removes: Removes, pieces: seq<MarkInterval>) {
    && (forall k :: 0 <= k < |pieces| ==>
          && pieces[k].id !in intervals && pieces[k].id !in removes && pieces[k].opId == pieces[k].id
          && forall a :: a in pieces[k].attrs ==> pieces[k].attrs[a].opId == pieces[k].id)
    && (forall j, k :: 0 <= j < k < |pieces| ==> pieces[j].id != pieces[k].id)
  }

  lemma PiecesFresh(intervals: Intervals, removes: Removes, removes': Removes, id: OpId, from: Anchor, to: Anchor,
          removeId: OpId, order: seq<OpId>)
    requires id in intervals && FreshFor(intervals, removes, id, removeId) && removes'.Keys <= removes.Keys + {id}
    ensures FreshPieces(intervals, removes', Pieces(intervals[id], from, to, removeId, order))
    ensures FreshPieces(intervals, removes', []) && |Pieces(intervals[id], from, to, removeId, order)| <= 2
  {
    assert OpId(removeId.counter + 1, removeId.peer) !in intervals
        && OpId(removeId.counter + 2, removeId.peer) !in intervals;
  }

  /** The mark is active only if it was not struck, its pieces are, and every other interval is as it was. */
  ghost predicate Replaced(intervals: Intervals, removes: Removes, intervals': Intervals, removes': Removes, id: OpId,
          seen: bool, pieces: seq<MarkInterval>) {
    && (IsActive(intervals', removes', id) <==> !seen)
    && (forall k :: 0 <= k < |pieces| ==>
        IsActive(intervals', removes', pieces[k].id) && intervals'[pieces[k].id] == pieces[k])
    && (forall x :: x != id && (forall p :: p in pieces ==> p.id != x) ==>
          && (IsActive(intervals', removes', x) <==> IsActive(intervals, removes, x))
          && (x in intervals ==> x in intervals' && intervals'[x] == intervals[x]))
  }

  lemma SameActive(intervals: Intervals, removes: Removes, intervals': Intervals, removes': Removes, x: OpId)
    requires (x in intervals' <==> x in intervals) && (x in intervals ==> intervals'[x] == intervals[x])
    requires (x in removes' <==> x in removes) && (x in removes ==> removes'[x] == removes[x])
    ensures IsActive(intervals', removes', x) <==> IsActive(intervals, removes, x)
  {
  }

  lemma {:induction false} PiecesReplace(intervals: Intervals, removes: Removes, removes': Removes, id: OpId,
          pieces: seq<MarkInterval>)
    requires id in intervals && |pieces| <= 2 && FreshPieces(intervals, removes', pieces)
    requires forall x :: x != id ==> (x in removes' <==> x in removes) && (x in removes ==> removes'[x] == removes[x])
    ensures Replaced(intervals, removes, WithPieces(intervals, pieces), removes', id,
                     !IsActive(intervals, removes', id), pieces)
  {
    hide WithPieces, IsActive, FreshPieces;
    var intervals' := WithPieces(intervals, pieces);
    forall x | x != id && (forall p :: p in pieces ==> p.id != x)
      ensures IsActive(intervals', removes', x) <==> IsActive(intervals, removes, x)
      ensures x in intervals ==> x in intervals' && intervals'[x] == intervals[x]
    {
      OtherStays(intervals, pieces, x);
      SameActive(intervals, removes, intervals', removes', x);
    }
    forall k | 0 <= k < |pieces|
      ensures IsActive(intervals', removes', pieces[k].id)
      ensures pieces[k].id in intervals' && intervals'[pieces[k].id] == pieces[k]
    {
      PieceTakesEffect(intervals, removes', id, pieces, k);
    }
    MarkStays(intervals, removes', id, pieces);
    SameActive(intervals, removes', intervals', removes', id);
  }

  lemma {:induction false} OtherStays(intervals: Intervals, pieces: seq<MarkInterval>, x: OpId)
    requires forall p :: p in pieces ==> p.id != x
    ensures x in WithPieces(intervals, pieces) <==> x in intervals
    ensures x in intervals ==> WithPieces(intervals, pieces)[x] == intervals[x]
  {
    assert forall k :: 0 <= k < |pieces| ==> pieces[k] in pieces;
    WithPiecesKeys(intervals, pieces, x);
  }

  lemma {:induction false} PieceTakesEffect(intervals: Intervals, removes: Removes, id: OpId, pieces: seq<MarkInterval>,
          k: nat)
    requires id in intervals && |pieces| <= 2 && FreshPieces(intervals, removes, pieces) && k < |pieces|
    ensures var now := WithPieces(intervals, pieces);
      IsActive(now, removes, pieces[k].id) && pieces[k].id in now && now[pieces[k].id] == pieces[k]
  {
    PiecesPlaced(intervals, pieces, id);
  }

  lemma {:induction false} MarkStays(intervals: Intervals, removes: Removes, id: OpId, pieces: seq<MarkInterval>)
    requires id in intervals && FreshPieces(intervals, removes, pieces)
    ensures id in WithPieces(intervals, pieces) && WithPieces(intervals, pieces)[id] == intervals[id]
  {
    WithPiecesKeys(intervals, pieces, id);
  }

  function WithPieces(intervals: Intervals, pieces: seq<MarkInterval>): Intervals {
    if pieces == [] then intervals
    else WithPieces(intervals, pieces[..|pieces| - 1])[pieces[|pieces| - 1].id := pieces[|pieces| - 1]]
  }

  lemma {:induction false} WithPiecesKeys(intervals: Intervals, pieces: seq<MarkInterval>, x: OpId)
    requires forall k :: 0 <= k < |pieces| ==> pieces[k].id != x
    ensures x in WithPieces(intervals, pieces) <==> x in intervals
    ensures x in intervals ==> WithPieces(intervals, pieces)[x] == intervals[x]
  {
    if pieces != [] {
      WithPiecesKeys(intervals, pieces[..|pieces| - 1], x);
    }
  }

  lemma PieceStillFresh(intervals: Intervals, removes: Removes, pieces: seq<MarkInterval>, k: nat)
    requires FreshPieces(intervals, removes, pieces) && k < |pieces|
    ensures pieces[k].id !in WithPieces(intervals, pieces[..k])
  {
    WithPiecesKeys(intervals, pieces[..k], pieces[k].id);
  }

  lemma PiecesPlaced(intervals: Intervals, pieces: seq<MarkInterval>, id: OpId)
    requires id in intervals && |pieces| <= 2
    requires forall k :: 0 <= k < |pieces| ==> pieces[k].id !in intervals
    requires forall j, k :: 0 <= j < k < |pieces| ==> pieces[j].id != pieces[k].id
    ensures forall k :: 0 <= k < |pieces| ==>
        pieces[k].id in WithPieces(intervals, pieces) && WithPieces(intervals, pieces)[pieces[k].id] == pieces[k]
    ensures forall x :: (forall p :: p in pieces ==> p.id != x) ==>
      (x in WithPieces(intervals, pieces) <==> x in intervals)
          && (x in intervals ==> WithPieces(intervals, pieces)[x] == intervals[x])
    ensures id in WithPieces(intervals, pieces) && WithPieces(intervals, pieces)[id] == intervals[id]
  {
    forall x | forall p :: p in pieces ==> p.id != x
      ensures (x in WithPieces(intervals, pieces) <==> x in intervals)
          && (x in intervals ==> WithPieces(intervals, pieces)[x] == intervals[x])
    {
      WithPiecesKeys(intervals, pieces, x);
    }
    WithPiecesKeys(intervals, pieces, id);
    if |pieces| == 2 {
      assert pieces[..1] == [pieces[0]] && pieces[..1][..0] == [];
    }
  }

  /** The removed range starts no later than the mark ends, and ends no earlier than the mark starts. */
  predicate RangeMeets(m: MarkInterval, from: Anchor, to: Anchor, order: seq<OpId>) {
    && Resolve(from, order, |order|) <= Resolve(m.end, order, |order|)
    && Resolve(m.start, order, |order|) <= Resolve(to, order, |order|)
  }

  /** Range removal takes away exactly the removed range if and only if the range meets the mark,
      whichever way round the ends of either lie. */
  lemma RemovesExactly(m: MarkInterval, from: Anchor, to: Anchor, removeId: OpId, order: seq<OpId>)
    ensures
      RangeMeets(m, from, to, order)
      <==>
      (forall g: nat :: PieceAt(m, from, to, removeId, order, g) <==>
        Reaches(m, order, |order|, g) && !(Resolve(from, order, |order|) <= g < Resolve(to, order, |order|)))
  {
    var len := |order|;
    var s, e, rs, re := Resolve(m.start, order, len), Resolve(m.end, order, len), Resolve(from, order, len),
        Resolve(to, order, len);
    forall g: nat ensures PieceAt(m, from, to, removeId, order, g) <==>
        (s < rs && s <= g < rs) || (re < e && re <= g < e) {
      PieceAtWhere(m, from, to, removeId, order, g);
    }
    if e < rs {
      assert PieceAt(m, from, to, removeId, order, e) <==> s <= e;
    }
    if re < s {
      var g: nat := if s <= e then re else s - 1;
      assert PieceAt(m, from, to, removeId, order, g) <==> s <= e;
    }
  }

  /** The mark and the two ids its remainders may take. */
  function MarkAndPieces(id: OpId, removeId: OpId): set<OpId> {
    {id, OpId(removeId.counter + 1, removeId.peer), OpId(removeId.counter + 2, removeId.peer)}
  }

  ghost predicate MarkedByAny(intervals: Intervals, removes: Removes, order: seq<OpId>, ids: set<OpId>, g: nat) {
    exists x :: x in ids && MarkedAt(intervals, removes, order, |order|, x, g)
  }

  /** What the mark and its remainders cover is what the mark covered before, without the removed range. */
  ghost predicate LosesExactly(intervals: Intervals, removes: Removes, intervals': Intervals, removes': Removes,
          id: OpId, removeId: OpId, from: Anchor, to: Anchor, order: seq<OpId>) {
    forall g: nat :: MarkedByAny(intervals', removes', order, MarkAndPieces(id, removeId), g) <==>
      MarkedAt(intervals, removes, order, |order|, id, g)
          && !(Resolve(from, order, |order|) <= g < Resolve(to, order, |order|))
  }

  /** After a removal that had seen the mark, coverage is that of the pieces. */
  lemma CoverageLost(intervals: Intervals, removes: Removes, intervals': Intervals, removes': Removes, id: OpId,
          removeId: OpId, from: Anchor, to: Anchor, order: seq<OpId>)
    requires IsActive(intervals, removes, id) && FreshFor(intervals, removes, id, removeId)
    requires Replaced(intervals, removes, intervals', removes', id, true,
        Pieces(intervals[id], from, to, removeId, order))
    ensures RangeMeets(intervals[id], from, to, order)
       <==> LosesExactly(intervals, removes, intervals', removes', id, removeId, from, to, order)
  {
    hide Resolve, RangeMeets, Reaches, MarkedByAny, Replaced, FreshFor;
    var m := intervals[id];
    RemovesExactly(m, from, to, removeId, order);
    forall g: nat ensures MarkedByAny(intervals', removes', order, MarkAndPieces(id, removeId), g) <==>
        PieceAt(m, from, to, removeId, order, g) {
      PiecesMark(intervals, removes, intervals', removes', id, removeId, from, to, order, g);
    }
    hide PieceAt;
  }

  lemma {:induction false} PiecesMark(intervals: Intervals, removes: Removes, intervals': Intervals, removes': Removes,
          id: OpId, removeId: OpId, from: Anchor, to: Anchor, order: seq<OpId>, g: nat)
    requires id in intervals && FreshFor(intervals, removes, id, removeId)
    requires Replaced(intervals, removes, intervals', removes', id, true,
        Pieces(intervals[id], from, to, removeId, order))
    ensures MarkedByAny(intervals', removes', order, MarkAndPieces(id, removeId), g)
       <==> PieceAt(intervals[id], from, to, removeId, order, g)
  {
    hide Resolve, Reaches, Replaced, Pieces, IsActive;
    var pieces, all := Pieces(intervals[id], from, to, removeId, order), MarkAndPieces(id, removeId);
    if MarkedByAny(intervals', removes', order, all, g) {
      var x :| x in all && MarkedAt(intervals', removes', order, |order|, x, g);
      var p := OnlyPieces(intervals, removes, intervals', removes', id, removeId, from, to, order, x);
    }
    if PieceAt(intervals[id], from, to, removeId, order, g) {
      var p :| p in pieces && Reaches(p, order, |order|, g);
      PieceIsActive(intervals, removes, intervals', removes', id, removeId, from, to, order, p);
      assert MarkedAt(intervals', removes', order, |order|, p.id, g);
    }
  }

  /** Of the mark and the ids for its remainders, only the pieces are active. */
  lemma {:induction false} OnlyPieces(intervals: Intervals, removes: Removes, intervals': Intervals, removes': Removes,
          id: OpId, removeId: OpId, from: Anchor, to: Anchor, order: seq<OpId>, x: OpId)
    returns (p: MarkInterval)
    requires id in intervals && FreshFor(intervals, removes, id, removeId)
    requires Replaced(intervals, removes, intervals', removes', id, true,
        Pieces(intervals[id], from, to, removeId, order))
    requires x in MarkAndPieces(id, removeId) && IsActive(intervals', removes', x)
    ensures p in Pieces(intervals[id], from, to, removeId, order) && intervals'[x] == p
  {
    hide Resolve;
    var pieces := Pieces(intervals[id], from, to, removeId, order);
    assert OpId(removeId.counter + 1, removeId.peer) !in intervals
        && OpId(removeId.counter + 2, removeId.peer) !in intervals;
    assert x !in intervals && !IsActive(intervals, removes, x);
    p :| p in pieces && p.id == x;
    var k :| 0 <= k < |pieces| && pieces[k] == p;
  }

  lemma {:induction false} PieceIsActive(intervals: Intervals, removes: Removes, intervals': Intervals,
          removes': Removes, id: OpId, removeId: OpId, from: Anchor, to: Anchor, order: seq<OpId>, p: MarkInterval)
    requires id in intervals && p in Pieces(intervals[id], from, to, removeId, order)
    requires Replaced(intervals, removes, intervals', removes', id, true,
        Pieces(intervals[id], from, to, removeId, order))
    ensures IsActive(intervals', removes', p.id) && intervals'[p.id] == p && p.id in MarkAndPieces(id, removeId)
  {
    hide Resolve;
    var pieces := Pieces(intervals[id], from, to, removeId, order);
    var k :| 0 <= k < |pieces| && pieces[k] == p;
  }

  /** A removal that lies past the mark makes it longer: here the first grapheme of three is marked,
      the third is "removed", and the second ends up marked. */
  lemma RemovalPastTheMarkGrowsIt()
    ensures var order := [OpId(1, 1), OpId(2, 1), OpId(3, 1)];
      var m := MarkInterval(OpId(4, 1), Bold, Anchor(OpId(1, 1), Before), Anchor(OpId(1, 1), After), map[], OpId(4, 1));
      !Reaches(m, order, 3, 1)
          && PieceAt(m, Anchor(OpId(3, 1), Before), Anchor(OpId(3, 1), After), OpId(5, 1), order, 1)
  {
    var order := [OpId(1, 1), OpId(2, 1), OpId(3, 1)];
    var m := MarkInterval(OpId(4, 1), Bold, Anchor(OpId(1, 1), Before), Anchor(OpId(1, 1), After), map[], OpId(4, 1));
    assert order[1..] == [OpId(2, 1), OpId(3, 1)] && order[1..][1..] == [OpId(3, 1)];
    assert IndexOf(order, OpId(1, 1)) == 0;
    assert IndexOf(order, OpId(3, 1)) == 2;
    PieceAtWhere(m, Anchor(OpId(3, 1), Before), Anchor(OpId(3, 1), After), OpId(5, 1), order, 1);
  }

  lemma PieceAtWhere(m: MarkInterval, from: Anchor, to: Anchor, removeId: OpId, order: seq<OpId>, g: nat)
    ensures var len := |order|;
      var s, e, rs, re := Resolve(m.start, order, len), Resolve(m.end, order, len), Resolve(from, order, len),
          Resolve(to, order, len);
      PieceAt(m, from, to, removeId, order, g) <==> (s < rs && s <= g < rs) || (re < e && re <= g < e)
  {
    var len := |order|;
    var s, e, rs, re := Resolve(m.start, order, len), Resolve(m.end, order, len), Resolve(from, order, len),
        Resolve(to, order, len);
    var left := Piece(m, m.start, from, OpId(removeId.counter + 1, removeId.peer));
    var right := Piece(m, to, m.end, OpId(removeId.counter + 2, removeId.peer));
    var pieces := Pieces(m, from, to, removeId, order);
    assert forall p :: p in pieces <==> (s < rs && p == left) || (re < e && p == right);
    assert s < rs ==> (Reaches(left, order, len, g) <==> s <= g < rs);
    assert re < e ==> (Reaches(right, order, len, g) <==> re <= g < e);
  }

  ghost predicate PieceAt(m: MarkInterval, from: Anchor, to: Anchor, removeId: OpId, order: seq<OpId>, g: nat) {
    exists p :: p in Pieces(m, from, to, removeId, order) && Reaches(p, order, |order|, g)
  }
}
