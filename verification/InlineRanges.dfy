/**
 From overlapping marks to the ranges that are written (src/doc/inline.rs `serialize_text`): of several links the
 latest wins, and marks that print alike are merged. A mark has been resolved to a half-open range of graphemes.
 */
module InlineRanges {
  import opened OpIds
  import opened Marks

  /** Marks with equal keys render alike. */
  datatype Key = Key(kind: MarkKind, open: string, close: string)

  /** The value of a string attribute; a flag under that name does not count. */
  function StringAttr(m: MarkInterval, name: string): Option<string> {
    if name in m.attrs && m.attrs[name].value.StringValue? then Some(m.attrs[name].value.text) else None
  }

  function OrElse(o: Option<string>, default: string): string {
    if o.Some? then o.value else default
  }

  function OpenDelimiter(m: MarkInterval): string {
    match m.kind
    case Bold => OrElse(StringAttr(m, "delimiter"), "**")
    case Italic => OrElse(StringAttr(m, "delimiter"), "*")
    case Code => OrElse(StringAttr(m, "delimiter"), "`")
    case Link => "["
    case Custom(_) => ""
  }

  function CloseDelimiter(m: MarkInterval): string {
    match m.kind
    case Bold => OrElse(StringAttr(m, "delimiter"), "**")
    case Italic => OrElse(StringAttr(m, "delimiter"), "*")
    case Code => OrElse(StringAttr(m, "delimiter"), "`")
    case Link => "](" + OrElse(StringAttr(m, "href"), "") + ")"
    case Custom(_) => ""
  }

  function KeyOf(m: MarkInterval): Key {
    Key(m.kind, OpenDelimiter(m), CloseDelimiter(m))
  }

  function NestingRank(k: MarkKind): nat {
    match k
    case Link => 0
    case Bold => 1
    case Italic => 2
    case Code => 3
    case Custom(_) => 4
  }

  predicate Contains(r: Range, g: nat) {
    r.start <= g < r.end
  }

  /** Marks that resolve to nothing, or past the text, are not rendered. */
  predicate Visible(r: Range, n: nat) {
    r.start < r.end <= n
  }

  predicate DistinctIds(rs: seq<Range>) {
    forall i, j :: 0 <= i < j < |rs| ==> rs[i].mark.id != rs[j].mark.id
  }

  /** Later links win, by operation and then by id. */
  predicate Beats(a: MarkInterval, b: MarkInterval) {
    Less(b.opId, a.opId) || (a.opId == b.opId && Less(b.id, a.id))
  }

  // ----- what the text should look like at one grapheme

  ghost predicate IsLinkWinner(rs: seq<Range>, n: nat, g: nat, w: MarkInterval) {
    && (exists r :: r in rs && Visible(r, n) && Contains(r, g) && r.mark == w && w.kind == Link)
    && (forall r :: r in rs && Visible(r, n) && Contains(r, g) && r.mark.kind == Link && r.mark != w ==>
        Beats(w, r.mark))
  }

  /** The mark is active at `g`; among links only the winner is. */
  ghost predicate ActiveAt(rs: seq<Range>, n: nat, g: nat, r: Range) {
    r in rs && Visible(r, n) && Contains(r, g) && (r.mark.kind == Link ==> IsLinkWinner(rs, n, g, r.mark))
  }

  ghost predicate WantsKey(rs: seq<Range>, n: nat, g: nat, k: Key) {
    exists r :: ActiveAt(rs, n, g, r) && KeyOf(r.mark) == k
  }

  ghost predicate KeyCovered(ps: seq<Range>, k: Key, g: nat) {
    exists p :: p in ps && Contains(p, g) && KeyOf(p.mark) == k
  }

  /** Ranges `ps` cover each grapheme with exactly the wanted keys. */
  ghost predicate SameCoverage(rs: seq<Range>, n: nat, ps: seq<Range>) {
    && (forall p :: p in ps ==> Visible(p, n))
    && (forall g: nat, k :: g < n ==> (KeyCovered(ps, k, g) <==> WantsKey(rs, n, g, k)))
  }

  // ----- link winners

  ghost predicate WinnerOk(rs: seq<Range>, n: nat, g: nat, w: Option<MarkInterval>) {
    match w
    case None => forall r :: r in rs && Visible(r, n) && Contains(r, g) ==> r.mark.kind != Link
    case Some(m) => IsLinkWinner(rs, n, g, m)
  }

  method LinkWinners(rs: seq<Range>, n: nat) returns (winners: seq<Option<MarkInterval>>, plain: seq<Range>)
    requires DistinctIds(rs)
    ensures |winners| == n && forall g :: 0 <= g < n ==> WinnerOk(rs, n, g, winners[g])
    ensures forall p :: p in plain <==> p in rs && Visible(p, n) && p.mark.kind != Link
  {
    winners, plain := seq(n, i => None), [];
    for i := 0 to |rs|
      invariant |winners| == n && forall g :: 0 <= g < n ==> WinnerOk(rs[..i], n, g, winners[g])
      invariant forall p :: p in plain <==> p in rs[..i] && Visible(p, n) && p.mark.kind != Link
    {
      var r := rs[i];
      assert rs[..i + 1] == rs[..i] + [r];
      ghost var was := winners;
      if Visible(r, n) {
        if r.mark.kind == Link {
          winners := Contend(winners, r);
        } else {
          plain := plain + [r];
        }
      }
      forall g | 0 <= g < n ensures WinnerOk(rs[..i + 1], n, g, winners[g]) {
        Contended(rs, i, n, g, was[g], winners[g]);
      }
    }
    assert rs[..|rs|] == rs;
  }

  function Contest(current: Option<MarkInterval>, m: MarkInterval): Option<MarkInterval> {
    if current.None? || Beats(m, current.value) then Some(m) else current
  }

  method Contend(winners: seq<Option<MarkInterval>>, r: Range) returns (out: seq<Option<MarkInterval>>)
    requires r.start <= r.end <= |winners|
    ensures |out| == |winners|
    ensures forall g :: 0 <= g < |out| ==> out[g] == if Contains(r, g) then Contest(winners[g], r.mark) else winners[g]
  {
    out := winners;
    for g := r.start to r.end
      invariant |out| == |winners|
      invariant forall x :: 0 <= x < |out| ==>
          out[x] == if r.start <= x < g then Contest(winners[x], r.mark) else winners[x]
    {
      out := out[g := Contest(out[g], r.mark)];
    }
  }

  lemma Contended(rs: seq<Range>, i: nat, n: nat, g: nat, was: Option<MarkInterval>, now: Option<MarkInterval>)
    requires DistinctIds(rs) && i < |rs| && WinnerOk(rs[..i], n, g, was)
    requires now == if Visible(rs[i], n) && rs[i].mark.kind == Link && Contains(rs[i], g) then Contest(was, rs[i].mark)
        else was
    ensures WinnerOk(rs[..i + 1], n, g, now)
  {
    var r := rs[i];
    assert rs[..i + 1] == rs[..i] + [r];
    assert r in rs[..i + 1] && forall q :: q in rs[..i] ==> q in rs[..i + 1];
    if Visible(r, n) && r.mark.kind == Link && Contains(r, g) && was.Some? {
      var q :| q in rs[..i] && Visible(q, n) && Contains(q, g) && q.mark == was.value && was.value.kind == Link;
      assert q.mark.id != r.mark.id;
    }
  }

  predicate RunOf(winners: seq<Option<MarkInterval>>, p: Range) {
    && p.start < p.end <= |winners| && winners[p.start] == Some(p.mark)
    && forall g :: p.start <= g < p.end ==> winners[g].Some? && winners[g].value.id == p.mark.id
  }

  /** Neighbours have the same winning link. */
  predicate SameWinner(winners: seq<Option<MarkInterval>>, g: nat)
    requires 0 < g < |winners|
  {
    winners[g - 1].Some? && winners[g].Some? && winners[g - 1].value.id == winners[g].value.id
  }

  /** No run goes on past its ends. */
  predicate Maximal(winners: seq<Option<MarkInterval>>, p: Range)
    requires p.start < p.end <= |winners|
  {
    (p.start > 0 ==> !SameWinner(winners, p.start)) && (p.end < |winners| ==> !SameWinner(winners, p.end))
  }

  /** Each maximal run of one winner becomes a range. */
  method LinkRuns(n: nat, winners: seq<Option<MarkInterval>>) returns (runs: seq<Range>)
    requires |winners| == n
    ensures forall p :: p in runs ==> p.start < p.end <= n && RunOf(winners, p) && Maximal(winners, p)
    ensures forall g :: 0 <= g < n && winners[g].Some? ==> exists p :: p in runs && Contains(p, g)
  {
    runs := [];
    var index := 0;
    while index < n
      invariant 0 <= index <= n
      invariant forall p :: p in runs ==> p.start < p.end <= index && RunOf(winners, p) && Maximal(winners, p)
      invariant 0 < index < n ==> !SameWinner(winners, index)
      invariant forall g :: 0 <= g < index && winners[g].Some? ==> exists p :: p in runs && Contains(p, g)
    {
      if winners[index].None? {
        index := index + 1;
      } else {
        var winner, start := winners[index].value, index;
        index := index + 1;
        while index < n && winners[index].Some? && winners[index].value.id == winner.id
          invariant start < index <= n
          invariant forall g :: start <= g < index ==> winners[g].Some? && winners[g].value.id == winner.id
        {
          index := index + 1;
        }
        ghost var had := runs;
        runs := runs + [Range(winner, start, index)];
        assert runs[|had|] == Range(winner, start, index);
        forall g | 0 <= g < index && winners[g].Some? ensures exists p :: p in runs && Contains(p, g) {
          if g >= start {
            assert Range(winner, start, index) in runs && Contains(Range(winner, start, index), g);
          } else {
            var p :| p in had && Contains(p, g);
            assert p in runs;
          }
        }
      }
    }
  }

  lemma OneMarkPerId(rs: seq<Range>, a: Range, b: Range)
    requires DistinctIds(rs) && a in rs && b in rs && a.mark.id == b.mark.id
    ensures a == b
  {
  }

  /** The ranges handed on to merging: plain marks as they are, links as runs of winners. */
  ghost predicate Projected(rs: seq<Range>, n: nat, winners: seq<Option<MarkInterval>>, plain: seq<Range>,
          runs: seq<Range>) {
    && |winners| == n && (forall g :: 0 <= g < n ==> WinnerOk(rs, n, g, winners[g]))
    && (forall p :: p in plain <==> p in rs && Visible(p, n) && p.mark.kind != Link)
    && (forall p :: p in runs ==> RunOf(winners, p))
    && (forall g: nat :: g < n && winners[g].Some? ==> CoveredBy(runs, g))
  }

  /** Plain marks together with link runs cover each grapheme with the wanted keys. */
  lemma ProjectionCovers(rs: seq<Range>, n: nat, winners: seq<Option<MarkInterval>>, plain: seq<Range>,
          runs: seq<Range>)
    requires DistinctIds(rs) && Projected(rs, n, winners, plain, runs)
    ensures SameCoverage(rs, n, plain + runs)
    ensures forall p :: p in plain + runs ==> FromMarks(rs, p.mark)
  {
    hide WantsKey, ActiveAt, IsLinkWinner, DistinctIds;
    forall p | p in plain + runs ensures Visible(p, n) && FromMarks(rs, p.mark) {
      RangeIsMark(rs, n, winners, plain, runs, p);
    }
    forall g: nat, k | g < n ensures KeyCovered(plain + runs, k, g) <==> WantsKey(rs, n, g, k) {
      if KeyCovered(plain + runs, k, g) {
        var p :| p in plain + runs && Contains(p, g) && KeyOf(p.mark) == k;
        RangeIsWanted(rs, n, winners, plain, runs, p, g);
      }
      if WantsKey(rs, n, g, k) {
        var p := WantedIsCovered(rs, n, winners, plain, runs, g, k);
      }
    }
  }

  lemma RangeIsMark(rs: seq<Range>, n: nat, winners: seq<Option<MarkInterval>>, plain: seq<Range>, runs: seq<Range>,
          p: Range)
    requires Projected(rs, n, winners, plain, runs) && p in plain + runs
    ensures Visible(p, n) && FromMarks(rs, p.mark)
  {
    if p in runs {
      assert IsLinkWinner(rs, n, p.start, p.mark);
    }
  }

  lemma RangeIsWanted(rs: seq<Range>, n: nat, winners: seq<Option<MarkInterval>>, plain: seq<Range>, runs: seq<Range>,
          p: Range, g: nat)
    requires DistinctIds(rs) && Projected(rs, n, winners, plain, runs) && p in plain + runs && Contains(p, g)
    ensures WantsKey(rs, n, g, KeyOf(p.mark))
  {
    if p in plain {
      assert ActiveAt(rs, n, g, p);
    } else {
      RunCovers(rs, n, winners, p, g);
    }
  }

  lemma WantedIsCovered(rs: seq<Range>, n: nat, winners: seq<Option<MarkInterval>>, plain: seq<Range>, runs: seq<Range>,
          g: nat, k: Key)
    returns (p: Range)
    requires DistinctIds(rs) && Projected(rs, n, winners, plain, runs) && g < n && WantsKey(rs, n, g, k)
    ensures p in plain + runs && Contains(p, g) && KeyOf(p.mark) == k
  {
    p :| ActiveAt(rs, n, g, p) && KeyOf(p.mark) == k;
    if p.mark.kind == Link {
      assert WinnerOk(rs, n, g, winners[g]);
      SoleWinner(rs, n, g, p.mark, winners[g].value);
      p :| p in runs && Contains(p, g);
      RunCovers(rs, n, winners, p, g);
    }
  }

  /** A mark active at `g` is among the projected ranges that cover `g`. */
  lemma ActiveIsProjected(rs: seq<Range>, n: nat, winners: seq<Option<MarkInterval>>, plain: seq<Range>,
          runs: seq<Range>, g: nat, r: Range)
    returns (p: Range)
    requires DistinctIds(rs) && Projected(rs, n, winners, plain, runs) && g < n && ActiveAt(rs, n, g, r)
    ensures p in plain + runs && Contains(p, g) && p.mark == r.mark
  {
    p := r;
    if r.mark.kind == Link {
      assert WinnerOk(rs, n, g, winners[g]);
      SoleWinner(rs, n, g, r.mark, winners[g].value);
      p :| p in runs && Contains(p, g);
      RunCovers(rs, n, winners, p, g);
    }
  }

  ghost predicate FromMarks(rs: seq<Range>, m: MarkInterval) {
    exists r :: r in rs && r.mark == m
  }

  lemma SoleWinner(rs: seq<Range>, n: nat, g: nat, a: MarkInterval, b: MarkInterval)
    requires IsLinkWinner(rs, n, g, a) && IsLinkWinner(rs, n, g, b)
    ensures a == b
  {
  }

  lemma RunCovers(rs: seq<Range>, n: nat, winners: seq<Option<MarkInterval>>, p: Range, g: nat)
    requires DistinctIds(rs) && |winners| == n && forall x :: 0 <= x < n ==> WinnerOk(rs, n, x, winners[x])
    requires RunOf(winners, p) && Contains(p, g)
    ensures winners[g] == Some(p.mark) && WantsKey(rs, n, g, KeyOf(p.mark))
  {
    var w := winners[g].value;
    assert IsLinkWinner(rs, n, g, w) && IsLinkWinner(rs, n, p.start, p.mark);
    var a :| a in rs && Visible(a, n) && Contains(a, g) && a.mark == w && w.kind == Link;
    var b :| b in rs && Visible(b, n) && Contains(b, p.start) && b.mark == p.mark && p.mark.kind == Link;
    OneMarkPerId(rs, a, b);
    assert ActiveAt(rs, n, g, a);
  }

  // ----- merging marks that render alike

  predicate Separated(a: Range, b: Range) {
    a.end < b.start || b.end < a.start
  }

  predicate InSortedOrder(a: Range, b: Range) {
    || a.start < b.start
    || (a.start == b.start && a.end < b.end)
    || (a.start == b.start && a.end == b.end && (a.mark.id == b.mark.id || Less(a.mark.id, b.mark.id)))
  }

  /** Sort by start, end and id. */
  method SortRanges(rs: seq<Range>) returns (sorted: seq<Range>)
    ensures forall i, j :: 0 <= i < j < |sorted| ==> InSortedOrder(sorted[i], sorted[j])
    ensures forall r :: r in sorted <==> r in rs
    ensures |sorted| == |rs|
  {
    sorted := [];
    for n := 0 to |rs|
      invariant |sorted| == n
      invariant forall i, j :: 0 <= i < j < |sorted| ==> InSortedOrder(sorted[i], sorted[j])
      invariant forall r :: r in sorted <==> r in rs[..n]
    {
      var x, at := rs[n], 0;
      while at < |sorted| && InSortedOrder(sorted[at], x)
        invariant 0 <= at <= |sorted|
        invariant forall i :: 0 <= i < at ==> InSortedOrder(sorted[i], x)
      {
        at := at + 1;
      }
      forall j | at <= j < |sorted| ensures InSortedOrder(x, sorted[j]) {
        assert j > at ==> InSortedOrder(sorted[at], sorted[j]);
      }
      assert rs[..n + 1] == rs[..n] + [x];
      sorted := sorted[..at] + [x] + sorted[at..];
    }
    assert rs[..|rs|] == rs;
  }

  ghost predicate CoveredBy(rs: seq<Range>, g: nat) {
    exists r :: r in rs && Contains(r, g)
  }

  /** No range of `rs` that meets `m` has a lesser id. */
  ghost predicate LeastId(rs: seq<Range>, m: Range) {
    forall r :: r in rs && r.start <= m.end && m.start <= r.end ==> !Less(r.mark.id, m.mark.id)
  }

  /** Ranges so far lie before the current one, or in it and under no lesser id. */
  ghost predicate Gathered(rs: seq<Range>, current: Range) {
    forall r :: r in rs ==>
      r.end < current.start || (current.start <= r.start && r.end <= current.end && !Less(r.mark.id, current.mark.id))
  }

  lemma GatheredNext(rs: seq<Range>, current: Range, next: Range, now: Range)
    requires Gathered(rs, current) && next.start <= current.end && current.start <= next.start
    requires now.start == current.start && now.end == (if current.end < next.end then next.end else current.end)
    requires now.mark == if Less(next.mark.id, current.mark.id) then next.mark else current.mark
    ensures Gathered(rs + [next], now)
  {
    assert forall r :: r in rs + [next] <==> r in rs || r == next;
  }

  lemma GatheredAnew(rs: seq<Range>, current: Range, next: Range)
    requires Gathered(rs, current) && current.end < next.start && current.start <= current.end
    ensures Gathered(rs + [next], next) && LeastId(rs + [next], current)
  {
    assert forall r :: r in rs + [next] <==> r in rs || r == next;
  }

  lemma StillLeast(rs: seq<Range>, m: Range, next: Range)
    requires LeastId(rs, m) && m.end < next.start
    ensures LeastId(rs + [next], m)
  {
    assert forall r :: r in rs + [next] <==> r in rs || r == next;
  }

  /** The ranges of `done` have been merged into `merged` and `current`. */
  ghost predicate Merging(group: seq<Range>, n: nat, done: seq<Range>, merged: seq<Range>, current: Range) {
    && Visible(current, n) && FromMarks(group, current.mark) && Gathered(done, current)
    && (forall m :: m in merged ==> Visible(m, n) && FromMarks(group, m.mark) && LeastId(done, m))
    && (forall i, j :: 0 <= i < j < |merged| ==> merged[i].end < merged[j].start)
    && (forall i :: 0 <= i < |merged| ==> merged[i].end < current.start)
    && (forall g: nat :: CoveredBy(merged, g) || Contains(current, g) <==> CoveredBy(done, g))
  }

  lemma MergingFirst(group: seq<Range>, n: nat, r: Range)
    requires r in group && Visible(r, n)
    ensures Merging(group, n, [r], [], r)
  {
    CoveredAppend([], r);
    FirstGathered(r);
    assert [] + [r] == [r];
  }

  lemma LeastStays(done: seq<Range>, merged: seq<Range>, next: Range)
    requires forall m :: m in merged ==> LeastId(done, m)
    requires forall i :: 0 <= i < |merged| ==> merged[i].end < next.start
    ensures forall m :: m in merged ==> LeastId(done + [next], m)
  {
    hide LeastId;
    forall m | m in merged ensures LeastId(done + [next], m) {
      var i :| 0 <= i < |merged| && merged[i] == m;
      StillLeast(done, m, next);
    }
  }

  lemma MergingExtend(group: seq<Range>, n: nat, done: seq<Range>, merged: seq<Range>, current: Range, next: Range,
          now: Range)
    requires Merging(group, n, done, merged, current) && next in group && Visible(next, n)
    requires current.start <= next.start <= current.end
    requires now.start == current.start && now.end == (if current.end < next.end then next.end else current.end)
    requires now.mark == if Less(next.mark.id, current.mark.id) then next.mark else current.mark
    ensures Merging(group, n, done + [next], merged, now)
  {
    GatheredNext(done, current, next, now);
    LeastStays(done, merged, next);
    CoveredAppend(done, next);
    hide LeastId, Gathered, CoveredBy;
    assert forall g: nat :: Contains(now, g) <==> Contains(current, g) || Contains(next, g);
  }

  lemma MergingPush(group: seq<Range>, n: nat, done: seq<Range>, merged: seq<Range>, current: Range, next: Range)
    requires Merging(group, n, done, merged, current) && next in group && Visible(next, n) && current.end < next.start
    ensures Merging(group, n, done + [next], merged + [current], next)
  {
    GatheredAnew(done, current, next);
    LeastStays(done, merged, next);
    CoveredAppend(done, next);
    CoveredAppend(merged, current);
    hide LeastId, Gathered, CoveredBy;
    assert forall m :: m in merged + [current] <==> m in merged || m == current;
  }

  lemma MergingEnds(group: seq<Range>, n: nat, done: seq<Range>, merged: seq<Range>, current: Range)
    requires Merging(group, n, done, merged, current) && forall r :: r in done <==> r in group
    ensures var all := merged + [current];
      && (forall m :: m in all ==> Visible(m, n) && FromMarks(group, m.mark) && LeastId(group, m))
      && (forall i, j :: 0 <= i < j < |all| ==> all[i].end < all[j].start)
      && (forall g: nat :: CoveredBy(all, g) <==> CoveredBy(group, g))
  {
    CoveredAppend(merged, current);
    GatheredLeast(done, group, current);
    forall m | m in merged ensures LeastId(group, m) {
      SameLeast(done, group, m);
    }
    forall g: nat ensures CoveredBy(done, g) <==> CoveredBy(group, g) {
    }
    hide LeastId, Gathered, CoveredBy;
    assert forall m :: m in merged + [current] <==> m in merged || m == current;
  }

  /** Touching or overlapping ranges of one key become one, under the least id. */
  method MergeGroup(group: seq<Range>, n: nat) returns (merged: seq<Range>)
    requires group != [] && forall r :: r in group ==> Visible(r, n)
    ensures forall m :: m in merged ==> Visible(m, n) && FromMarks(group, m.mark) && LeastId(group, m)
    ensures forall i, j :: 0 <= i < j < |merged| ==> merged[i].end < merged[j].start
    ensures forall g: nat :: CoveredBy(merged, g) <==> CoveredBy(group, g)
  {
    hide Merging, LeastId, CoveredBy, FromMarks;
    var sorted := SortRanges(group);
    merged := [];
    assert sorted[0] in sorted && sorted[..1] == [sorted[0]];
    var current := sorted[0];
    MergingFirst(group, n, current);
    for t := 1 to |sorted|
      invariant Merging(group, n, sorted[..t], merged, current) && current.start <= sorted[t - 1].start
    {
      var next := sorted[t];
      assert InSortedOrder(sorted[t - 1], next) && next in sorted && sorted[..t + 1] == sorted[..t] + [next];
      if next.start <= current.end {
        var end := if current.end < next.end then next.end else current.end;
        var mark := if Less(next.mark.id, current.mark.id) then next.mark else current.mark;
        MergingExtend(group, n, sorted[..t], merged, current, next, Range(mark, current.start, end));
        current := Range(mark, current.start, end);
      } else {
        MergingPush(group, n, sorted[..t], merged, current, next);
        merged := merged + [current];
        current := next;
      }
    }
    assert sorted[..|sorted|] == sorted;
    MergingEnds(group, n, sorted, merged, current);
    merged := merged + [current];
  }

  lemma FirstGathered(r: Range)
    ensures Gathered([r], r)
  {
  }

  lemma GatheredLeast(rs: seq<Range>, group: seq<Range>, current: Range)
    requires Gathered(rs, current) && forall r :: r in rs <==> r in group
    ensures LeastId(group, current)
  {
  }

  lemma SameLeast(rs: seq<Range>, group: seq<Range>, m: Range)
    requires LeastId(rs, m) && forall r :: r in rs <==> r in group
    ensures LeastId(group, m)
  {
  }

  lemma CoveredNext(rs: seq<Range>, t: nat)
    requires t < |rs|
    ensures forall g: nat :: CoveredBy(rs[..t + 1], g) <==> CoveredBy(rs[..t], g) || Contains(rs[t], g)
  {
    assert rs[..t + 1] == rs[..t] + [rs[t]];
    CoveredAppend(rs[..t], rs[t]);
  }

  lemma CoveredAppend(rs: seq<Range>, r: Range)
    ensures forall g: nat :: CoveredBy(rs + [r], g) <==> CoveredBy(rs, g) || Contains(r, g)
  {
    assert r in rs + [r];
    forall g: nat ensures CoveredBy(rs + [r], g) <==> CoveredBy(rs, g) || Contains(r, g) {
      if CoveredBy(rs, g) {
        var q :| q in rs && Contains(q, g);
        assert q in rs + [r];
      }
    }
  }

  ghost predicate GroupOk(ps: seq<Range>, k: Key, group: seq<Range>) {
    group != [] && forall r :: r in group <==> r in ps && KeyOf(r.mark) == k
  }

  method GroupByKey(ps: seq<Range>) returns (groups: map<Key, seq<Range>>)
    ensures forall k :: k in groups ==> GroupOk(ps, k, groups[k])
    ensures forall p :: p in ps ==> KeyOf(p.mark) in groups
  {
    groups := map[];
    for i := 0 to |ps|
      invariant forall k :: k in groups ==> GroupOk(ps[..i], k, groups[k])
      invariant forall p :: p in ps[..i] ==> KeyOf(p.mark) in groups
    {
      assert ps[..i + 1] == ps[..i] + [ps[i]];
      var k := KeyOf(ps[i].mark);
      groups := groups[k := (if k in groups then groups[k] else []) + [ps[i]]];
    }
    assert ps[..|ps|] == ps;
  }

  /** What merging hands to rendering: the wanted coverage, with equal marks kept apart. */
  ghost predicate MergedOk(rs: seq<Range>, n: nat, ms: seq<Range>) {
    && SameCoverage(rs, n, ms)
    && (forall m :: m in ms ==> FromMarks(rs, m.mark))
    && KeptApart(ms)
  }

  predicate KeptApart(ms: seq<Range>) {
    forall i, j :: 0 <= i < j < |ms| && KeyOf(ms[i].mark) == KeyOf(ms[j].mark) ==> Separated(ms[i], ms[j])
  }

  method MergeAll(ps: seq<Range>, n: nat) returns (ms: seq<Range>)
    requires forall p :: p in ps ==> Visible(p, n)
    ensures forall m :: m in ms ==> Visible(m, n) && FromMarks(ps, m.mark)
    ensures KeptApart(ms) && LeastIds(ps, ms)
    ensures forall g: nat, k :: KeyCovered(ms, k, g) <==> KeyCovered(ps, k, g)
  {
    hide LeastId;
    var groups := GroupByKey(ps);
    ms := [];
    var todo := groups.Keys;
    while todo != {}
      invariant todo <= groups.Keys && KeptApart(ms) && LeastIds(ps, ms)
      invariant forall m :: m in ms ==> Visible(m, n) && FromMarks(ps, m.mark) && KeyOf(m.mark) in groups.Keys - todo
      invariant forall g: nat, k :: k in groups && k !in todo ==> (KeyCovered(ms, k, g) <==> KeyCovered(ps, k, g))
      decreases todo
    {
      var k :| k in todo;
      var merged := MergeGroup(groups[k], n);
      MergedUnderKey(ps, k, groups[k], merged, ms);
      LeastUnderKey(ps, k, groups[k], merged, ms);
      ms := ms + merged;
      todo := todo - {k};
    }
    forall g: nat, k ensures KeyCovered(ms, k, g) <==> KeyCovered(ps, k, g) {
      assert k !in groups ==> !KeyCovered(ms, k, g) && !KeyCovered(ps, k, g);
    }
  }

  /** Each range goes by the least id of the ranges of its key that it was made from. */
  ghost predicate LeastIds(ps: seq<Range>, ms: seq<Range>) {
    forall m :: m in ms ==> LeastOfKey(ps, m)
  }

  ghost predicate LeastOfKey(ps: seq<Range>, m: Range) {
    forall q :: q in ps && KeyOf(q.mark) == KeyOf(m.mark) && q.start <= m.end && m.start <= q.end ==>
      !Less(q.mark.id, m.mark.id)
  }

  lemma LeastUnderKey(ps: seq<Range>, k: Key, group: seq<Range>, merged: seq<Range>, ms: seq<Range>)
    requires GroupOk(ps, k, group) && LeastIds(ps, ms)
    requires forall m :: m in merged ==> LeastId(group, m) && KeyOf(m.mark) == k
    ensures LeastIds(ps, ms + merged)
  {
    forall m | m in ms + merged ensures LeastOfKey(ps, m) {
      assert m in ms || m in merged;
    }
  }

  lemma MergedUnderKey(ps: seq<Range>, k: Key, group: seq<Range>, merged: seq<Range>, ms: seq<Range>)
    requires GroupOk(ps, k, group) && KeptApart(ms) && forall m :: m in ms ==> KeyOf(m.mark) != k
    requires forall m :: m in merged ==> FromMarks(group, m.mark)
    requires forall i, j :: 0 <= i < j < |merged| ==> merged[i].end < merged[j].start
    requires forall g: nat :: CoveredBy(merged, g) <==> CoveredBy(group, g)
    ensures KeptApart(ms + merged)
    ensures forall m :: m in merged ==> KeyOf(m.mark) == k && FromMarks(ps, m.mark)
    ensures forall g: nat :: KeyCovered(ms + merged, k, g) <==> KeyCovered(ps, k, g)
    ensures forall g: nat, l :: l != k ==> (KeyCovered(ms + merged, l, g) <==> KeyCovered(ms, l, g))
  {
    forall m | m in merged ensures KeyOf(m.mark) == k && FromMarks(ps, m.mark) {
      var r :| r in group && r.mark == m.mark;
    }
    var all := ms + merged;
    forall i, j | 0 <= i < j < |all| && KeyOf(all[i].mark) == KeyOf(all[j].mark) ensures Separated(all[i], all[j]) {
      assert i < |ms| ==> all[i] in ms;
      assert i >= |ms| ==> all[i] in merged;
      assert j >= |ms| ==> all[j] in merged;
    }
    forall g: nat ensures KeyCovered(all, k, g) <==> KeyCovered(ps, k, g) {
      if KeyCovered(all, k, g) {
        var p :| p in all && Contains(p, g) && KeyOf(p.mark) == k;
        assert p in merged && CoveredBy(merged, g);
        var r :| r in group && Contains(r, g);
      }
      if KeyCovered(ps, k, g) {
        var p :| p in ps && Contains(p, g) && KeyOf(p.mark) == k;
        assert p in group && CoveredBy(group, g);
        var m :| m in merged && Contains(m, g);
        assert m in all;
      }
    }
    forall g: nat, l | l != k && KeyCovered(ms, l, g) ensures KeyCovered(all, l, g) {
      var p :| p in ms && Contains(p, g) && KeyOf(p.mark) == l;
      assert p in all;
    }
  }
}
