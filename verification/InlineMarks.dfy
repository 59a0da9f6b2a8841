/**
 The inline Markdown of a text whose marks are in a mark set: what is written, stated over the marks themselves
 (src/doc/inline.rs `serialize_text`, src/core/mark.rs `resolved_intervals`).
 */
module InlineMarks {
  import opened OpIds
  import opened Marks
  import opened InlineRanges
  import opened InlineText

  predicate Newer(a: OpId, b: OpId) {
    a.counter > b.counter || (a.counter == b.counter && a.peer > b.peer)
  }

  /** The link whose operation is newer, or whose id is, if they come from one operation. */
  predicate LaterLink(a: MarkInterval, b: MarkInterval) {
    Newer(a.opId, b.opId) || (a.opId == b.opId && Newer(a.id, b.id))
  }

  /** The mark is active and reaches `g`; of several links only the latest shows. */
  ghost predicate ShownAt(intervals: Intervals, removes: Removes, order: seq<OpId>, g: nat, id: OpId) {
    && MarkedAt(intervals, removes, order, |order|, id, g)
    && (intervals[id].kind == Link ==>
          forall x :: MarkedAt(intervals, removes, order, |order|, x, g) && intervals[x].kind == Link && x != id ==>
            LaterLink(intervals[id], intervals[x]))
  }

  ghost predicate ShowsKey(intervals: Intervals, removes: Removes, order: seq<OpId>, g: nat, k: Key) {
    exists id :: ShownAt(intervals, removes, order, g, id) && KeyOf(intervals[id]) == k
  }

  /** The tokens hold the text, nest and close, and each grapheme has open the keys of the marks shown on it. */
  ghost predicate ShowsMarks(intervals: Intervals, removes: Removes, order: seq<OpId>, graphemes: seq<string>,
          tokens: seq<Token>) {
    && Erase(tokens) == graphemes && Play(tokens) == Some([])
    && forall j :: 0 <= j < |tokens| && tokens[j].Text? ==> OpensShown(intervals, removes, order, tokens[..j])
  }

  ghost predicate OpensShown(intervals: Intervals, removes: Removes, order: seq<OpId>, tokens: seq<Token>) {
    && Play(tokens).Some?
    && forall k :: (exists m :: m in Play(tokens).value && KeyOf(m) == k) <==>
        ShowsKey(intervals, removes, order, |Erase(tokens)|, k)
  }

  lemma FaithfulShows(intervals: Intervals, removes: Removes, order: seq<OpId>, rs: seq<Range>, graphemes: seq<string>,
          tokens: seq<Token>)
    requires |order| == |graphemes| && Resolved(intervals, removes, order, rs) && Faithful(rs, graphemes, tokens)
    ensures ShowsMarks(intervals, removes, order, graphemes, tokens)
  {
    hide Play, Erase, WantsKey, ShowsKey, Resolved;
    var n := |graphemes|;
    forall j | 0 <= j < |tokens| && tokens[j].Text? ensures OpensShown(intervals, removes, order, tokens[..j]) {
      assert KeysAsWanted(rs, n, tokens[..j]);
      EraseGrows(tokens, j);
      forall k ensures WantsKey(rs, n, |Erase(tokens[..j])|, k) <==>
          ShowsKey(intervals, removes, order, |Erase(tokens[..j])|, k) {
        WantedIsShown(intervals, removes, order, rs, |Erase(tokens[..j])|, k);
      }
    }
  }

  lemma WantedIsShown(intervals: Intervals, removes: Removes, order: seq<OpId>, rs: seq<Range>, g: nat, k: Key)
    requires Resolved(intervals, removes, order, rs) && g < |order|
    ensures WantsKey(rs, |order|, g, k) <==> ShowsKey(intervals, removes, order, g, k)
  {
    hide Resolved, ActiveAt;
    if WantsKey(rs, |order|, g, k) {
      var r :| ActiveAt(rs, |order|, g, r) && KeyOf(r.mark) == k;
      ActiveIsShown(intervals, removes, order, rs, g, r);
      assert ShownAt(intervals, removes, order, g, r.mark.id);
    }
    if ShowsKey(intervals, removes, order, g, k) {
      var id :| ShownAt(intervals, removes, order, g, id) && KeyOf(intervals[id]) == k;
      ShownIsActive(intervals, removes, order, rs, g, id);
      assert ActiveAt(rs, |order|, g, RangeOf(intervals[id], order));
    }
  }

  /** A range holds the graphemes its mark reaches. */
  lemma RangeReaches(m: MarkInterval, order: seq<OpId>, g: nat)
    requires g < |order|
    ensures Reaches(m, order, |order|, g) <==> Visible(RangeOf(m, order), |order|) && Contains(RangeOf(m, order), g)
  {
  }

  lemma ActiveIsShown(intervals: Intervals, removes: Removes, order: seq<OpId>, rs: seq<Range>, g: nat, r: Range)
    requires Resolved(intervals, removes, order, rs) && g < |order| && ActiveAt(rs, |order|, g, r)
    ensures r.mark.id in intervals && intervals[r.mark.id] == r.mark && ShownAt(intervals, removes, order, g, r.mark.id)
  {
    hide Reaches, RangeOf, Visible, Contains;
    RangeReaches(r.mark, order, g);
    if r.mark.kind == Link {
      forall x | MarkedAt(intervals, removes, order, |order|, x, g) && intervals[x].kind == Link && x != r.mark.id
        ensures Beats(r.mark, intervals[x])
      {
        RangeReaches(intervals[x], order, g);
        assert Listed(intervals[x], order, rs);
        RangeIsOf(intervals[x], order);
      }
    }
  }

  lemma RangeIsOf(m: MarkInterval, order: seq<OpId>)
    ensures RangeOf(m, order).mark == m
  {
  }

  lemma ShownIsActive(intervals: Intervals, removes: Removes, order: seq<OpId>, rs: seq<Range>, g: nat, id: OpId)
    requires Resolved(intervals, removes, order, rs) && g < |order| && ShownAt(intervals, removes, order, g, id)
    ensures ActiveAt(rs, |order|, g, RangeOf(intervals[id], order))
        && RangeOf(intervals[id], order).mark == intervals[id]
  {
    hide Reaches, RangeOf, Visible, Contains;
    var m := intervals[id];
    RangeReaches(m, order, g);
    RangeIsOf(m, order);
    assert Listed(m, order, rs);
    if m.kind == Link {
      forall r | r in rs && Visible(r, |order|) && Contains(r, g) && r.mark.kind == Link
          && r.mark != m ensures Beats(m, r.mark) {
        RangeReaches(r.mark, order, g);
      }
    }
  }

  // ----- the text of a stream

  ghost function Concat(graphemes: seq<string>): string {
    if graphemes == [] then "" else Concat(graphemes[..|graphemes| - 1]) + graphemes[|graphemes| - 1]
  }

  lemma {:induction false} FlattenJoined(a: seq<Token>, b: seq<Token>)
    ensures Flatten(a + b) == Flatten(a) + Flatten(b)
    decreases |b|
  {
    if b == [] {
      assert a + b == a;
    } else {
      assert (a + b)[..|a + b| - 1] == a + b[..|b| - 1];
      FlattenJoined(a, b[..|b| - 1]);
    }
  }

  lemma BridgesOfOne(w: MarkInterval)
    ensures Flatten(Bridge([], [])) == "" && Flatten(Bridge([w], [w])) == ""
    ensures Flatten(Bridge([], [w])) == OpenDelimiter(w) && Flatten(Bridge([w], [])) == CloseDelimiter(w)
  {
    assert [w][1..] == [] && [w][0..] == [w] && [w][..0] == [];
    assert Opens([w]) == Opens([]) + [Open(w)] && Closes([w]) == [Close(w)] + Closes([]);
    assert Flatten([Open(w)]) == Flatten([]) + OpenDelimiter(w);
    assert Flatten([Close(w)]) == Flatten([]) + CloseDelimiter(w);
  }

  /** The first `i` graphemes, with `open` before grapheme `s` and `close` before grapheme `e`. */
  ghost function Inserted(graphemes: seq<string>, open: string, close: string, s: nat, e: nat, i: nat): string
    requires i <= |graphemes|
  {
    if i == 0 then ""
    else
      Inserted(graphemes, open, close, s, e, i - 1)
      + (if s < e && i - 1 == s then open else if s < e && i - 1 == e then close else "") + graphemes[i - 1]
  }

  lemma {:induction false} InsertedBefore(graphemes: seq<string>, open: string, close: string, s: nat, e: nat, i: nat)
    requires s <= e && i <= |graphemes| && i <= s
    ensures Inserted(graphemes, open, close, s, e, i) == Concat(graphemes[..i])
  {
    if i > 0 {
      InsertedBefore(graphemes, open, close, s, e, i - 1);
      assert graphemes[..i][..i - 1] == graphemes[..i - 1];
    }
  }

  lemma {:induction false} InsertedWithin(graphemes: seq<string>, open: string, close: string, s: nat, e: nat, i: nat)
    requires s < i <= e && i <= |graphemes|
    ensures Inserted(graphemes, open, close, s, e, i) == Concat(graphemes[..s]) + open + Concat(graphemes[s..i])
  {
    assert graphemes[s..i][..i - 1 - s] == graphemes[s..i - 1];
    if i == s + 1 {
      InsertedBefore(graphemes, open, close, s, e, s);
      assert Concat(graphemes[s..i]) == graphemes[s];
    } else {
      InsertedWithin(graphemes, open, close, s, e, i - 1);
    }
  }

  lemma {:induction false} InsertedAfter(graphemes: seq<string>, open: string, close: string, s: nat, e: nat, i: nat)
    requires s < e < i <= |graphemes|
    ensures Inserted(graphemes, open, close, s, e, i)
         == Concat(graphemes[..s]) + open + Concat(graphemes[s..e]) + close + Concat(graphemes[e..i])
  {
    assert graphemes[e..i][..i - 1 - e] == graphemes[e..i - 1];
    if i == e + 1 {
      InsertedWithin(graphemes, open, close, s, e, e);
      assert Concat(graphemes[e..i]) == graphemes[e];
    } else {
      InsertedAfter(graphemes, open, close, s, e, i - 1);
    }
  }

  lemma StreamText(front: seq<Token>, bridge: seq<Token>, g: string)
    ensures Flatten(front + bridge + [Text(g)]) == Flatten(front) + Flatten(bridge) + g
  {
    assert (front + bridge + [Text(g)])[..|front + bridge|] == front + bridge;
    FlattenJoined(front, bridge);
  }

  /** One mark is open over one stretch, and nothing else is. */
  ghost predicate OneOpen(stacks: seq<seq<MarkInterval>>, w: MarkInterval, s: nat, e: nat) {
    forall g :: 0 <= g < |stacks| ==> stacks[g] == if s <= g < e then [w] else []
  }

  /** What stands before grapheme `k`, or after the last one. */
  ghost function Delimiter(w: MarkInterval, s: nat, e: nat, k: nat): string {
    if s < e && k == s then OpenDelimiter(w) else if s < e && k == e then CloseDelimiter(w) else ""
  }

  lemma BridgeText(stacks: seq<seq<MarkInterval>>, w: MarkInterval, s: nat, e: nat, k: nat)
    requires OneOpen(stacks, w, s, e) && s <= e <= |stacks| && k <= |stacks|
    ensures Flatten(Bridge(LastStack(stacks[..k]), if k < |stacks| then stacks[k] else [])) == Delimiter(w, s, e, k)
  {
    hide Flatten, Bridge, OpenDelimiter, CloseDelimiter;
    BridgesOfOne(w);
    if k > 0 {
      assert stacks[..k][k - 1] == stacks[k - 1];
    }
  }

  lemma TextNext(stacks: seq<seq<MarkInterval>>, graphemes: seq<string>, w: MarkInterval, s: nat, e: nat, k: nat)
    requires OneOpen(stacks, w, s, e) && s <= e <= |stacks| == |graphemes| && k < |stacks|
    ensures Flatten(Stream(stacks[..k + 1], graphemes[..k + 1]))
         == Flatten(Stream(stacks[..k], graphemes[..k])) + Delimiter(w, s, e, k) + graphemes[k]
  {
    hide Flatten, Bridge, LastStack, OneOpen, Delimiter;
    assert stacks[..k + 1][..k] == stacks[..k] && graphemes[..k + 1][..k] == graphemes[..k];
    StreamText(Stream(stacks[..k], graphemes[..k]), Bridge(LastStack(stacks[..k]), stacks[k]), graphemes[k]);
    BridgeText(stacks, w, s, e, k);
  }

  lemma InsertedNext(graphemes: seq<string>, w: MarkInterval, s: nat, e: nat, k: nat)
    requires k < |graphemes|
    ensures Inserted(graphemes, OpenDelimiter(w), CloseDelimiter(w), s, e, k + 1)
         == Inserted(graphemes, OpenDelimiter(w), CloseDelimiter(w), s, e, k) + Delimiter(w, s, e, k) + graphemes[k]
    ensures Inserted(graphemes, OpenDelimiter(w), CloseDelimiter(w), s, e, 0) == ""
  {
    hide OpenDelimiter, CloseDelimiter;
  }

  /** A stream with one mark open over one stretch. */
  lemma OneMarkFront(stacks: seq<seq<MarkInterval>>, graphemes: seq<string>, w: MarkInterval, s: nat, e: nat)
    requires OneOpen(stacks, w, s, e) && s <= e <= |stacks| == |graphemes|
    ensures Flatten(Stream(stacks, graphemes))
         == Inserted(graphemes, OpenDelimiter(w), CloseDelimiter(w), s, e, |stacks|)
  {
    assert Flatten(Stream(stacks[..0], graphemes[..0])) == "";
    assert Inserted(graphemes, OpenDelimiter(w), CloseDelimiter(w), s, e, 0) == "";
    hide *;
    for k := 0 to |stacks|
      invariant Flatten(Stream(stacks[..k], graphemes[..k]))
             == Inserted(graphemes, OpenDelimiter(w), CloseDelimiter(w), s, e, k)
    {
      TextNext(stacks, graphemes, w, s, e, k);
      InsertedNext(graphemes, w, s, e, k);
    }
    assert stacks[..|stacks|] == stacks && graphemes[..|stacks|] == graphemes;
  }

  /** A stream, and what closes it, in writing. */
  lemma WholeText(stacks: seq<seq<MarkInterval>>, graphemes: seq<string>, w: MarkInterval, s: nat, e: nat)
    requires OneOpen(stacks, w, s, e) && s <= e <= |stacks| == |graphemes|
    ensures Flatten(Whole(stacks, graphemes))
         == Inserted(graphemes, OpenDelimiter(w), CloseDelimiter(w), s, e, |stacks|) + Delimiter(w, s, e, |stacks|)
  {
    hide Flatten, Bridge, Stream, Inserted, LastStack, OneOpen, Delimiter, OpenDelimiter, CloseDelimiter;
    OneMarkFront(stacks, graphemes, w, s, e);
    assert stacks[..|stacks|] == stacks;
    FlattenJoined(Stream(stacks, graphemes), Bridge(LastStack(stacks), []));
    BridgeText(stacks, w, s, e, |stacks|);
  }

  lemma OneMarkWhole(stacks: seq<seq<MarkInterval>>, graphemes: seq<string>, w: MarkInterval, s: nat, e: nat)
    requires OneOpen(stacks, w, s, e) && s < e <= |graphemes| == |stacks|
    ensures Flatten(Whole(stacks, graphemes)) == Concat(graphemes[..s]) + OpenDelimiter(w) + Concat(graphemes[s..e])
        + CloseDelimiter(w) + Concat(graphemes[e..])
  {
    hide Flatten, Whole, Inserted, OpenDelimiter, CloseDelimiter;
    var n := |stacks|;
    WholeText(stacks, graphemes, w, s, e);
    if e == n {
      InsertedWithin(graphemes, OpenDelimiter(w), CloseDelimiter(w), s, e, n);
      assert graphemes[e..] == [];
    } else {
      InsertedAfter(graphemes, OpenDelimiter(w), CloseDelimiter(w), s, e, n);
      assert graphemes[e..n] == graphemes[e..];
    }
  }

  lemma NoMarkWhole(stacks: seq<seq<MarkInterval>>, graphemes: seq<string>, w: MarkInterval)
    requires |graphemes| == |stacks| && forall g :: 0 <= g < |stacks| ==> stacks[g] == []
    ensures Flatten(Whole(stacks, graphemes)) == Concat(graphemes)
  {
    hide Flatten, Whole, Inserted;
    var n := |stacks|;
    WholeText(stacks, graphemes, w, n, n);
    InsertedBefore(graphemes, OpenDelimiter(w), CloseDelimiter(w), n, n, n);
    assert graphemes[..n] == graphemes;
  }

  // ----- what is printed

  /** The delimiters of a mark in writing. */
  ghost predicate PrintsAs(m: MarkInterval, open: string, close: string) {
    match m.kind
    case Link =>
      && open == "["
      && (if "href" in m.attrs && m.attrs["href"].value.StringValue?
          then close == "](" + m.attrs["href"].value.text + ")"
          else close == "]()")
    case Custom(_) => open == close == ""
    case _ =>
      && open == close
      && (if "delimiter" in m.attrs && m.attrs["delimiter"].value.StringValue?
          then open == m.attrs["delimiter"].value.text
          else open == if m.kind.Bold? then "**" else if m.kind.Italic? then "*" else "`")
  }

  lemma PrintedDelimiters(m: MarkInterval, open: string, close: string)
    requires PrintsAs(m, open, close)
    ensures OpenDelimiter(m) == open && CloseDelimiter(m) == close
  {
  }

  /** Of all active marks only `id` reaches the text, and it reaches exactly the graphemes from `s` to `e`. */
  ghost predicate OnlyMark(intervals: Intervals, removes: Removes, order: seq<OpId>, id: OpId, s: nat, e: nat) {
    && id in intervals && s < e <= |order|
    && forall g, x :: 0 <= g < |order| ==>
      (MarkedAt(intervals, removes, order, |order|, x, g) <==> x == id && s <= g < e)
  }

  ghost predicate NoMark(intervals: Intervals, removes: Removes, order: seq<OpId>) {
    forall g, x :: 0 <= g < |order| ==> !MarkedAt(intervals, removes, order, |order|, x, g)
  }

  ghost function Shows(intervals: Intervals, removes: Removes, order: seq<OpId>): (nat, Key) -> bool {
    (g: nat, k: Key) => ShowsKey(intervals, removes, order, g, k)
  }

  /** The stacks of a text with one mark. */
  lemma OneMarkStacks(intervals: Intervals, removes: Removes, order: seq<OpId>, stacks: seq<seq<MarkInterval>>,
          id: OpId, s: nat, e: nat)
    returns (w: MarkInterval)
    requires Laid(Shows(intervals, removes, order), |order|, stacks) && OnlyMark(intervals, removes, order, id, s, e)
    ensures KeyOf(w) == KeyOf(intervals[id])
    ensures forall g :: 0 <= g < |stacks| ==> stacks[g] == if s <= g < e then [w] else []
  {
    hide MarkedAt;
    var wants, k := Shows(intervals, removes, order), KeyOf(intervals[id]);
    forall g, x | 0 <= g < |order| ensures wants(g, x) <==> s <= g < e && x == k {
      assert s <= g < e ==> ShownAt(intervals, removes, order, g, id);
    }
    forall g | 0 <= g < |order| ensures if s <= g < e then |stacks[g]| == 1 && KeyOf(stacks[g][0]) == k
        else stacks[g] == []
    {
      StackOfOne(wants, |order|, g, stacks[g], if s <= g < e then Some(k) else None);
    }
    w := stacks[s][0];
    for g := s + 1 to e
      invariant forall x :: s <= x < g ==> stacks[x] == [w]
    {
      assert GoesOn(stacks, g);
      assert stacks[g - 1][0] in stacks[g - 1] && stacks[g][0] in stacks[g];
    }
  }

  lemma StackOfOne(wants: (nat, Key) -> bool, n: nat, g: nat, stack: seq<MarkInterval>, k: Option<Key>)
    requires StackLaid(wants, n, g, stack) && forall x :: wants(g, x) <==> k == Some(x)
    ensures if k.Some? then |stack| == 1 && KeyOf(stack[0]) == k.value else stack == []
  {
    hide NestsIn;
    forall i | 0 <= i < |stack| ensures k == Some(KeyOf(stack[i])) {
      assert stack[i] in stack && wants(g, KeyOf(stack[i]));
    }
    assert |stack| > 0 ==> k == Some(KeyOf(stack[0]));
    assert |stack| > 1 ==> k == Some(KeyOf(stack[1]));
    assert k.Some? ==> wants(g, k.value);
  }

  /** Of the marks shown that share its key and its stretch, the open one has the least id. */
  ghost predicate LeastShown(intervals: Intervals, removes: Removes, order: seq<OpId>, g: nat, m: MarkInterval) {
    forall id, x: nat, s: nat, e: nat ::
      RunAround(Shows(intervals, removes, order), |order|, g, KeyOf(m), s, e) && s <= x < e
          && ShownAt(intervals, removes, order, x, id) && KeyOf(intervals[id]) == KeyOf(m) ==>
        !Less(id, m.id)
  }

  ghost predicate AllLeastShown(intervals: Intervals, removes: Removes, order: seq<OpId>,
          stacks: seq<seq<MarkInterval>>) {
    |stacks| == |order| && forall g, m :: 0 <= g < |order| && m in stacks[g] ==>
      LeastShown(intervals, removes, order, g, m)
  }

  lemma LeastAlike(intervals: Intervals, removes: Removes, order: seq<OpId>, rs: seq<Range>,
          stacks: seq<seq<MarkInterval>>)
    requires Resolved(intervals, removes, order, rs) && AllOpenLeast(rs, |order|, stacks)
    ensures AllLeastShown(intervals, removes, order, stacks)
  {
    hide Resolved, WantsKey, ShowsKey, Reaches, RangeOf, ActiveAt, KeyOf;
    var n, a, b := |order|, Wanted(rs, |order|), Shows(intervals, removes, order);
    forall g: nat, k | g < n ensures a(g, k) == b(g, k) {
      WantedIsShown(intervals, removes, order, rs, g, k);
    }
    forall g, m | 0 <= g < n && m in stacks[g] ensures LeastShown(intervals, removes, order, g, m) {
      assert OpensLeast(rs, n, g, m);
      forall id, x: nat, s: nat, e: nat | RunAround(b, n, g, KeyOf(m), s, e) && s <= x < e
          && ShownAt(intervals, removes, order, x, id) && KeyOf(intervals[id]) == KeyOf(m)
        ensures !Less(id, m.id)
      {
        assert RunAround(a, n, g, KeyOf(m), s, e);
        ShownIsActive(intervals, removes, order, rs, x, id);
        ShownHasId(intervals, removes, order, rs, x, id);
      }
    }
  }

  lemma ShownHasId(intervals: Intervals, removes: Removes, order: seq<OpId>, rs: seq<Range>, g: nat, id: OpId)
    requires Resolved(intervals, removes, order, rs) && ShownAt(intervals, removes, order, g, id)
    ensures intervals[id].id == id
  {
  }

  /** The inline Markdown of a text whose marks are in a mark set. */
  method SerializeMarks(marks: MarkSet, order: seq<OpId>, graphemes: seq<string>) returns (output: string)
    requires marks.Valid() && |order| == |graphemes|
    ensures exists stacks ::
      && Writes(output, graphemes, stacks)
      && Laid(Shows(marks.intervals, marks.removes, order), |graphemes|, stacks)
      && ShowsMarks(marks.intervals, marks.removes, order, graphemes, Whole(stacks, graphemes))
      && AllLeastShown(marks.intervals, marks.removes, order, stacks)
    ensures NoMark(marks.intervals, marks.removes, order) ==> output == Concat(graphemes)
    ensures forall id, s: nat, e: nat, open, close ::
      OnlyMark(marks.intervals, marks.removes, order, id, s, e) && PrintsAs(marks.intervals[id], open, close) ==>
        output == Concat(graphemes[..s]) + open + Concat(graphemes[s..e]) + close + Concat(graphemes[e..])
  {
    hide Faithful, Laid, Whole, AllOpenLeast, AllLeastShown;
    var rs := marks.ResolvedIntervals(order);
    output := SerializeText(graphemes, rs);
    ghost var n := |graphemes|;
    ghost var stacks :| Writes(output, graphemes, stacks) && Laid(Wanted(rs, n), n, stacks)
        && Faithful(rs, graphemes, Whole(stacks, graphemes)) && AllOpenLeast(rs, n, stacks);
    FaithfulShows(marks.intervals, marks.removes, order, rs, graphemes, Whole(stacks, graphemes));
    LaidAlike(marks.intervals, marks.removes, order, rs, stacks);
    LeastAlike(marks.intervals, marks.removes, order, rs, stacks);
    PrintedPlain(marks.intervals, marks.removes, order, graphemes, stacks, output);
    forall id, s: nat, e: nat, open, close
      | OnlyMark(marks.intervals, marks.removes, order, id, s, e) && PrintsAs(marks.intervals[id], open, close)
      ensures output == Concat(graphemes[..s]) + open + Concat(graphemes[s..e]) + close + Concat(graphemes[e..])
    {
      PrintedMark(marks.intervals, marks.removes, order, graphemes, stacks, output, id, s, e, open, close);
    }
  }

  lemma LaidAlike(intervals: Intervals, removes: Removes, order: seq<OpId>, rs: seq<Range>,
          stacks: seq<seq<MarkInterval>>)
    requires Resolved(intervals, removes, order, rs) && Laid(Wanted(rs, |order|), |order|, stacks)
    ensures Laid(Shows(intervals, removes, order), |order|, stacks)
  {
    hide Resolved, WantsKey, ShowsKey;
    var n, a, b := |order|, Wanted(rs, |order|), Shows(intervals, removes, order);
    forall g: nat, k | g < n ensures a(g, k) == b(g, k) {
      WantedIsShown(intervals, removes, order, rs, g, k);
    }
    hide Wanted, Shows;
    forall g | 0 <= g < n ensures StackLaid(b, n, g, stacks[g]) {
      LaidBoth(a, b, n, g, stacks[g]);
    }
  }

  lemma LaidBoth(a: (nat, Key) -> bool, b: (nat, Key) -> bool, n: nat, g: nat, stack: seq<MarkInterval>)
    requires g < n && StackLaid(a, n, g, stack) && forall x: nat, k :: x < n ==> a(x, k) == b(x, k)
    ensures StackLaid(b, n, g, stack)
  {
    forall k, s, e | RunAround(b, n, g, k, s, e) ensures RunAround(a, n, g, k, s, e) {
    }
    hide RunAround;
    forall i, j | 0 <= i < j < |stack| ensures NestsIn(b, n, g, stack[i], stack[j]) {
      assert NestsIn(a, n, g, stack[i], stack[j]);
    }
  }

  lemma PrintedPlain(intervals: Intervals, removes: Removes, order: seq<OpId>, graphemes: seq<string>,
          stacks: seq<seq<MarkInterval>>, output: string)
    requires |order| == |graphemes| && Laid(Shows(intervals, removes, order), |order|, stacks)
    requires Writes(output, graphemes, stacks)
    ensures NoMark(intervals, removes, order) ==> output == Concat(graphemes)
  {
    hide MarkedAt, Whole;
    if NoMark(intervals, removes, order) {
      forall g | 0 <= g < |order| ensures stacks[g] == [] {
        StackOfOne(Shows(intervals, removes, order), |order|, g, stacks[g], None);
      }
      var zero := OpId(0, 0);
      NoMarkWhole(stacks, graphemes, MarkInterval(zero, Bold, Anchor(zero, Before), Anchor(zero, After), map[], zero));
    }
  }

  lemma PrintedMark(intervals: Intervals, removes: Removes, order: seq<OpId>, graphemes: seq<string>,
          stacks: seq<seq<MarkInterval>>, output: string, id: OpId, s: nat, e: nat, open: string, close: string)
    requires |order| == |graphemes| && Laid(Shows(intervals, removes, order), |order|, stacks)
    requires Writes(output, graphemes, stacks) && OnlyMark(intervals, removes, order, id, s, e)
    requires PrintsAs(intervals[id], open, close)
    ensures output == Concat(graphemes[..s]) + open + Concat(graphemes[s..e]) + close + Concat(graphemes[e..])
  {
    hide MarkedAt, PrintsAs, Whole;
    var w := OneMarkStacks(intervals, removes, order, stacks, id, s, e);
    PrintedDelimiters(intervals[id], open, close);
    OneMarkWhole(stacks, graphemes, w, s, e);
  }
}
