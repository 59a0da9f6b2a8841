/**
 Writing ranges of marks as nested inline delimiters (src/doc/inline.rs `serialize_text`). Graphemes are opaque strings.
 */
module InlineText {
  import opened OpIds
  import opened Marks
  import opened InlineRanges

  // ----- delimiters as a token stream

  datatype Token = Open(mark: MarkInterval) | Close(mark: MarkInterval) | Text(grapheme: string)

  /** Run the delimiters on a stack; `None` if a close does not match the innermost open. */
  function Play(tokens: seq<Token>): Option<seq<MarkInterval>> {
    if tokens == [] then Some([])
    else
      var before := Play(tokens[..|tokens| - 1]);
      if before.None? then None
      else
        var st := before.value;
        match tokens[|tokens| - 1]
        case Text(_) => Some(st)
        case Open(m) => Some(st + [m])
        case Close(m) => if st != [] && st[|st| - 1] == m then Some(st[..|st| - 1]) else None
  }

  function Erase(tokens: seq<Token>): seq<string> {
    if tokens == [] then []
    else
      var last := tokens[|tokens| - 1];
      Erase(tokens[..|tokens| - 1]) + if last.Text? then [last.grapheme] else []
  }

  function Flatten(tokens: seq<Token>): string {
    if tokens == [] then ""
    else
      Flatten(tokens[..|tokens| - 1]) +
      match tokens[|tokens| - 1]
      case Text(g) => g
      case Open(m) => OpenDelimiter(m)
      case Close(m) => CloseDelimiter(m)
  }

  // ----- the token stream of a list of open stacks

  /** How far two stacks agree from the outside in. */
  ghost function Shared(a: seq<MarkInterval>, b: seq<MarkInterval>): (k: nat)
    ensures k <= |a| && k <= |b| && a[..k] == b[..k]
    ensures k < |a| && k < |b| ==> a[k] != b[k]
  {
    if a == [] || b == [] || a[0] != b[0] then 0
    else
      var k := Shared(a[1..], b[1..]);
      assert a[..k + 1] == [a[0]] + a[1..][..k] && b[..k + 1] == [b[0]] + b[1..][..k];
      k + 1
  }

  /** Close marks, innermost first. */
  ghost function Closes(marks: seq<MarkInterval>): seq<Token> {
    if marks == [] then [] else [Close(marks[|marks| - 1])] + Closes(marks[..|marks| - 1])
  }

  ghost function Opens(marks: seq<MarkInterval>): seq<Token> {
    if marks == [] then [] else Opens(marks[..|marks| - 1]) + [Open(marks[|marks| - 1])]
  }

  /** What stands between two graphemes: closed is what the stacks do not share, and nothing else. */
  ghost function Bridge(from: seq<MarkInterval>, to: seq<MarkInterval>): seq<Token> {
    Closes(from[Shared(from, to)..]) + Opens(to[Shared(from, to)..])
  }

  ghost function LastStack(stacks: seq<seq<MarkInterval>>): seq<MarkInterval> {
    if stacks == [] then [] else stacks[|stacks| - 1]
  }

  /** The graphemes, each inside its stack. */
  ghost function Stream(stacks: seq<seq<MarkInterval>>, graphemes: seq<string>): seq<Token>
    requires |stacks| == |graphemes|
  {
    if stacks == [] then []
    else
      var k := |stacks| - 1;
      Stream(stacks[..k], graphemes[..k]) + Bridge(LastStack(stacks[..k]), stacks[k]) + [Text(graphemes[k])]
  }

  /** The same, with everything closed at the end. */
  ghost function Whole(stacks: seq<seq<MarkInterval>>, graphemes: seq<string>): seq<Token>
    requires |stacks| == |graphemes|
  {
    Stream(stacks, graphemes) + Bridge(LastStack(stacks), [])
  }

  /** A mark encloses another if it starts earlier, or ends later, or ranks first. */
  predicate Encloses(a: Range, b: Range) {
    || a.start < b.start
    || (a.start == b.start && a.end > b.end)
    || (a.start == b.start && a.end == b.end && NestingRank(a.mark.kind) < NestingRank(b.mark.kind))
    || (a.start == b.start && a.end == b.end && NestingRank(a.mark.kind) == NestingRank(b.mark.kind)
        && Less(a.mark.id, b.mark.id))
  }

  /** The ranges of `ms` that cover `g`, outermost first. */
  ghost predicate ActiveList(ms: seq<Range>, g: nat, active: seq<Range>) {
    && (forall r :: r in active <==> r in ms && Contains(r, g))
    && (forall i, j :: 0 <= i < j < |active| ==> Encloses(active[i], active[j]))
  }

  function MarksOf(rs: seq<Range>): (out: seq<MarkInterval>)
    ensures |out| == |rs| && forall i :: 0 <= i < |rs| ==> out[i] == rs[i].mark
  {
    seq(|rs|, i requires 0 <= i < |rs| => rs[i].mark)
  }

  ghost predicate StackFor(ms: seq<Range>, g: nat, st: seq<MarkInterval>) {
    exists active :: ActiveList(ms, g, active) && st == MarksOf(active)
  }

  /** Each grapheme is written inside exactly the marks that cover it, properly nested. */
  ghost predicate TextsOk(ms: seq<Range>, tokens: seq<Token>) {
    forall k :: 0 <= k < |tokens| && tokens[k].Text? ==>
      Play(tokens[..k]).Some? && StackFor(ms, |Erase(tokens[..k])|, Play(tokens[..k]).value)
  }

  // ----- rendering


  function StartingAt(ms: seq<Range>, i: nat): (out: seq<Range>)
    ensures forall r :: r in out <==> r in ms && r.start == i
  {
    if ms == [] then []
    else StartingAt(ms[..|ms| - 1], i) + if ms[|ms| - 1].start == i then [ms[|ms| - 1]] else []
  }

  function EndingIds(ms: seq<Range>, i: nat): set<OpId> {
    set r | r in ms && r.end == i :: r.mark.id
  }

  function Retain(active: seq<Range>, gone: set<OpId>): (out: seq<Range>)
    ensures forall r :: r in out <==> r in active && r.mark.id !in gone
  {
    if active == [] then []
    else Retain(active[..|active| - 1], gone) + if active[|active| - 1].mark.id in gone then []
        else [active[|active| - 1]]
  }

  /** Two ranges under one id never meet, so an id in `ms` names one range at a time. */
  lemma IdNamesOne(rs: seq<Range>, n: nat, ms: seq<Range>, a: Range, b: Range, g: nat)
    requires DistinctIds(rs) && MergedOk(rs, n, ms) && a in ms && b in ms && a.mark.id == b.mark.id
    requires Contains(a, g) && Contains(b, g)
    ensures a == b
  {
    var x :| x in rs && x.mark == a.mark;
    var y :| y in rs && y.mark == b.mark;
    OneMarkPerId(rs, x, y);
    var i :| 0 <= i < |ms| && ms[i] == a;
    var j :| 0 <= j < |ms| && ms[j] == b;
    assert i == j;
  }

  /** Dropping what ends at `i` and adding what starts there gives what covers `i`. */
  lemma ActiveStep(rs: seq<Range>, n: nat, ms: seq<Range>, active: seq<Range>, i: nat)
    requires DistinctIds(rs) && MergedOk(rs, n, ms)
    requires forall r :: r in active <==> r in ms && i > 0 && Contains(r, i - 1)
    ensures forall r :: r in Retain(active, EndingIds(ms, i)) + StartingAt(ms, i) <==> r in ms && Contains(r, i)
  {
    var kept, added := Retain(active, EndingIds(ms, i)), StartingAt(ms, i);
    forall r ensures r in kept + added <==> r in ms && Contains(r, i) {
      if r in ms && Contains(r, i) && r.start < i {
        if r.mark.id in EndingIds(ms, i) {
          var e :| e in ms && e.end == i && e.mark.id == r.mark.id;
          IdNamesOne(rs, n, ms, r, e, i - 1);
          assert false;
        }
        assert r in kept;
      }
      if r in kept {
        assert r.end != i ==> Contains(r, i);
        assert r.end == i ==> r.mark.id in EndingIds(ms, i);
      }
    }
  }

  /** Sort by start, then end descending, then kind, then id. */
  method SortActive(rs: seq<Range>) returns (sorted: seq<Range>)
    requires forall a, b :: a in rs && b in rs && a.mark.id == b.mark.id ==> a == b
    ensures forall i, j :: 0 <= i < j < |sorted| ==> Encloses(sorted[i], sorted[j])
    ensures forall r :: r in sorted <==> r in rs
  {
    sorted := [];
    for n := 0 to |rs|
      invariant forall i, j :: 0 <= i < j < |sorted| ==> Encloses(sorted[i], sorted[j])
      invariant forall r :: r in sorted <==> r in rs[..n]
    {
      var x := rs[n];
      assert rs[..n + 1] == rs[..n] + [x];
      assert forall r :: r in sorted ==> r in rs;
      if x !in sorted {
        sorted := InsertActive(sorted, x);
      }
    }
    assert rs[..|rs|] == rs;
  }

  method InsertActive(sorted: seq<Range>, x: Range) returns (out: seq<Range>)
    requires forall i, j :: 0 <= i < j < |sorted| ==> Encloses(sorted[i], sorted[j])
    requires forall r :: r in sorted ==> r.mark.id != x.mark.id
    ensures forall i, j :: 0 <= i < j < |out| ==> Encloses(out[i], out[j])
    ensures forall r :: r in out <==> r in sorted || r == x
  {
    var at := 0;
    while at < |sorted| && Encloses(sorted[at], x)
      invariant 0 <= at <= |sorted|
      invariant forall i :: 0 <= i < at ==> Encloses(sorted[i], x)
    {
      at := at + 1;
    }
    forall j | at <= j < |sorted| ensures Encloses(x, sorted[j]) {
      assert sorted[at] in sorted;
      assert j > at ==> Encloses(sorted[at], sorted[j]);
    }
    out := sorted[..at] + [x] + sorted[at..];
  }

  lemma PlayAppend(tokens: seq<Token>, t: Token)
    ensures (tokens + [t])[..|tokens|] == tokens
    ensures Erase(tokens + [t]) == Erase(tokens) + if t.Text? then [t.grapheme] else []
  {
    assert (tokens + [t])[..|tokens|] == tokens;
  }

  /** Appending a delimiter disturbs no earlier grapheme. */
  lemma TextsAppend(ms: seq<Range>, tokens: seq<Token>, t: Token)
    requires TextsOk(ms, tokens)
    requires t.Text? ==> Play(tokens).Some? && StackFor(ms, |Erase(tokens)|, Play(tokens).value)
    ensures TextsOk(ms, tokens + [t])
  {
    var more := tokens + [t];
    forall k | 0 <= k < |more| && more[k].Text?
      ensures Play(more[..k]).Some? && StackFor(ms, |Erase(more[..k])|, Play(more[..k]).value)
    {
      assert more[..k] == tokens[..k];
      assert k == |tokens| ==> tokens[..k] == tokens;
    }
  }

  /** The stream so far: its delimiters leave `stack` open and its graphemes are `texts`. */
  ghost predicate Written(ms: seq<Range>, output: string, tokens: seq<Token>, stack: seq<MarkInterval>,
          texts: seq<string>) {
    Play(tokens) == Some(stack) && output == Flatten(tokens) && TextsOk(ms, tokens) && Erase(tokens) == texts
  }

  lemma WriteOne(ms: seq<Range>, output: string, tokens: seq<Token>, stack: seq<MarkInterval>, texts: seq<string>,
          t: Token)
    requires Written(ms, output, tokens, stack, texts)
    requires t.Text? ==> StackFor(ms, |texts|, stack)
    requires t.Close? ==> stack != [] && stack[|stack| - 1] == t.mark
    ensures match t
      case Text(g) => Written(ms, output + g, tokens + [t], stack, texts + [g])
      case Open(m) => Written(ms, output + OpenDelimiter(m), tokens + [t], stack + [m], texts)
      case Close(m) => Written(ms, output + CloseDelimiter(m), tokens + [t], stack[..|stack| - 1], texts)
  {
    PlayAppend(tokens, t);
    TextsAppend(ms, tokens, t);
    hide TextsOk;
    assert texts + [] == texts;
  }

  lemma SharedIs(a: seq<MarkInterval>, b: seq<MarkInterval>, k: nat)
    requires k <= |a| && k <= |b| && a[..k] == b[..k] && (k < |a| && k < |b| ==> a[k] != b[k])
    ensures Shared(a, b) == k
  {
    var n := Shared(a, b);
    assert forall x :: 0 <= x < k ==> a[..k][x] == b[..k][x];
    assert forall x :: 0 <= x < n ==> a[..n][x] == b[..n][x];
  }

  lemma CloseOne(stack: seq<MarkInterval>, shared: nat, k: nat, tokens: seq<Token>)
    requires shared <= k < |stack|
    ensures tokens + Closes(stack[shared..k + 1]) == (tokens + [Close(stack[k])]) + Closes(stack[shared..k])
  {
    assert stack[shared..k + 1][..k - shared] == stack[shared..k];
  }

  lemma OpenOne(desired: seq<MarkInterval>, shared: nat, k: nat, tokens: seq<Token>)
    requires shared <= k < |desired|
    ensures tokens + Opens(desired[shared..k + 1]) == (tokens + Opens(desired[shared..k])) + [Open(desired[k])]
  {
    assert desired[shared..k + 1][..k - shared] == desired[shared..k];
  }

  lemma Bridged(stack: seq<MarkInterval>, desired: seq<MarkInterval>, shared: nat, tokens: seq<Token>)
    requires shared == Shared(stack, desired)
    ensures tokens + Closes(stack[shared..]) + Opens(desired[shared..]) == tokens + Bridge(stack, desired)
  {
  }

  lemma NothingOpen(s: seq<MarkInterval>, k: nat)
    requires k <= |s|
    ensures Closes(s[k..k]) == [] && Opens(s[k..k]) == []
  {
  }

  /** Close marks down to the first `shared`, innermost first. */
  method CloseDown(output: string, stack: seq<MarkInterval>, shared: nat, ghost tokens: seq<Token>,
          ghost ms: seq<Range>, ghost texts: seq<string>)
    returns (out: string, ghost more: seq<Token>)
    requires shared <= |stack| && Written(ms, output, tokens, stack, texts)
    ensures Written(ms, out, more, stack[..shared], texts) && more == tokens + Closes(stack[shared..])
  {
    hide Written, Closes;
    out, more := output, tokens;
    var k := |stack|;
    assert stack[..|stack|] == stack && stack[shared..k] == stack[shared..];
    while k > shared
      invariant shared <= k <= |stack| && Written(ms, out, more, stack[..k], texts)
      invariant tokens + Closes(stack[shared..]) == more + Closes(stack[shared..k])
    {
      k := k - 1;
      assert stack[..k + 1][..k] == stack[..k];
      CloseOne(stack, shared, k, more);
      WriteOne(ms, out, more, stack[..k + 1], texts, Close(stack[k]));
      out := out + CloseDelimiter(stack[k]);
      more := more + [Close(stack[k])];
    }
    NothingOpen(stack, shared);
  }

  /** Open the marks past the first `shared`. */
  method OpenUp(output: string, desired: seq<MarkInterval>, shared: nat, ghost tokens: seq<Token>, ghost ms: seq<Range>,
          ghost texts: seq<string>)
    returns (out: string, ghost more: seq<Token>)
    requires shared <= |desired| && Written(ms, output, tokens, desired[..shared], texts)
    ensures Written(ms, out, more, desired, texts) && more == tokens + Opens(desired[shared..])
  {
    hide Written, Opens;
    out, more := output, tokens;
    var k := shared;
    NothingOpen(desired, shared);
    while k < |desired|
      invariant shared <= k <= |desired| && Written(ms, out, more, desired[..k], texts)
      invariant more == tokens + Opens(desired[shared..k])
    {
      assert desired[..k + 1] == desired[..k] + [desired[k]];
      OpenOne(desired, shared, k, tokens);
      WriteOne(ms, out, more, desired[..k], texts, Open(desired[k]));
      out := out + OpenDelimiter(desired[k]);
      more := more + [Open(desired[k])];
      k := k + 1;
    }
    assert desired[..|desired|] == desired && desired[shared..k] == desired[shared..];
  }

  /** Close what is no longer wanted, innermost first, and open what is new. */
  method Switch(output: string, stack: seq<MarkInterval>, desired: seq<MarkInterval>, ghost tokens: seq<Token>,
          ghost ms: seq<Range>, ghost texts: seq<string>)
    returns (out: string, ghost more: seq<Token>)
    requires Written(ms, output, tokens, stack, texts)
    requires forall a, b :: a in stack && b in desired && a.id == b.id ==> a == b
    ensures Written(ms, out, more, desired, texts)
    ensures more == tokens + Bridge(stack, desired)
  {
    hide Written, Shared, Closes, Opens, Bridge;
    var shared := 0;
    while shared < |stack| && shared < |desired| && stack[shared].id == desired[shared].id
      invariant shared <= |stack| && shared <= |desired|
      invariant stack[..shared] == desired[..shared]
    {
      assert stack[shared] in stack && desired[shared] in desired;
      shared := shared + 1;
    }
    SharedIs(stack, desired, shared);
    out, more := CloseDown(output, stack, shared, tokens, ms, texts);
    out, more := OpenUp(out, desired, shared, more, ms, texts);
    Bridged(stack, desired, shared, tokens);
  }

  /** What covered the grapheme before `i`, outermost first. */
  ghost predicate ActiveBefore(ms: seq<Range>, i: nat, active: seq<Range>) {
    if i == 0 then active == [] else ActiveList(ms, i - 1, active)
  }

  /** Move from the marks covering `i - 1` to those covering `i`. */
  method Advance(ms: seq<Range>, active: seq<Range>, i: nat, ghost rs: seq<Range>, ghost n: nat)
    returns (now: seq<Range>)
    requires DistinctIds(rs) && MergedOk(rs, n, ms) && ActiveBefore(ms, i, active)
    ensures ActiveList(ms, i, now)
    ensures EndingIds(ms, i) == {} && StartingAt(ms, i) == [] ==> now == active
    ensures forall x, y :: x in MarksOf(active) && y in MarksOf(now) && x.id == y.id ==> x == y
  {
    hide DistinctIds, MergedOk, Encloses;
    ActiveStep(rs, n, ms, active, i);
    if EndingIds(ms, i) == {} && StartingAt(ms, i) == [] {
      NothingHappens(ms, active, i);
      now := active;
    } else {
      var next := Retain(active, EndingIds(ms, i)) + StartingAt(ms, i);
      UniqueIds(rs, n, ms, next, i);
      now := SortActive(next);
    }
    SameIdSameMark(rs, n, ms, active, now);
  }

  lemma NoBridge(stack: seq<MarkInterval>)
    ensures Bridge(stack, stack) == []
  {
    SharedIs(stack, stack, |stack|);
    assert stack[|stack|..] == [];
  }

  lemma StackNow(ms: seq<Range>, g: nat, active: seq<Range>)
    requires ActiveList(ms, g, active)
    ensures StackFor(ms, g, MarksOf(active))
  {
  }

  /** The stream of the graphemes before `i`; past the last one, with the delimiters that lead to `stack`. */
  ghost predicate Streaming(ms: seq<Range>, tokens: seq<Token>, stacks: seq<seq<MarkInterval>>,
          stack: seq<MarkInterval>, graphemes: seq<string>, i: nat) {
    && |stacks| == (if i <= |graphemes| then i else |graphemes|)
    && (forall g :: 0 <= g < |stacks| ==> StackFor(ms, g, stacks[g]))
    && (if i <= |graphemes| then stack == LastStack(stacks) && tokens == Stream(stacks, graphemes[..i])
        else tokens == Stream(stacks, graphemes) + Bridge(LastStack(stacks), stack))
  }

  lemma StreamNext(ms: seq<Range>, had: seq<Token>, stacks: seq<seq<MarkInterval>>, was: seq<MarkInterval>,
          graphemes: seq<string>, i: nat, stack: seq<MarkInterval>)
    requires i < |graphemes| && Streaming(ms, had, stacks, was, graphemes, i) && StackFor(ms, i, stack)
    ensures Streaming(ms, had + Bridge(was, stack) + [Text(graphemes[i])], stacks + [stack], stack, graphemes, i + 1)
  {
    hide StackFor, Bridge;
    assert (stacks + [stack])[..i] == stacks && graphemes[..i + 1][..i] == graphemes[..i];
  }

  lemma StreamEnd(ms: seq<Range>, had: seq<Token>, stacks: seq<seq<MarkInterval>>, was: seq<MarkInterval>,
          graphemes: seq<string>, stack: seq<MarkInterval>)
    requires Streaming(ms, had, stacks, was, graphemes, |graphemes|)
    ensures Streaming(ms, had + Bridge(was, stack), stacks, stack, graphemes, |graphemes| + 1)
  {
    hide StackFor, Bridge, Stream;
    assert graphemes[..|graphemes|] == graphemes;
  }

  /** Write the graphemes, keeping the open delimiters equal to the marks that cover each of them. */
  method Render(graphemes: seq<string>, ms: seq<Range>, ghost rs: seq<Range>)
    returns (output: string, ghost tokens: seq<Token>, ghost stacks: seq<seq<MarkInterval>>)
    requires DistinctIds(rs) && MergedOk(rs, |graphemes|, ms)
    ensures Written(ms, output, tokens, [], graphemes)
    ensures |stacks| == |graphemes| && forall g :: 0 <= g < |stacks| ==> StackFor(ms, g, stacks[g])
    ensures tokens == Whole(stacks, graphemes)
  {
    hide DistinctIds, MergedOk, ActiveList, Written, StackFor, Stream, Bridge;
    var n := |graphemes|;
    output, tokens, stacks := "", [], [];
    var active: seq<Range>, stack: seq<MarkInterval> := [], [];
    NothingWritten(ms, graphemes);
    for i := 0 to n + 1
      invariant stack == MarksOf(active) && ActiveBefore(ms, i, active)
      invariant Written(ms, output, tokens, stack, graphemes[..if i <= n then i else n])
      invariant Streaming(ms, tokens, stacks, stack, graphemes, i)
    {
      hide Streaming, LastStack;
      ghost var had, was := tokens, stack;
      var texts := graphemes[..i];
      var now := Advance(ms, active, i, rs, n);
      if EndingIds(ms, i) != {} || StartingAt(ms, i) != [] {
        output, tokens := Switch(output, stack, MarksOf(now), tokens, ms, texts);
      } else {
        NoBridge(stack);
        assert tokens == tokens + [];
      }
      active, stack := now, MarksOf(now);
      if i < n {
        StackNow(ms, i, now);
        StreamNext(ms, had, stacks, was, graphemes, i, stack);
        WriteOne(ms, output, tokens, stack, texts, Text(graphemes[i]));
        assert graphemes[..i + 1] == texts + [graphemes[i]];
        output := output + graphemes[i];
        tokens := tokens + [Text(graphemes[i])];
        stacks := stacks + [stack];
      } else {
        StreamEnd(ms, had, stacks, was, graphemes, stack);
      }
    }
    assert graphemes[..n] == graphemes;
    NothingPastEnd(rs, n, ms, active);
  }

  lemma NothingWritten(ms: seq<Range>, graphemes: seq<string>)
    ensures Written(ms, "", [], [], graphemes[..0]) && Streaming(ms, [], [], [], graphemes, 0)
  {
  }

  lemma FirstIsMember(rs: seq<Range>)
    requires rs != []
    ensures rs[0] in rs
  {
  }

  lemma NothingPastEnd(rs: seq<Range>, n: nat, ms: seq<Range>, active: seq<Range>)
    requires MergedOk(rs, n, ms) && ActiveList(ms, n, active)
    ensures active == []
  {
    if active != [] {
      FirstIsMember(active);
      assert false;
    }
  }

  lemma UniqueIds(rs: seq<Range>, n: nat, ms: seq<Range>, next: seq<Range>, g: nat)
    requires DistinctIds(rs) && MergedOk(rs, n, ms) && forall r :: r in next ==> r in ms && Contains(r, g)
    ensures forall a, b :: a in next && b in next && a.mark.id == b.mark.id ==> a == b
  {
    forall a, b | a in next && b in next && a.mark.id == b.mark.id ensures a == b {
      IdNamesOne(rs, n, ms, a, b, g);
    }
  }

  lemma SameIdSameMark(rs: seq<Range>, n: nat, ms: seq<Range>, a: seq<Range>, b: seq<Range>)
    requires DistinctIds(rs) && MergedOk(rs, n, ms) && (forall r :: r in a ==> r in ms)
        && (forall r :: r in b ==> r in ms)
    ensures forall x, y :: x in MarksOf(a) && y in MarksOf(b) && x.id == y.id ==> x == y
  {
    forall x, y | x in MarksOf(a) && y in MarksOf(b) && x.id == y.id ensures x == y {
      var i :| 0 <= i < |a| && a[i].mark == x;
      var j :| 0 <= j < |b| && b[j].mark == y;
      assert a[i] in a && b[j] in b;
      var p :| p in rs && p.mark == x;
      var q :| q in rs && q.mark == y;
      OneMarkPerId(rs, p, q);
    }
  }

  lemma NothingHappens(ms: seq<Range>, active: seq<Range>, i: nat)
    requires EndingIds(ms, i) == {} && StartingAt(ms, i) == []
    requires forall r :: r in active <==> r in ms && i > 0 && Contains(r, i - 1)
    ensures forall r :: r in active <==> r in ms && Contains(r, i)
  {
    var none: seq<Range> := [];
    forall r | r in ms ensures r.start != i && r.end != i {
      assert r.start == i ==> r in StartingAt(ms, i);
      assert r.end == i ==> r.mark.id in EndingIds(ms, i);
      assert r !in none;
    }
  }

  // ----- no fewer delimiters would do

  lemma {:induction false} BridgeLength(from: seq<MarkInterval>, to: seq<MarkInterval>)
    ensures |Bridge(from, to)| == |from| + |to| - 2 * Shared(from, to)
  {
    var k := Shared(from, to);
    ClosesLength(from[k..]);
    OpensLength(to[k..]);
  }

  lemma {:induction false} ClosesLength(marks: seq<MarkInterval>)
    ensures |Closes(marks)| == |marks|
  {
    if marks != [] {
      ClosesLength(marks[..|marks| - 1]);
    }
  }

  lemma {:induction false} OpensLength(marks: seq<MarkInterval>)
    ensures |Opens(marks)| == |marks|
  {
    if marks != [] {
      OpensLength(marks[..|marks| - 1]);
    }
  }

  /** Two stacks share at least what both share with a third. */
  lemma SharedAtLeast(a: seq<MarkInterval>, b: seq<MarkInterval>, k: nat)
    requires k <= |a| && k <= |b| && a[..k] == b[..k]
    ensures Shared(a, b) >= k
  {
    assert forall x :: 0 <= x < k ==> a[..k][x] == b[..k][x];
  }

  /** One delimiter brings two stacks no more than one step closer. */
  lemma OneStepCloser(from: seq<MarkInterval>, mid: seq<MarkInterval>, to: seq<MarkInterval>)
    requires (mid != [] && to == mid[..|mid| - 1]) || (to != [] && mid == to[..|to| - 1])
    ensures |Bridge(from, to)| <= |Bridge(from, mid)| + 1
  {
    BridgeLength(from, to);
    BridgeLength(from, mid);
    var k := Shared(from, mid);
    if |to| < |mid| {
      var j := if k < |to| then k else |to|;
      assert from[..j] == from[..k][..j] == mid[..k][..j] == to[..j];
      SharedAtLeast(from, to, j);
    } else {
      assert to[..k] == mid[..k];
      SharedAtLeast(from, to, k);
    }
  }

  /** Any run of delimiters that leads from one stack to another is at least as long as the bridge. */
  lemma {:induction false} BridgeShortest(tokens: seq<Token>, from: seq<MarkInterval>, run: seq<Token>,
          to: seq<MarkInterval>)
    requires Play(tokens) == Some(from) && Play(tokens + run) == Some(to)
    requires forall i :: 0 <= i < |run| ==> !run[i].Text?
    ensures |run| >= |Bridge(from, to)|
    decreases |run|
  {
    if run == [] {
      assert tokens + run == tokens;
      NoBridge(from);
    } else {
      var init := run[..|run| - 1];
      assert (tokens + run)[..|tokens + run| - 1] == tokens + init;
      var mid := Play(tokens + init).value;
      BridgeShortest(tokens, from, init, mid);
      OneStepCloser(from, mid, to);
    }
  }

  // ----- how the open marks are stacked, in terms of what each grapheme should show

  /** The longest stretch around `g` that shows key `k`. */
  ghost predicate RunAround(wants: (nat, Key) -> bool, n: nat, g: nat, k: Key, s: nat, e: nat) {
    && s <= g < e <= n && (forall x :: s <= x < e ==> wants(x, k))
    && (s > 0 ==> !wants(s - 1, k)) && (e < n ==> !wants(e, k))
  }

  /** Links stand outside bold, bold outside italic, italic outside code, and code outside custom marks. */
  predicate StandsOutside(a: MarkKind, b: MarkKind) {
    match a
    case Link => !b.Link?
    case Bold => b.Italic? || b.Code? || b.Custom?
    case Italic => b.Code? || b.Custom?
    case Code => b.Custom?
    case Custom(_) => false
  }

  /** The outer of two open marks has the stretch that starts earlier; then the one that ends later; then the kind
      that stands outside; then the lesser id. */
  ghost predicate NestsIn(wants: (nat, Key) -> bool, n: nat, g: nat, outer: MarkInterval, inner: MarkInterval) {
    forall s, e, s', e' ::
      RunAround(wants, n, g, KeyOf(outer), s, e) && RunAround(wants, n, g, KeyOf(inner), s', e') ==>
      || s < s' || (s == s' && e > e')
      || (s == s' && e == e' && StandsOutside(outer.kind, inner.kind))
      || (s == s' && e == e' && !StandsOutside(inner.kind, outer.kind) && Less(outer.id, inner.id))
  }

  /** The stack on `g` holds each wanted key once and no other, in nesting order. */
  ghost predicate StackLaid(wants: (nat, Key) -> bool, n: nat, g: nat, stack: seq<MarkInterval>) {
    && (forall k :: wants(g, k) <==> exists m :: m in stack && KeyOf(m) == k)
    && (forall i, j :: 0 <= i < j < |stack| ==>
          KeyOf(stack[i]) != KeyOf(stack[j]) && NestsIn(wants, n, g, stack[i], stack[j]))
  }

  /** Every grapheme has its stack, and a key that goes on to the next grapheme is the same open mark. */
  ghost predicate Laid(wants: (nat, Key) -> bool, n: nat, stacks: seq<seq<MarkInterval>>) {
    && |stacks| == n && (forall g :: 0 <= g < n ==> StackLaid(wants, n, g, stacks[g]))
    && (forall g :: 0 < g < n ==> GoesOn(stacks, g))
  }

  ghost predicate GoesOn(stacks: seq<seq<MarkInterval>>, g: nat)
    requires 0 < g < |stacks|
  {
    forall a, b :: a in stacks[g - 1] && b in stacks[g] && KeyOf(a) == KeyOf(b) ==> a == b
  }

  ghost function Wanted(rs: seq<Range>, n: nat): (nat, Key) -> bool {
    (g: nat, k: Key) => WantsKey(rs, n, g, k)
  }

  ghost predicate Writes(output: string, graphemes: seq<string>, stacks: seq<seq<MarkInterval>>) {
    |stacks| == |graphemes| && output == Flatten(Whole(stacks, graphemes))
  }

  /** Of the marks that share its key and its stretch, the open one has the least id. */
  ghost predicate OpensLeast(rs: seq<Range>, n: nat, g: nat, m: MarkInterval) {
    forall r, x: nat, s: nat, e: nat ::
      RunAround(Wanted(rs, n), n, g, KeyOf(m), s, e) && s <= x < e && ActiveAt(rs, n, x, r)
          && KeyOf(r.mark) == KeyOf(m) ==>
        !Less(r.mark.id, m.id)
  }

  ghost predicate AllOpenLeast(rs: seq<Range>, n: nat, stacks: seq<seq<MarkInterval>>) {
    |stacks| == n && forall g, m :: 0 <= g < n && m in stacks[g] ==> OpensLeast(rs, n, g, m)
  }

  /** What merging says of ids, in terms of the marks that were merged. */
  ghost predicate LeastActive(rs: seq<Range>, n: nat, ms: seq<Range>) {
    forall p, r, x: nat ::
      p in ms && x < n && Contains(p, x) && ActiveAt(rs, n, x, r) && KeyOf(r.mark) == KeyOf(p.mark) ==>
      !Less(r.mark.id, p.mark.id)
  }

  lemma LeastOfMarks(rs: seq<Range>, n: nat, winners: seq<Option<MarkInterval>>, plain: seq<Range>, runs: seq<Range>,
          ms: seq<Range>)
    requires DistinctIds(rs) && Projected(rs, n, winners, plain, runs) && LeastIds(plain + runs, ms)
    ensures LeastActive(rs, n, ms)
  {
    hide DistinctIds, Projected, ActiveAt, KeyOf;
    forall p, r, x: nat | p in ms && x < n && Contains(p, x) && ActiveAt(rs, n, x, r) && KeyOf(r.mark) == KeyOf(p.mark)
      ensures !Less(r.mark.id, p.mark.id)
    {
      var q := ActiveIsProjected(rs, n, winners, plain, runs, x, r);
      assert LeastOfKey(plain + runs, p);
    }
  }

  lemma StacksLeast(rs: seq<Range>, n: nat, ms: seq<Range>, stacks: seq<seq<MarkInterval>>)
    requires SameCoverage(rs, n, ms) && KeptApart(ms) && LeastActive(rs, n, ms) && |stacks| == n
    requires forall g :: 0 <= g < n ==> StackFor(ms, g, stacks[g])
    ensures AllOpenLeast(rs, n, stacks)
  {
    hide StackFor, SameCoverage, KeptApart, RunAround, KeyOf;
    forall g, m | 0 <= g < n && m in stacks[g] ensures OpensLeast(rs, n, g, m) {
      var p := RangeOfOpen(ms, g, stacks[g], m);
      forall r, x: nat, s: nat, e: nat | RunAround(Wanted(rs, n), n, g, KeyOf(m), s, e) && s <= x < e
          && ActiveAt(rs, n, x, r) && KeyOf(r.mark) == KeyOf(m)
        ensures !Less(r.mark.id, m.id)
      {
        RangeIsRun(rs, n, ms, p, g, s, e);
      }
    }
  }

  /** A merged range is the whole stretch of its key. */
  lemma RangeIsRun(rs: seq<Range>, n: nat, ms: seq<Range>, p: Range, g: nat, s: nat, e: nat)
    requires SameCoverage(rs, n, ms) && KeptApart(ms) && p in ms && Contains(p, g)
    requires RunAround(Wanted(rs, n), n, g, KeyOf(p.mark), s, e)
    ensures p.start == s && p.end == e
  {
    hide WantsKey;
    var k := KeyOf(p.mark);
    forall x: nat | x < n ensures Wanted(rs, n)(x, k) <==> KeyCovered(ms, k, x) {
    }
    forall x: nat | Contains(p, x) ensures KeyCovered(ms, k, x) {
    }
    if s < p.start {
      OnlyRange(ms, p, p.start - 1);
      assert false;
    }
    if p.end < e {
      OnlyRange(ms, p, p.end);
      assert false;
    }
  }

  /** Right beside a merged range its key is not covered. */
  lemma OnlyRange(ms: seq<Range>, p: Range, x: nat)
    requires KeptApart(ms) && p in ms && p.start < p.end && (x + 1 == p.start || x == p.end)
    ensures !KeyCovered(ms, KeyOf(p.mark), x)
  {
    if KeyCovered(ms, KeyOf(p.mark), x) {
      var q :| q in ms && Contains(q, x) && KeyOf(q.mark) == KeyOf(p.mark);
      var i :| 0 <= i < |ms| && ms[i] == p;
      var j :| 0 <= j < |ms| && ms[j] == q;
      assert false;
    }
  }

  /** Two ranges of one key that cover the same or neighbouring graphemes are one. */
  lemma KeyNamesOne(ms: seq<Range>, p: Range, q: Range, g: nat)
    requires KeptApart(ms) && p in ms && q in ms && KeyOf(p.mark) == KeyOf(q.mark)
    requires Contains(p, g) && (Contains(q, g) || Contains(q, g + 1))
    ensures p == q
  {
    var i :| 0 <= i < |ms| && ms[i] == p;
    var j :| 0 <= j < |ms| && ms[j] == q;
    assert i != j ==> Separated(p, q) || Separated(q, p);
  }

  lemma StacksLaid(rs: seq<Range>, n: nat, ms: seq<Range>, stacks: seq<seq<MarkInterval>>)
    requires SameCoverage(rs, n, ms) && KeptApart(ms) && |stacks| == n
    requires forall g :: 0 <= g < n ==> StackFor(ms, g, stacks[g])
    ensures Laid(Wanted(rs, n), n, stacks)
  {
    hide StackFor, StackLaid, SameCoverage;
    forall g | 0 <= g < n ensures StackLaid(Wanted(rs, n), n, g, stacks[g]) {
      OneStackLaid(rs, n, ms, g, stacks[g]);
    }
    forall g | 0 < g < n ensures GoesOn(stacks, g) {
      forall a, b | a in stacks[g - 1] && b in stacks[g] && KeyOf(a) == KeyOf(b) ensures a == b {
        var p := RangeOfOpen(ms, g - 1, stacks[g - 1], a);
        var q := RangeOfOpen(ms, g, stacks[g], b);
        KeyNamesOne(ms, p, q, g - 1);
      }
    }
  }

  lemma RangeOfOpen(ms: seq<Range>, g: nat, stack: seq<MarkInterval>, m: MarkInterval) returns (p: Range)
    requires StackFor(ms, g, stack) && m in stack
    ensures p in ms && Contains(p, g) && p.mark == m
  {
    var active: seq<Range> :| ActiveList(ms, g, active) && stack == MarksOf(active);
    var i :| 0 <= i < |stack| && stack[i] == m;
    p := active[i];
    assert p in active;
  }

  lemma OneStackLaid(rs: seq<Range>, n: nat, ms: seq<Range>, g: nat, stack: seq<MarkInterval>)
    requires SameCoverage(rs, n, ms) && KeptApart(ms) && g < n && StackFor(ms, g, stack)
    ensures StackLaid(Wanted(rs, n), n, g, stack)
  {
    hide WantsKey, SameCoverage, KeptApart, NestsIn, Encloses;
    StackHasKeys(rs, n, ms, g, stack);
    var active: seq<Range> :| ActiveList(ms, g, active) && stack == MarksOf(active);
    forall i, j | 0 <= i < j < |stack|
      ensures KeyOf(stack[i]) != KeyOf(stack[j]) && NestsIn(Wanted(rs, n), n, g, stack[i], stack[j])
    {
      var p, q := active[i], active[j];
      assert p in active && q in active && Encloses(p, q);
      if KeyOf(p.mark) == KeyOf(q.mark) {
        KeyNamesOne(ms, p, q, g);
        NotInItself(p);
        assert false;
      }
      EnclosesNests(rs, n, ms, g, p, q);
    }
  }

  lemma NotInItself(p: Range)
    ensures !Encloses(p, p)
  {
  }

  lemma EnclosesNests(rs: seq<Range>, n: nat, ms: seq<Range>, g: nat, p: Range, q: Range)
    requires SameCoverage(rs, n, ms) && KeptApart(ms) && g < n
    requires p in ms && q in ms && Contains(p, g) && Contains(q, g) && Encloses(p, q)
    ensures NestsIn(Wanted(rs, n), n, g, p.mark, q.mark)
  {
    hide SameCoverage, KeptApart, RunAround;
    var wants := Wanted(rs, n);
    forall s, e, s', e' | RunAround(wants, n, g, KeyOf(p.mark), s, e) && RunAround(wants, n, g, KeyOf(q.mark), s', e')
      ensures p.start == s && p.end == e && q.start == s' && q.end == e'
    {
      RangeIsRun(rs, n, ms, p, g, s, e);
      RangeIsRun(rs, n, ms, q, g, s', e');
    }
  }

  /** The inline Markdown of a text body. The delimiters nest and all close; without them the text is
      unchanged; and each grapheme stands inside exactly the keys of the marks active on it. */
  method SerializeText(graphemes: seq<string>, rs: seq<Range>) returns (output: string)
    requires DistinctIds(rs)
    ensures exists stacks ::
      && Writes(output, graphemes, stacks)
      && Laid(Wanted(rs, |graphemes|), |graphemes|, stacks)
      && Faithful(rs, graphemes, Whole(stacks, graphemes))
      && AllOpenLeast(rs, |graphemes|, stacks)
  {
    hide Whole, LeastIds, LeastActive, AllOpenLeast;
    var n := |graphemes|;
    var winners, plain := LinkWinners(rs, n);
    var runs := LinkRuns(n, winners);
    var projected := plain + runs;
    assert Projected(rs, n, winners, plain, runs) by {
      forall g: nat | g < n && winners[g].Some? ensures CoveredBy(runs, g) {
        var p :| p in runs && Contains(p, g);
      }
    }
    ProjectionCovers(rs, n, winners, plain, runs);
    var merged := MergeAll(projected, n);
    LeastOfMarks(rs, n, winners, plain, runs, merged);
    MergedStillOk(rs, n, projected, merged);
    ghost var tokens, stacks;
    output, tokens, stacks := Render(graphemes, merged, rs);
    StacksLaid(rs, n, merged, stacks);
    StacksLeast(rs, n, merged, stacks);
    forall k | 0 <= k < |tokens| && tokens[k].Text? ensures KeysAsWanted(rs, n, tokens[..k]) {
      EraseGrows(tokens, k);
      StackHasKeys(rs, n, merged, |Erase(tokens[..k])|, Play(tokens[..k]).value);
    }
  }

  /** The tokens hold the text, their delimiters nest and close, and each grapheme has its keys open. */
  ghost predicate Faithful(rs: seq<Range>, graphemes: seq<string>, tokens: seq<Token>) {
    && Erase(tokens) == graphemes && Play(tokens) == Some([])
    && forall k :: 0 <= k < |tokens| && tokens[k].Text? ==> KeysAsWanted(rs, |graphemes|, tokens[..k])
  }

  /** The open delimiters are those of the marks active on the next grapheme, by key. */
  ghost predicate KeysAsWanted(rs: seq<Range>, n: nat, tokens: seq<Token>) {
    && Play(tokens).Some?
    && forall k :: (exists m :: m in Play(tokens).value && KeyOf(m) == k) <==> WantsKey(rs, n, |Erase(tokens)|, k)
  }

  lemma MergedStillOk(rs: seq<Range>, n: nat, ps: seq<Range>, ms: seq<Range>)
    requires SameCoverage(rs, n, ps) && KeptApart(ms)
    requires forall p :: p in ps ==> FromMarks(rs, p.mark)
    requires forall m :: m in ms ==> Visible(m, n) && FromMarks(ps, m.mark)
    requires forall g: nat, k :: KeyCovered(ms, k, g) <==> KeyCovered(ps, k, g)
    ensures MergedOk(rs, n, ms)
  {
    forall m | m in ms ensures FromMarks(rs, m.mark) {
      var p :| p in ps && p.mark == m.mark;
    }
  }

  lemma StackHasKeys(rs: seq<Range>, n: nat, ms: seq<Range>, g: nat, st: seq<MarkInterval>)
    requires SameCoverage(rs, n, ms) && StackFor(ms, g, st) && g < n
    ensures forall k :: (exists m :: m in st && KeyOf(m) == k) <==> WantsKey(rs, n, g, k)
  {
    var active: seq<Range> :| ActiveList(ms, g, active) && st == MarksOf(active);
    forall k ensures (exists m :: m in st && KeyOf(m) == k) <==> KeyCovered(ms, k, g) {
      if m :| m in st && KeyOf(m) == k {
        var i :| 0 <= i < |active| && active[i].mark == m;
        assert active[i] in active;
      }
      if KeyCovered(ms, k, g) {
        var p :| p in ms && Contains(p, g) && KeyOf(p.mark) == k;
        assert p in active;
        var i :| 0 <= i < |active| && active[i] == p;
        assert st[i] == p.mark;
      }
    }
  }

  lemma {:induction false} EraseGrows(tokens: seq<Token>, k: nat)
    requires k < |tokens| && tokens[k].Text?
    ensures |Erase(tokens[..k])| < |Erase(tokens)|
    decreases |tokens|
  {
    var init := tokens[..|tokens| - 1];
    if k < |init| {
      EraseGrows(init, k);
      assert init[..k] == tokens[..k];
    }
  }
}
