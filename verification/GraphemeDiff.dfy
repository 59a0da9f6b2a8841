/**
 Grapheme-level diff and its replay (src/filesync/diff.rs and the edit loop of
 src/filesync/session.rs). Graphemes are opaque tokens.
 */
module GraphemeDiff {

  datatype Step = Equal(oldIndex: nat, newIndex: nat) | Delete(oldIndex: nat) | Insert(newIndex: nat)

  function Max(a: nat, b: nat): nat { if a < b then b else a }

  // ----- the reference: longest common subsequence of two prefixes

  function LcsLen<T(==)>(a: seq<T>, b: seq<T>, i: nat, j: nat): nat
    requires i <= |a| && j <= |b|
  {
    if i == 0 || j == 0 then 0
    else if a[i - 1] == b[j - 1] then LcsLen(a, b, i - 1, j - 1) + 1
    else Max(LcsLen(a, b, i, j - 1), LcsLen(a, b, i - 1, j))
  }

  /** Index pairs, strictly increasing on both sides, of equal tokens. */
  predicate CommonSubsequence<T(==)>(a: seq<T>, b: seq<T>, pairs: seq<(nat, nat)>) {
    && (forall k :: 0 <= k < |pairs| ==> pairs[k].0 < |a| && pairs[k].1 < |b| && a[pairs[k].0] == b[pairs[k].1])
    && (forall k, l :: 0 <= k < l < |pairs| ==> pairs[k].0 < pairs[l].0 && pairs[k].1 < pairs[l].1)
  }

  /** Nothing common to the two prefixes is longer than what the recurrence counts. */
  lemma {:induction false} LcsBounds<T>(a: seq<T>, b: seq<T>, i: nat, j: nat, pairs: seq<(nat, nat)>)
    requires i <= |a| && j <= |b| && CommonSubsequence(a, b, pairs)
    requires forall k :: 0 <= k < |pairs| ==> pairs[k].0 < i && pairs[k].1 < j
    ensures |pairs| <= LcsLen(a, b, i, j)
  {
    if pairs != [] {
      var last := pairs[|pairs| - 1];
      if a[i - 1] == b[j - 1] {
        LcsBounds(a, b, i - 1, j - 1, pairs[..|pairs| - 1]);
      } else if last.0 < i - 1 {
        LcsBounds(a, b, i - 1, j, pairs);
      } else {
        LcsBounds(a, b, i, j - 1, pairs);
      }
    }
  }

  // ----- what an edit script says

  function Olds(steps: seq<Step>): seq<nat> {
    if steps == [] then []
    else (if steps[0].Insert? then [] else [steps[0].oldIndex]) + Olds(steps[1..])
  }

  function News(steps: seq<Step>): seq<nat> {
    if steps == [] then []
    else (if steps[0].Delete? then [] else [steps[0].newIndex]) + News(steps[1..])
  }

  function Kept(steps: seq<Step>): nat {
    if steps == [] then 0 else (if steps[0].Equal? then 1 else 0) + Kept(steps[1..])
  }

  function Range(from: nat, to: nat): seq<nat>
    requires from <= to
  {
    seq(to - from, (k: nat) => from + k)
  }

  /** The script runs through a[i..] and b[j..] in order, and pairs only equal tokens. */
  predicate Aligns<T(==)>(a: seq<T>, b: seq<T>, i: nat, j: nat, steps: seq<Step>) {
    && i <= |a| && j <= |b|
    && Olds(steps) == Range(i, |a|) && News(steps) == Range(j, |b|)
    && (forall k :: 0 <= k < |steps| && steps[k].Equal? ==>
          steps[k].oldIndex < |a| && steps[k].newIndex < |b| && a[steps[k].oldIndex] == b[steps[k].newIndex])
  }

  lemma AlignsPrepend<T>(a: seq<T>, b: seq<T>, i: nat, j: nat, steps: seq<Step>, s: Step)
    requires Aligns(a, b, i, j, steps)
    requires match s
      case Equal(x, y) => x + 1 == i && y + 1 == j && a[x] == b[y]
      case Delete(x) => x + 1 == i
      case Insert(y) => y + 1 == j
    ensures Aligns(a, b, if s.Insert? then i else i - 1, if s.Delete? then j else j - 1, [s] + steps)
    ensures Kept([s] + steps) == Kept(steps) + if s.Equal? then 1 else 0
  {
    assert ([s] + steps)[1..] == steps;
    assert i > 0 ==> Range(i - 1, |a|) == [i - 1] + Range(i, |a|);
    assert j > 0 ==> Range(j - 1, |b|) == [j - 1] + Range(j, |b|);
  }

  function Reverse<X>(s: seq<X>): seq<X> {
    if s == [] then [] else [s[|s| - 1]] + Reverse(s[..|s| - 1])
  }

  predicate RowOk<T(==)>(a: seq<T>, b: seq<T>, i: nat, row: seq<nat>)
    requires i <= |a|
  {
    |row| <= |b| + 1 && forall j :: 0 <= j < |row| ==> row[j] == LcsLen(a, b, i, j)
  }

  /** The dynamic program: row `i`, column `j` holds the length for the prefixes of `i` and `j` tokens. */
  method LcsTable<T(==)>(a: seq<T>, b: seq<T>) returns (dp: seq<seq<nat>>)
    ensures |dp| == |a| + 1
    ensures forall i :: 0 <= i <= |a| ==> |dp[i]| == |b| + 1 && RowOk(a, b, i, dp[i])
  {
    dp := [seq(|b| + 1, j => 0)];
    for i := 0 to |a|
      invariant |dp| == i + 1
      invariant forall x :: 0 <= x <= i ==> |dp[x]| == |b| + 1 && RowOk(a, b, x, dp[x])
    {
      var row: seq<nat> := [0];
      for j := 0 to |b|
        invariant |row| == j + 1 && RowOk(a, b, i + 1, row)
      {
        row := row + [if a[i] == b[j] then dp[i][j] + 1 else Max(row[j], dp[i][j + 1])];
      }
      dp := dp + [row];
    }
  }

  /** A valid script that keeps as many tokens as any common subsequence has. */
  method LcsSteps<T(==)>(a: seq<T>, b: seq<T>) returns (steps: seq<Step>)
    ensures Aligns(a, b, 0, 0, steps)
    ensures Kept(steps) == LcsLen(a, b, |a|, |b|)
    ensures forall pairs :: CommonSubsequence(a, b, pairs) ==> |pairs| <= Kept(steps)
  {
    var dp := LcsTable(a, b);
    steps := [];
    var i: nat, j: nat := |a|, |b|;
    while i > 0 || j > 0
      invariant i <= |a| && j <= |b| && Aligns(a, b, i, j, Reverse(steps))
      invariant Kept(Reverse(steps)) + LcsLen(a, b, i, j) == LcsLen(a, b, |a|, |b|)
      decreases i + j
    {
      var s;
      if i > 0 && j > 0 && a[i - 1] == b[j - 1] {
        s := Equal(i - 1, j - 1);
      } else if j > 0 && (i == 0 || dp[i][j - 1] >= dp[i - 1][j]) {
        s := Insert(j - 1);
      } else {
        s := Delete(i - 1);
      }
      AlignsPrepend(a, b, i, j, Reverse(steps), s);
      assert Reverse(steps + [s]) == [s] + Reverse(steps);
      steps := steps + [s];
      i := if s.Insert? then i else i - 1;
      j := if s.Delete? then j else j - 1;
    }
    steps := Reverse(steps);
    forall pairs | CommonSubsequence(a, b, pairs) ensures |pairs| <= Kept(steps) {
      LcsBounds(a, b, |a|, |b|, pairs);
    }
  }

  // ----- replaying a script on a plain list

  function Removed(steps: seq<Step>): seq<nat> {
    if steps == [] then [] else (if steps[0].Delete? then [steps[0].oldIndex] else []) + Removed(steps[1..])
  }

  function Added(steps: seq<Step>): seq<nat> {
    if steps == [] then [] else (if steps[0].Insert? then [steps[0].newIndex] else []) + Added(steps[1..])
  }

  /** The tokens from `k` on whose index is not in `gone`. */
  function Keep<T>(s: seq<T>, gone: seq<nat>, k: nat): seq<T>
    requires k <= |s|
    decreases |s| - k
  {
    if k == |s| then [] else (if k in gone then [] else [s[k]]) + Keep(s, gone, k + 1)
  }

  predicate Ascending(s: seq<nat>) {
    forall k, l :: 0 <= k < l < |s| ==> s[k] < s[l]
  }

  /** The indices of a script are the consecutive ones, so both selections ascend and stay in range. */
  lemma {:induction false} SelectionsAscend<T>(a: seq<T>, b: seq<T>, i: nat, j: nat, steps: seq<Step>)
    requires Aligns(a, b, i, j, steps)
    ensures Ascending(Removed(steps)) && forall x :: x in Removed(steps) ==> i <= x < |a|
    ensures Ascending(Added(steps)) && forall y :: y in Added(steps) ==> j <= y < |b|
    decreases |steps|
  {
    if steps != [] {
      var i', j' := AlignsTail(a, b, i, j, steps);
      SelectionsAscend(a, b, i', j', steps[1..]);
      if steps[0].Delete? {
        PrependAscends(i, Removed(steps[1..]));
      } else if steps[0].Insert? {
        PrependAscends(j, Added(steps[1..]));
      }
    }
  }

  lemma PrependAscends(x: nat, s: seq<nat>)
    requires Ascending(s) && forall y :: y in s ==> x < y
    ensures Ascending([x] + s)
  {
    forall k, l | 0 <= k < l < |[x] + s| ensures ([x] + s)[k] < ([x] + s)[l] {
      assert s[l - 1] in s;
    }
  }

  lemma AlignsTail<T>(a: seq<T>, b: seq<T>, i: nat, j: nat, steps: seq<Step>) returns (i': nat, j': nat)
    requires Aligns(a, b, i, j, steps) && steps != []
    ensures i' == (if steps[0].Insert? then i else i + 1) && j' == (if steps[0].Delete? then j else j + 1)
    ensures steps[0].Insert? || (i < |a| && steps[0].oldIndex == i)
    ensures steps[0].Delete? || (j < |b| && steps[0].newIndex == j)
    ensures Aligns(a, b, i', j', steps[1..])
  {
    var s := steps[0];
    i', j' := if s.Insert? then i else i + 1, if s.Delete? then j else j + 1;
    if !s.Insert? {
      assert Range(i, |a|)[0] == s.oldIndex;
      assert Range(i, |a|) == [i] + Range(i + 1, |a|);
      assert Olds(steps[1..]) == Olds(steps)[1..];
    }
    if !s.Delete? {
      assert Range(j, |b|)[0] == s.newIndex;
      assert Range(j, |b|) == [j] + Range(j + 1, |b|);
      assert News(steps[1..]) == News(steps)[1..];
    }
  }

  /** Past the first step, the rest of the script makes the selections. */
  lemma {:induction false} TailSelects<T>(a: seq<T>, b: seq<T>, steps: seq<Step>, i: nat, j: nat)
    requires steps != [] && Aligns(a, b, i, j, steps[1..])
    requires steps[0].Insert? || (steps[0].oldIndex < i)
    requires steps[0].Delete? || (steps[0].newIndex < j)
    ensures forall x :: i <= x ==> (x in Removed(steps) <==> x in Removed(steps[1..]))
    ensures forall y :: j <= y ==> (y in Added(steps) <==> y in Added(steps[1..]))
    ensures forall x :: x < i ==> (x in Removed(steps) <==> steps[0].Delete? && steps[0].oldIndex == x)
    ensures forall y :: y < j ==> (y in Added(steps) <==> steps[0].Insert? && steps[0].newIndex == y)
  {
    hide *;
    SelectionsAscend(a, b, i, j, steps[1..]);
    RemovedHead(steps);
    AddedHead(steps);
  }

  lemma {:induction false} RemovedHead(steps: seq<Step>)
    requires steps != []
    ensures forall x :: x in Removed(steps) <==>
        (steps[0].Delete? && steps[0].oldIndex == x) || x in Removed(steps[1..])
  {
    var rest := Removed(steps[1..]);
    assert Removed(steps) == (if steps[0].Delete? then [steps[0].oldIndex] else []) + rest;
  }

  lemma {:induction false} AddedHead(steps: seq<Step>)
    requires steps != []
    ensures forall y :: y in Added(steps) <==> (steps[0].Insert? && steps[0].newIndex == y) || y in Added(steps[1..])
  {
    var rest := Added(steps[1..]);
    assert Added(steps) == (if steps[0].Insert? then [steps[0].newIndex] else []) + rest;
  }

  lemma {:induction false} KeepOne<T>(s: seq<T>, gone: seq<nat>, k: nat)
    requires k < |s|
    ensures Keep(s, gone, k) == (if k in gone then [] else [s[k]]) + Keep(s, gone, k + 1)
  {
  }

  /** What is left of the old text after its removals is what is left of the new without its additions. */
  lemma {:induction false} SameKept<T>(a: seq<T>, b: seq<T>, i: nat, j: nat, steps: seq<Step>, gone: seq<nat>,
          added: seq<nat>)
    requires Aligns(a, b, i, j, steps)
    requires forall x :: i <= x < |a| ==> (x in gone <==> x in Removed(steps))
    requires forall y :: j <= y < |b| ==> (y in added <==> y in Added(steps))
    ensures Keep(a, gone, i) == Keep(b, added, j)
    decreases |steps|
  {
    hide Aligns, Keep, Removed, Added;
    if steps != [] {
      var i', j' := AlignsTail(a, b, i, j, steps);
      TailSelects(a, b, steps, i', j');
      AlignsWithin(a, b, i', j', steps[1..]);
      SameKept(a, b, i', j', steps[1..], gone, added);
      PairsEqual(a, b, i, j, steps);
      if !steps[0].Insert? {
        KeepOne(a, gone, i);
      }
      if !steps[0].Delete? {
        KeepOne(b, added, j);
      }
    } else {
      NoneKept(a, b, i, j, gone, added);
    }
  }

  lemma AlignsWithin<T>(a: seq<T>, b: seq<T>, i: nat, j: nat, steps: seq<Step>)
    requires Aligns(a, b, i, j, steps)
    ensures i <= |a| && j <= |b|
  {
  }

  lemma PairsEqual<T>(a: seq<T>, b: seq<T>, i: nat, j: nat, steps: seq<Step>)
    requires Aligns(a, b, i, j, steps) && steps != []
    ensures steps[0].Equal? ==>
        steps[0].oldIndex < |a| && steps[0].newIndex < |b| && a[steps[0].oldIndex] == b[steps[0].newIndex]
  {
  }

  lemma {:induction false} NoneKept<T>(a: seq<T>, b: seq<T>, i: nat, j: nat, gone: seq<nat>, added: seq<nat>)
    requires Aligns(a, b, i, j, [])
    ensures i == |a| && j == |b| && Keep(a, gone, i) == Keep(b, added, j)
  {
  }

  predicate Descending(s: seq<nat>) {
    forall k, l :: 0 <= k < l < |s| ==> s[k] >= s[l]
  }

  /** Insertion sort, highest first. */
  function InsertDown(x: nat, s: seq<nat>): (out: seq<nat>)
    ensures multiset(out) == multiset(s) + multiset{x}
  {
    if s == [] || x >= s[0] then [x] + s
    else
      assert s == [s[0]] + s[1..];
      [s[0]] + InsertDown(x, s[1..])
  }

  function SortDown(s: seq<nat>): (out: seq<nat>)
    ensures multiset(out) == multiset(s)
  {
    if s == [] then []
    else
      assert s == s[..|s| - 1] + [s[|s| - 1]];
      InsertDown(s[|s| - 1], SortDown(s[..|s| - 1]))
  }

  lemma {:induction false} InsertDownOrders(x: nat, s: seq<nat>)
    requires Descending(s)
    ensures Descending(InsertDown(x, s))
  {
    if s != [] && x < s[0] {
      InsertDownOrders(x, s[1..]);
      var out := InsertDown(x, s[1..]);
      forall l | 0 <= l < |out| ensures s[0] >= out[l] {
        assert out[l] in multiset(out);
        assert out[l] in s[1..] || out[l] == x;
      }
    }
  }

  lemma {:induction false} SortDownOrders(s: seq<nat>)
    ensures Descending(SortDown(s))
  {
    if s != [] {
      SortDownOrders(s[..|s| - 1]);
      InsertDownOrders(s[|s| - 1], SortDown(s[..|s| - 1]));
    }
  }

  /** Indices that come in ascending order are just reversed. */
  lemma {:induction false} SortDownReverses(s: seq<nat>)
    requires Ascending(s)
    ensures SortDown(s) == Reverse(s)
  {
    if s != [] {
      var init := s[..|s| - 1];
      SortDownReverses(init);
      if init != [] {
        ReverseAt(init, 0);
      }
    }
  }

  /** The deleted indices, each as often as it occurs, from the highest down. */
  method DeleteIndicesHighToLow(steps: seq<Step>) returns (high: seq<nat>)
    ensures Descending(high) && multiset(high) == multiset(Removed(steps))
    ensures Ascending(Removed(steps)) ==> high == Reverse(Removed(steps))
  {
    hide Removed, SortDown, Reverse, Ascending, Descending;
    var indices := DeletedIndices(steps);
    SortDownOrders(indices);
    if Ascending(indices) {
      SortDownReverses(indices);
    }
    high := SortDown(indices);
  }

  method DeletedIndices(steps: seq<Step>) returns (indices: seq<nat>)
    ensures indices == Removed(steps)
  {
    indices := [];
    assert steps[0..] == steps;
    for k := 0 to |steps|
      invariant indices + Removed(steps[k..]) == Removed(steps)
    {
      assert steps[k..][1..] == steps[k + 1..];
      if steps[k].Delete? {
        indices := indices + [steps[k].oldIndex];
      }
    }
    assert steps[|steps|..] == [];
    assert indices + [] == indices;
  }

  method InsertNewIndices(steps: seq<Step>) returns (added: seq<nat>)
    ensures added == Added(steps)
  {
    added := [];
    assert steps[0..] == steps;
    for k := 0 to |steps|
      invariant added + Added(steps[k..]) == Added(steps)
    {
      assert steps[k..][1..] == steps[k + 1..];
      if steps[k].Insert? {
        added := added + [steps[k].newIndex];
      }
    }
    assert steps[|steps|..] == [];
  }

  lemma {:induction false} ReverseAt<X>(s: seq<X>, k: nat)
    requires k < |s|
    ensures |Reverse(s)| == |s| && Reverse(s)[k] == s[|s| - 1 - k]
  {
    if k > 0 {
      ReverseAt(s[..|s| - 1], k - 1);
    } else if |s| > 1 {
      ReverseAt(s[..|s| - 1], 0);
    }
  }

  lemma {:induction false} KeepAll<T>(s: seq<T>, gone: seq<nat>, from: nat, to: nat)
    requires from <= to <= |s| && forall x :: x in gone ==> !(from <= x < to)
    ensures Keep(s, gone, from) == s[from..to] + Keep(s, gone, to)
    decreases |s| - from
  {
    if from < to {
      KeepAll(s, gone, from + 1, to);
      assert from !in gone;
      calc {
        Keep(s, gone, from);
        [s[from]] + Keep(s, gone, from + 1);
        [s[from]] + (s[from + 1..to] + Keep(s, gone, to));
        ([s[from]] + s[from + 1..to]) + Keep(s, gone, to);
        { assert s[from..to] == [s[from]] + s[from + 1..to]; }
        s[from..to] + Keep(s, gone, to);
      }
    }
  }

  /** Deleting from the highest index down leaves exactly the tokens that were to stay. */
  method ReplayDeletes<T>(old_: seq<T>, high: seq<nat>, ghost ascending: seq<nat>) returns (body: seq<T>)
    requires high == Reverse(ascending)
    requires Ascending(ascending) && forall x :: x in ascending ==> x < |old_|
    ensures body == Keep(old_, ascending, 0)
  {
    hide Keep;
    body := old_;
    KeepEnd(old_, ascending);
    ghost var p: nat := |old_|;
    if ascending != [] {
      ReverseAt(ascending, 0);
    }
    assert old_[..|old_|] == old_;
    for k := 0 to |high|
      invariant |high| == |ascending| && p <= |old_| && body == old_[..p] + Keep(old_, ascending, p)
      invariant p == if k == 0 then |old_| else ascending[|ascending| - k]
    {
      ReverseAt(ascending, k);
      var d := high[k];
      assert d == ascending[|ascending| - 1 - k] && d in ascending;
      forall x | x in ascending ensures !(d + 1 <= x < p) {
        var l :| 0 <= l < |ascending| && ascending[l] == x;
      }
      KeepAll(old_, ascending, d + 1, p);
      KeepNext(old_, ascending, d);
      DropAt(old_, d, p, Keep(old_, ascending, p));
      body := body[..d] + body[d + 1..];
      p := d;
    }
    forall x | x in ascending ensures !(0 <= x < p) {
      var l :| 0 <= l < |ascending| && ascending[l] == x;
    }
    KeepAll(old_, ascending, 0, p);
    assert old_[0..p] == old_[..p];
  }

  lemma DropAt<T>(s: seq<T>, d: nat, p: nat, tail: seq<T>)
    requires d < p <= |s|
    ensures var body := s[..p] + tail; body[..d] + body[d + 1..] == s[..d] + (s[d + 1..p] + tail)
  {
  }

  /** Inserting a run where the text stops agreeing makes it agree up to the run's end. */
  lemma Flushed<T>(new_: seq<T>, livePos: nat, j: nat, tail: seq<T>)
    requires livePos <= j <= |new_|
    ensures var body := new_[..livePos] + tail; body[..livePos] + new_[livePos..j] + body[livePos..] == new_[..j] + tail
  {
    assert new_[..livePos] + new_[livePos..j] == new_[..j];
  }

  lemma KeepNext<T>(s: seq<T>, gone: seq<nat>, j: nat)
    requires j < |s|
    ensures Keep(s, gone, j) == if j in gone then Keep(s, gone, j + 1) else [s[j]] + Keep(s, gone, j + 1)
    ensures s[..j] + ([s[j]] + Keep(s, gone, j + 1)) == s[..j + 1] + Keep(s, gone, j + 1)
  {
    assert s[..j + 1] == s[..j] + [s[j]];
  }

  /** Inserting the missing tokens in batched runs, left to right, completes the new text. */
  method ReplayInserts<T>(kept: seq<T>, new_: seq<T>, added: seq<nat>) returns (body: seq<T>)
    requires kept == Keep(new_, added, 0)
    ensures body == new_
  {
    hide Keep;
    body := kept;
    var livePos: nat, run: seq<T>, running := 0, [], false;
    for j := 0 to |new_|
      invariant livePos + |run| == j && (running <==> run != [])
      invariant run == new_[livePos..j]
      invariant body == new_[..livePos] + Keep(new_, added, j)
    {
      KeepNext(new_, added, j);
      if j in added {
        running := true;
        assert new_[livePos..j + 1] == new_[livePos..j] + [new_[j]];
        run := run + [new_[j]];
      } else {
        if running {
          Flushed(new_, livePos, j, Keep(new_, added, j));
          body := body[..livePos] + run + body[livePos..];
          livePos := livePos + |run|;
          run, running := [], false;
        }
        livePos := livePos + 1;
      }
    }
    KeepEnd(new_, added);
    if running {
      Flushed(new_, livePos, |new_|, []);
      body := body[..livePos] + run + body[livePos..];
    }
    assert new_[..|new_|] + [] == new_;
  }

  lemma KeepEnd<T>(s: seq<T>, gone: seq<nat>)
    ensures Keep(s, gone, |s|) == []
  {
  }

  /** The whole edit: diff, delete, insert. The old text becomes the new one. */
  method ApplyTextDiff<T(==)>(old_: seq<T>, new_: seq<T>) returns (body: seq<T>)
    ensures body == new_
  {
    var steps := LcsSteps(old_, new_);
    SelectionsAscend(old_, new_, 0, 0, steps);
    SameKept(old_, new_, 0, 0, steps, Removed(steps), Added(steps));
    var high := DeleteIndicesHighToLow(steps);
    body := ReplayDeletes(old_, high, Removed(steps));
    var added := InsertNewIndices(steps);
    body := ReplayInserts(body, new_, added);
  }
}
