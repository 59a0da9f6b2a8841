/** The smallest set of moved blocks between two outlines (src/workspace.rs). */
module MoveSet {
  import opened OpIds

  type BlockId = nat

  // ----- longest strictly increasing subsequence

  /** Indices, ascending, of strictly ascending values. */
  predicate Increasing(items: seq<(BlockId, nat)>, s: seq<nat>) {
    && (forall k :: 0 <= k < |s| ==> s[k] < |items|)
    && (forall k, l :: 0 <= k < l < |s| ==> s[k] < s[l] && items[s[k]].1 < items[s[l]].1)
  }

  function IdsAt(items: seq<(BlockId, nat)>, s: seq<nat>): set<BlockId>
    requires forall k :: 0 <= k < |s| ==> s[k] < |items|
  {
    set k | 0 <= k < |s| :: items[s[k]].0
  }

  /** First place whose tail is not below `value`. */
  method PartitionPoint(tails: seq<nat>, value: nat) returns (slot: nat)
    requires forall k, l :: 0 <= k < l < |tails| ==> tails[k] < tails[l]
    ensures slot <= |tails|
    ensures forall k :: 0 <= k < slot ==> tails[k] < value
    ensures forall k :: slot <= k < |tails| ==> value <= tails[k]
  {
    var lo: nat, hi: nat := 0, |tails|;
    while lo < hi
      invariant lo <= hi <= |tails|
      invariant forall k :: 0 <= k < lo ==> tails[k] < value
      invariant forall k :: hi <= k < |tails| ==> value <= tails[k]
    {
      var mid := (lo + hi) / 2;
      if tails[mid] < value {
        lo := mid + 1;
      } else {
        hi := mid;
      }
    }
    slot := lo;
  }

  /** Every increasing subsequence of the first `i` items is no longer than `tails`, and the tail
      of its length is no greater than its last value. */
  ghost predicate TailsAreLeast(items: seq<(BlockId, nat)>, i: nat, tails: seq<nat>) {
    forall s :: Increasing(items, s) && s != [] && s[|s| - 1] < i ==>
      |s| <= |tails| && tails[|s| - 1] <= items[s[|s| - 1]].1
  }

  /** `best[x]` is an increasing subsequence ending at `x`, following the back links. */
  ghost predicate Linked(items: seq<(BlockId, nat)>, previous: seq<Option<nat>>, best: seq<seq<nat>>) {
    |previous| == |best| <= |items| && forall x :: 0 <= x < |best| ==> LinkOk(items, previous[x], best, x)
  }

  ghost predicate LinkOk(items: seq<(BlockId, nat)>, link: Option<nat>, best: seq<seq<nat>>, x: nat)
    requires x < |best|
  {
    && best[x] != [] && best[x][|best[x]| - 1] == x && Increasing(items, best[x])
    && match link
       case None => best[x] == [x]
       case Some(y) => y < x && best[x] == best[y] + [x]
  }

  ghost predicate TailsOk(items: seq<(BlockId, nat)>, tails: seq<nat>, at: seq<nat>, best: seq<seq<nat>>) {
    && |tails| == |at|
    && (forall k, l :: 0 <= k < l < |tails| ==> tails[k] < tails[l])
    && (forall k :: 0 <= k < |at| ==> at[k] < |best| <= |items| && items[at[k]].1 == tails[k] && |best[at[k]]| == k + 1)
  }

  lemma ExtendLeast(items: seq<(BlockId, nat)>, i: nat, tails: seq<nat>, slot: nat, tails': seq<nat>)
    requires i < |items| && TailsAreLeast(items, i, tails) && slot <= |tails|
    requires forall k, l :: 0 <= k < l < |tails| ==> tails[k] < tails[l]
    requires forall k :: 0 <= k < slot ==> tails[k] < items[i].1
    requires forall k :: slot <= k < |tails| ==> items[i].1 <= tails[k]
    requires tails' == if slot == |tails| then tails + [items[i].1] else tails[slot := items[i].1]
    ensures TailsAreLeast(items, i + 1, tails')
  {
    forall s | Increasing(items, s) && s != [] && s[|s| - 1] < i + 1
      ensures |s| <= |tails'| && tails'[|s| - 1] <= items[s[|s| - 1]].1
    {
      if s[|s| - 1] == i && |s| > 1 {
        EndsBelow(items, i, tails, s);
      }
    }
  }

  /** The last but one of an increasing sequence is bounded by its tail. */
  lemma EndsBelow(items: seq<(BlockId, nat)>, i: nat, tails: seq<nat>, s: seq<nat>)
    requires i < |items| && TailsAreLeast(items, i, tails) && Increasing(items, s) && |s| > 1 && s[|s| - 1] == i
    ensures |s| - 1 <= |tails| && tails[|s| - 2] < items[i].1
  {
    var n := |s| - 1;
    var init := s[..n];
    assert Increasing(items, init) && init[|init| - 1] == s[n - 1];
  }

  lemma ExtendChain(items: seq<(BlockId, nat)>, c: seq<nat>, i: nat)
    requires Increasing(items, c) && c != [] && c[|c| - 1] < i < |items| && items[c[|c| - 1]].1 < items[i].1
    ensures Increasing(items, c + [i])
  {
    var chain, n := c + [i], |c| - 1;
    forall k, l | 0 <= k < l < |chain| ensures chain[k] < chain[l] && items[chain[k]].1 < items[chain[l]].1 {
      assert k < n ==> c[k] < c[n] && items[c[k]].1 < items[c[n]].1;
    }
  }

  lemma ExtendLinked(items: seq<(BlockId, nat)>, previous: seq<Option<nat>>, best: seq<seq<nat>>, link: Option<nat>,
          chain: seq<nat>)
    requires Linked(items, previous, best) && |best| < |items| && Increasing(items, chain)
    requires match link
      case None => chain == [|best|]
      case Some(y) => y < |best| && chain == best[y] + [|best|]
    ensures Linked(items, previous + [link], best + [chain])
  {
    var best' := best + [chain];
    forall x | 0 <= x < |best'| ensures LinkOk(items, (previous + [link])[x], best', x) {
      if x < |best| {
        assert LinkOk(items, previous[x], best, x);
      }
    }
  }

  lemma ExtendTails(items: seq<(BlockId, nat)>, tails: seq<nat>, at: seq<nat>, best: seq<seq<nat>>, slot: nat,
          chain: seq<nat>, tails': seq<nat>, at': seq<nat>)
    requires TailsOk(items, tails, at, best) && |best| < |items| && slot <= |tails| && |chain| == slot + 1
    requires forall k :: 0 <= k < slot ==> tails[k] < items[|best|].1
    requires forall k :: slot <= k < |tails| ==> items[|best|].1 <= tails[k]
    requires tails' == if slot == |tails| then tails + [items[|best|].1] else tails[slot := items[|best|].1]
    requires at' == if slot == |tails| then at + [|best|] else at[slot := |best|]
    ensures TailsOk(items, tails', at', best + [chain])
  {
    forall k | 0 <= k < |at'| && k != slot ensures at'[k] == at[k] && tails'[k] == tails[k]
        && (best + [chain])[at[k]] == best[at[k]] {
    }
    forall k, l | 0 <= k < l < |tails'| ensures tails'[k] < tails'[l] {
      assert k != slot && l != slot ==> tails[k] < tails[l];
      assert k == slot && l < |tails| ==> tails[slot] < tails[l];
    }
  }

  lemma Next(items: seq<(BlockId, nat)>, tails: seq<nat>, at: seq<nat>, previous: seq<Option<nat>>, best: seq<seq<nat>>,
          slot: nat, link: Option<nat>)
    returns (chain: seq<nat>)
    requires Linked(items, previous, best) && TailsOk(items, tails, at, best) && |best| < |items| && slot <= |tails|
    requires forall k :: 0 <= k < slot ==> tails[k] < items[|best|].1
    requires link == if slot > 0 then Some(at[slot - 1]) else None
    ensures |chain| == slot + 1 && Linked(items, previous + [link], best + [chain])
  {
    chain := [|best|];
    if slot > 0 {
      var y := at[slot - 1];
      assert LinkOk(items, previous[y], best, y);
      ExtendChain(items, best[y], |best|);
      chain := best[y] + [|best|];
    }
    ExtendLinked(items, previous, best, link, chain);
  }

  /** Patience sorting with back links: a strictly increasing subsequence of greatest length. */
  method LongestIncreasingIds(items: seq<(BlockId, nat)>) returns (stationary: set<BlockId>)
    ensures exists chain :: IsLongest(items, chain) && stationary == IdsAt(items, chain)
  {
    hide Linked;
    var tailIndices, previous;
    ghost var best;
    tailIndices, previous, best := Piles(items);
    var cursor := if tailIndices == [] then None else Some(tailIndices[|tailIndices| - 1]);
    ChainIncreasing(items, previous, best, cursor);
    ghost var chain := if tailIndices == [] then [] else best[tailIndices[|tailIndices| - 1]];
    stationary := WalkBack(items, previous, cursor, best, chain);
    assert IsLongest(items, chain);
  }

  /** Strictly increasing, and no increasing subsequence has more members. */
  ghost predicate IsLongest(items: seq<(BlockId, nat)>, chain: seq<nat>) {
    Increasing(items, chain) && forall s :: Increasing(items, s) ==> |s| <= |chain|
  }

  method Piles(items: seq<(BlockId, nat)>)
    returns (tailIndices: seq<nat>, previous: seq<Option<nat>>, ghost best: seq<seq<nat>>)
    ensures |previous| == |items| && Linked(items, previous, best) && |best| == |items|
    ensures forall k :: 0 <= k < |tailIndices| ==> tailIndices[k] < |items| && |best[tailIndices[k]]| == k + 1
    ensures forall s :: Increasing(items, s) ==> |s| <= |tailIndices|
  {
    hide Linked, TailsAreLeast;
    var tails: seq<nat> := [];
    tailIndices, previous, best := [], [], [];
    NoPiles(items);
    for i := 0 to |items|
      invariant |previous| == |best| == i && Linked(items, previous, best)
      invariant TailsOk(items, tails, tailIndices, best)
      invariant TailsAreLeast(items, i, tails)
    {
      var value := items[i].1;
      var slot := PartitionPoint(tails, value);
      var link := if slot > 0 then Some(tailIndices[slot - 1]) else None;
      ghost var chain := Next(items, tails, tailIndices, previous, best, slot, link);
      var tails' := if slot == |tails| then tails + [value] else tails[slot := value];
      var at' := if slot == |tails| then tailIndices + [i] else tailIndices[slot := i];
      ExtendTails(items, tails, tailIndices, best, slot, chain, tails', at');
      ExtendLeast(items, i, tails, slot, tails');
      previous, best := previous + [link], best + [chain];
      tails, tailIndices := tails', at';
    }
    LeastBounds(items, tails);
  }

  lemma NoPiles(items: seq<(BlockId, nat)>)
    ensures Linked(items, [], []) && TailsAreLeast(items, 0, [])
  {
  }

  lemma LeastBounds(items: seq<(BlockId, nat)>, tails: seq<nat>)
    requires TailsAreLeast(items, |items|, tails)
    ensures forall s :: Increasing(items, s) ==> |s| <= |tails|
  {
    forall s | Increasing(items, s) ensures |s| <= |tails| {
      assert s != [] ==> s[|s| - 1] < |items|;
    }
  }

  lemma ChainIncreasing(items: seq<(BlockId, nat)>, previous: seq<Option<nat>>, best: seq<seq<nat>>, last: Option<nat>)
    requires Linked(items, previous, best) && (last.Some? ==> last.value < |best|)
    ensures last.Some? ==> Increasing(items, best[last.value])
  {
    assert last.Some? ==> LinkOk(items, previous[last.value], best, last.value);
  }

  method WalkBack(items: seq<(BlockId, nat)>, previous: seq<Option<nat>>, last: Option<nat>, ghost best: seq<seq<nat>>,
          ghost chain: seq<nat>)
    returns (stationary: set<BlockId>)
    requires Linked(items, previous, best) && |previous| == |items|
    requires if last == None then chain == [] else last.value < |best| && chain == best[last.value]
    requires Increasing(items, chain)
    ensures stationary == IdsAt(items, chain)
  {
    stationary := {};
    var cursor: Option<nat> := last;
    ghost var rest := chain;
    while cursor.Some?
      invariant if cursor == None then rest == [] else cursor.value < |best| && rest == best[cursor.value]
      invariant rest <= chain && stationary == IdsAt(items, chain[|rest|..])
      decreases |rest|
    {
      var x := cursor.value;
      assert LinkOk(items, previous[x], best, x);
      ghost var n := |rest| - 1;
      assert chain[n] == x && chain[n..] == [x] + chain[n + 1..];
      IdsPrepend(items, x, chain[n + 1..]);
      stationary := stationary + {items[x].0};
      cursor := previous[x];
      rest := rest[..n];
    }
    assert chain[0..] == chain;
  }

  lemma IdsPrepend(items: seq<(BlockId, nat)>, x: nat, s: seq<nat>)
    requires x < |items| && forall k :: 0 <= k < |s| ==> s[k] < |items|
    ensures forall k :: 0 <= k < |[x] + s| ==> ([x] + s)[k] < |items|
    ensures IdsAt(items, [x] + s) == IdsAt(items, s) + {items[x].0}
  {
    var t := [x] + s;
    forall id ensures id in IdsAt(items, t) <==> id in IdsAt(items, s) + {items[x].0} {
      if id in IdsAt(items, s) {
        var k :| 0 <= k < |s| && items[s[k]].0 == id;
        assert items[t[k + 1]].0 == id;
      }
      assert items[t[0]].0 == items[x].0;
      if id in IdsAt(items, t) {
        var k :| 0 <= k < |t| && items[t[k]].0 == id;
        assert k > 0 ==> t[k] == s[k - 1];
      }
    }
  }

  // ----- outlines

  /** Where a block stands: under which parent, and in what order. */
  datatype Entry = Entry(parent: Option<BlockId>, order: nat)

  type Outline = map<BlockId, Entry>

  predicate KeyLess(m: Outline, x: BlockId, y: BlockId) {
    x in m && y in m && (m[x].order < m[y].order || (m[x].order == m[y].order && x < y))
  }

  predicate IsChild(m: Outline, parent: Option<BlockId>, id: BlockId) {
    id in m && m[id].parent == parent
  }

  function CommonChildren(before: Outline, after: Outline, parent: Option<BlockId>): set<BlockId> {
    set id | id in before && IsChild(before, parent, id) && IsChild(after, parent, id)
  }

  /** The blocks of `k` stand in the same relative order before and after. */
  predicate OrderKept(before: Outline, after: Outline, k: set<BlockId>) {
    forall x, y :: x in k && y in k && KeyLess(before, x, y) ==> KeyLess(after, x, y)
  }

  /** `still` is a largest set of common children of `parent` that keep their relative order. */
  ghost predicate LargestStill(before: Outline, after: Outline, parent: Option<BlockId>, still: set<BlockId>) {
    && still <= CommonChildren(before, after, parent) && OrderKept(before, after, still)
    && (forall k :: k <= CommonChildren(before, after, parent) && OrderKept(before, after, k) ==> |k| <= |still|)
  }

  /** Children that keep their order keys in line are all left alone. */
  lemma SameOrderStaysStill(before: Outline, after: Outline, parent: Option<BlockId>, still: set<BlockId>)
    requires LargestStill(before, after, parent, still)
    requires var all := CommonChildren(before, after, parent);
      forall x, y :: x in all && y in all && x != y ==>
        && before[x].order != before[y].order
        && (before[x].order < before[y].order <==> after[x].order < after[y].order)
    ensures still == CommonChildren(before, after, parent)
  {
    var all := CommonChildren(before, after, parent);
    assert OrderKept(before, after, all);
    assert |all| <= |still|;
    SubsetOfSize(still, all);
  }

  lemma SubsetOfSize(a: set<BlockId>, b: set<BlockId>)
    requires a <= b && |b| <= |a|
    ensures a == b
  {
    assert |b| == |a| + |b - a| by {
      assert b == a + (b - a);
    }
  }

  /** Of two children that changed places, one at least is reported. */
  lemma ChangedPlaces(before: Outline, after: Outline, parent: Option<BlockId>, still: set<BlockId>, x: BlockId,
          y: BlockId)
    requires LargestStill(before, after, parent, still) && x in before && y in before && x in after && y in after
    requires before[x].order < before[y].order && after[y].order < after[x].order
    ensures !(x in still && y in still)
  {
    assert KeyLess(before, x, y) && !KeyLess(after, x, y);
  }

  predicate KeySorted(m: Outline, ids: seq<BlockId>) {
    forall i, j :: 0 <= i < j < |ids| ==> KeyLess(m, ids[i], ids[j])
  }

  method SortedChildren(m: Outline, parent: Option<BlockId>) returns (ids: seq<BlockId>)
    ensures KeySorted(m, ids) && forall id :: id in ids <==> IsChild(m, parent, id)
  {
    ids := [];
    var rest := set id | id in m && IsChild(m, parent, id);
    while rest != {}
      invariant forall id :: id in rest ==> IsChild(m, parent, id)
      invariant forall id :: IsChild(m, parent, id) <==> id in ids || id in rest
      invariant KeySorted(m, ids)
      invariant forall i, id :: 0 <= i < |ids| && id in rest ==> KeyLess(m, ids[i], id)
      decreases rest
    {
      var least := LeastKey(m, rest);
      ids := ids + [least];
      rest := rest - {least};
    }
  }

  method LeastKey(m: Outline, s: set<BlockId>) returns (least: BlockId)
    requires s != {} && forall id :: id in s ==> id in m
    ensures least in s && forall id :: id in s && id != least ==> KeyLess(m, least, id)
  {
    least :| least in s;
    var rest := s - {least};
    while rest != {}
      invariant rest <= s && least in s
      invariant forall id :: id in s && id !in rest && id != least ==> KeyLess(m, least, id)
      decreases rest
    {
      var id :| id in rest;
      rest := rest - {id};
      if KeyLess(m, id, least) {
        least := id;
      }
    }
  }

  /** `common` lists the common children in their new order, each with its old position. */
  ghost predicate CommonOk(before: Outline, after: Outline, parent: Option<BlockId>, common: seq<(BlockId, nat)>) {
    && (forall id :: id in CommonChildren(before, after, parent) <==>
        exists k :: 0 <= k < |common| && common[k].0 == id)
    && (forall k, l :: 0 <= k < l < |common| ==> KeyLess(after, common[k].0, common[l].0))
    && (forall k, l :: 0 <= k < |common| && 0 <= l < |common| ==>
          (common[k].1 < common[l].1 <==> KeyLess(before, common[k].0, common[l].0)))
  }

  method CommonList(before: Outline, after: Outline, parent: Option<BlockId>) returns (common: seq<(BlockId, nat)>)
    ensures CommonOk(before, after, parent, common)
  {
    var old_ := SortedChildren(before, parent);
    var new_ := SortedChildren(after, parent);
    var positions: map<BlockId, nat> := map[];
    for i := 0 to |old_|
      invariant forall id :: id in positions ==> positions[id] < i && old_[positions[id]] == id
      invariant forall j :: 0 <= j < i ==> old_[j] in positions
    {
      positions := positions[old_[i] := i];
    }
    common := [];
    for j := 0 to |new_|
      invariant forall k :: 0 <= k < |common| ==>
        common[k].0 in new_[..j] && common[k].0 in positions && common[k].1 == positions[common[k].0]
      invariant forall l :: 0 <= l < j && new_[l] in positions ==> exists k ::
          0 <= k < |common| && common[k].0 == new_[l]
      invariant forall k, l :: 0 <= k < l < |common| ==> KeyLess(after, common[k].0, common[l].0)
    {
      ghost var was := common;
      if new_[j] in positions {
        common := common + [(new_[j], positions[new_[j]])];
        assert common[|was|].0 == new_[j];
      }
      assert forall k :: 0 <= k < |was| ==> common[k] == was[k];
    }
    assert new_[..|new_|] == new_;
    CommonIsOk(before, after, parent, old_, new_, positions, common);
  }

  lemma CommonIsOk(before: Outline, after: Outline, parent: Option<BlockId>, old_: seq<BlockId>, new_: seq<BlockId>,
          positions: map<BlockId, nat>, common: seq<(BlockId, nat)>)
    requires KeySorted(before, old_) && (forall id :: id in old_ <==> IsChild(before, parent, id))
    requires forall id :: id in new_ <==> IsChild(after, parent, id)
    requires forall id :: id in positions ==> positions[id] < |old_| && old_[positions[id]] == id
    requires forall j :: 0 <= j < |old_| ==> old_[j] in positions
    requires forall k :: 0 <= k < |common| ==>
        common[k].0 in new_ && common[k].0 in positions && common[k].1 == positions[common[k].0]
    requires forall l :: 0 <= l < |new_| && new_[l] in positions ==> exists k ::
        0 <= k < |common| && common[k].0 == new_[l]
    requires forall k, l :: 0 <= k < l < |common| ==> KeyLess(after, common[k].0, common[l].0)
    ensures CommonOk(before, after, parent, common)
  {
    forall id | id in CommonChildren(before, after, parent) ensures exists k :: 0 <= k < |common| && common[k].0 == id {
      assert id in old_ && id in new_;
      var l :| 0 <= l < |new_| && new_[l] == id;
    }
    forall k | 0 <= k < |common| ensures common[k].0 in CommonChildren(before, after, parent) {
      assert old_[common[k].1] in old_;
    }
    forall k, l | 0 <= k < |common| && 0 <= l < |common|
      ensures common[k].1 < common[l].1 <==> KeyLess(before, common[k].0, common[l].0)
    {
      var x, y := common[k].1, common[l].1;
      assert old_[x] == common[k].0 && old_[y] == common[l].0;
      assert x < y ==> KeyLess(before, old_[x], old_[y]);
      assert y < x ==> KeyLess(before, old_[y], old_[x]);
    }
  }

  /** The children of `parent` that must be called moved: all common ones but a largest still set. */
  method ReorderedChildren(before: Outline, after: Outline, parent: Option<BlockId>) returns (moved: set<BlockId>)
    ensures moved <= CommonChildren(before, after, parent)
    ensures LargestStill(before, after, parent, CommonChildren(before, after, parent) - moved)
  {
    var common := CommonList(before, after, parent);
    var stationary := LongestIncreasingIds(common);
    ghost var chain :| IsLongest(common, chain) && stationary == IdsAt(common, chain);
    StillIsKept(before, after, parent, common, chain);
    forall k | k <= CommonChildren(before, after, parent) && OrderKept(before, after, k) ensures |k| <= |stationary| {
      var s := Select(common, k, |common|);
      SelectIncreasing(before, after, parent, common, k, s);
    }
    moved := {};
    for i := 0 to |common|
      invariant forall id :: id in moved <==> id !in stationary && exists k :: 0 <= k < i && common[k].0 == id
    {
      if common[i].0 !in stationary {
        moved := moved + {common[i].0};
      }
    }
    assert CommonChildren(before, after, parent) - moved == stationary;
  }

  lemma StillIsKept(before: Outline, after: Outline, parent: Option<BlockId>, common: seq<(BlockId, nat)>,
          chain: seq<nat>)
    requires CommonOk(before, after, parent, common) && Increasing(common, chain)
    ensures IdsAt(common, chain) <= CommonChildren(before, after, parent)
    ensures OrderKept(before, after, IdsAt(common, chain))
    ensures |IdsAt(common, chain)| == |chain|
  {
    var still := IdsAt(common, chain);
    forall x, y | x in still && y in still && KeyLess(before, x, y) ensures KeyLess(after, x, y) {
      var k :| 0 <= k < |chain| && common[chain[k]].0 == x;
      var l :| 0 <= l < |chain| && common[chain[l]].0 == y;
      assert common[chain[k]].1 < common[chain[l]].1;
    }
    forall id | id in still ensures id in CommonChildren(before, after, parent) {
      var k :| 0 <= k < |chain| && common[chain[k]].0 == id;
      assert common[chain[k]].0 == id;
    }
    forall k, l | 0 <= k < l < |common| ensures common[k].0 != common[l].0 {
      assert KeyLess(after, common[k].0, common[l].0);
    }
    CountIds(common, chain);
  }

  lemma {:induction false} CountIds(items: seq<(BlockId, nat)>, s: seq<nat>)
    requires (forall k :: 0 <= k < |s| ==> s[k] < |items|) && (forall k, l :: 0 <= k < l < |s| ==> s[k] < s[l])
    requires forall k, l :: 0 <= k < l < |items| ==> items[k].0 != items[l].0
    ensures |IdsAt(items, s)| == |s|
  {
    if s != [] {
      CountIds(items, s[1..]);
      assert s == [s[0]] + s[1..];
      IdsPrepend(items, s[0], s[1..]);
      assert items[s[0]].0 !in IdsAt(items, s[1..]);
    }
  }

  /** The indices below `n` whose id is in `k`, ascending. */
  lemma {:induction false} Select(items: seq<(BlockId, nat)>, k: set<BlockId>, n: nat) returns (s: seq<nat>)
    requires n <= |items|
    ensures forall i :: 0 <= i < |s| ==> s[i] < n && items[s[i]].0 in k
    ensures forall i, j :: 0 <= i < j < |s| ==> s[i] < s[j]
    ensures forall x :: 0 <= x < n && items[x].0 in k ==> x in s
  {
    s := [];
    if n > 0 {
      s := Select(items, k, n - 1);
      if items[n - 1].0 in k {
        s := s + [n - 1];
      }
    }
  }

  lemma SelectIncreasing(before: Outline, after: Outline, parent: Option<BlockId>, common: seq<(BlockId, nat)>,
          k: set<BlockId>, s: seq<nat>)
    requires CommonOk(before, after, parent, common)
    requires k <= CommonChildren(before, after, parent) && OrderKept(before, after, k)
    requires forall i :: 0 <= i < |s| ==> s[i] < |common| && common[s[i]].0 in k
    requires forall i, j :: 0 <= i < j < |s| ==> s[i] < s[j]
    requires forall x :: 0 <= x < |common| && common[x].0 in k ==> x in s
    ensures Increasing(common, s) && |s| == |k|
  {
    forall i, j | 0 <= i < j < |s| ensures common[s[i]].1 < common[s[j]].1 {
      var x, y := common[s[i]].0, common[s[j]].0;
      assert KeyLess(after, x, y);
      assert x in before && y in before;
      assert KeyLess(before, x, y) || KeyLess(before, y, x);
      assert KeyLess(before, y, x) ==> KeyLess(after, y, x);
    }
    forall i, j | 0 <= i < j < |common| ensures common[i].0 != common[j].0 {
      assert KeyLess(after, common[i].0, common[j].0);
    }
    CountIds(common, s);
    forall id | id in k ensures id in IdsAt(common, s) {
      var x :| 0 <= x < |common| && common[x].0 == id;
      assert x in s;
    }
    assert IdsAt(common, s) == k;
  }

  /** Over all parents: each parent's reported children are a smallest set to call moved. */
  method ReorderedIds(before: Outline, after: Outline) returns (moved: set<BlockId>)
    ensures forall parent :: LargestStill(before, after, parent, CommonChildren(before, after, parent) - moved)
    ensures forall id :: id in moved ==> id in before && id in after && before[id].parent == after[id].parent
  {
    hide LargestStill, CommonChildren;
    var todo := (set id | id in before :: before[id].parent) + (set id | id in after :: after[id].parent);
    moved := {};
    ghost var all := todo;
    while todo != {}
      invariant todo <= all
      invariant forall id :: id in moved ==>
          id in before && id in after && before[id].parent == after[id].parent && before[id].parent !in todo
      invariant forall parent :: parent in all && parent !in todo ==>
        LargestStill(before, after, parent, CommonChildren(before, after, parent) - moved)
      decreases todo
    {
      var parent :| parent in todo;
      var here := ReorderedChildren(before, after, parent);
      forall p | p in all && (p !in todo || p == parent)
        ensures LargestStill(before, after, p, CommonChildren(before, after, p) - (moved + here))
      {
        OnlyHere(before, after, p, parent, moved, here);
      }
      ParentOf(before, after, parent, here);
      moved := moved + here;
      todo := todo - {parent};
    }
    forall parent | parent !in all
      ensures LargestStill(before, after, parent, CommonChildren(before, after, parent) - moved)
    {
      Childless(before, after, parent, moved);
    }
  }

  /** One parent's result does not touch another parent's children. */
  lemma OnlyHere(before: Outline, after: Outline, p: Option<BlockId>, parent: Option<BlockId>, moved: set<BlockId>,
          here: set<BlockId>)
    requires here <= CommonChildren(before, after, parent)
    requires forall id :: id in moved ==> id in before && before[id].parent != parent
    ensures CommonChildren(before, after, p) - (moved + here) ==
            if p == parent then CommonChildren(before, after, p) - here else CommonChildren(before, after, p) - moved
  {
  }

  lemma ParentOf(before: Outline, after: Outline, parent: Option<BlockId>, here: set<BlockId>)
    requires here <= CommonChildren(before, after, parent)
    ensures forall id :: id in here ==> id in before && id in after && before[id].parent == after[id].parent == parent
  {
  }

  lemma Childless(before: Outline, after: Outline, parent: Option<BlockId>, moved: set<BlockId>)
    requires forall id :: id in before ==> before[id].parent != parent
    ensures LargestStill(before, after, parent, CommonChildren(before, after, parent) - moved)
  {
    assert CommonChildren(before, after, parent) == {};
  }
}
