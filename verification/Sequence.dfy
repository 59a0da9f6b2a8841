/**
 The replicated sequence as a mutable object (src/core/mod.rs). `incremental` is the
 `sequence_incremental` build feature; both builds are proved against one specification.
 */
module Sequences {
  import opened OpIds
  import opened TreeOrder
  import opened Rga
  import SequenceOrder

  class Sequence<T> {
    const incremental: bool
    var elements: seq<Element<T>>
    var index: map<OpId, nat>
    var pendingInserts: Buffer<T>
    var pendingDeletes: Buffer<T>
    ghost var history: History<T>

    /** The invariant while `queue` holds operations taken out of the buffers and the
        buffers of the ids in `open` are yet to be drained. */
    ghost predicate Inv(queue: seq<SequenceOp<T>>, open: set<OpId>)
      reads this
    {
      && IndexOk(elements, index)
      && Placed(history.links, elements, index.Keys)
      && InsertsKept(history, index.Keys, pendingInserts, queue, open)
      && DeletesKept(history, elements, index.Keys, pendingDeletes, queue, open)
      && StrikesKept(history.strikes, index.Keys, pendingDeletes, queue)
    }

    ghost predicate Ordered()
      reads this
    {
      Sorted(history.links, Ids(elements))
    }

    ghost predicate Valid()
      reads this
    {
      Inv([], {}) && Ordered()
    }

    /** One id names one operation: a repeated insert that is not yet listed must be the same insert. */
    ghost predicate Admissible(op: SequenceOp<T>)
      reads this
    {
      op.Insert? && op.id in history.links && op.id !in index ==> op == InsertOf(history, op.id)
    }

    constructor (incremental: bool)
      ensures Valid() && history == History(map[], map[], {}, {})
      ensures this.incremental == incremental
    {
      this.incremental := incremental;
      elements, index, pendingInserts, pendingDeletes := [], map[], map[], map[];
      history := History(map[], map[], {}, {});
    }

    /** A valid sequence shows the canonical listing of what was delivered to it, lists exactly
        the rooted inserts, and buffers exactly the others. */
    lemma ShowsCanonical()
      requires Valid()
      ensures Renders(history, elements)
      ensures forall id :: id in index <==> id in history.links && Rooted(history.links, id)
    {
      ListedAreRooted(history, elements, index, pendingInserts, pendingDeletes);
    }

    /** The list follows the listing rule, so no other list of these elements does. */
    lemma ListsByRule()
      requires Valid()
      ensures ReadsInOrder(elements) && Complete(elements)
      ensures forall other :: ReadsInOrder(other) && Complete(other) && (forall e :: e in other <==> e in elements) ==>
          other == elements
    {
      hide InsertsKept, DeletesKept, StrikesKept, Sorted;
      SortedReads(history.links, elements, index);
      PlacedIsComplete(history.links, elements, index);
      hide *;
      forall other | ReadsInOrder(other) && Complete(other) && (forall e :: e in other <==> e in elements)
        ensures other == elements
      {
        OrderUnique(other, elements);
      }
    }

    lemma BuffersTheRest()
      requires Valid()
      ensures forall id :: id in history.links && id !in index ==>
        history.links[id].after.Some?
            && InsertOf(history, id) in Buffered(pendingInserts, history.links[id].after.value)
      ensures forall a, op :: a in pendingInserts && op in pendingInserts[a] ==>
        op.Insert? && op.after == Some(a) && op.id in history.links && op.id !in index && op == InsertOf(history, op.id)
      ensures forall t :: t in pendingDeletes <==> t in history.deleted && t !in index
      ensures forall t, op :: op in Buffered(pendingDeletes, t) ==> op.Delete? && op.target == t
      ensures forall t, id :: Delete(t, id) in Buffered(pendingDeletes, t) <==>
          t !in index && (t, id) in history.strikes
    {
      hide InsertsKept, DeletesKept, StrikesKept, IndexOk, Placed;
      BuffersHoldTheRest(history, elements, index, pendingInserts, pendingDeletes);
    }

    method Apply(op: SequenceOp<T>)
      requires Valid() && Admissible(op)
      modifies this
      ensures Valid() && history == Deliver(old(history), op)
      ensures ReadsInOrder(elements)
    {
      ghost var before := history;
      assert op.Insert? && op.id in index ==> elements[index[op.id]] in elements;
      InsertDelivered(before, index.Keys, pendingInserts, op);
      DeleteDelivered(before, elements, index.Keys, pendingDeletes, op);
      StrikeDelivered(before, index.Keys, pendingDeletes, op);
      Replace(before, op);
      history := Deliver(history, op);
      assert [op] + [] == [op];
      var inserted := ApplyNow(op, true, []);
      if inserted.Some? {
        ProcessPending(inserted.value);
      }
      ListsByRule();
    }

    /** A later delivery moves nothing that is already listed. */
    lemma Replace(before: History<T>, op: SequenceOp<T>)
      requires IndexOk(elements, index) && Placed(before.links, elements, index.Keys)
      requires Sorted(before.links, Ids(elements))
      ensures Placed(Deliver(before, op).links, elements, index.Keys)
      ensures Sorted(Deliver(before, op).links, Ids(elements))
    {
      var links := Deliver(before, op).links;
      PlacedIsClosed(before.links, elements, index);
      forall e | e in elements ensures Rooted(links, e.id) {
        PathStable(before.links, links, e.id);
      }
      assert forall i :: 0 <= i < |elements| ==> elements[i] in elements;
      SortedStable(before.links, links, Ids(elements));
    }

    method ApplyNow(op: SequenceOp<T>, rebuild: bool, ghost rest: seq<SequenceOp<T>>) returns (inserted: Option<OpId>)
      requires Inv([op] + rest, {}) && (rebuild ==> Ordered())
      modifies this`elements, this`index, this`pendingInserts, this`pendingDeletes
      ensures inserted.Some? <==> op.Insert? && op.id in index
      ensures inserted.Some? ==> inserted.value == op.id && Inv(rest, {op.id})
      ensures inserted.Some? ==> pendingInserts == old(pendingInserts) && pendingDeletes == old(pendingDeletes)
      ensures inserted.None? ==> Inv(rest, {}) && Ids(elements) == old(Ids(elements))
      ensures index.Keys == if inserted.Some? then old(index.Keys) + {op.id} else old(index.Keys)
      ensures inserted.Some? ==> op.id in history.links
      ensures inserted.Some? && op.id in old(index) ==> op.id !in pendingInserts && op.id !in pendingDeletes
      ensures rebuild ==> Ordered()
    {
      hide InsertsKept, DeletesKept, StrikesKept, Placed, IndexOk, Sorted;
      if op.Insert? {
        inserted := ApplyInsertNow(op, rebuild, rest);
      } else {
        ApplyDeleteNow(op, rest);
        inserted := None;
      }
    }

    /** An insert is listed if its anchor is, and buffered under it otherwise. */
    method ApplyInsertNow(op: SequenceOp<T>, rebuild: bool, ghost rest: seq<SequenceOp<T>>)
      returns (inserted: Option<OpId>)
      requires op.Insert? && Inv([op] + rest, {}) && (rebuild ==> Ordered())
      modifies this`elements, this`index, this`pendingInserts
      ensures inserted.Some? <==> op.id in index
      ensures inserted.Some? ==>
          inserted.value == op.id && Inv(rest, {op.id}) && pendingInserts == old(pendingInserts)
          && op.id in history.links
      ensures inserted.Some? && op.id in old(index) ==> op.id !in pendingInserts && op.id !in pendingDeletes
      ensures inserted.None? ==> Inv(rest, {}) && elements == old(elements)
      ensures index.Keys == if inserted.Some? then old(index.Keys) + {op.id} else old(index.Keys)
      ensures rebuild ==> Ordered()
    {
      hide InsertsKept, DeletesKept, StrikesKept, Placed, IndexOk, Sorted;
      QueuedInsert(history, index.Keys, pendingInserts, op, rest);
      assert op.id in index ==> op.id !in pendingDeletes by {
        NoneWaitFor(history, elements, index.Keys, pendingDeletes, [op] + rest);
      }
      ghost var was, listed := elements, index.Keys;
      var done := ApplyInsert(op.after, op.id, op.value, op.rightOrigin, rebuild);
      if done {
        InsertListed(history, listed, pendingInserts, op, rest);
        DeletesAfterInsert(history, was, elements, listed, pendingDeletes, op, rest);
        StrikesPastInsert(history.strikes, listed, index.Keys, pendingDeletes, op, rest);
        inserted := Some(op.id);
      } else {
        InsertBuffered(history, listed, pendingInserts, op, rest);
        DeletesIgnoreInserts(history, elements, listed, pendingDeletes, op, rest);
        StrikesPastInsert(history.strikes, listed, listed, pendingDeletes, op, rest);
        var anchor := op.after.value;
        pendingInserts := pendingInserts[anchor := Buffered(pendingInserts, anchor) + [op]];
        inserted := None;
      }
    }

    /** A delete strikes its target if that is listed, and is buffered under it otherwise. */
    method ApplyDeleteNow(op: SequenceOp<T>, ghost rest: seq<SequenceOp<T>>)
      requires op.Delete? && Inv([op] + rest, {})
      modifies this`elements, this`pendingDeletes
      ensures Inv(rest, {}) && Ids(elements) == old(Ids(elements))
    {
      hide InsertsKept, DeletesKept, StrikesKept, Placed;
      InsertsIgnoreDeletes(history, index.Keys, pendingInserts, [op] + rest, rest, {});
      StrikeSettled(history.strikes, index.Keys, pendingDeletes, op, rest);
      if op.target in index {
        ApplyDelete(op, rest);
      } else {
        DeleteBuffered(history, elements, index.Keys, pendingDeletes, op, rest);
        pendingDeletes := pendingDeletes[op.target := Buffered(pendingDeletes, op.target) + [op]];
      }
    }

    static lemma NoneWaitFor(h: History<T>, elements: seq<Element<T>>, listed: set<OpId>, buffer: Buffer<T>,
            queue: seq<SequenceOp<T>>)
      requires DeletesKept(h, elements, listed, buffer, queue, {})
      ensures forall id :: id in listed ==> id !in buffer
    {
    }

    static lemma QueuedInsert(h: History<T>, listed: set<OpId>, buffer: Buffer<T>, op: SequenceOp<T>,
            rest: seq<SequenceOp<T>>)
      requires op.Insert? && InsertsKept(h, listed, buffer, [op] + rest, {})
      ensures op.id in h.links && (op.id in listed || op == InsertOf(h, op.id))
      ensures op.id in listed ==> op.id !in buffer
    {
      assert op in [op] + rest;
    }

    method ApplyDelete(op: SequenceOp<T>, ghost rest: seq<SequenceOp<T>>)
      requires op.Delete? && op.target in index
      requires IndexOk(elements, index) && Placed(history.links, elements, index.Keys)
      requires DeletesKept(history, elements, index.Keys, pendingDeletes, [op] + rest, {})
      modifies this`elements
      ensures Ids(elements) == old(Ids(elements))
      ensures IndexOk(elements, index) && Placed(history.links, elements, index.Keys)
      ensures DeletesKept(history, elements, index.Keys, pendingDeletes, rest, {})
    {
      ghost var was := elements;
      var i := index[op.target];
      elements := elements[i := elements[i].(value := None)];
      forall e | e in elements
        ensures e in was || (e == elements[i] && was[i] in was)
        ensures e in was ==> e.id != op.target || e == elements[i]
      {
        var k :| 0 <= k < |elements| && elements[k] == e;
        assert k != i ==> was[k] == e;
        if e in was {
          var m :| 0 <= m < |was| && was[m] == e;
        }
      }
      DeleteStruck(history, was, elements, index.Keys, pendingDeletes, op, rest);
    }

    method ApplyInsert(after: Option<OpId>, id: OpId, value: T, rightOrigin: Option<OpId>, rebuild: bool)
      returns (done: bool)
      requires IndexOk(elements, index) && Placed(history.links, elements, index.Keys)
      requires id in history.links && (id in index || history.links[id] == Link(after, rightOrigin))
      requires rebuild ==> Ordered()
      modifies this`elements, this`index
      ensures done <==> id in old(index) || after == None || after.value in old(index)
      ensures !done || id in old(index) ==> elements == old(elements) && index == old(index)
      ensures done ==> index.Keys == old(index.Keys) + {id}
      ensures done && id !in old(index) ==>
        forall e :: e in elements <==> e in old(elements) || e == Element(id, Some(value), after, rightOrigin)
      ensures IndexOk(elements, index) && Placed(history.links, elements, index.Keys)
      ensures rebuild ==> Ordered()
    {
      hide IndexOk, Placed, Sorted;
      if id in index {
        return true;
      }
      if after.Some? && after.value !in index {
        return false;
      }
      var element := Element(id, Some(value), after, rightOrigin);
      assert Rooted(history.links, id) by {
        PlacedIsClosed(history.links, elements, index);
        PathOfChild(history.links, id);
      }
      ghost var was, listed := elements, index.Keys;
      if rebuild && incremental {
        InsertIncrementally(element);
      } else {
        IndexAppended(elements, index, element);
        elements := elements + [element];
        index := index[id := |elements| - 1];
        PlacedMore(history.links, was, elements, listed, element);
        if rebuild {
          RebuildOrder();
        }
      }
      PlacedMore(history.links, was, elements, listed, element);
      return true;
    }

    method InsertIncrementally(element: Element<T>)
      requires IndexOk(elements, index) && Placed(history.links, elements, index.Keys) && Ordered()
      requires element.id in history.links && element.id !in index
      requires history.links[element.id] == Link(element.after, element.rightOrigin)
      requires element.after == None || element.after.value in index
      modifies this`elements, this`index
      ensures IndexOk(elements, index) && index.Keys == old(index.Keys) + {element.id}
      ensures forall e :: e in elements <==> e in old(elements) || e == element
      ensures Ordered()
    {
      hide IndexOk, Placed, Sorted;
      ghost var ids, was := Ids(elements), elements;
      var at := SequenceOrder.InsertPosition(elements, index, element, history.links);
      InsertSorted(history.links, ids, element.id, at);
      elements := elements[..at] + [element] + elements[at..];
      assert Ids(elements) == ids[..at] + [element.id] + ids[at..];
      assert was == elements[..at] + elements[at + 1..];
      Shift(at, was);
    }

    /** Re-number the positions from `at` on after one insertion there. */
    method Shift(at: nat, ghost was: seq<Element<T>>)
      requires at < |elements| && elements[at].id !in index
      requires was == elements[..at] + elements[at + 1..] && IndexOk(was, index)
      modifies this`index
      ensures IndexOk(elements, index) && index.Keys == old(index.Keys) + {elements[at].id}
    {
      ghost var before := index;
      ShiftedFrom(elements, was, before, at);
      hide IndexOk;
      for k := at to |elements|
        invariant index.Keys == before.Keys + if k > at then {elements[at].id} else {}
        invariant forall j :: 0 <= j < k ==> elements[j].id in index && index[elements[j].id] == j
      {
        index := index[elements[k].id := k];
      }
      Shifted(elements, was, before, index, at);
    }

    static lemma ShiftedFrom(elements: seq<Element<T>>, was: seq<Element<T>>, before: map<OpId, nat>, at: nat)
      requires at < |elements| && was == elements[..at] + elements[at + 1..] && IndexOk(was, before)
      ensures forall j :: 0 <= j < |elements| && j != at ==>
        elements[j].id in before && before[elements[j].id] == if j < at then j else j - 1
    {
      forall j | 0 <= j < |elements| && j != at
        ensures elements[j].id in before && before[elements[j].id] == if j < at then j else j - 1
      {
        assert elements[j] == was[if j < at then j else j - 1];
      }
    }

    static lemma Shifted(elements: seq<Element<T>>, was: seq<Element<T>>, before: map<OpId, nat>, index: map<OpId, nat>,
            at: nat)
      requires at < |elements| && was == elements[..at] + elements[at + 1..] && IndexOk(was, before)
      requires index.Keys == before.Keys + {elements[at].id}
      requires forall j :: 0 <= j < |elements| ==> elements[j].id in index && index[elements[j].id] == j
      ensures IndexOk(elements, index)
    {
      forall id | id in before ensures id in index && index[id] < |elements| && elements[index[id]].id == id {
        var j := if before[id] < at then before[id] else before[id] + 1;
        assert elements[j] == was[before[id]];
      }
    }

    method RebuildOrder()
      requires IndexOk(elements, index) && Placed(history.links, elements, index.Keys)
      modifies this`elements, this`index
      ensures IndexOk(elements, index) && index.Keys == old(index.Keys)
      ensures forall e :: e in elements <==> e in old(elements)
      ensures Ordered()
    {
      ghost var was, listed := elements, index.Keys;
      elements := SequenceOrder.RebuildOrder(elements, index, history.links);
      SortedDistinct(history.links, Ids(elements));
      RebuildIndex();
      assert forall i :: 0 <= i < |elements| ==> elements[i] in was;
      forall id ensures id in index <==> id in listed {
        if id in listed {
          assert was[old(index)[id]] in elements;
        }
      }
    }

    method RebuildIndex()
      requires forall i, j :: 0 <= i < j < |elements| ==> elements[i].id != elements[j].id
      modifies this`index
      ensures IndexOk(elements, index)
    {
      index := map[];
      for i := 0 to |elements|
        invariant forall j :: 0 <= j < i ==> elements[j].id in index && index[elements[j].id] == j
        invariant forall id :: id in index ==> index[id] < i && elements[index[id]].id == id
      {
        index := index[elements[i].id := i];
      }
    }

    method ProcessPending(inserted: OpId)
      requires Inv([], {inserted}) && inserted in index && Ordered()
      modifies this`elements, this`index, this`pendingInserts, this`pendingDeletes
      ensures Valid()
    {
      hide InsertsKept, DeletesKept, StrikesKept, Sorted, IndexOk;
      var queue := EnqueuePending(inserted, []);
      var any := false;
      while queue != []
        invariant Inv(queue, {})
        invariant incremental || !any ==> Ordered()
        decreases history.links.Keys - index.Keys, |queue|
      {
        var op, rest := queue[0], queue[1..];
        assert queue == [op] + rest;
        var done := ApplyNow(op, incremental, rest);
        queue := rest;
        if done.Some? {
          any := true;
          queue := EnqueuePending(done.value, queue);
        }
      }
      if any && !incremental {
        ghost var was := elements;
        RebuildOrder();
        DeletesReordered(was);
      }
    }

    lemma DeletesReordered(was: seq<Element<T>>)
      requires DeletesKept(history, was, index.Keys, pendingDeletes, [], {})
      requires forall e :: e in elements <==> e in was
      ensures DeletesKept(history, elements, index.Keys, pendingDeletes, [], {})
    {
    }

    method EnqueuePending(id: OpId, waiting: seq<SequenceOp<T>>) returns (queue: seq<SequenceOp<T>>)
      requires Inv(waiting, {id}) && id in index
      modifies this`pendingInserts, this`pendingDeletes
      ensures Inv(queue, {})
      ensures id !in old(pendingInserts) && id !in old(pendingDeletes) ==> queue == waiting
    {
      hide InsertsKept, DeletesKept, StrikesKept, Placed, IndexOk;
      ghost var inserts, deletes := Buffered(pendingInserts, id), Buffered(pendingDeletes, id);
      BuffersDrained(history, elements, index.Keys, pendingInserts, pendingDeletes, waiting, id);
      queue := waiting;
      if id in pendingInserts {
        queue := queue + pendingInserts[id];
      }
      pendingInserts := pendingInserts - {id};
      if id in pendingDeletes {
        queue := queue + pendingDeletes[id];
      }
      pendingDeletes := pendingDeletes - {id};
      assert queue == waiting + inserts + deletes;
    }

    /** The check a debug build makes after every operation: rebuilding the order from
        scratch gives back the list as it stands. */
    method DebugAssertIncrementalOrder() returns (rebuilt: seq<Element<T>>)
      requires Valid()
      ensures rebuilt == elements
    {
      hide InsertsKept, DeletesKept, StrikesKept;
      rebuilt := SequenceOrder.RebuildOrder(elements, index, history.links);
      SameMembersSameList(history.links, elements, rebuilt);
    }

    /** Overwrite a listed value; this is the one operation that can lift a tombstone. */
    method UpdateValue(id: OpId, value: T)
      requires Valid()
      modifies this
      ensures Valid()
      ensures history == if id in old(index)
                         then old(history).(values := old(history).values[id := value],
                             deleted := old(history).deleted - {id})
                         else old(history)
      ensures index == old(index) && pendingInserts == old(pendingInserts) && pendingDeletes == old(pendingDeletes)
    {
      hide InsertsKept, DeletesKept, StrikesKept, Placed, IndexOk, Sorted, Ids;
      if id in index {
        PlacedAt(history.links, elements, index, id);
        var i := index[id];
        ghost var was, before := elements, history;
        elements := elements[i := elements[i].(value := Some(value))];
        history := history.(values := history.values[id := value], deleted := history.deleted - {id});
        ValueReplaced(before, history, was, elements, index, pendingInserts, pendingDeletes, i, value);
      }
    }

    method ApplyAll(ops: seq<SequenceOp<T>>)
      requires Valid() && history == History(map[], map[], {}, {}) && Consistent(ops)
      modifies this
      ensures Valid() && history == DeliverAll(History(map[], map[], {}, {}), ops)
      ensures ReadsInOrder(elements)
    {
      hide InsertsKept, DeletesKept, StrikesKept, IndexOk, Placed, Sorted, ReadsInOrder;
      for i := 0 to |ops|
        invariant Valid() && history == DeliverAll(History(map[], map[], {}, {}), ops[..i])
      {
        assert ops[..i + 1][..i] == ops[..i];
        DeliverAllRecords(ops[..i]);
        Apply(ops[i]);
      }
      assert ops[..|ops|] == ops;
      ListsByRule();
    }
  }

  /** Strong eventual consistency: two replicas that were handed the same set of operations, in
      any order, with any repetition and under either build, show the same elements at the same
      positions and buffer the same operations. */
  lemma Convergence<T>(s: Sequence<T>, t: Sequence<T>, a: seq<SequenceOp<T>>, b: seq<SequenceOp<T>>)
    requires Consistent(a) && forall op :: op in a <==> op in b
    requires s.Valid() && s.history == DeliverAll(History(map[], map[], {}, {}), a)
    requires t.Valid() && t.history == DeliverAll(History(map[], map[], {}, {}), b)
    ensures s.elements == t.elements && s.index == t.index
    ensures forall k, op :: op in Buffered(s.pendingInserts, k) <==> op in Buffered(t.pendingInserts, k)
    ensures forall k, op :: op in Buffered(s.pendingDeletes, k) <==> op in Buffered(t.pendingDeletes, k)
    ensures s.pendingDeletes.Keys == t.pendingDeletes.Keys
  {
    hide *;
    SameOpsSameHistory(a, b);
    SameElements(s, t);
    SameBuffers(s, t);
    SameBuffers(t, s);
  }

  /** The same, run from two new sequences. */
  method ReplayBothWays<T>(a: seq<SequenceOp<T>>, b: seq<SequenceOp<T>>, incrementalA: bool, incrementalB: bool)
    returns (s: Sequence<T>, t: Sequence<T>)
    requires Consistent(a) && (forall op :: op in a ==> op in b) && (forall op :: op in b ==> op in a)
    ensures s.Valid() && t.Valid() && Renders(s.history, s.elements)
        && s.history == DeliverAll(History(map[], map[], {}, {}), a)
    ensures ReadsInOrder(s.elements)
    ensures s.elements == t.elements && s.index == t.index
    ensures forall k, op :: op in Buffered(s.pendingInserts, k) <==> op in Buffered(t.pendingInserts, k)
    ensures forall k, op :: op in Buffered(s.pendingDeletes, k) <==> op in Buffered(t.pendingDeletes, k)
    ensures s.pendingDeletes.Keys == t.pendingDeletes.Keys
  {
    hide InsertsKept, DeletesKept, StrikesKept, IndexOk, Placed, Sorted, Renders, ReadsInOrder;
    s := new Sequence<T>(incrementalA);
    t := new Sequence<T>(incrementalB);
    s.ApplyAll(a);
    assert Consistent(b);
    t.ApplyAll(b);
    s.ShowsCanonical();
    Convergence(s, t, a, b);
  }

  lemma SameElements<T>(s: Sequence<T>, t: Sequence<T>)
    requires s.Valid() && t.Valid() && s.history == t.history
    ensures s.elements == t.elements && s.index == t.index
  {
    hide InsertsKept, DeletesKept, StrikesKept, Placed, Sorted;
    s.ShowsCanonical();
    t.ShowsCanonical();
    RendersUnique(s.history, s.elements, t.elements);
  }

  lemma SameBuffers<T>(s: Sequence<T>, t: Sequence<T>)
    requires s.Valid() && t.Valid() && s.history == t.history && s.index == t.index
    ensures forall k, op :: op in Buffered(s.pendingInserts, k) ==> op in Buffered(t.pendingInserts, k)
    ensures forall k, op :: op in Buffered(s.pendingDeletes, k) <==> op in Buffered(t.pendingDeletes, k)
    ensures s.pendingDeletes.Keys == t.pendingDeletes.Keys
  {
    hide *;
    s.BuffersTheRest();
    t.BuffersTheRest();
    forall k, op
      ensures op in Buffered(s.pendingDeletes, k) ==> op in Buffered(t.pendingDeletes, k)
      ensures op in Buffered(t.pendingDeletes, k) ==> op in Buffered(s.pendingDeletes, k)
    {
      assert op.Delete? ==> op == Delete(op.target, op.id);
    }
    forall k, op | op in Buffered(s.pendingInserts, k) ensures op in Buffered(t.pendingInserts, k) {
      BufferedAlike(s.history, s.index, s.pendingInserts, t.pendingInserts, k, op);
    }
  }

  lemma BufferedAlike<T>(h: History<T>, index: map<OpId, nat>, a: Buffer<T>, b: Buffer<T>, k: OpId, op: SequenceOp<T>)
    requires op in Buffered(a, k)
    requires forall k, op :: k in a && op in a[k] ==>
      op.Insert? && op.after == Some(k) && op.id in h.links && op.id !in index && op == InsertOf(h, op.id)
    requires forall id :: id in h.links && id !in index ==>
      h.links[id].after.Some? && InsertOf(h, id) in Buffered(b, h.links[id].after.value)
    ensures op in Buffered(b, k)
  {
  }

  lemma SameMembersSameList<T>(links: Links, a: seq<Element<T>>, b: seq<Element<T>>)
    requires Sorted(links, Ids(a)) && Sorted(links, Ids(b)) && forall e :: e in a <==> e in b
    ensures a == b
  {
    forall id ensures id in Ids(a) <==> id in Ids(b) {
      if id in Ids(a) {
        var i :| 0 <= i < |a| && a[i].id == id;
        assert a[i] in b;
      }
      if id in Ids(b) {
        var i :| 0 <= i < |b| && b[i].id == id;
        assert b[i] in a;
      }
    }
    SortedUnique(links, Ids(a), Ids(b));
    SortedDistinct(links, Ids(a));
    forall i | 0 <= i < |a| ensures a[i] == b[i] {
      assert a[i] in b;
      var k :| 0 <= k < |b| && b[k] == a[i];
      assert Ids(a)[k] == Ids(a)[i];
    }
  }

  lemma ValueReplaced<T>(h: History<T>, h': History<T>, was: seq<Element<T>>, now: seq<Element<T>>,
          index: map<OpId, nat>, inserts: Buffer<T>, deletes: Buffer<T>, i: nat, value: T)
    requires IndexOk(was, index) && Placed(h.links, was, index.Keys) && i < |was| && was[i].id in h.links
    requires InsertsKept(h, index.Keys, inserts, [], {}) && DeletesKept(h, was, index.Keys, deletes, [], {})
    requires now == was[i := was[i].(value := Some(value))]
    requires h' == h.(values := h.values[was[i].id := value], deleted := h.deleted - {was[i].id})
    ensures IndexOk(now, index) && Placed(h'.links, now, index.Keys) && Ids(now) == Ids(was)
    ensures InsertsKept(h', index.Keys, inserts, [], {}) && DeletesKept(h', now, index.Keys, deletes, [], {})
  {
    hide InsertsKept, DeletesKept, StrikesKept;
    assert was[i] in was;
    forall e | e in now
      ensures e in was || e == now[i]
      ensures e.id == was[i].id ==> e == now[i]
    {
      var k :| 0 <= k < |now| && now[k] == e;
      assert k != i ==> was[k] == e;
    }
    DeletesAfterUpdate(h, h', was, now, index, deletes, i, value);
    InsertsAfterUpdate(h, h', was, index, inserts, was[i].id, value);
  }

  lemma DeletesAfterUpdate<T>(h: History<T>, h': History<T>, was: seq<Element<T>>, now: seq<Element<T>>,
          index: map<OpId, nat>, deletes: Buffer<T>, i: nat, value: T)
    requires i < |was| && was[i].id in index && i < |now| && was[i].id == now[i].id && now[i].value == Some(value)
        && was[i].id in h.links
    requires DeletesKept(h, was, index.Keys, deletes, [], {})
    requires forall e :: e in now ==> (e in was && e.id != was[i].id) || e == now[i]
    requires h' == h.(values := h.values[was[i].id := value], deleted := h.deleted - {was[i].id})
    ensures DeletesKept(h', now, index.Keys, deletes, [], {})
  {
    forall e | e in now ensures Struck(h', e, deletes, [], {}) {
      assert e != now[i] ==> Struck(h, e, deletes, [], {});
    }
  }

  lemma InsertsAfterUpdate<T>(h: History<T>, h': History<T>, was: seq<Element<T>>, index: map<OpId, nat>,
          inserts: Buffer<T>, id: OpId, value: T)
    requires IndexOk(was, index) && Placed(h.links, was, index.Keys) && id in index && id in h.links
    requires InsertsKept(h, index.Keys, inserts, [], {})
    requires h' == h.(values := h.values[id := value], deleted := h.deleted - {id})
    ensures InsertsKept(h', index.Keys, inserts, [], {})
  {
    hide IndexOk, Placed;
    forall x | x in h'.links && x !in index ensures Waits(h', x, index.Keys, inserts, {}) {
      assert Waits(h, x, index.Keys, inserts, {});
    }
    forall a, op | a in inserts && op in inserts[a] ensures op == InsertOf(h', op.id) {
      AnchorAbsent(h, was, index, op);
    }
  }

  lemma SortedDistinct(links: Links, ids: seq<OpId>)
    requires Sorted(links, ids)
    ensures forall i, j :: 0 <= i < j < |ids| ==> ids[i] != ids[j]
  {
    forall i, j | 0 <= i < j < |ids| ensures ids[i] != ids[j] {
      assert Before(links, ids[i], ids[j]);
      PathIrreflexive(links, Path(links, ids[i]));
    }
  }
}
