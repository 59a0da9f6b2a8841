/**
 What a replicated sequence must show (src/core/mod.rs), as a function of the operations
 delivered and not of the order they came in, and what its buffers must hold.
 */
module Rga {
  import opened OpIds
  import opened TreeOrder

  datatype Element<+T> =
    Element(id: OpId, value: Option<T>, after: Option<OpId>, rightOrigin: Option<OpId>)

  datatype SequenceOp<+T> =
    | Insert(after: Option<OpId>, id: OpId, value: T, rightOrigin: Option<OpId>)
    | Delete(target: OpId, id: OpId)

  type Buffer<T> = map<OpId, seq<SequenceOp<T>>>

  function Buffered<T>(buffer: Buffer<T>, key: OpId): seq<SequenceOp<T>> {
    if key in buffer then buffer[key] else []
  }

  // ----- what has been delivered

  /** The inserts, the ids that are tombstones, and every delete (target and id) that was delivered. */
  datatype RawHistory<T> = History(links: Links, values: map<OpId, T>, deleted: set<OpId>, strikes: set<(OpId, OpId)>)

  type History<T> = h: RawHistory<T> | h.links.Keys == h.values.Keys
    ghost witness History(map[], map[], {}, {})

  ghost function InsertOf<T>(h: History<T>, id: OpId): SequenceOp<T>
    requires id in h.links
  {
    Insert(h.links[id].after, id, h.values[id], h.links[id].rightOrigin)
  }

  ghost function Deliver<T>(h: History<T>, op: SequenceOp<T>): History<T> {
    match op
    case Insert(after, id, value, ro) =>
      if id in h.links then h
      else h.(links := h.links[id := Link(after, ro)], values := h.values[id := value])
    case Delete(target, id) => h.(deleted := h.deleted + {target}, strikes := h.strikes + {(target, id)})
  }

  ghost function DeliverAll<T>(h: History<T>, ops: seq<SequenceOp<T>>): History<T> {
    if ops == [] then h else Deliver(DeliverAll(h, ops[..|ops| - 1]), ops[|ops| - 1])
  }

  // ----- what must be shown

  /** The element of `id`: its insert, or a tombstone once deleted. */
  ghost function Shown<T>(h: History<T>, id: OpId): Element<T>
    requires id in h.links
  {
    Element(id, if id in h.deleted then None else Some(h.values[id]), h.links[id].after, h.links[id].rightOrigin)
  }

  ghost function Ids<T>(elements: seq<Element<T>>): (ids: seq<OpId>)
    ensures |ids| == |elements| && forall i :: 0 <= i < |ids| ==> ids[i] == elements[i].id
  {
    seq(|elements|, i requires 0 <= i < |elements| => elements[i].id)
  }

  /** `elements` is the canonical listing of `h`: exactly the rooted inserts, in tree order. */
  ghost predicate Renders<T>(h: History<T>, elements: seq<Element<T>>) {
    && (forall id :: id in Ids(elements) <==> id in h.links && Rooted(h.links, id))
    && (forall i :: 0 <= i < |elements| && elements[i].id in h.links ==> elements[i] == Shown(h, elements[i].id))
    && Sorted(h.links, Ids(elements))
  }

  // ----- the list and its index

  predicate IndexOk<T>(elements: seq<Element<T>>, index: map<OpId, nat>) {
    && (forall i :: 0 <= i < |elements| ==> elements[i].id in index && index[elements[i].id] == i)
    && (forall id :: id in index ==> index[id] < |elements| && elements[index[id]].id == id)
  }

  /** Every listed element is the insert delivered under its id, and its anchor is listed too. */
  ghost predicate Placed<T>(links: Links, elements: seq<Element<T>>, listed: set<OpId>) {
    forall e :: e in elements ==>
      && e.id in links && links[e.id] == Link(e.after, e.rightOrigin) && Rooted(links, e.id)
      && (e.after == None || e.after.value in listed)
  }

  lemma PlacedIsClosed<T>(links: Links, elements: seq<Element<T>>, index: map<OpId, nat>)
    requires IndexOk(elements, index) && Placed(links, elements, index.Keys)
    ensures Closed(links, index.Keys)
    ensures forall id :: id in Ids(elements) <==> id in index.Keys
  {
    forall id | id in index
      ensures id in Ids(elements) && id in links && Rooted(links, id)
      ensures links[id].after == None || links[id].after.value in index
    {
      assert elements[index[id]] in elements;
      assert Ids(elements)[index[id]] == id;
    }
  }

  lemma PlacedAt<T>(links: Links, elements: seq<Element<T>>, index: map<OpId, nat>, id: OpId)
    requires IndexOk(elements, index) && Placed(links, elements, index.Keys) && id in index
    ensures index[id] < |elements| && elements[index[id]].id == id && id in links
  {
    assert elements[index[id]] in elements;
  }

  lemma PlacedMore<T>(links: Links, was: seq<Element<T>>, now: seq<Element<T>>, listed: set<OpId>, e: Element<T>)
    requires Placed(links, was, listed) && forall x :: x in now ==> x in was || x == e
    requires e.id in links && links[e.id] == Link(e.after, e.rightOrigin) && Rooted(links, e.id)
    requires e.after == None || e.after.value in listed
    ensures Placed(links, now, listed + {e.id})
  {
  }

  // ----- the listing rule, read off the elements alone

  /** Which of two inserts at one anchor is listed first, by counters and peers alone: the newer one if both had the
      same right neighbour; otherwise one that had a neighbour, and the one whose neighbour is older. */
  predicate ListedFirst<T>(e: Element<T>, f: Element<T>) {
    if e.rightOrigin == f.rightOrigin then
      e.id.counter > f.id.counter || (e.id.counter == f.id.counter && e.id.peer > f.id.peer)
    else if e.rightOrigin.None? || f.rightOrigin.None? then
      f.rightOrigin.None?
    else
      var x, y := e.rightOrigin.value, f.rightOrigin.value;
      x.counter < y.counter || (x.counter == y.counter && x.peer < y.peer)
  }

  ghost predicate AnchorAt<T>(elements: seq<Element<T>>, i: nat, j: nat)
    requires i < |elements| && j < |elements|
  {
    elements[j].after == Some(elements[i].id)
  }

  /** An insert follows its anchor; inserts at one anchor are ranked; and what stands between an anchor and an insert
      at it was itself inserted after something at or past that anchor, so concurrent runs never interleave. */
  ghost predicate ReadsInOrder<T>(elements: seq<Element<T>>) {
    && (forall i, j :: 0 <= i < |elements| && 0 <= j < |elements| && AnchorAt(elements, i, j) ==> i < j)
    && (forall i, j :: 0 <= i < j < |elements| && elements[i].after == elements[j].after ==>
          ListedFirst(elements[i], elements[j]))
    && (forall i, j, k :: 0 <= i < k < j < |elements| && AnchorAt(elements, i, j) ==> InsertedPast(elements, i, k))
  }

  ghost predicate InsertedPast<T>(elements: seq<Element<T>>, i: nat, k: nat)
    requires k < |elements|
  {
    exists m :: i <= m < k && AnchorAt(elements, m, k)
  }

  lemma AnchorFirst<T>(links: Links, elements: seq<Element<T>>, index: map<OpId, nat>, i: nat, j: nat)
    requires IndexOk(elements, index) && Placed(links, elements, index.Keys) && Sorted(links, Ids(elements))
    requires i < |elements| && j < |elements| && AnchorAt(elements, i, j)
    ensures i < j
    ensures Path(links, elements[j].id) == Path(links, elements[i].id) + [elements[j].id]
  {
    assert elements[i] in elements && elements[j] in elements;
    PathOfChild(links, elements[j].id);
    BeforePosition(links, Ids(elements), i, j);
  }

  lemma SiblingsRanked<T>(links: Links, elements: seq<Element<T>>, index: map<OpId, nat>, i: nat, j: nat)
    requires IndexOk(elements, index) && Placed(links, elements, index.Keys) && Sorted(links, Ids(elements))
    requires i < j < |elements| && elements[i].after == elements[j].after
    ensures ListedFirst(elements[i], elements[j])
  {
    var a, b := elements[i].id, elements[j].id;
    assert elements[i] in elements && elements[j] in elements;
    if elements[i].after.Some? {
      PlacedAt(links, elements, index, elements[i].after.value);
      assert elements[index[elements[i].after.value]] in elements;
    }
    PathOfChild(links, a);
    PathOfChild(links, b);
    assert Before(links, Ids(elements)[i], Ids(elements)[j]);
    CommonPrefix(links, ParentPath(links, links[a].after), [a], [b]);
    assert a != b;
    assert SiblingLess(links, a, b);
  }

  lemma BlockKept<T>(links: Links, elements: seq<Element<T>>, index: map<OpId, nat>, i: nat, j: nat, k: nat)
    requires IndexOk(elements, index) && Placed(links, elements, index.Keys) && Sorted(links, Ids(elements))
    requires i < k < j < |elements| && AnchorAt(elements, i, j)
    ensures InsertedPast(elements, i, k)
  {
    var top, mid, low := elements[i].id, elements[k].id, elements[j].id;
    assert elements[i] in elements && elements[k] in elements && elements[j] in elements;
    AnchorFirst(links, elements, index, i, j);
    assert Before(links, Ids(elements)[i], Ids(elements)[k]) && Before(links, Ids(elements)[k], Ids(elements)[j]);
    Sandwich(links, Path(links, top), Path(links, top), Path(links, mid), Path(links, low));
    PathInjective(links, top, mid);
    if elements[k].after.Some? {
      var m := index[elements[k].after.value];
      PlacedAt(links, elements, index, elements[k].after.value);
      assert elements[m] in elements;
      AnchorFirst(links, elements, index, m, k);
      assert Path(links, top) <= Path(links, elements[m].id);
      BeforePosition(links, Ids(elements), i, m);
      assert AnchorAt(elements, m, k);
    } else {
      PathOfChild(links, mid);
      assert false;
    }
  }

  /** Tree order is the listing rule. */
  lemma SortedReads<T>(links: Links, elements: seq<Element<T>>, index: map<OpId, nat>)
    requires IndexOk(elements, index) && Placed(links, elements, index.Keys) && Sorted(links, Ids(elements))
    ensures ReadsInOrder(elements)
  {
    hide IndexOk, Placed, Sorted, ListedFirst, InsertedPast;
    forall i, j | 0 <= i < |elements| && 0 <= j < |elements| && AnchorAt(elements, i, j) ensures i < j {
      AnchorFirst(links, elements, index, i, j);
    }
    forall i, j | 0 <= i < j < |elements| && elements[i].after == elements[j].after
      ensures ListedFirst(elements[i], elements[j])
    {
      SiblingsRanked(links, elements, index, i, j);
    }
    forall i, j, k | 0 <= i < k < j < |elements| && AnchorAt(elements, i, j) ensures InsertedPast(elements, i, k) {
      BlockKept(links, elements, index, i, j, k);
    }
  }

  ghost predicate Anchored<T>(elements: seq<Element<T>>, j: nat)
    requires j < |elements|
  {
    exists i :: 0 <= i < |elements| && AnchorAt(elements, i, j)
  }

  /** Every anchor is listed, and no id twice. */
  ghost predicate Complete<T>(elements: seq<Element<T>>) {
    && (forall i, j :: 0 <= i < j < |elements| ==> elements[i].id != elements[j].id)
    && (forall j :: 0 <= j < |elements| && elements[j].after.Some? ==> Anchored(elements, j))
  }

  lemma PlacedIsComplete<T>(links: Links, elements: seq<Element<T>>, index: map<OpId, nat>)
    requires IndexOk(elements, index) && Placed(links, elements, index.Keys)
    ensures Complete(elements)
  {
    forall j | 0 <= j < |elements| && elements[j].after.Some? ensures Anchored(elements, j) {
      assert elements[j] in elements;
      assert AnchorAt(elements, index[elements[j].after.value], j);
    }
  }

  /** Past the part two listings share, what one has next the other has later. */
  lemma Later<T>(a: seq<Element<T>>, b: seq<Element<T>>, n: nat) returns (j: nat)
    requires Complete(b) && n <= |a| && n < |b| && a[..n] == b[..n] && (n < |a| ==> a[n] != b[n])
    requires forall e :: e in b ==> e in a
    ensures n < j < |a| && a[j] == b[n]
  {
    assert b[n] in a;
    assert forall k :: 0 <= k < n ==> a[..n][k] == b[..n][k];
    j :| 0 <= j < |a| && a[j] == b[n];
  }

  /** Two listings that part at `n` with different anchors: the one whose next insert is anchored earlier breaks the
      block of the other's anchor. */
  lemma AnchoredNoEarlier<T>(a: seq<Element<T>>, b: seq<Element<T>>, n: nat, j: nat)
    requires Complete(a) && ReadsInOrder(a) && Complete(b) && ReadsInOrder(b)
    requires n < j < |a| && n < |b| && a[..n] == b[..n] && a[j] == b[n] && b[n].after.Some?
    ensures exists x, y :: 0 <= y <= x < n && AnchorAt(a, x, n) && AnchorAt(b, y, n)
  {
    assert Anchored(b, n);
    var y :| 0 <= y < |b| && AnchorAt(b, y, n);
    assert y < n && a[..n][y] == b[..n][y];
    assert AnchorAt(a, y, j);
    assert InsertedPast(a, y, n);
  }

  lemma SameAnchor<T>(a: seq<Element<T>>, b: seq<Element<T>>, n: nat, i: nat, j: nat)
    requires Complete(a) && ReadsInOrder(a) && Complete(b) && ReadsInOrder(b)
    requires n < j < |a| && n < i < |b| && a[..n] == b[..n] && a[j] == b[n] && b[i] == a[n]
    ensures a[n].after == b[n].after
  {
    if b[n].after.Some? || a[n].after.Some? {
      if b[n].after.Some? {
        AnchoredNoEarlier(a, b, n, j);
      }
      if a[n].after.Some? {
        AnchoredNoEarlier(b, a, n, i);
      }
      var x, y :| 0 <= y <= x < n && AnchorAt(a, x, n) && AnchorAt(b, y, n);
      var y', x' :| 0 <= x' <= y' < n && AnchorAt(b, y', n) && AnchorAt(a, x', n);
      assert x == x' && y == y';
      assert a[..n][x] == b[..n][x];
    }
  }

  /** The rule fixes the list: the same elements can be listed by it in one way only. */
  lemma OrderUnique<T>(a: seq<Element<T>>, b: seq<Element<T>>)
    requires Complete(a) && Complete(b) && (forall e :: e in a <==> e in b)
    requires ReadsInOrder(a) && ReadsInOrder(b)
    ensures a == b
  {
    var n := 0;
    while n < |a| && n < |b| && a[n] == b[n]
      invariant n <= |a| && n <= |b| && a[..n] == b[..n]
    {
      n := n + 1;
    }
    if n < |b| {
      var j := Later(a, b, n);
      var i := Later(b, a, n);
      SameAnchor(a, b, n, i, j);
      assert false;
    } else if n < |a| {
      var _ := Later(b, a, n);
      assert false;
    }
  }

  lemma IndexAppended<T>(elements: seq<Element<T>>, index: map<OpId, nat>, e: Element<T>)
    requires IndexOk(elements, index) && e.id !in index
    ensures IndexOk(elements + [e], index[e.id := |elements|])
  {
  }

  // ----- the buffers, while `queue` holds operations taken out of them and the buffers of
  //       the ids in `open` are yet to be drained

  /** Every delivered insert is listed, buffered under an absent anchor, or still queued. */
  ghost predicate InsertsKept<T>(h: History<T>, listed: set<OpId>, buffer: Buffer<T>, queue: seq<SequenceOp<T>>,
          open: set<OpId>) {
    && (forall a, op :: a in buffer && op in buffer[a] ==>
          op.Insert? && op.after == Some(a) && op.id in h.links && op == InsertOf(h, op.id))
    && (forall a :: a in buffer ==> a !in listed || a in open)
    && (forall id :: id in h.links && id !in listed ==> InsertOf(h, id) in queue || Waits(h, id, listed, buffer, open))
    && (forall op :: op in queue && op.Insert? ==> op.id in h.links && (op.id in listed || op == InsertOf(h, op.id)))
  }

  ghost predicate Waits<T>(h: History<T>, id: OpId, listed: set<OpId>, buffer: Buffer<T>, open: set<OpId>)
    requires id in h.links
  {
    && h.links[id].after.Some?
    && var a := h.links[id].after.value;
    && (a !in listed || a in open) && a in buffer && InsertOf(h, id) in buffer[a]
  }

  ghost predicate QueuedDelete<T>(queue: seq<SequenceOp<T>>, target: OpId) {
    exists op :: op in queue && op.Delete? && op.target == target
  }

  /** Every delivered delete has struck its target, is buffered under it, or is still queued. */
  ghost predicate DeletesKept<T>(h: History<T>, elements: seq<Element<T>>, listed: set<OpId>, buffer: Buffer<T>,
          queue: seq<SequenceOp<T>>, open: set<OpId>) {
    && (forall t, op :: t in buffer && op in buffer[t] ==> op.Delete? && op.target == t)
    && (forall t :: t in buffer ==> t in h.deleted && |buffer[t]| > 0 && (t !in listed || t in open))
    && (forall t :: t in h.deleted && t !in listed ==> QueuedDelete(queue, t) || t in buffer)
    && (forall e :: e in elements ==> Struck(h, e, buffer, queue, open))
    && (forall op :: op in queue && op.Delete? ==> op.target in h.deleted)
  }

  ghost predicate Struck<T>(h: History<T>, e: Element<T>, buffer: Buffer<T>, queue: seq<SequenceOp<T>>, open: set<OpId>)
          {
    && e.id in h.links
    && (|| (e.value == None && e.id in h.deleted)
        || (e.value == Some(h.values[e.id])
            && (e.id in h.deleted ==> QueuedDelete(queue, e.id) || (e.id in open && e.id in buffer))))
  }

  /** Of the delivered deletes, those whose target is not listed are buffered under it or still queued. */
  ghost predicate StrikesKept<T>(strikes: set<(OpId, OpId)>, listed: set<OpId>, buffer: Buffer<T>,
          queue: seq<SequenceOp<T>>) {
    && (forall t, op :: t in buffer && op in buffer[t] ==> op.Delete? && op.target == t && (t, op.id) in strikes)
    && (forall op :: op in queue && op.Delete? ==> (op.target, op.id) in strikes)
    && (forall t, id :: (t, id) in strikes && t !in listed ==> Pends(buffer, queue, t, id))
  }

  ghost predicate Pends<T>(buffer: Buffer<T>, queue: seq<SequenceOp<T>>, t: OpId, id: OpId) {
    Delete(t, id) in queue || Delete(t, id) in Buffered(buffer, t)
  }

  // ----- one lemma per step, for each buffer

  /** Deletes may go between the queue and the buffer of their target, and be dropped once that is listed. */
  lemma StrikesMoved<T>(strikes: set<(OpId, OpId)>, listed: set<OpId>, buffer: Buffer<T>, queue: seq<SequenceOp<T>>,
          listed': set<OpId>, buffer': Buffer<T>, queue': seq<SequenceOp<T>>)
    requires StrikesKept(strikes, listed, buffer, queue) && listed <= listed'
    requires forall t, op :: t in buffer' && op in buffer'[t] ==>
      op in Buffered(buffer, t) || (op in queue && op.Delete? && op.target == t)
    requires forall op :: op in queue' && op.Delete? ==> op in queue || op in Buffered(buffer, op.target)
    requires forall t, id :: t !in listed' && Pends(buffer, queue, t, id) ==> Pends(buffer', queue', t, id)
    ensures StrikesKept(strikes, listed', buffer', queue')
  {
  }

  lemma StrikeDelivered<T>(h: History<T>, listed: set<OpId>, buffer: Buffer<T>, op: SequenceOp<T>)
    requires StrikesKept(h.strikes, listed, buffer, [])
    ensures StrikesKept(Deliver(h, op).strikes, listed, buffer, [op])
  {
    var h' := Deliver(h, op);
    forall t, id | (t, id) in h'.strikes && t !in listed ensures Pends(buffer, [op], t, id) {
      assert (t, id) in h.strikes ==> Pends(buffer, [], t, id);
    }
  }

  /** An insert leaves the queue: nothing changes for the deletes, though more may be listed. */
  lemma StrikesPastInsert<T>(strikes: set<(OpId, OpId)>, listed: set<OpId>, listed': set<OpId>, buffer: Buffer<T>,
          op: SequenceOp<T>, rest: seq<SequenceOp<T>>)
    requires StrikesKept(strikes, listed, buffer, [op] + rest) && op.Insert? && listed <= listed'
    ensures StrikesKept(strikes, listed', buffer, rest)
  {
    StrikesMoved(strikes, listed, buffer, [op] + rest, listed', buffer, rest);
  }

  lemma StrikeSettled<T>(strikes: set<(OpId, OpId)>, listed: set<OpId>, buffer: Buffer<T>, op: SequenceOp<T>,
          rest: seq<SequenceOp<T>>)
    requires StrikesKept(strikes, listed, buffer, [op] + rest) && op.Delete?
    ensures op.target in listed ==> StrikesKept(strikes, listed, buffer, rest)
    ensures op.target !in listed ==>
      StrikesKept(strikes, listed, buffer[op.target := Buffered(buffer, op.target) + [op]], rest)
  {
    if op.target in listed {
      StrikesMoved(strikes, listed, buffer, [op] + rest, listed, buffer, rest);
    } else {
      var buffer' := buffer[op.target := Buffered(buffer, op.target) + [op]];
      assert op in [op] + rest && op in buffer'[op.target];
      StrikesMoved(strikes, listed, buffer, [op] + rest, listed, buffer', rest);
    }
  }

  lemma StrikesDrained<T>(strikes: set<(OpId, OpId)>, listed: set<OpId>, buffer: Buffer<T>, queue: seq<SequenceOp<T>>,
          more: seq<SequenceOp<T>>, id: OpId)
    requires StrikesKept(strikes, listed, buffer, queue) && forall op :: op in more ==> op.Insert?
    ensures StrikesKept(strikes, listed, buffer - {id}, queue + more + Buffered(buffer, id))
  {
    StrikesMoved(strikes, listed, buffer, queue, listed, buffer - {id}, queue + more + Buffered(buffer, id));
  }

  lemma InsertDelivered<T>(h: History<T>, listed: set<OpId>, buffer: Buffer<T>, op: SequenceOp<T>)
    requires InsertsKept(h, listed, buffer, [], {})
    requires op.Insert? && op.id in h.links && op.id !in listed ==> op == InsertOf(h, op.id)
    requires op.Insert? && op.id in listed ==> op.id in h.links
    ensures InsertsKept(Deliver(h, op), listed, buffer, [op], {})
  {
    var h' := Deliver(h, op);
    forall id | id in h'.links && id !in listed
      ensures InsertOf(h', id) in [op] || Waits(h', id, listed, buffer, {})
    {
      if id in h.links {
        assert Waits(h, id, listed, buffer, {});
      }
    }
  }

  lemma InsertListed<T>(h: History<T>, listed: set<OpId>, buffer: Buffer<T>, op: SequenceOp<T>,
          rest: seq<SequenceOp<T>>)
    requires InsertsKept(h, listed, buffer, [op] + rest, {}) && op.Insert?
    ensures InsertsKept(h, listed + {op.id}, buffer, rest, {op.id})
  {
    forall id | id in h.links && id !in listed + {op.id}
      ensures InsertOf(h, id) in rest || Waits(h, id, listed + {op.id}, buffer, {op.id})
    {
      if InsertOf(h, id) !in [op] + rest {
        assert Waits(h, id, listed, buffer, {});
      }
    }
    assert forall x :: x in rest ==> x in [op] + rest;
  }

  lemma InsertBuffered<T>(h: History<T>, listed: set<OpId>, buffer: Buffer<T>, op: SequenceOp<T>,
          rest: seq<SequenceOp<T>>)
    requires InsertsKept(h, listed, buffer, [op] + rest, {})
    requires op.Insert? && op.id !in listed && op.after.Some? && op.after.value !in listed
    ensures InsertsKept(h, listed, buffer[op.after.value := Buffered(buffer, op.after.value) + [op]], rest, {})
  {
    var a := op.after.value;
    var buffer' := buffer[a := Buffered(buffer, a) + [op]];
    assert op in [op] + rest && op in buffer'[a];
    forall id | id in h.links && id !in listed
      ensures InsertOf(h, id) in rest || Waits(h, id, listed, buffer', {})
    {
      if InsertOf(h, id) !in [op] + rest {
        assert Waits(h, id, listed, buffer, {});
      }
    }
    assert forall x :: x in rest ==> x in [op] + rest;
  }

  lemma InsertsDrained<T>(h: History<T>, listed: set<OpId>, buffer: Buffer<T>, queue: seq<SequenceOp<T>>, id: OpId)
    requires InsertsKept(h, listed, buffer, queue, {id}) && id in listed
    ensures InsertsKept(h, listed, buffer - {id}, queue + Buffered(buffer, id), {})
  {
    var buffer', queue' := buffer - {id}, queue + Buffered(buffer, id);
    forall x | x in h.links && x !in listed
      ensures InsertOf(h, x) in queue' || Waits(h, x, listed, buffer', {})
    {
      if InsertOf(h, x) !in queue {
        assert Waits(h, x, listed, buffer, {id});
      }
    }
  }

  lemma InsertsIgnoreDeletes<T>(h: History<T>, listed: set<OpId>, buffer: Buffer<T>, queue: seq<SequenceOp<T>>,
          queue': seq<SequenceOp<T>>, open: set<OpId>)
    requires InsertsKept(h, listed, buffer, queue, open)
    requires forall op :: op in queue && op.Insert? ==> op in queue'
    requires forall op :: op in queue' && op.Insert? ==> op in queue
    ensures InsertsKept(h, listed, buffer, queue', open)
  {
  }

  lemma DeleteDelivered<T>(h: History<T>, elements: seq<Element<T>>, listed: set<OpId>, buffer: Buffer<T>,
          op: SequenceOp<T>)
    requires DeletesKept(h, elements, listed, buffer, [], {})
    ensures DeletesKept(Deliver(h, op), elements, listed, buffer, [op], {})
  {
    var h' := Deliver(h, op);
    assert op in [op];
    forall e | e in elements ensures Struck(h', e, buffer, [op], {}) {
      assert Struck(h, e, buffer, [], {});
    }
    assert op.Delete? ==> QueuedDelete([op], op.target);
  }

  lemma DeleteStruck<T>(h: History<T>, elements: seq<Element<T>>, elements': seq<Element<T>>, listed: set<OpId>,
          buffer: Buffer<T>, op: SequenceOp<T>, rest: seq<SequenceOp<T>>)
    requires DeletesKept(h, elements, listed, buffer, [op] + rest, {}) && op.Delete? && op.target in listed
    requires forall e :: e in elements' ==>
        if e.id == op.target then e.value == None && e.id in h.links else e in elements
    ensures DeletesKept(h, elements', listed, buffer, rest, {})
  {
    assert op in [op] + rest;
    assert forall x :: x in rest ==> x in [op] + rest;
    forall t | QueuedDelete([op] + rest, t) && t != op.target ensures QueuedDelete(rest, t) {
    }
    forall e | e in elements' ensures Struck(h, e, buffer, rest, {}) {
      if e.id != op.target {
        assert Struck(h, e, buffer, [op] + rest, {});
      }
    }
  }

  lemma DeleteBuffered<T>(h: History<T>, elements: seq<Element<T>>, listed: set<OpId>, buffer: Buffer<T>,
          op: SequenceOp<T>, rest: seq<SequenceOp<T>>)
    requires DeletesKept(h, elements, listed, buffer, [op] + rest, {}) && op.Delete? && op.target !in listed
    requires forall e :: e in elements ==> e.id in listed
    ensures DeletesKept(h, elements, listed, buffer[op.target := Buffered(buffer, op.target) + [op]], rest, {})
  {
    var buffer' := buffer[op.target := Buffered(buffer, op.target) + [op]];
    assert op in [op] + rest;
    assert forall x :: x in rest ==> x in [op] + rest;
    forall t | QueuedDelete([op] + rest, t) && t != op.target ensures QueuedDelete(rest, t) {
    }
    forall e | e in elements ensures Struck(h, e, buffer', rest, {}) {
      assert Struck(h, e, buffer, [op] + rest, {});
    }
  }

  lemma DeletesAfterInsert<T>(h: History<T>, elements: seq<Element<T>>, elements': seq<Element<T>>, listed: set<OpId>,
          buffer: Buffer<T>, op: SequenceOp<T>, rest: seq<SequenceOp<T>>)
    requires DeletesKept(h, elements, listed, buffer, [op] + rest, {}) && op.Insert? && op.id in h.links
    requires forall e :: e in elements' ==>
        e in elements || (e.id == op.id && op.id !in listed && e.value == Some(h.values[e.id]))
    ensures DeletesKept(h, elements', listed + {op.id}, buffer, rest, {op.id})
  {
    assert forall x :: x in rest ==> x in [op] + rest;
    forall t | QueuedDelete([op] + rest, t) ensures QueuedDelete(rest, t) {
    }
    forall e | e in elements' ensures Struck(h, e, buffer, rest, {op.id}) {
      if e in elements {
        assert Struck(h, e, buffer, [op] + rest, {});
      }
    }
  }

  lemma DeletesIgnoreInserts<T>(h: History<T>, elements: seq<Element<T>>, listed: set<OpId>, buffer: Buffer<T>,
          op: SequenceOp<T>, rest: seq<SequenceOp<T>>)
    requires DeletesKept(h, elements, listed, buffer, [op] + rest, {}) && op.Insert?
    ensures DeletesKept(h, elements, listed, buffer, rest, {})
  {
    assert forall x :: x in rest ==> x in [op] + rest;
    forall t | QueuedDelete([op] + rest, t) ensures QueuedDelete(rest, t) {
    }
    forall e | e in elements ensures Struck(h, e, buffer, rest, {}) {
      assert Struck(h, e, buffer, [op] + rest, {});
    }
  }

  lemma DeletesDrained<T>(h: History<T>, elements: seq<Element<T>>, listed: set<OpId>, buffer: Buffer<T>,
          queue: seq<SequenceOp<T>>, more: seq<SequenceOp<T>>, id: OpId)
    requires DeletesKept(h, elements, listed, buffer, queue, {id}) && id in listed
    requires forall op :: op in more ==> op.Insert?
    ensures DeletesKept(h, elements, listed, buffer - {id}, queue + more + Buffered(buffer, id), {})
  {
    var queue' := queue + more + Buffered(buffer, id);
    assert forall x :: x in queue ==> x in queue';
    forall t | QueuedDelete(queue, t) ensures QueuedDelete(queue', t) {
    }
    if id in buffer {
      assert buffer[id][0] in queue';
      assert QueuedDelete(queue', id);
    }
    forall e | e in elements ensures Struck(h, e, buffer - {id}, queue', {}) {
      assert Struck(h, e, buffer, queue, {id});
    }
  }

  lemma DeletesBufferedExactly<T>(h: History<T>, elements: seq<Element<T>>, listed: set<OpId>, buffer: Buffer<T>)
    requires DeletesKept(h, elements, listed, buffer, [], {})
    ensures forall t :: t in buffer <==> t in h.deleted && t !in listed
  {
  }

  lemma StrikesBufferedExactly<T>(strikes: set<(OpId, OpId)>, listed: set<OpId>, buffer: Buffer<T>)
    requires StrikesKept(strikes, listed, buffer, []) && forall t :: t in buffer ==> t !in listed
    ensures forall t, op :: op in Buffered(buffer, t) ==> op.Delete? && op.target == t
    ensures forall t, id :: Delete(t, id) in Buffered(buffer, t) <==> t !in listed && (t, id) in strikes
  {
    forall t, id | t !in listed && (t, id) in strikes ensures Delete(t, id) in Buffered(buffer, t) {
      assert Pends(buffer, [], t, id);
    }
  }

  /** Draining both buffers of a listed id moves its operations to the queue. */
  lemma BuffersDrained<T>(h: History<T>, elements: seq<Element<T>>, listed: set<OpId>, inserts: Buffer<T>,
          deletes: Buffer<T>, queue: seq<SequenceOp<T>>, id: OpId)
    requires InsertsKept(h, listed, inserts, queue, {id}) && DeletesKept(h, elements, listed, deletes, queue, {id})
        && id in listed
    requires StrikesKept(h.strikes, listed, deletes, queue)
    ensures var queue' := queue + Buffered(inserts, id) + Buffered(deletes, id);
      && InsertsKept(h, listed, inserts - {id}, queue', {})
          && DeletesKept(h, elements, listed, deletes - {id}, queue', {})
      && StrikesKept(h.strikes, listed, deletes - {id}, queue')
  {
    StrikesDrained(h.strikes, listed, deletes, queue, Buffered(inserts, id), id);
    InsertsDrained(h, listed, inserts, queue, id);
    DeletesDrained(h, elements, listed, deletes, queue, Buffered(inserts, id), id);
    var queue' := queue + Buffered(inserts, id) + Buffered(deletes, id);
    assert forall op :: op in Buffered(deletes, id) ==> op.Delete?;
    InsertsIgnoreDeletes(h, listed, inserts - {id}, queue + Buffered(inserts, id), queue', {});
  }

  // ----- main results about the specification

  /** With nothing queued, the list is the canonical listing and the buffers hold exactly the rest. */
  lemma ListedAreRooted<T>(h: History<T>, elements: seq<Element<T>>, index: map<OpId, nat>, inserts: Buffer<T>,
          deletes: Buffer<T>)
    requires IndexOk(elements, index) && Placed(h.links, elements, index.Keys)
    requires InsertsKept(h, index.Keys, inserts, [], {})
    requires DeletesKept(h, elements, index.Keys, deletes, [], {})
    requires Sorted(h.links, Ids(elements))
    ensures Renders(h, elements)
    ensures forall id :: id in index <==> id in h.links && Rooted(h.links, id)
  {
    hide InsertsKept, Path, Sorted;
    PlacedIsClosed(h.links, elements, index);
    forall id | id in h.links && Rooted(h.links, id) ensures id in index {
      var p := Path(h.links, id);
      RootedIsListed(h, index.Keys, inserts, p, |p| - 1);
    }
    forall i | 0 <= i < |elements| ensures elements[i] == Shown(h, elements[i].id) {
      assert elements[i] in elements;
      assert Struck(h, elements[i], deletes, [], {});
    }
  }

  lemma {:induction false} RootedIsListed<T>(h: History<T>, listed: set<OpId>, inserts: Buffer<T>, p: seq<OpId>, k: nat)
    requires InsertsKept(h, listed, inserts, [], {}) && IsChain(h.links, p) && k < |p|
    ensures p[k] in listed
  {
    if k > 0 {
      RootedIsListed(h, listed, inserts, p, k - 1);
      assert HangsUnder(h.links, p, k);
    }
    assert p[k] !in listed ==> Waits(h, p[k], listed, inserts, {});
  }

  /** A history has exactly one canonical listing. */
  lemma RendersUnique<T>(h: History<T>, a: seq<Element<T>>, b: seq<Element<T>>)
    requires Renders(h, a) && Renders(h, b)
    ensures a == b
  {
    SortedUnique(h.links, Ids(a), Ids(b));
    forall i | 0 <= i < |a| ensures a[i] == b[i] {
      assert Ids(a)[i] in Ids(a) && Ids(b)[i] == Ids(a)[i];
    }
  }

  /** The buffers hold exactly the inserts that are not rooted and the deletes of unlisted ids. */
  lemma BuffersHoldTheRest<T>(h: History<T>, elements: seq<Element<T>>, index: map<OpId, nat>, inserts: Buffer<T>,
          deletes: Buffer<T>)
    requires IndexOk(elements, index) && Placed(h.links, elements, index.Keys)
    requires InsertsKept(h, index.Keys, inserts, [], {})
    requires DeletesKept(h, elements, index.Keys, deletes, [], {}) && StrikesKept(h.strikes, index.Keys, deletes, [])
    ensures forall id :: id in h.links && id !in index ==>
      h.links[id].after.Some? && InsertOf(h, id) in Buffered(inserts, h.links[id].after.value)
    ensures forall a, op :: a in inserts && op in inserts[a] ==>
      op.Insert? && op.after == Some(a) && op.id in h.links && op.id !in index && op == InsertOf(h, op.id)
    ensures forall t :: t in deletes <==> t in h.deleted && t !in index
    ensures forall t, op :: op in Buffered(deletes, t) ==> op.Delete? && op.target == t
    ensures forall t, id :: Delete(t, id) in Buffered(deletes, t) <==> t !in index && (t, id) in h.strikes
  {
    hide DeletesKept, IndexOk, Placed;
    DeletesBufferedExactly(h, elements, index.Keys, deletes);
    StrikesBufferedExactly(h.strikes, index.Keys, deletes);
    forall id | id in h.links && id !in index
      ensures h.links[id].after.Some? && InsertOf(h, id) in Buffered(inserts, h.links[id].after.value)
    {
      assert Waits(h, id, index.Keys, inserts, {});
    }
    forall a, op | a in inserts && op in inserts[a] ensures op.id !in index {
      AnchorAbsent(h, elements, index, op);
    }
  }

  lemma AnchorAbsent<T>(h: History<T>, elements: seq<Element<T>>, index: map<OpId, nat>, op: SequenceOp<T>)
    requires IndexOk(elements, index) && Placed(h.links, elements, index.Keys)
    requires op.Insert? && op.id in h.links && op == InsertOf(h, op.id) && op.after.Some? && op.after.value !in index
    ensures op.id !in index
  {
    PlacedIsClosed(h.links, elements, index);
  }

  // ----- delivery order and duplication do not matter

  predicate Consistent<T(==)>(ops: seq<SequenceOp<T>>) {
    forall x, y :: x in ops && y in ops && x.Insert? && y.Insert? && x.id == y.id ==> x == y
  }

  /** The history holds exactly the inserts and the deletes of `ops`. */
  ghost predicate Records<T>(h: History<T>, ops: seq<SequenceOp<T>>) {
    && (forall op :: op in ops && op.Insert? ==> op.id in h.links && op == InsertOf(h, op.id))
    && (forall id :: id in h.links ==> InsertOf(h, id) in ops)
    && (forall op :: op in ops && op.Delete? ==> op.target in h.deleted)
    && (forall t :: t in h.deleted ==> QueuedDelete(ops, t))
    && (forall t, id :: (t, id) in h.strikes <==> Delete(t, id) in ops)
  }

  lemma {:induction false} RecordsNext<T>(h: History<T>, init: seq<SequenceOp<T>>, op: SequenceOp<T>)
    requires Records(h, init) && Consistent(init + [op])
    ensures Records(Deliver(h, op), init + [op])
  {
    hide QueuedDelete;
    if op.Insert? {
      RecordsInsert(h, init, op);
    } else {
      RecordsDelete(h, init, op);
    }
  }

  lemma {:induction false} RecordsInsert<T>(h: History<T>, init: seq<SequenceOp<T>>, op: SequenceOp<T>)
    requires Records(h, init) && Consistent(init + [op]) && op.Insert?
    ensures Records(Deliver(h, op), init + [op])
  {
    var ops := init + [op];
    assert op in ops && forall x :: x in ops <==> x in init || x == op;
    forall t ensures QueuedDelete(ops, t) <==> QueuedDelete(init, t) {
    }
    if op.id in h.links {
      assert InsertOf(h, op.id) in init;
    }
    hide QueuedDelete;
  }

  lemma {:induction false} RecordsDelete<T>(h: History<T>, init: seq<SequenceOp<T>>, op: SequenceOp<T>)
    requires Records(h, init) && op.Delete?
    ensures Records(Deliver(h, op), init + [op])
  {
    var ops := init + [op];
    assert op in ops && forall x :: x in ops <==> x in init || x == op;
    forall t ensures QueuedDelete(ops, t) <==> QueuedDelete(init, t) || op.target == t {
    }
    hide QueuedDelete;
  }

  /** The history of a run records exactly its inserts and its deletes. */
  lemma {:induction false} DeliverAllRecords<T>(ops: seq<SequenceOp<T>>)
    requires Consistent(ops)
    ensures Records(DeliverAll(History(map[], map[], {}, {}), ops), ops)
  {
    if ops != [] {
      var init, op := ops[..|ops| - 1], ops[|ops| - 1];
      assert ops == init + [op];
      assert forall x :: x in init ==> x in ops;
      DeliverAllRecords(init);
      RecordsNext(DeliverAll(History(map[], map[], {}, {}), init), init, op);
    }
  }

  lemma SameStrikes<T>(ha: History<T>, hb: History<T>, a: seq<SequenceOp<T>>, b: seq<SequenceOp<T>>)
    requires Records(ha, a) && Records(hb, b) && forall op :: op in a <==> op in b
    ensures ha.strikes == hb.strikes
  {
    forall s: (OpId, OpId) ensures s in ha.strikes <==> s in hb.strikes {
      assert s == (s.0, s.1) && (Delete(s.0, s.1) in a <==> Delete(s.0, s.1) in b);
    }
  }

  /** Strong convergence of the history: the set of delivered operations decides it, however
      they were ordered and however often each was repeated. */
  lemma SameOpsSameHistory<T>(a: seq<SequenceOp<T>>, b: seq<SequenceOp<T>>)
    requires Consistent(a) && forall op :: op in a <==> op in b
    ensures DeliverAll(History(map[], map[], {}, {}), a) == DeliverAll(History(map[], map[], {}, {}), b)
  {
    DeliverAllRecords(a);
    DeliverAllRecords(b);
    var ha, hb := DeliverAll(History(map[], map[], {}, {}), a), DeliverAll(History(map[], map[], {}, {}), b);
    forall id ensures id in ha.links <==> id in hb.links {
      if id in ha.links {
        assert InsertOf(ha, id) in b;
      }
      if id in hb.links {
        assert InsertOf(hb, id) in a;
      }
    }
    forall id | id in ha.links ensures ha.links[id] == hb.links[id] && ha.values[id] == hb.values[id] {
      assert InsertOf(ha, id) in b && InsertOf(ha, id) == InsertOf(hb, id);
    }
    forall t ensures t in ha.deleted <==> t in hb.deleted {
      if t in ha.deleted {
        assert QueuedDelete(a, t);
      }
      if t in hb.deleted {
        assert QueuedDelete(b, t);
      }
    }
    SameStrikes(ha, hb, a, b);
    assert ha.links == hb.links && ha.values == hb.values && ha.deleted == hb.deleted && ha.strikes == hb.strikes;
  }
}
