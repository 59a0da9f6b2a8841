/**
 When an operation that covers a span of counters may enter the log (src/sync/mod.rs): the
 order-free specification of the operation log.
 */
module SyncLog {
  import opened OpIds

  /** What was handed over under one id: its payload and how many counters it covers. */
  datatype Delivery<+P> = Delivery(payload: P, span: nat)

  type Deliveries<P> = map<OpId, Delivery<P>>

  /** First counter covered by an operation with id counter `counter` (saturating at 0). */
  function SpanStart(counter: nat, span: nat): nat {
    var width := if span == 0 then 0 else span - 1;
    if counter < width then 0 else counter - width
  }

  /** Counter `c` lies in an operation that ends at `counter` and covers `span` counters, at least its own. */
  predicate InSpan(counter: nat, span: nat, c: nat) {
    c <= counter < c + (if span == 0 then 1 else span)
  }

  lemma SpanCovers(counter: nat, span: nat, c: nat)
    ensures SpanStart(counter, span) <= c <= counter <==> InSpan(counter, span, c)
  {
  }

  ghost function Start<P>(d: Deliveries<P>, id: OpId): nat
    requires id in d
  {
    SpanStart(id.counter, d[id].span)
  }

  /** The highest counter of `peer` among the applied ids. */
  ghost function Frontier(order: seq<OpId>, peer: PeerId): nat {
    if order == [] then 0
    else
      Raise(Frontier(order[..|order| - 1], peer), peer, order[|order| - 1])
  }

  function Raise(frontier: nat, peer: PeerId, id: OpId): nat {
    if id.peer == peer && id.counter > frontier then id.counter else frontier
  }

  /** Each id entered the log when the counters just below its span were already covered. */
  ghost predicate Grounded<P>(d: Deliveries<P>, order: seq<OpId>) {
    forall i :: 0 <= i < |order| ==>
      order[i] in d && Start(d, order[i]) <= Frontier(order[..i], order[i].peer) + 1
  }

  /** No delivered operation that could be applied is still waiting. */
  ghost predicate Saturated<P>(d: Deliveries<P>, order: seq<OpId>) {
    forall id :: id in d && id !in order ==> Start(d, id) > Frontier(order, id.peer) + 1
  }

  lemma {:induction false} FrontierBounds(order: seq<OpId>, id: OpId)
    requires id in order
    ensures id.counter <= Frontier(order, id.peer)
  {
    var init := order[..|order| - 1];
    assert order == init + [order[|order| - 1]];
    if id in init {
      FrontierBounds(init, id);
    }
  }

  lemma {:induction false} FrontierAttained(order: seq<OpId>, peer: PeerId)
    requires Frontier(order, peer) > 0
    ensures OpId(Frontier(order, peer), peer) in order
  {
    var init, last := order[..|order| - 1], order[|order| - 1];
    if !(last.peer == peer && last.counter > Frontier(init, peer)) {
      FrontierAttained(init, peer);
    }
  }

  lemma FrontierIncluded(a: seq<OpId>, b: seq<OpId>, peer: PeerId)
    requires forall id :: id in a ==> id in b
    ensures Frontier(a, peer) <= Frontier(b, peer)
  {
    if Frontier(a, peer) > 0 {
      FrontierAttained(a, peer);
      FrontierBounds(b, OpId(Frontier(a, peer), peer));
    }
  }

  lemma GroundedAppend<P>(d: Deliveries<P>, order: seq<OpId>, id: OpId)
    requires Grounded(d, order) && id in d && Start(d, id) <= Frontier(order, id.peer) + 1
    ensures Grounded(d, order + [id])
    ensures forall p :: Frontier(order + [id], p) == Raise(Frontier(order, p), p, id)
  {
    var more := order + [id];
    forall i | 0 <= i < |more| ensures more[i] in d && Start(d, more[i]) <= Frontier(more[..i], more[i].peer) + 1 {
      assert more[..i] == order[..i];
      assert i == |order| ==> order[..i] == order;
    }
    assert more[..|order|] == order;
  }

  lemma GroundedMore<P>(d: Deliveries<P>, d': Deliveries<P>, order: seq<OpId>)
    requires Grounded(d, order) && forall id :: id in d ==> id in d' && d'[id] == d[id]
    ensures Grounded(d', order)
  {
    forall i | 0 <= i < |order| ensures order[i] in d'
        && Start(d', order[i]) <= Frontier(order[..i], order[i].peer) + 1 {
      assert order[i] in d;
    }
  }

  /** The applied spans of a peer cover every counter up to its frontier. */
  lemma {:induction false} GapFree<P>(d: Deliveries<P>, order: seq<OpId>, peer: PeerId, c: nat) returns (id: OpId)
    requires Grounded(d, order) && 1 <= c <= Frontier(order, peer)
    ensures id in order && id in d && id.peer == peer && Start(d, id) <= c <= id.counter
  {
    var k := |order| - 1;
    var init := order[..k];
    assert order[k] in d && Start(d, order[k]) <= Frontier(order[..k], order[k].peer) + 1;
    if c <= Frontier(init, peer) {
      assert forall i :: 0 <= i < |init| ==> init[i] == order[i] && init[..i] == order[..i];
      id := GapFree(d, init, peer, c);
    } else {
      id := order[k];
    }
  }

  lemma {:induction false} Included<P>(d: Deliveries<P>, a: seq<OpId>, b: seq<OpId>, k: nat)
    requires Grounded(d, a) && Saturated(d, b) && k <= |a|
    ensures forall id :: id in a[..k] ==> id in b
  {
    if k > 0 {
      Included(d, a, b, k - 1);
      FrontierIncluded(a[..k - 1], b, a[k - 1].peer);
      assert a[..k] == a[..k - 1] + [a[k - 1]];
    }
  }

  /** Confluence: what ends up applied depends only on what was delivered. */
  lemma Confluence<P>(d: Deliveries<P>, a: seq<OpId>, b: seq<OpId>)
    requires Grounded(d, a) && Saturated(d, a) && Grounded(d, b) && Saturated(d, b)
    ensures forall id :: id in a <==> id in b
    ensures forall p :: Frontier(a, p) == Frontier(b, p)
  {
    Included(d, a, b, |a|);
    Included(d, b, a, |b|);
    assert a[..|a|] == a && b[..|b|] == b;
    forall p ensures Frontier(a, p) == Frontier(b, p) {
      FrontierIncluded(a, b, p);
      FrontierIncluded(b, a, p);
    }
  }

  /** A receiver that holds every operation the sender could send past `since`, and has nothing
      left to apply, has caught up with the sender. */
  lemma CatchesUp<P>(d: Deliveries<P>, order: seq<OpId>, floor: StateVector, since: StateVector, e: Deliveries<P>,
          mine: seq<OpId>)
    requires Grounded(d, order) && Grounded(e, mine) && Saturated(e, mine)
    requires forall p :: Get(floor, p) <= Get(since, p) <= Frontier(mine, p)
    requires forall id :: id in order && id.counter > Get(floor, id.peer) && id.counter > Get(since, id.peer) ==>
      id in e && e[id].span == d[id].span
    ensures forall p :: Frontier(order, p) <= Frontier(mine, p)
  {
    forall p ensures Frontier(order, p) <= Frontier(mine, p) {
      var v := Frontier(mine, p);
      if v < Frontier(order, p) {
        var id := GapFree(d, order, p, v + 1);
        assert id in mine;
        FrontierBounds(mine, id);
        assert false;
      }
    }
  }

  // ----- the state of a log

  /** All that one replica's log holds, with what was ever delivered and ever applied. */
  datatype Log<P> = Log(ops: map<OpId, P>, vector: StateVector, pending: Deliveries<P>, floor: StateVector,
                        delivered: Deliveries<P>, order: seq<OpId>)

  ghost predicate LogOk<P>(l: Log<P>) {
    && Clocked(l.delivered, l.order, l.vector, l.floor)
    && Holds(l.ops, l.pending, l.delivered, AppliedIds(l.order), l.floor)
  }

  ghost function AppliedIds(order: seq<OpId>): set<OpId> {
    set id | id in order
  }

  /** The vector is the frontier of a gap-free log, and pruning never ran ahead of it. */
  ghost predicate Clocked<P>(d: Deliveries<P>, order: seq<OpId>, vector: StateVector, floor: StateVector) {
    && Grounded(d, order)
    && (forall p :: Get(vector, p) == Frontier(order, p))
    && (forall p :: p in vector ==> vector[p] > 0)
    && (forall p :: Get(floor, p) <= Get(vector, p))
  }

  /** Every delivered operation was applied or waits; every applied one is retained or at or below the floor. */
  ghost predicate Holds<P>(ops: map<OpId, P>, pending: Deliveries<P>, d: Deliveries<P>, applied: set<OpId>,
          floor: StateVector) {
    && d.Keys == applied + pending.Keys && applied !! pending.Keys && ops.Keys <= applied
    && (forall id :: id in ops ==> ops[id] == d[id].payload)
    && (forall id :: id in pending ==> pending[id] == d[id])
    && (forall id :: id in applied && id !in ops ==> id.counter <= Get(floor, id.peer))
  }

  predicate Ready(vector: StateVector, id: OpId, span: nat) {
    SpanStart(id.counter, span) <= Get(vector, id.peer) + 1
  }

  /** No pending operation is ready. */
  ghost predicate Settled<P>(l: Log<P>) {
    forall id :: id in l.pending ==> !Ready(l.vector, id, l.pending[id].span)
  }

  /** No checkpoint has dropped anything that was applied. */
  ghost predicate Unpruned<P>(l: Log<P>) {
    forall id :: id in l.order ==> id in l.ops
  }

  /** Raise one peer's entry to `id`, if that is higher. */
  function Observe(v: StateVector, id: OpId): (w: StateVector)
    ensures forall p :: Get(w, p) == Raise(Get(v, p), p, id)
  {
    if id.counter > Get(v, id.peer) then v[id.peer := id.counter] else v
  }

  /** Log a delivered operation, taking it out of `pending` if it waited there. */
  ghost function Admitted<P>(l: Log<P>, id: OpId, payload: P): Log<P> {
    l.(ops := l.ops[id := payload], vector := Observe(l.vector, id), pending := l.pending - {id},
        order := l.order + [id])
  }

  lemma AdmitKeeps<P>(l: Log<P>, id: OpId)
    requires LogOk(l) && id in l.delivered && Ready(l.vector, id, l.delivered[id].span)
    ensures LogOk(Admitted(l, id, l.delivered[id].payload))
  {
    hide Clocked, Holds;
    ClockAdvances(l.delivered, l.order, l.vector, l.floor, id);
    HoldsAdmitted(l.ops, l.pending, l.delivered, AppliedIds(l.order), l.floor, id);
    assert AppliedIds(l.order + [id]) == AppliedIds(l.order) + {id};
  }

  lemma ClockAdvances<P>(d: Deliveries<P>, order: seq<OpId>, vector: StateVector, floor: StateVector, id: OpId)
    requires Clocked(d, order, vector, floor) && id in d && Ready(vector, id, d[id].span)
    ensures Clocked(d, order + [id], Observe(vector, id), floor)
  {
    GroundedAppend(d, order, id);
  }

  lemma HoldsAdmitted<P>(ops: map<OpId, P>, pending: Deliveries<P>, d: Deliveries<P>, applied: set<OpId>,
          floor: StateVector, id: OpId)
    requires Holds(ops, pending, d, applied, floor) && id in d
    ensures Holds(ops[id := d[id].payload], pending - {id}, d, applied + {id}, floor)
  {
  }

  ghost function Received<P>(l: Log<P>, id: OpId, d: Delivery<P>): Log<P> {
    l.(delivered := l.delivered[id := d], pending := if id in l.order then l.pending else l.pending[id := d])
  }

  /** Delivering again what is known changes nothing; anything new first waits. */
  lemma ReceiveKeeps<P>(l: Log<P>, id: OpId, d: Delivery<P>)
    requires LogOk(l) && (id in l.delivered ==> l.delivered[id] == d)
    ensures LogOk(Received(l, id, d))
  {
    var more := l.delivered[id := d];
    assert Clocked(more, l.order, l.vector, l.floor) by {
      GroundedMore(l.delivered, more, l.order);
      hide Grounded;
    }
    hide Clocked;
    assert id in l.order <==> id in AppliedIds(l.order);
    HoldsReceived(l.ops, l.pending, l.delivered, AppliedIds(l.order), l.floor, id, d);
  }

  lemma HoldsReceived<P>(ops: map<OpId, P>, pending: Deliveries<P>, d: Deliveries<P>, applied: set<OpId>,
          floor: StateVector, id: OpId, x: Delivery<P>)
    requires Holds(ops, pending, d, applied, floor) && (id in d ==> d[id] == x)
    ensures Holds(ops, if id in applied then pending else pending[id := x], d[id := x], applied, floor)
  {
  }

  /** Counter `c` of `peer` lies in the span of an operation the log holds. */
  ghost predicate InLog<P>(l: Log<P>, peer: PeerId, c: nat) {
    exists id :: id in l.ops && id in l.delivered && id.peer == peer && InSpan(id.counter, l.delivered[id].span, c)
  }

  /** The vector says what the log holds: counter `c` of a peer is recorded if and only if it is at most its entry. */
  lemma VectorIsInLog<P>(l: Log<P>, peer: PeerId, c: nat)
    requires LogOk(l) && Unpruned(l) && c > 0
    ensures InLog(l, peer, c) <==> c <= Get(l.vector, peer)
  {
    if c <= Get(l.vector, peer) {
      var id := GapFree(l.delivered, l.order, peer, c);
      SpanCovers(id.counter, l.delivered[id].span, c);
      assert id in l.ops;
    }
    if InLog(l, peer, c) {
      hide Grounded;
      var id :| id in l.ops && id in l.delivered && id.peer == peer && InSpan(id.counter, l.delivered[id].span, c);
      assert id in AppliedIds(l.order);
      FrontierBounds(l.order, id);
    }
  }

  lemma SettledIsSaturated<P>(l: Log<P>)
    requires LogOk(l) && Settled(l)
    ensures Grounded(l.delivered, l.order) && Saturated(l.delivered, l.order)
  {
    hide Grounded;
    forall id | id in l.delivered && id !in l.order
      ensures Start(l.delivered, id) > Frontier(l.order, id.peer) + 1
    {
      assert id in l.pending && !Ready(l.vector, id, l.pending[id].span);
    }
  }

  /** Log confluence: with nothing pruned, the log, the buffer and the vector of a settled replica
      are decided by what was delivered to it, not by the order of delivery. */
  lemma LogConfluence<P>(a: Log<P>, b: Log<P>)
    requires LogOk(a) && Settled(a) && LogOk(b) && Settled(b)
    requires a.delivered == b.delivered
    requires Unpruned(a) && Unpruned(b)
    ensures a.ops == b.ops && a.pending == b.pending && a.vector == b.vector
  {
    hide LogOk, Settled, Unpruned, Grounded, Saturated;
    SettledIsSaturated(a);
    SettledIsSaturated(b);
    Confluence(a.delivered, a.order, b.order);
    SameVector(a, b);
    SameParts(a, b);
  }

  /** Retained and waiting operations follow from what was delivered and applied. */
  lemma SameParts<P>(a: Log<P>, b: Log<P>)
    requires LogOk(a) && LogOk(b) && Unpruned(a) && Unpruned(b) && a.delivered == b.delivered
    requires forall id :: id in a.order <==> id in b.order
    ensures a.ops == b.ops && a.pending == b.pending
  {
    hide Clocked;
    assert AppliedIds(a.order) == AppliedIds(b.order);
    assert a.ops.Keys == AppliedIds(a.order) && b.ops.Keys == AppliedIds(b.order);
    assert a.pending.Keys == b.pending.Keys;
  }

  lemma SameVector<P>(a: Log<P>, b: Log<P>)
    requires LogOk(a) && LogOk(b) && forall p :: Frontier(a.order, p) == Frontier(b.order, p)
    ensures a.vector == b.vector
  {
    hide Holds, Grounded;
    forall p
      ensures p in a.vector <==> p in b.vector
      ensures p in a.vector && p in b.vector ==> a.vector[p] == b.vector[p]
    {
      assert Get(a.vector, p) == Frontier(a.order, p) == Frontier(b.order, p) == Get(b.vector, p);
    }
  }

  /** Delta completeness: a settled receiver whose vector covers `since`, and to which every retained
      operation past `since` was delivered with its true span, covers the sender's vector. */
  lemma DeltaCompletes<P>(sender: Log<P>, since: StateVector, receiver: Log<P>)
    requires LogOk(sender) && LogOk(receiver) && Settled(receiver)
    requires Covers(since, sender.floor) && Covers(receiver.vector, since)
    requires forall id :: id in sender.ops && id.counter > Get(since, id.peer) ==>
      id in receiver.delivered && receiver.delivered[id].span == sender.delivered[id].span
    ensures Covers(receiver.vector, sender.vector)
  {
    SettledIsSaturated(receiver);
    assert forall id :: id in sender.order ==> id in AppliedIds(sender.order);
    CatchesUp(sender.delivered, sender.order, sender.floor, since, receiver.delivered, receiver.order);
  }
}
