/**
 Which counters a local commit reserves (src/session/wire.rs `operation_extent`) and how the
 session's clock moves past them (src/session/mod.rs).
 */
module LocalClock {
  import opened OpIds
  import opened SyncLog
  import opened SyncStates
  import Sessions

  /** The parts of a block skeleton that decide which ids its expansion uses. */
  datatype Skeleton =
    | Text(graphemes: nat)
    | Quote(children: seq<Child>)
    | List(items: seq<Item>)
    | Leaf

  datatype Child = Child(id: OpId, kind: Skeleton)

  datatype Item = Item(id: OpId, taskOp: OpId, children: seq<Child>)

  datatype MovedUnit = MovedUnit(source: OpId, id: OpId)

  datatype DocOp =
    | InsertBlock(id: OpId, kind: Skeleton)
    | InsertText(units: seq<OpId>)
    | MoveBlocks(id: OpId, blocks: seq<OpId>)
    | MergeBlocks(id: OpId, moved: seq<MovedUnit>)
    | Single(id: OpId)

  /** What an operation covers: its id and the number of counters up to and including it. */
  datatype Extent = Extent(top: OpId, span: nat)

  function Max(a: nat, b: nat): nat { if a < b then b else a }

  function Min(a: nat, b: nat): nat { if a < b then a else b }

  /** Highest counter used when `kind` is expanded under `parent`. */
  function MaxCounterInKind(kind: Skeleton, parent: OpId): (hi: nat)
    ensures hi >= parent.counter
    decreases kind
  {
    match kind
    case Text(graphemes) => parent.counter + graphemes
    case Quote(children) => MaxInChildren(children, parent.counter)
    case List(items) => MaxInItems(items, parent.counter)
    case Leaf => parent.counter
  }

  function MaxInChild(c: Child): nat
    decreases c
  {
    Max(c.id.counter, MaxCounterInKind(c.kind, c.id))
  }

  function MaxInChildren(children: seq<Child>, sofar: nat): (hi: nat)
    ensures hi >= sofar
    decreases children
  {
    if children == [] then sofar else MaxInChildren(children[1..], Max(sofar, MaxInChild(children[0])))
  }

  function MaxInItem(item: Item): nat
    decreases item
  {
    MaxInChildren(item.children, Max(item.id.counter, item.taskOp.counter))
  }

  function MaxInItems(items: seq<Item>, sofar: nat): (hi: nat)
    ensures hi >= sofar
    decreases items
  {
    if items == [] then sofar else MaxInItems(items[1..], Max(sofar, MaxInItem(items[0])))
  }

  function MaxCounter(ids: seq<OpId>, sofar: nat): nat {
    if ids == [] then sofar else MaxCounter(ids[1..], Max(sofar, ids[0].counter))
  }

  function MinCounter(ids: seq<OpId>, sofar: nat): nat {
    if ids == [] then sofar else MinCounter(ids[1..], Min(sofar, ids[0].counter))
  }

  /** Highest counter among the replaced units of `peer`. */
  function MaxReplaced(units: seq<MovedUnit>, peer: PeerId, sofar: nat): (hi: nat)
    ensures hi >= sofar
  {
    if units == [] then sofar
    else
      var u := units[0];
      MaxReplaced(units[1..], peer, if u.id != u.source && u.id.peer == peer then Max(sofar, u.id.counter) else sofar)
  }

  function SaturatingSub(a: nat, b: nat): nat { if a < b then 0 else a - b }

  function OperationExtent(op: DocOp): Extent {
    match op
    case InsertBlock(id, kind) =>
      var hi := MaxCounterInKind(kind, id);
      Extent(OpId(hi, id.peer), SaturatingSub(hi, id.counter) + 1)
    case InsertText(units) =>
      if units == [] then Extent(OpId(0, 0), 1)
      else
        var hi, lo := MaxCounter(units, units[0].counter), MinCounter(units, units[0].counter);
        Extent(OpId(hi, units[0].peer), SaturatingSub(hi, lo) + 1)
    case MoveBlocks(id, blocks) =>
      var lo := if blocks == [] then id.counter else MinCounter(blocks, blocks[0].counter);
      Extent(id, SaturatingSub(id.counter, lo) + 1)
    case MergeBlocks(id, units) =>
      var hi := MaxReplaced(units, id.peer, id.counter);
      Extent(OpId(hi, id.peer), SaturatingSub(hi, id.counter) + 1)
    case Single(id) => Extent(id, 1)
  }

  function First(e: Extent): nat { SpanStart(e.top.counter, e.span) }

  /** The extents, in commit order, are adjacent ranges that start at 1 and end just below `next`. */
  predicate Tiles(log: seq<Extent>, peer: PeerId, next: nat) {
    && (forall i :: 0 <= i < |log| ==> log[i].top.peer == peer && First(log[i]) <= log[i].top.counter)
    && (forall i :: 0 <= i < |log| ==> StartsNext(log, i))
    && next == if log == [] then 1 else log[|log| - 1].top.counter + 1
  }

  /** Range `i` starts where the one before it ends. */
  predicate StartsNext(log: seq<Extent>, i: nat)
    requires i < |log|
  {
    First(log[i]) == if i == 0 then 1 else log[i - 1].top.counter + 1
  }

  lemma TilesNext(log: seq<Extent>, peer: PeerId, next: nat, e: Extent)
    requires Tiles(log, peer, next) && e.top.peer == peer && First(e) == next && e.top.counter >= next
    ensures Tiles(log + [e], peer, e.top.counter + 1)
  {
    forall i | 0 <= i < |log| + 1 ensures StartsNext(log + [e], i) {
      assert i < |log| ==> StartsNext(log, i);
    }
  }

  /** Consecutive ids starting at `base`. */
  function Consecutive(peer: PeerId, base: nat, n: nat): seq<OpId> {
    seq(n, (i: nat) => OpId(base + i, peer))
  }

  lemma {:induction false} ConsecutiveBounds(ids: seq<OpId>, peer: PeerId, base: nat, lo: nat, hi: nat)
    requires ids == Consecutive(peer, base, |ids|) && lo <= base && hi + 1 >= base && hi + 1 <= base + 1
    ensures MinCounter(ids, lo) == lo
    ensures MaxCounter(ids, hi) == if ids == [] then hi else base + |ids| - 1
  {
    if ids != [] {
      assert ids[1..] == Consecutive(peer, base + 1, |ids| - 1);
      ConsecutiveBounds(ids[1..], peer, base + 1, lo, base);
    }
  }

  // ----- where the ids of an inserted block lie

  /** `x` is the counter of an id used when `kind` is expanded under `parent`. */
  ghost predicate Uses(kind: Skeleton, parent: OpId, x: nat)
    decreases kind
  {
    match kind
    case Text(graphemes) => parent.counter < x <= parent.counter + graphemes
    case Quote(children) => UsedByChildren(children, x)
    case List(items) => exists k :: 0 <= k < |items| && UsedByItem(items[k], x)
    case Leaf => false
  }

  ghost predicate UsedByChild(c: Child, x: nat)
    decreases c
  {
    c.id.counter == x || Uses(c.kind, c.id, x)
  }

  ghost predicate UsedByChildren(children: seq<Child>, x: nat)
    decreases children
  {
    exists k :: 0 <= k < |children| && UsedByChild(children[k], x)
  }

  ghost predicate UsedByItem(item: Item, x: nat)
    decreases item
  {
    item.id.counter == x || item.taskOp.counter == x || UsedByChildren(item.children, x)
  }

  /** No id of the expansion is above the highest counter. */
  lemma {:induction false} UsesBelow(kind: Skeleton, parent: OpId, x: nat)
    requires Uses(kind, parent, x)
    ensures x <= MaxCounterInKind(kind, parent)
    decreases kind
  {
    match kind
    case Text(_) =>
    case Quote(children) => ChildrenBelow(children, parent.counter, x);
    case List(items) => ItemsBelow(items, parent.counter, x);
    case Leaf =>
  }

  lemma {:induction false} ChildBelow(c: Child, x: nat)
    requires UsedByChild(c, x)
    ensures x <= MaxInChild(c)
    decreases c
  {
    if c.id.counter != x {
      UsesBelow(c.kind, c.id, x);
    }
  }

  lemma {:induction false} ChildrenBelow(children: seq<Child>, sofar: nat, x: nat)
    requires UsedByChildren(children, x)
    ensures x <= MaxInChildren(children, sofar)
    decreases children
  {
    var k :| 0 <= k < |children| && UsedByChild(children[k], x);
    var more := Max(sofar, MaxInChild(children[0]));
    if k == 0 {
      ChildBelow(children[0], x);
    } else {
      assert UsedByChild(children[1..][k - 1], x);
      ChildrenBelow(children[1..], more, x);
    }
  }

  lemma {:induction false} ItemsBelow(items: seq<Item>, sofar: nat, x: nat)
    requires exists k :: 0 <= k < |items| && UsedByItem(items[k], x)
    ensures x <= MaxInItems(items, sofar)
    decreases items
  {
    var k :| 0 <= k < |items| && UsedByItem(items[k], x);
    var more := Max(sofar, MaxInItem(items[0]));
    if k == 0 {
      var item := items[0];
      if UsedByChildren(item.children, x) {
        ChildrenBelow(item.children, Max(item.id.counter, item.taskOp.counter), x);
      }
      assert x <= MaxInItem(item);
    } else {
      assert UsedByItem(items[1..][k - 1], x);
      ItemsBelow(items[1..], more, x);
    }
  }

  /** The ids of an inserted block lie in its extent if and only if none of them is below the block's own. */
  lemma InsertCoversUsed(id: OpId, kind: Skeleton, x: nat)
    requires Uses(kind, id, x)
    ensures Inside(OperationExtent(InsertBlock(id, kind)), x) <==> x >= id.counter
  {
    UsesBelow(kind, id, x);
  }

  class Clock {
    const peer: PeerId
    var nextCounter: nat
    ghost var log: seq<Extent>

    ghost predicate Valid()
      reads this
    {
      Tiles(log, peer, nextCounter)
    }

    constructor (peer: PeerId)
      ensures Valid() && this.peer == peer && log == [] && nextCounter == 1
    {
      this.peer, nextCounter, log := peer, 1, [];
    }

    /** Log an operation and move the clock past its range. */
    method Commit(op: DocOp)
      requires Valid() && OperationExtent(op).top.peer == peer
      requires First(OperationExtent(op)) == nextCounter && OperationExtent(op).top.counter >= nextCounter
      modifies this
      ensures Valid() && log == old(log) + [OperationExtent(op)]
      ensures nextCounter == OperationExtent(op).top.counter + 1
    {
      var e := OperationExtent(op);
      TilesNext(log, peer, nextCounter, e);
      log := log + [e];
      nextCounter := e.top.counter + 1;
    }

    method CommitSingleId() returns (op: DocOp)
      requires Valid()
      modifies this
      ensures Valid() && log == old(log) + [OperationExtent(op)] && op == Single(OpId(old(nextCounter), peer))
    {
      op := Single(OpId(nextCounter, peer));
      Commit(op);
    }

    method InsertBlockIn(kind: Skeleton) returns (op: DocOp)
      requires Valid()
      modifies this
      ensures Valid() && log == old(log) + [OperationExtent(op)]
          && op == InsertBlock(OpId(old(nextCounter), peer), kind)
      ensures forall x: nat :: Uses(kind, op.id, x) ==>
          x < nextCounter && (Inside(OperationExtent(op), x) <==> x >= old(nextCounter))
    {
      op := InsertBlock(OpId(nextCounter, peer), kind);
      forall x: nat | Uses(kind, op.id, x) ensures Inside(OperationExtent(op), x) <==> x >= nextCounter {
        InsertCoversUsed(op.id, kind, x);
      }
      forall x: nat | Uses(kind, op.id, x) ensures x <= OperationExtent(op).top.counter {
        UsesBelow(kind, op.id, x);
      }
      Commit(op);
    }

    /** One id per grapheme; empty text is a no-op that leaves the clock alone. */
    method InsertTextUnits(graphemes: nat) returns (op: Option<DocOp>)
      requires Valid()
      modifies this
      ensures Valid() && (op.None? <==> graphemes == 0)
      ensures op.None? ==> unchanged(this)
      ensures op.Some? ==> op.value == InsertText(Consecutive(peer, old(nextCounter), graphemes))
      ensures op.Some? ==> log == old(log) + [OperationExtent(op.value)]
      ensures nextCounter == old(nextCounter) + graphemes
    {
      if graphemes == 0 {
        return None;
      }
      var counter, units := nextCounter, [];
      for i := 0 to graphemes
        invariant units == Consecutive(peer, nextCounter, i) && counter == nextCounter + i
      {
        units := units + [OpId(counter, peer)];
        counter := counter + 1;
      }
      ConsecutiveBounds(units, peer, nextCounter, nextCounter, nextCounter);
      Commit(InsertText(units));
      return Some(InsertText(units));
    }

    method MoveBlockIds(count: nat) returns (op: DocOp)
      requires Valid() && count > 0
      modifies this
      ensures Valid() && log == old(log) + [OperationExtent(op)]
      ensures op == MoveBlocks(OpId(old(nextCounter) + count - 1, peer), Consecutive(peer, old(nextCounter), count))
      ensures nextCounter == old(nextCounter) + count
    {
      var base := nextCounter;
      var blocks := [];
      for offset := 0 to count
        invariant blocks == Consecutive(peer, base, offset)
      {
        blocks := blocks + [OpId(base + offset, peer)];
      }
      ConsecutiveBounds(blocks, peer, base, base, base);
      op := MoveBlocks(blocks[|blocks| - 1], blocks);
      Commit(op);
    }

    /** Units whose id is taken in the left block get fresh ids after the action's own. */
    method MergeBlocksIn(sources: seq<OpId>, occupied: set<OpId>) returns (op: DocOp)
      requires Valid()
      requires forall id :: id in sources && id.peer == peer ==> id.counter < nextCounter
      modifies this
      ensures Valid() && log == old(log) + [OperationExtent(op)]
      ensures op.MergeBlocks? && op.id == OpId(old(nextCounter), peer) && |op.moved| == |sources|
      ensures forall i :: 0 <= i < |sources| ==>
        op.moved[i].source == sources[i] && (op.moved[i].id == sources[i] <==> sources[i] !in occupied)
      ensures forall i, j :: 0 <= i < j < |sources| && sources[i] in occupied && sources[j] in occupied ==>
        op.moved[i].id.counter < op.moved[j].id.counter
      ensures forall i :: 0 <= i < |sources| && sources[i] in occupied ==>
        op.moved[i].id.peer == peer && old(nextCounter) < op.moved[i].id.counter < nextCounter
    {
      var action := OpId(nextCounter, peer);
      var units := ReplaceOccupied(sources, occupied, action);
      op := MergeBlocks(action, units);
      Commit(op);
    }
  }

  method ReplaceOccupied(sources: seq<OpId>, occupied: set<OpId>, action: OpId) returns (units: seq<MovedUnit>)
    requires forall id :: id in sources && id.peer == action.peer ==> id.counter < action.counter
    ensures |units| == |sources|
    ensures forall i :: 0 <= i < |sources| ==>
      units[i].source == sources[i] && (units[i].id == sources[i] <==> sources[i] !in occupied)
    ensures forall i, j :: 0 <= i < j < |sources| && sources[i] in occupied && sources[j] in occupied ==>
      units[i].id.counter < units[j].id.counter
    ensures forall i :: 0 <= i < |sources| && sources[i] in occupied ==>
      units[i].id.peer == action.peer
          && action.counter < units[i].id.counter <= MaxReplaced(units, action.peer, action.counter)
  {
    var replacement := action.counter + 1;
    units := [];
    for i := 0 to |sources|
      invariant |units| == i && replacement > action.counter
      invariant forall j :: 0 <= j < i ==>
        units[j].source == sources[j] && (units[j].id == sources[j] <==> sources[j] !in occupied)
      invariant forall j :: 0 <= j < i && sources[j] in occupied ==>
        units[j].id.peer == action.peer && action.counter < units[j].id.counter < replacement
      invariant forall j, k :: 0 <= j < k < i && sources[j] in occupied && sources[k] in occupied ==>
        units[j].id.counter < units[k].id.counter
      invariant MaxReplaced(units, action.peer, action.counter) == replacement - 1
    {
      assert sources[i] in sources;
      var unit := if sources[i] in occupied
                  then MovedUnit(sources[i], OpId(replacement, action.peer))
                  else MovedUnit(sources[i], sources[i]);
      MaxReplacedAppend(units, unit, action.peer, action.counter);
      units := units + [unit];
      if sources[i] in occupied {
        replacement := replacement + 1;
      }
    }
  }

  lemma {:induction false} MaxReplacedAppend(units: seq<MovedUnit>, u: MovedUnit, peer: PeerId, sofar: nat)
    ensures MaxReplaced(units + [u], peer, sofar) ==
            if u.id != u.source && u.id.peer == peer then Max(MaxReplaced(units, peer, sofar), u.id.counter)
                else MaxReplaced(units, peer, sofar)
  {
    if units == [] {
      assert units + [u] == [u];
    } else {
      var first := units[0];
      assert (units + [u])[1..] == units[1..] + [u];
      MaxReplacedAppend(units[1..], u, peer, if first.id != first.source && first.id.peer == peer
          then Max(sofar, first.id.counter) else sofar);
    }
  }

  // ----- consequences

  predicate Inside(e: Extent, c: nat) {
    First(e) <= c <= e.top.counter
  }

  /** No gap and no overlap: every counter below the clock lies in exactly one operation's range. */
  lemma {:induction false} Partition(log: seq<Extent>, peer: PeerId, next: nat, c: nat) returns (i: nat)
    requires Tiles(log, peer, next) && 1 <= c < next
    ensures i < |log| && Inside(log[i], c)
    ensures forall j :: 0 <= j < |log| && Inside(log[j], c) ==> j == i
  {
    var k := |log| - 1;
    if c >= First(log[k]) {
      i := k;
      forall j | 0 <= j < k ensures log[j].top.counter < First(log[k]) {
        RangesAscend(log, peer, next, j, k);
      }
    } else {
      assert StartsNext(log, k);
      assert forall j :: 0 <= j < k ==> StartsNext(log, j) ==> StartsNext(log[..k], j);
      i := Partition(log[..k], peer, log[k - 1].top.counter + 1, c);
    }
  }

  lemma {:induction false} RangesAscend(log: seq<Extent>, peer: PeerId, next: nat, i: nat, j: nat)
    requires Tiles(log, peer, next) && i < j < |log|
    ensures log[i].top.counter < First(log[j])
  {
    assert StartsNext(log, j);
    if i + 1 < j {
      RangesAscend(log, peer, next, i, j - 1);
    }
  }

  /**
   * A session that commits under the clock: each operation takes exactly the extent the clock gives it, and is
   * logged and shown at once. Clock and session stay in step.
   */
  method CommitUnder<B>(clock: Clock, session: Sessions.Session<B>, op: DocOp, body: B, observing: bool)
    requires clock.Valid() && session.Valid() && session.OwnClock()
    requires clock.peer == session.peer && clock.nextCounter == session.nextCounter
    requires OperationExtent(op).top.peer == clock.peer && OperationExtent(op).top.counter >= clock.nextCounter
    requires First(OperationExtent(op)) == clock.nextCounter
    modifies clock, session, session.sync
    ensures clock.Valid() && session.Valid() && session.OwnClock() && clock.nextCounter == session.nextCounter
    ensures clock.log == old(clock.log) + [OperationExtent(op)]
    ensures session.document == old(session.document) + [OperationExtent(op).top]
    ensures OperationExtent(op).top in session.sync.delivered
    ensures session.sync.delivered[OperationExtent(op).top].span == OperationExtent(op).span
  {
    hide LogOk, Settled, Tiles, OperationExtent, Sessions.Tracks, Sessions.OwnLogged, Sessions.ShowsReady,
         Sessions.NoneAwaits, Sessions.SpansTrue;
    var e := OperationExtent(op);
    TakesCounters(op);
    var committed := session.CommitLocal(e.span, body, observing);
    clock.Commit(op);
  }

  lemma TakesCounters(op: DocOp)
    ensures OperationExtent(op).span > 0
  {
  }

  /** What the receiver has of the peer are some of its operations, with their true contents. */
  ghost predicate HoldsSome<P>(d: Deliveries<P>, log: seq<Extent>, payloads: seq<P>, peer: PeerId)
    requires |payloads| == |log|
  {
    forall id :: id in d && id.peer == peer ==>
      exists i :: 0 <= i < |log| && log[i].top == id && d[id] == Delivery(payloads[i], log[i].span)
  }

  /**
   * Delivered in commit order, no operation of the peer has to wait, whatever part of the peer's operations the
   * receiver already has, applied or buffered: each is applied once it has been handed over.
   */
  method ReceiveInOrder<P>(sync: SyncState<P>, log: seq<Extent>, payloads: seq<P>, peer: PeerId, ghost next: nat)
    requires Tiles(log, peer, next) && |payloads| == |log|
    requires sync.Valid() && Settled(sync.Value()) && HoldsSome(sync.delivered, log, payloads, peer)
    modifies sync`ops, sync`stateVector, sync`pending, sync`delivered, sync`order
    ensures sync.Valid() && Settled(sync.Value()) && Get(sync.stateVector, peer) == next - 1
    ensures forall i :: 0 <= i < |log| ==> log[i].top in sync.order
    ensures forall id :: id in sync.pending ==> id.peer != peer
  {
    hide LogOk, Settled, Tiles, HoldsSome;
    for i := 0 to |log|
      invariant sync.Valid() && Settled(sync.Value()) && HoldsSome(sync.delivered, log, payloads, peer)
      invariant i > 0 ==> log[i - 1].top.counter <= Get(sync.stateVector, peer)
      invariant forall j :: 0 <= j < i ==> log[j].top in sync.order
    {
      var id := log[i].top;
      TilesAt(log, peer, next, i);
      SameContent(sync.delivered, log, payloads, peer, next, i);
      ghost var before := sync.Value();
      var now := sync.Integrate(Operation(id, payloads[i]), log[i].span);
      Taken(before, sync.Value(), Operation(id, payloads[i]), log[i].span, now);
      HoldsMore(before.delivered, log, payloads, peer, i);
    }
    AllTaken(sync.Value(), log, payloads, peer, next);
  }

  lemma {:induction false} TilesAt(log: seq<Extent>, peer: PeerId, next: nat, i: nat)
    requires Tiles(log, peer, next) && i < |log|
    ensures log[i].top.peer == peer && First(log[i]) == if i == 0 then 1 else log[i - 1].top.counter + 1
  {
    assert StartsNext(log, i);
  }

  lemma SameContent<P>(d: Deliveries<P>, log: seq<Extent>, payloads: seq<P>, peer: PeerId, next: nat, i: nat)
    requires Tiles(log, peer, next) && i < |log| == |payloads| && HoldsSome(d, log, payloads, peer)
    ensures log[i].top in d ==> d[log[i].top] == Delivery(payloads[i], log[i].span)
  {
    hide Tiles;
    if log[i].top in d {
      TilesAt(log, peer, next, i);
      var j :| 0 <= j < |log| && log[j].top == log[i].top && d[log[i].top] == Delivery(payloads[j], log[j].span);
      if j < i {
        RangesAscend(log, peer, next, j, i);
      } else if i < j {
        RangesAscend(log, peer, next, i, j);
      }
    }
  }

  lemma HoldsMore<P>(d: Deliveries<P>, log: seq<Extent>, payloads: seq<P>, peer: PeerId, i: nat)
    requires i < |log| == |payloads| && HoldsSome(d, log, payloads, peer)
    ensures HoldsSome(d[log[i].top := Delivery(payloads[i], log[i].span)], log, payloads, peer)
  {
  }

  /** A ready operation is applied by the time it is integrated. */
  lemma Taken<P>(a: Log<P>, b: Log<P>, op: Operation<P>, span: nat, now: seq<OpId>)
    requires LogOk(b) && Settled(b) && Integrates(a, b, op, span, now) && LogOk(a)
    requires Ready(a.vector, op.id, span)
    ensures op.id in b.order && op.id.counter <= Get(b.vector, op.id.peer) && a.order <= b.order
    ensures b.delivered == a.delivered[op.id := Delivery(op.payload, span)]
  {
    hide LogOk;
    VectorGrows(a, b);
    InOneOrOther(b, op.id);
    assert Get(a.vector, op.id.peer) <= Get(b.vector, op.id.peer);
    ReadyIfApplied(b, op.id);
  }

  lemma InOneOrOther<P>(l: Log<P>, id: OpId)
    requires LogOk(l) && id in l.delivered
    ensures id in l.order || id in l.pending
    ensures id in l.order ==> id.counter <= Get(l.vector, id.peer)
  {
    assert id in l.order <==> id in AppliedIds(l.order);
    if id in l.order {
      FrontierBounds(l.order, id);
    }
  }

  lemma AllTaken<P>(l: Log<P>, log: seq<Extent>, payloads: seq<P>, peer: PeerId, next: nat)
    requires Tiles(log, peer, next) && |payloads| == |log| && LogOk(l) && HoldsSome(l.delivered, log, payloads, peer)
    requires forall j :: 0 <= j < |log| ==> log[j].top in l.order
    requires log != [] ==> log[|log| - 1].top.counter <= Get(l.vector, peer)
    ensures Get(l.vector, peer) == next - 1 && forall id :: id in l.pending ==> id.peer != peer
  {
    hide LogOk, HoldsSome;
    Sessions.OwnFrontier(l, peer);
    HeldIsBelow(l.delivered, log, payloads, peer, next, OpId(Get(l.vector, peer), peer));
    forall id | id in l.pending ensures id.peer != peer {
      ReadyIfApplied(l, id);
      if id.peer == peer {
        HeldIsBelow(l.delivered, log, payloads, peer, next, id);
      }
    }
  }

  lemma HeldIsBelow<P>(d: Deliveries<P>, log: seq<Extent>, payloads: seq<P>, peer: PeerId, next: nat, id: OpId)
    requires Tiles(log, peer, next) && |payloads| == |log| && HoldsSome(d, log, payloads, peer) && id.peer == peer
    ensures id in d ==> id.counter < next && exists i :: 0 <= i < |log| && log[i].top == id
  {
    if id in d {
      var i :| 0 <= i < |log| && log[i].top == id && d[id] == Delivery(payloads[i], log[i].span);
      if i < |log| - 1 {
        RangesAscend(log, peer, next, i, |log| - 1);
      }
    }
  }
}
