/**
 Rows and columns of a table that can be moved (src/doc/mod.rs `Table`). A move deletes the
 current placement of a logical row and inserts a new one; `move_row` and `move_column` are the
 same code, so one class models both, with `X` the data that travels with a placement.
 */
module TableAxis {
  import opened OpIds
  import opened TreeOrder
  import opened Rga
  import opened Sequences

  /** The logical id a row keeps across moves: an injective image of its inserting operation. */
  datatype LogicalId = FromOp(op: OpId)

  datatype Placement<+X> = Placement(id: LogicalId, elemId: OpId, deleted: bool, observed: StateVector, data: X)

  datatype PendingMove = PendingMove(logical: LogicalId, target: OpId, id: OpId, after: Option<OpId>,
      rightOrigin: Option<OpId>, observed: StateVector)

  // ----- the safety invariant, on what was delivered to the underlying sequence

  ghost predicate Live<X>(h: History<Placement<X>>, id: OpId) {
    id in h.links && id !in h.deleted
  }

  /** Each placement knows its own element id. */
  ghost predicate SelfKnown<X>(h: History<Placement<X>>) {
    forall id :: id in h.links ==> h.values[id].elemId == id
  }

  /** A logical id has at most one live placement, listed or buffered. */
  ghost predicate AtMostOne<X>(h: History<Placement<X>>) {
    forall a, b :: Live(h, a) && Live(h, b) && h.values[a].id == h.values[b].id ==> a == b
  }

  /** Only what was inserted can be placed. */
  ghost predicate Inserted<X>(h: History<Placement<X>>) {
    forall id :: Live(h, id) ==> h.values[id].id.op in h.links
  }

  ghost predicate Safe<X>(h: History<Placement<X>>) {
    SelfKnown(h) && AtMostOne(h) && Inserted(h)
  }

  lemma InsertSafe<X>(h: History<Placement<X>>, op: SequenceOp<Placement<X>>)
    requires Safe(h) && op.Insert? && op.value.id == FromOp(op.id) && op.value.elemId == op.id
    ensures Safe(Deliver(h, op))
  {
    var h' := Deliver(h, op);
    forall a, b | Live(h', a) && Live(h', b) && h'.values[a].id == h'.values[b].id ensures a == b {
      assert a != op.id ==> Live(h, a);
      assert b != op.id ==> Live(h, b);
    }
    forall id | Live(h', id) ensures h'.values[id].id.op in h'.links {
      assert id != op.id ==> Live(h, id);
    }
  }

  lemma DeleteSafe<X>(h: History<Placement<X>>, op: SequenceOp<Placement<X>>)
    requires Safe(h) && op.Delete?
    ensures Safe(Deliver(h, op))
  {
    assert forall id :: Live(Deliver(h, op), id) ==> Live(h, id);
  }

  lemma UpdateSafe<X>(h: History<Placement<X>>, id: OpId, value: Placement<X>)
    requires Safe(h) && Live(h, id) && value.id == h.values[id].id && value.elemId == h.values[id].elemId
    ensures Safe(h.(values := h.values[id := value], deleted := h.deleted - {id}))
    ensures h.deleted - {id} == h.deleted
  {
    var h' := h.(values := h.values[id := value], deleted := h.deleted - {id});
    assert forall x :: Live(h', x) ==> Live(h, x) && h'.values[x].id == h.values[x].id;
  }

  /** A placement that is struck as soon as it is made adds nothing live. */
  lemma LosingSafe<X>(h: History<Placement<X>>, op: SequenceOp<Placement<X>>)
    requires Safe(h) && op.Insert? && op.value.elemId == op.id && op.id !in h.links
    ensures var h' := Deliver(Deliver(h, op), Delete(op.id, op.id));
      Safe(h') && Grows(h, h') && SameLive(h, h') && h'.links.Keys == h.links.Keys + {op.id}
  {
    var h' := Deliver(Deliver(h, op), Delete(op.id, op.id));
    Placing(h, op, op.id, h');
    hide Deliver;
    assert forall id :: Live(h', id) ==> Live(h, id) && h'.values[id] == h.values[id];
  }

  ghost predicate SameLive<X>(h: History<Placement<X>>, h': History<Placement<X>>) {
    forall x :: Live(h', x) <==> Live(h, x)
  }

  /** One insert and one strike, in either order. */
  lemma Placing<X>(h: History<Placement<X>>, op: SequenceOp<Placement<X>>, struck: OpId, h': History<Placement<X>>)
    requires op.Insert? && op.id !in h.links
    requires h' == Deliver(Deliver(h, op), Delete(struck, op.id))
        || h' == Deliver(Deliver(h, Delete(struck, op.id)), op)
    ensures h'.links == h.links[op.id := Link(op.after, op.rightOrigin)]
    ensures h'.values == h.values[op.id := op.value] && h'.deleted == h.deleted + {struck}
    ensures Grows(h, h') && h'.links.Keys == h.links.Keys + {op.id}
  {
  }

  /** Striking the one live placement makes room for the next. */
  lemma WinningSafe<X>(h: History<Placement<X>>, current: OpId, op: SequenceOp<Placement<X>>)
    requires Safe(h) && Live(h, current) && op.Insert? && op.value.elemId == op.id
        && op.value.id == h.values[current].id
    requires op.id !in h.links
    ensures var h' := Deliver(Deliver(h, Delete(current, op.id)), op);
      Safe(h') && Grows(h, h') && h'.links.Keys == h.links.Keys + {op.id}
  {
    var h' := Deliver(Deliver(h, Delete(current, op.id)), op);
    Placing(h, op, current, h');
    hide Deliver;
    forall a | Live(h', a) && a != op.id ensures Live(h, a) && a != current && h'.values[a] == h.values[a] {
    }
  }

  /** The live placement of a logical id whose anchors have all arrived. */
  ghost predicate Current<X>(h: History<Placement<X>>, logical: LogicalId, c: OpId) {
    Live(h, c) && Rooted(h.links, c) && h.values[c].id == logical
  }

  ghost function CurrentOf<X>(h: History<Placement<X>>, logical: LogicalId): (c: Option<OpId>)
    ensures c.Some? ==> Current(h, logical, c.value)
    ensures c.None? ==> forall x :: !Current(h, logical, x)
  {
    if exists x :: Current(h, logical, x) then var x :| Current(h, logical, x); Some(x) else None
  }

  /** Whether an incoming move displaces `current`: the first move always does; later ones do when
      they observed it, or when neither observed the other and their id is greater. */
  predicate Wins<X>(current: Placement<X>, id: OpId, observed: StateVector) {
    var alreadyMoved := FromOp(current.elemId) != current.id;
    var incomingObservedCurrent := Get(observed, current.elemId.peer) >= current.elemId.counter;
    var currentObservedIncoming := Get(current.observed, id.peer) >= id.counter;
    !(alreadyMoved && !incomingObservedCurrent && (currentObservedIncoming || !Less(current.elemId, id)))
  }

  /** What a winning move does to the history. */
  ghost function Replaced<X>(h: History<Placement<X>>, c: OpId, id: OpId, after: Option<OpId>,
          rightOrigin: Option<OpId>, observed: StateVector): History<Placement<X>>
    requires c in h.links
  {
    Deliver(Deliver(h, Delete(c, id)),
        SequenceOp.Insert(after, id, h.values[c].(elemId := id, observed := observed), rightOrigin))
  }

  /** A placement that is struck as soon as it is made. */
  ghost function PlacedAndStruck<X>(h: History<Placement<X>>, m: PendingMove, value: Placement<X>)
          : History<Placement<X>> {
    Deliver(Deliver(h, SequenceOp.Insert(m.after, m.id, value, m.rightOrigin)), Delete(m.id, m.id))
  }

  /** What an axis holds. */
  datatype State<X> = State(history: History<Placement<X>>, pending: seq<PendingMove>)

  ghost predicate Listed<X>(h: History<Placement<X>>, id: OpId) {
    id in h.links && Rooted(h.links, id)
  }

  /** The effect of a move: it waits for its target, replaces the current placement, or leaves a tombstone. */
  ghost function MoveStep<X>(s: State<X>, m: PendingMove, blank: X): State<X> {
    var c := CurrentOf(s.history, m.logical);
    if c.None? then
      if !Listed(s.history, m.target) then s.(pending := s.pending + [m])
      else s.(history := PlacedAndStruck(s.history, m, Placement(m.logical, m.id, true, m.observed, blank)))
    else
      var row := s.history.values[c.value];
      if Wins(row, m.id, m.observed)
      then s.(history := Replaced(s.history, c.value, m.id, m.after, m.rightOrigin, m.observed))
      else s.(history := PlacedAndStruck(s.history, m, row.(elemId := m.id)))
  }

  /** The effect of handing on waiting moves: those of `logical` run, the others wait on. */
  ghost function ResolveStep<X>(h: History<Placement<X>>, moves: seq<PendingMove>, logical: LogicalId, blank: X)
          : State<X> {
    if moves == [] then State(h, [])
    else
      var m, s := moves[|moves| - 1], ResolveStep(h, moves[..|moves| - 1], logical, blank);
      if m.logical == logical then MoveStep(s, m, blank) else s.(pending := s.pending + [m])
  }

  ghost function InsertMove(m: PendingMove, sorted: seq<PendingMove>): seq<PendingMove> {
    if sorted == [] || Less(m.id, sorted[0].id) then [m] + sorted else [sorted[0]] + InsertMove(m, sorted[1..])
  }

  /** Waiting moves in id order. */
  ghost function SortedMoves(moves: seq<PendingMove>): seq<PendingMove> {
    if moves == [] then [] else InsertMove(moves[0], SortedMoves(moves[1..]))
  }

  /** The effect of a row insert. */
  ghost function InsertStep<X>(s: State<X>, after: Option<OpId>, rightOrigin: Option<OpId>, id: OpId, data: X, blank: X)
          : State<X> {
    ResolveStep(Deliver(s.history, RowInsert(after, rightOrigin, id, data)), SortedMoves(s.pending), FromOp(id), blank)
  }

  /** A placement is marked and struck; one that is not listed is only struck. */
  ghost function RemovedAt<X>(h: History<Placement<X>>, target: OpId, id: OpId): History<Placement<X>> {
    var marked := if Listed(h, target) && target !in h.deleted
                  then h.(values := h.values[target := h.values[target].(deleted := true)]) else h;
    Deliver(marked, Delete(target, id))
  }

  /** The effect of removing a row: its current placement goes, or else the one that was named. */
  ghost function RemoveStep<X>(s: State<X>, logical: LogicalId, target: OpId, id: OpId): State<X> {
    var c := CurrentOf(s.history, logical);
    s.(history := RemovedAt(s.history, if c.Some? then c.value else target, id))
  }

  function RowInsert<X>(after: Option<OpId>, rightOrigin: Option<OpId>, id: OpId, data: X): SequenceOp<Placement<X>> {
    SequenceOp.Insert(after, id, Placement(FromOp(id), id, false, map[], data), rightOrigin)
  }

  /** Nothing delivered is forgotten and nothing struck revives. */
  ghost predicate Grows<X>(h: History<Placement<X>>, h': History<Placement<X>>) {
    && (forall id :: id in h.links ==> id in h'.links && h'.links[id] == h.links[id] && h'.values[id] == h.values[id])
    && h.deleted <= h'.deleted && h.strikes <= h'.strikes
  }

  lemma KeepsGrowing<X>(a: History<Placement<X>>, b: History<Placement<X>>, c: History<Placement<X>>)
    requires Grows(a, b) && Grows(b, c)
    ensures Grows(a, c) && b.links.Keys <= c.links.Keys
  {
  }

  lemma StaysSame<X>(h: History<Placement<X>>)
    ensures Grows(h, h) && SameLive(h, h)
  {
  }

  /** With one live placement at most, the one that was found is the only current one. */
  lemma AsCurrent<X>(h: History<Placement<X>>, logical: LogicalId, found: Option<Placement<X>>)
    requires Safe(h)
    requires found.Some? ==> Current(h, logical, found.value.elemId) && h.values[found.value.elemId] == found.value
    requires found.None? ==> forall c :: !Current(h, logical, c)
    ensures CurrentOf(h, logical) == if found.Some? then Some(found.value.elemId) else None
    ensures found.Some? ==> Live(h, found.value.elemId)
    ensures forall c :: Current(h, logical, c) ==> found.Some? && c == found.value.elemId
  {
  }

  // ----- moves that wait for their row

  ghost predicate FreshMoves(links: Links, moves: seq<PendingMove>) {
    && (forall i :: 0 <= i < |moves| ==> moves[i].id !in links)
    && (forall i, j :: 0 <= i < j < |moves| ==> moves[i].id != moves[j].id)
  }

  ghost function MoveIds(moves: seq<PendingMove>): set<OpId> {
    set m | m in moves :: m.id
  }

  /** The first `k` of `moves` are dealt with; `waiting` holds those that wait on. */
  ghost predicate Resolving(links0: set<OpId>, links: set<OpId>, moves: seq<PendingMove>, k: nat,
          waiting: seq<PendingMove>, logical: LogicalId) {
    && k <= |moves| && links <= links0 + MoveIds(moves)
    && (forall m :: m in waiting ==> m in moves)
    && (forall j :: 0 <= j < k ==> moves[j] in waiting || (moves[j].logical == logical && moves[j].id in links))
    && (forall j :: k <= j < |moves| ==> moves[j].id !in links)
    && (forall i, j :: 0 <= i < |waiting| && k <= j < |moves| ==> waiting[i].id != moves[j].id)
    && (forall i, j :: 0 <= i < j < |moves| ==> moves[i].id != moves[j].id)
  }

  lemma ResolveOne(links0: set<OpId>, links: Links, moves: seq<PendingMove>, k: nat, waiting: seq<PendingMove>,
          logical: LogicalId)
    requires k < |moves| && Resolving(links0, links.Keys, moves, k, waiting, logical) && FreshMoves(links, waiting)
    ensures moves[k].id !in links && forall i :: 0 <= i < |waiting| ==> waiting[i].id != moves[k].id
    ensures FreshMoves(links, waiting + [moves[k]])
  {
  }

  lemma ResolvedNext(links0: set<OpId>, was: set<OpId>, links: set<OpId>, moves: seq<PendingMove>, k: nat,
          waiting: seq<PendingMove>, waiting': seq<PendingMove>, logical: LogicalId)
    requires k < |moves| && Resolving(links0, was, moves, k, waiting, logical) && was <= links <= was + {moves[k].id}
    requires waiting' == waiting + [moves[k]]
        || (waiting' == waiting && moves[k].logical == logical && moves[k].id in links)
    ensures Resolving(links0, links, moves, k + 1, waiting', logical)
  {
    assert moves[k] in moves && moves[k].id in MoveIds(moves);
    assert forall m :: m in waiting' ==> m in waiting || m == moves[k];
    assert forall m :: m in waiting ==> m in waiting';
    assert waiting' != waiting ==> waiting'[|waiting|] == moves[k];
  }

  lemma Resolved(links0: set<OpId>, links: set<OpId>, moves: seq<PendingMove>, waiting: seq<PendingMove>,
          was: seq<PendingMove>, logical: LogicalId)
    requires Resolving(links0, links, moves, |moves|, waiting, logical) && forall m :: m in moves <==> m in was
    ensures links <= links0 + MoveIds(was)
    ensures forall m :: m in waiting ==> m in was
    ensures forall m :: m in was ==> m in waiting || (m.logical == logical && m.id in links)
  {
    assert MoveIds(moves) == MoveIds(was);
  }

  /** The operation `id` has struck some placement. */
  ghost predicate StruckBy<X>(h: History<Placement<X>>, id: OpId) {
    exists t :: (t, id) in h.strikes
  }

  class Axis<X> {
    const items: Sequence<Placement<X>>
    /** The data of a placement made for a row that is not live. */
    const blank: X
    var pendingMoves: seq<PendingMove>

    ghost predicate Valid()
      reads this, items
    {
      items.Valid() && Safe(items.history) && FreshMoves(items.history.links, pendingMoves)
    }

    /** Operations reach the table once each, under ids of their own. */
    ghost predicate FreshId(id: OpId)
      reads this, items
    {
      id !in items.history.links && forall i :: 0 <= i < |pendingMoves| ==> pendingMoves[i].id != id
    }

    constructor (incremental: bool, blank: X)
      ensures Valid() && fresh(items) && this.blank == blank && pendingMoves == []
          && items.history == History(map[], map[], {}, {})
    {
      items := new Sequence<Placement<X>>(incremental);
      this.blank := blank;
      pendingMoves := [];
    }

    ghost function Value(): State<X>
      reads this, items
    {
      State(items.history, pendingMoves)
    }

    /** The live listed placement of a logical id, if there is one. */
    method ById(logical: LogicalId) returns (found: Option<Placement<X>>)
      requires Valid()
      ensures found.Some? ==>
        && Current(items.history, logical, found.value.elemId)
        && items.history.values[found.value.elemId] == found.value
      ensures found.None? ==> forall c :: !Current(items.history, logical, c)
    {
      hide InsertsKept, DeletesKept, StrikesKept, Sorted, Placed, AtMostOne, Inserted, Rooted;
      items.ShowsCanonical();
      for i := 0 to |items.elements|
        invariant forall j :: 0 <= j < i && items.elements[j].value.Some? ==>
            items.elements[j].value.value.id != logical
      {
        var e := items.elements[i];
        if e.value.Some? && e.value.value.id == logical {
          assert Ids(items.elements)[i] == e.id;
          return Some(e.value.value);
        }
      }
      forall c | Live(items.history, c) && c in items.index ensures items.history.values[c].id != logical {
        assert items.elements[items.index[c]] == Shown(items.history, c);
      }
      return None;
    }

    /** Insert a row, then let the moves that were waiting for it run. */
    method Insert(after: Option<OpId>, rightOrigin: Option<OpId>, id: OpId, data: X)
      requires Valid() && FreshId(id)
      modifies this, items
      ensures Valid()
      ensures Value() == InsertStep(old(Value()), after, rightOrigin, id, data, blank)
      ensures Grows(Deliver(old(items.history), RowInsert(after, rightOrigin, id, data)), items.history)
      ensures items.history.links.Keys <= old(items.history.links.Keys) + {id} + MoveIds(old(pendingMoves))
      ensures forall m :: m in pendingMoves ==> m in old(pendingMoves)
      ensures forall m :: m in old(pendingMoves) ==>
        m in pendingMoves || (m.logical == FromOp(id) && m.id in items.history.links)
    {
      hide InsertsKept, DeletesKept, StrikesKept, Sorted, Placed, IndexOk, Safe, ResolveStep, SortedMoves;
      var op := RowInsert(after, rightOrigin, id, data);
      InsertSafe(items.history, op);
      items.Apply(op);
      ResolvePendingMoves(FromOp(id));
    }

    /** Move a logical row to a new placement `id`; a move that loses leaves only a tombstone, and one whose target
        is not there yet waits. */
    method Move(logical: LogicalId, target: OpId, id: OpId, after: Option<OpId>, rightOrigin: Option<OpId>,
            observed: StateVector)
      returns (moved: bool)
      requires Valid() && FreshId(id)
      modifies this, items
      ensures Valid()
      ensures Value() == MoveStep(old(Value()), PendingMove(logical, target, id, after, rightOrigin, observed), blank)
      ensures items.history.links.Keys <= old(items.history.links.Keys) + {id}
          && Grows(old(items.history), items.history)
      ensures (forall c :: !Current(old(items.history), logical, c)) && target !in old(items.index) ==>
        && items.history == old(items.history)
        && pendingMoves == old(pendingMoves) + [PendingMove(logical, target, id, after, rightOrigin, observed)]
      ensures (exists c :: Current(old(items.history), logical, c)) || target in old(items.index) ==>
        && pendingMoves == old(pendingMoves) && id in items.history.links
        && (Live(items.history, id) <==> moved && id !in old(items.history.deleted))
      ensures moved ==> exists c ::
        && Current(old(items.history), logical, c)
        && Wins(old(items.history).values[c], id, observed)
        && items.history == Replaced(old(items.history), c, id, after, rightOrigin, observed)
      ensures !moved ==> SameLive(old(items.history), items.history)
      ensures !moved ==> forall c :: Current(old(items.history), logical, c) ==>
          !Wins(old(items.history).values[c], id, observed)
    {
      hide InsertsKept, DeletesKept, StrikesKept, Sorted, Placed, IndexOk, Safe, Wins, Live, SameLive, Grows, Deliver,
           Current, Rooted;
      ghost var h := items.history;
      ghost var m := PendingMove(logical, target, id, after, rightOrigin, observed);
      StaysSame(h);
      items.ShowsCanonical();
      var found := ById(logical);
      AsCurrent(h, logical, found);
      if found.None? {
        if target !in items.index {
          pendingMoves := pendingMoves + [PendingMove(logical, target, id, after, rightOrigin, observed)];
        } else if id !in items.index {
          PlaceAndStrike(Placement(logical, id, true, observed, blank), id, after, rightOrigin, m);
        }
        return false;
      }
      var row := found.value;
      if !Wins(row, id, observed) {
        if id !in items.index {
          PlaceAndStrike(row.(elemId := id), id, after, rightOrigin, m);
        }
        return false;
      }
      Supersede(row, id, after, rightOrigin, observed);
      return true;
    }

    /** Strike the current placement and make the next one. */
    method Supersede(row: Placement<X>, id: OpId, after: Option<OpId>, rightOrigin: Option<OpId>, observed: StateVector)
      requires Valid() && FreshId(id) && Live(items.history, row.elemId) && items.history.values[row.elemId] == row
      modifies items
      ensures Valid() && Grows(old(items.history), items.history)
      ensures items.history.links.Keys == old(items.history.links.Keys) + {id}
      ensures items.history == Replaced(old(items.history), row.elemId, id, after, rightOrigin, observed)
      ensures Live(items.history, id) <==> id !in old(items.history.deleted)
    {
      hide InsertsKept, DeletesKept, StrikesKept, Sorted, Placed, IndexOk, Safe, Grows;
      var op := SequenceOp.Insert(after, id, row.(elemId := id, observed := observed), rightOrigin);
      WinningSafe(items.history, row.elemId, op);
      items.Apply(Delete(row.elemId, id));
      items.Apply(op);
    }

    /** Make a placement and strike it at once. */
    method PlaceAndStrike(value: Placement<X>, id: OpId, after: Option<OpId>, rightOrigin: Option<OpId>,
            ghost m: PendingMove)
      requires Valid() && FreshId(id) && value.elemId == id
      requires m.id == id && m.after == after && m.rightOrigin == rightOrigin
      modifies items
      ensures Valid() && items.history == PlacedAndStruck(old(items.history), m, value)
      ensures items.history.links.Keys == old(items.history.links.Keys) + {id}
          && Grows(old(items.history), items.history)
      ensures SameLive(old(items.history), items.history) && !Live(items.history, id)
    {
      hide InsertsKept, DeletesKept, StrikesKept, Sorted, Placed, IndexOk, Safe, Grows, SameLive;
      var op := SequenceOp.Insert(after, id, value, rightOrigin);
      LosingSafe(items.history, op);
      items.Apply(op);
      items.Apply(Delete(id, id));
    }

    /** Run, in id order, the moves that were waiting for `logical`; the others keep waiting. */
    method ResolvePendingMoves(logical: LogicalId)
      requires Valid()
      modifies this, items
      ensures Valid() && Grows(old(items.history), items.history)
      ensures Value() == ResolveStep(old(items.history), SortedMoves(old(pendingMoves)), logical, blank)
      ensures items.history.links.Keys <= old(items.history.links.Keys) + MoveIds(old(pendingMoves))
      ensures forall m :: m in pendingMoves ==> m in old(pendingMoves)
      ensures forall m :: m in old(pendingMoves) ==>
        m in pendingMoves || (m.logical == logical && m.id in items.history.links)
    {
      hide InsertsKept, DeletesKept, StrikesKept, Sorted, Placed, IndexOk, Safe, Grows, Current, Wins, SameLive,
           FreshMoves, Resolving, Live, MoveStep, SortedMoves;
      var moves := SortMovesOf();
      ghost var links := items.history.links.Keys;
      StaysSame(items.history);
      pendingMoves := [];
      for k := 0 to |moves|
        invariant Valid() && Grows(old(items.history), items.history)
        invariant Resolving(links, items.history.links.Keys, moves, k, pendingMoves, logical)
        invariant Value() == ResolveStep(old(items.history), moves[..k], logical, blank)
      {
        var m := moves[k];
        ghost var before, waiting := items.history, pendingMoves;
        assert moves[..k + 1][..k] == moves[..k];
        ResolveOne(links, before.links, moves, k, waiting, logical);
        if m.logical == logical {
          var _ := Move(logical, m.target, m.id, m.after, m.rightOrigin, m.observed);
          KeepsGrowing(old(items.history), before, items.history);
        } else {
          pendingMoves := pendingMoves + [m];
        }
        ResolvedNext(links, before.links.Keys, items.history.links.Keys, moves, k, waiting, pendingMoves, logical);
      }
      assert moves[..|moves|] == moves;
      Resolved(links, items.history.links.Keys, moves, pendingMoves, old(pendingMoves), logical);
    }

    /** The waiting moves in id order. */
    method SortMovesOf() returns (moves: seq<PendingMove>)
      requires Valid()
      ensures moves == SortedMoves(pendingMoves)
      ensures forall m :: m in moves <==> m in pendingMoves
      ensures FreshMoves(items.history.links, [])
      ensures forall logical :: Resolving(items.history.links.Keys, items.history.links.Keys, moves, 0, [], logical)
    {
      hide InsertsKept, DeletesKept, StrikesKept, Sorted, Placed, IndexOk, Safe;
      moves := SortMoves(pendingMoves);
      assert forall j :: 0 <= j < |moves| ==> moves[j] in moves;
    }

    /** Remove a placement, marking its value first if it is live. */
    method Remove(target: OpId, id: OpId)
      requires Valid()
      modifies items
      ensures Valid() && target in items.history.deleted && (target, id) in items.history.strikes
      ensures items.history.links == old(items.history.links) && old(items.history.strikes) <= items.history.strikes
      ensures forall x :: Live(items.history, x) <==> x != target && old(Live(items.history, x))
      ensures items.history == RemovedAt(old(items.history), target, id)
    {
      hide InsertsKept, DeletesKept, StrikesKept, Sorted, Placed, Safe, Rooted;
      ghost var h := items.history;
      items.ShowsCanonical();
      if target in items.index && items.elements[items.index[target]].value.Some? {
        var row := items.elements[items.index[target]].value.value;
        assert Ids(items.elements)[items.index[target]] == target;
        UpdateSafe(h, target, row.(deleted := true));
        items.UpdateValue(target, row.(deleted := true));
      }
      DeleteSafe(items.history, Delete(target, id));
      items.Apply(Delete(target, id));
    }

    /** Remove a logical row wherever it now is. */
    method RemoveById(logical: LogicalId, target: OpId, id: OpId)
      requires Valid()
      modifies items
      ensures Valid() && items.history.links == old(items.history.links)
      ensures old(items.history.strikes) <= items.history.strikes && StruckBy(items.history, id)
      ensures forall c :: Current(old(items.history), logical, c) ==> !Live(items.history, c)
      ensures Value() == RemoveStep(old(Value()), logical, target, id)
    {
      hide InsertsKept, DeletesKept, StrikesKept, Sorted, Placed, IndexOk, Rooted, Current;
      var found := ById(logical);
      AsCurrent(items.history, logical, found);
      Remove(if found.Some? then found.value.elemId else target, id);
    }

    /** The safety property itself: the list never shows one logical row twice. */
    lemma ShowsEachOnce()
      requires Valid()
      ensures EachOnce(items.elements)
    {
      hide InsertsKept, DeletesKept, StrikesKept, Sorted, Placed;
      items.ShowsCanonical();
      var ids := Ids(items.elements);
      forall i, j | 0 <= i < j < |ids| && items.elements[i].value.Some? && items.elements[j].value.Some?
        ensures items.elements[i].value.value.id != items.elements[j].value.value.id
      {
        assert ids[i] in ids && ids[j] in ids;
        assert Live(items.history, ids[i]) && Live(items.history, ids[j]);
        assert items.index[ids[i]] == i && items.index[ids[j]] == j;
      }
    }
  }

  /** No two listed placements that are not tombstones have the same logical id. */
  ghost predicate EachOnce<X>(elements: seq<Element<Placement<X>>>) {
    forall i, j :: 0 <= i < j < |elements| && elements[i].value.Some? && elements[j].value.Some? ==>
      elements[i].value.value.id != elements[j].value.value.id
  }

  // ----- whole runs

  datatype AxisOp<+X> =
    | Insert(id: OpId, after: Option<OpId>, rightOrigin: Option<OpId>, data: X)
    | Move(id: OpId, logical: LogicalId, target: OpId, after: Option<OpId>, rightOrigin: Option<OpId>,
        observed: StateVector)
    | Remove(id: OpId, logical: LogicalId, target: OpId)

  ghost function OpIdsOf<X>(ops: seq<AxisOp<X>>): set<OpId> {
    set op | op in ops :: op.id
  }

  /** Ids in the axis come from the operations applied so far. */
  ghost predicate UsesOnly<X>(h: History<Placement<X>>, moves: seq<PendingMove>, used: set<OpId>) {
    h.links.Keys <= used && MoveIds(moves) <= used
  }

  /** The operation took effect: an insert is recorded, a move is placed or waits, a removal struck something. */
  ghost predicate TakenUp<X>(op: AxisOp<X>, h: History<Placement<X>>, moves: seq<PendingMove>) {
    match op
    case Insert(id, after, rightOrigin, _) => id in h.links && h.links[id] == Link(after, rightOrigin)
    case Move(id, logical, target, after, rightOrigin, observed) =>
      id in h.links || PendingMove(logical, target, id, after, rightOrigin, observed) in moves
    case Remove(id, _, _) => StruckBy(h, id)
  }

  lemma StaysTakenUp<X>(op: AxisOp<X>, h: History<Placement<X>>, moves: seq<PendingMove>, h': History<Placement<X>>,
          moves': seq<PendingMove>)
    requires TakenUp(op, h, moves) && h.strikes <= h'.strikes
    requires forall id :: id in h.links ==> id in h'.links && h'.links[id] == h.links[id]
    requires forall m :: m in moves ==> m in moves' || m.id in h'.links
    ensures TakenUp(op, h', moves')
  {
    if op.Remove? {
      var t :| (t, op.id) in h.strikes;
      assert (t, op.id) in h'.strikes;
    }
  }

  lemma GrowsLinks<X>(h: History<Placement<X>>, h': History<Placement<X>>)
    requires Grows(h, h')
    ensures h.strikes <= h'.strikes && forall id :: id in h.links ==> id in h'.links && h'.links[id] == h.links[id]
  {
  }

  /** The effect of a whole run. */
  ghost function RunOf<X>(ops: seq<AxisOp<X>>, blank: X): State<X> {
    if ops == [] then State(History(map[], map[], {}, {}), [])
    else Step(RunOf(ops[..|ops| - 1], blank), ops[|ops| - 1], blank)
  }

  ghost function Step<X>(s: State<X>, op: AxisOp<X>, blank: X): State<X> {
    match op
    case Insert(id, after, rightOrigin, data) => InsertStep(s, after, rightOrigin, id, data, blank)
    case Move(id, logical, target, after, rightOrigin, observed) =>
      MoveStep(s, PendingMove(logical, target, id, after, rightOrigin, observed), blank)
    case Remove(id, logical, target) => RemoveStep(s, logical, target, id)
  }

  /**
   * At most one live placement, over every run: whatever rows are inserted, moved and removed, in
   * whatever order, each under an id of its own, no logical row is ever shown or buffered live twice.
   */
  method RunAxis<X>(ops: seq<AxisOp<X>>, incremental: bool, blank: X) returns (axis: Axis<X>)
    requires forall i, j :: 0 <= i < j < |ops| ==> ops[i].id != ops[j].id
    ensures axis.Valid() && AtMostOne(axis.items.history)
    ensures EachOnce(axis.items.elements)
    ensures forall op :: op in ops ==> TakenUp(op, axis.items.history, axis.pendingMoves)
    ensures axis.Value() == RunOf(ops, blank)
  {
    hide InsertsKept, DeletesKept, StrikesKept, Sorted, Placed, IndexOk, EachOnce, FreshMoves, TakenUp, Step, UsesOnly,
         OpIdsOf, AtMostOne, Inserted, SelfKnown;
    axis := new Axis<X>(incremental, blank);
    NothingRun<X>(blank);
    for k := 0 to |ops|
      invariant fresh(axis) && fresh(axis.items) && axis.blank == blank && axis.Valid()
      invariant Reached(axis.Value(), ops[..k], blank)
    {
      hide Safe;
      UsedNext(ops, k);
      ghost var before := axis.Value();
      RunOne(axis, ops[k], OpIdsOf(ops[..k]), ops[..k]);
      ReachedNext(before, axis.Value(), ops, k, blank);
    }
    assert ops[..|ops|] == ops;
    axis.ShowsEachOnce();
  }

  /** What the operations of a run have left in an axis. */
  ghost predicate Reached<X>(s: State<X>, ops: seq<AxisOp<X>>, blank: X) {
    && s == RunOf(ops, blank) && UsesOnly(s.history, s.pending, OpIdsOf(ops))
    && forall op :: op in ops ==> TakenUp(op, s.history, s.pending)
  }

  lemma NothingRun<X>(blank: X)
    ensures Reached(State(History(map[], map[], {}, {}), []), [], blank)
  {
  }

  lemma ReachedNext<X>(s: State<X>, s': State<X>, ops: seq<AxisOp<X>>, k: nat, blank: X)
    requires k < |ops| && Reached(s, ops[..k], blank) && s' == Step(s, ops[k], blank)
    requires UsesOnly(s'.history, s'.pending, OpIdsOf(ops[..k + 1]))
    requires forall o :: o in ops[..k] + [ops[k]] ==> TakenUp(o, s'.history, s'.pending)
    ensures Reached(s', ops[..k + 1], blank)
  {
    hide Step, UsesOnly, TakenUp;
    assert ops[..k + 1] == ops[..k] + [ops[k]] && ops[..k + 1][..k] == ops[..k];
  }

  method RunOne<X>(axis: Axis<X>, op: AxisOp<X>, ghost used: set<OpId>, ghost done: seq<AxisOp<X>>)
    requires axis.Valid() && UsesOnly(axis.items.history, axis.pendingMoves, used) && op.id !in used
    requires forall o :: o in done ==> TakenUp(o, axis.items.history, axis.pendingMoves)
    modifies axis, axis.items
    ensures axis.Valid() && UsesOnly(axis.items.history, axis.pendingMoves, used + {op.id})
    ensures forall o :: o in done + [op] ==> TakenUp(o, axis.items.history, axis.pendingMoves)
    ensures axis.Value() == Step(old(axis.Value()), op, axis.blank)
  {
    hide InsertsKept, DeletesKept, StrikesKept, Sorted, Placed, IndexOk, Safe, Grows, Current, Wins, SameLive, Live,
         FreshMoves, StruckBy, MoveStep, InsertStep, RemoveStep;
    ghost var moves, h := axis.pendingMoves, axis.items.history;
    IdsFresh(axis.pendingMoves, op.id, used);
    match op {
      case Insert(id, after, rightOrigin, data) =>
        axis.Insert(after, rightOrigin, id, data);
        FewerMoves(moves, axis.pendingMoves);
        InsertTaken(h, after, rightOrigin, id, data, axis.items.history);
      case Move(id, logical, target, after, rightOrigin, observed) =>
        var _ := axis.Move(logical, target, id, after, rightOrigin, observed);
        OneMoreMove(moves, PendingMove(logical, target, id, after, rightOrigin, observed));
        GrowsLinks(h, axis.items.history);
      case Remove(id, logical, target) =>
        axis.RemoveById(logical, target, id);
    }
    assert TakenUp(op, axis.items.history, axis.pendingMoves);
    forall o | o in done ensures TakenUp(o, axis.items.history, axis.pendingMoves) {
      StaysTakenUp(o, h, moves, axis.items.history, axis.pendingMoves);
    }
    hide TakenUp;
  }

  lemma InsertTaken<X>(h: History<Placement<X>>, after: Option<OpId>, rightOrigin: Option<OpId>, id: OpId, data: X,
          h': History<Placement<X>>)
    requires id !in h.links
    requires Grows(Deliver(h, RowInsert(after, rightOrigin, id, data)), h')
    ensures id in h'.links && h'.links[id] == Link(after, rightOrigin) && h.strikes <= h'.strikes
    ensures forall x :: x in h.links ==> x in h'.links && h'.links[x] == h.links[x]
  {
  }

  lemma IdsFresh(moves: seq<PendingMove>, id: OpId, used: set<OpId>)
    requires MoveIds(moves) <= used && id !in used
    ensures forall i :: 0 <= i < |moves| ==> moves[i].id != id
  {
    assert forall m :: m in moves ==> m.id in MoveIds(moves);
  }

  lemma FewerMoves(was: seq<PendingMove>, now: seq<PendingMove>)
    requires forall m :: m in now ==> m in was
    ensures MoveIds(now) <= MoveIds(was)
  {
  }

  lemma OneMoreMove(moves: seq<PendingMove>, m: PendingMove)
    ensures MoveIds(moves + [m]) == MoveIds(moves) + {m.id}
  {
    assert m in moves + [m];
  }

  lemma UsedNext<X>(ops: seq<AxisOp<X>>, k: nat)
    requires k < |ops| && forall i, j :: 0 <= i < j < |ops| ==> ops[i].id != ops[j].id
    ensures OpIdsOf(ops[..k + 1]) == OpIdsOf(ops[..k]) + {ops[k].id}
    ensures ops[k].id !in OpIdsOf(ops[..k])
  {
    assert ops[..k + 1] == ops[..k] + [ops[k]];
  }

  method SortMoves(moves: seq<PendingMove>) returns (sorted: seq<PendingMove>)
    requires forall i, j :: 0 <= i < j < |moves| ==> moves[i].id != moves[j].id
    ensures forall i, j :: 0 <= i < j < |sorted| ==> Less(sorted[i].id, sorted[j].id)
    ensures forall m :: m in sorted <==> m in moves
    ensures sorted == SortedMoves(moves)
  {
    hide SortedMoves;
    var byId: map<OpId, PendingMove> := map[];
    for i := 0 to |moves|
      invariant forall id :: id in byId ==> byId[id].id == id && byId[id] in moves[..i]
      invariant forall j :: 0 <= j < i ==> moves[j].id in byId && byId[moves[j].id] == moves[j]
    {
      assert moves[..i + 1] == moves[..i] + [moves[i]];
      byId := byId[moves[i].id := moves[i]];
    }
    var keys := SortedKeys(byId);
    sorted := seq(|keys|, i requires 0 <= i < |keys| && keys[i] in keys => byId[keys[i]]);
    forall m | m in moves ensures m in sorted {
      assert m.id in keys;
      var i :| 0 <= i < |keys| && keys[i] == m.id;
      assert sorted[i] == m;
    }
    forall m | m in sorted ensures m in moves {
      var i :| 0 <= i < |sorted| && sorted[i] == m;
      assert keys[i] in keys;
    }
    SortsAs(moves, sorted);
  }

  lemma SortsAs(moves: seq<PendingMove>, sorted: seq<PendingMove>)
    requires forall i, j :: 0 <= i < j < |moves| ==> moves[i].id != moves[j].id
    requires ById(sorted) && (forall m :: m in sorted ==> m in moves) && (forall m :: m in moves ==> m in sorted)
    ensures sorted == SortedMoves(moves)
  {
    SortedMovesSort(moves);
    MovesUnique(sorted, SortedMoves(moves));
  }

  ghost predicate ById(moves: seq<PendingMove>) {
    forall i, j :: 0 <= i < j < |moves| ==> Less(moves[i].id, moves[j].id)
  }

  lemma {:induction false} InsertMoveSorts(m: PendingMove, sorted: seq<PendingMove>)
    requires ById(sorted) && forall x :: x in sorted ==> x.id != m.id
    ensures ById(InsertMove(m, sorted)) && forall x :: x in InsertMove(m, sorted) <==> x in sorted || x == m
  {
    if sorted != [] && !Less(m.id, sorted[0].id) {
      InsertMoveSorts(m, sorted[1..]);
      assert sorted[0] in sorted && sorted == [sorted[0]] + sorted[1..];
      var rest := InsertMove(m, sorted[1..]);
      forall j | 0 <= j < |rest| ensures Less(sorted[0].id, rest[j].id) {
        assert rest[j] in rest;
      }
    }
  }

  lemma {:induction false} SortedMovesSort(moves: seq<PendingMove>)
    requires forall i, j :: 0 <= i < j < |moves| ==> moves[i].id != moves[j].id
    ensures ById(SortedMoves(moves)) && forall m :: m in SortedMoves(moves) <==> m in moves
  {
    if moves != [] {
      SortedMovesSort(moves[1..]);
      assert moves == [moves[0]] + moves[1..];
      InsertMoveSorts(moves[0], SortedMoves(moves[1..]));
    }
  }

  lemma {:induction false} MovesUnique(a: seq<PendingMove>, b: seq<PendingMove>)
    requires ById(a) && ById(b) && (forall m :: m in a ==> m in b) && (forall m :: m in b ==> m in a)
    ensures a == b
  {
    assert a != [] ==> a[0] in b;
    assert b != [] ==> b[0] in a;
    if a != [] {
      assert a[0] == b[0];
      forall m | m in a[1..] ensures m in b[1..] {
        assert m in b && m != a[0];
      }
      forall m | m in b[1..] ensures m in a[1..] {
        assert m in a && m != b[0];
      }
      MovesUnique(a[1..], b[1..]);
      assert a == [a[0]] + a[1..] && b == [b[0]] + b[1..];
    }
  }
}
