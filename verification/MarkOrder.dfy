/** Mark operations in any order: a mark set shows the latest write to each of its slots (src/core/mark.rs). */
module MarkOrder {
  import opened OpIds
  import opened Marks

  datatype MarkOp =
    | SetOp(id: OpId, kind: MarkKind, start: Anchor, end: Anchor, attrs: map<string, MarkValue>, opId: OpId)
    | RemoveOp(id: OpId, observed: StateVector, opId: OpId)

  /** What can be written independently: where and what a mark is, each attribute of it, and its removal. */
  datatype Slot = Header(id: OpId) | Attribute(id: OpId, name: string) | Removal(id: OpId)

  datatype Content = HeaderIs(kind: MarkKind, start: Anchor,
      end: Anchor) | AttributeIs(value: MarkValue) | RemovalIs(observed: StateVector)

  predicate Writes(op: MarkOp, slot: Slot) {
    op.id == slot.id && match slot
      case Header(_) => op.SetOp?
      case Attribute(_, name) => op.SetOp? && name in op.attrs
      case Removal(_) => op.RemoveOp?
  }

  function Written(op: MarkOp, slot: Slot): Content
    requires Writes(op, slot)
  {
    match slot
    case Header(_) => HeaderIs(op.kind, op.start, op.end)
    case Attribute(_, name) => AttributeIs(op.attrs[name])
    case Removal(_) => RemovalIs(op.observed)
  }

  /** What a mark set holds in a slot, and the operation it came from. */
  function Held(intervals: Intervals, removes: Removes, slot: Slot): Option<(Content, OpId)> {
    match slot
    case Header(id) =>
      if id in intervals then Some((HeaderIs(intervals[id].kind, intervals[id].start, intervals[id].end),
          intervals[id].opId)) else None
    case Attribute(id, name) =>
      if id in intervals && name in intervals[id].attrs
      then Some((AttributeIs(intervals[id].attrs[name].value), intervals[id].attrs[name].opId)) else None
    case Removal(id) => if id in removes then Some((RemovalIs(removes[id].observed), removes[id].opId)) else None
  }

  /** One operation id names one operation. */
  ghost predicate OneContent(ops: seq<MarkOp>) {
    forall x, y :: x in ops && y in ops && x.opId == y.opId ==> x == y
  }

  /** No operation that writes the slot is later. */
  ghost predicate Latest(ops: seq<MarkOp>, slot: Slot, op: MarkOp) {
    op in ops && Writes(op, slot) && forall y :: y in ops && Writes(y, slot) ==> !Less(op.opId, y.opId)
  }

  ghost predicate SlotOk(ops: seq<MarkOp>, slot: Slot, held: Option<(Content, OpId)>) {
    match held
    case None => forall y :: y in ops ==> !Writes(y, slot)
    case Some((content, opId)) => exists op :: Latest(ops, slot, op) && content == Written(op, slot) && opId == op.opId
  }

  /** Every slot holds its latest write, and nothing else is there. */
  ghost predicate Reflects(ops: seq<MarkOp>, intervals: Intervals, removes: Removes) {
    && (forall slot :: SlotOk(ops, slot, Held(intervals, removes, slot)))
    && forall id :: id in intervals ==> intervals[id].id == id
  }

  /** Slots hold the same operation's write whenever the same operations were applied. */
  lemma SlotUnique(ops: seq<MarkOp>, others: seq<MarkOp>, slot: Slot, a: Option<(Content, OpId)>,
          b: Option<(Content, OpId)>)
    requires OneContent(ops) && (forall op :: op in ops <==> op in others) && SlotOk(ops, slot, a)
        && SlotOk(others, slot, b)
    ensures a == b
  {
    if a.Some? && b.Some? {
      var x :| Latest(ops, slot, x) && a.value.0 == Written(x, slot) && a.value.1 == x.opId;
      var y :| Latest(others, slot, y) && b.value.0 == Written(y, slot) && b.value.1 == y.opId;
      assert x.opId == y.opId;
    }
  }

  /** Order independence: the set of operations decides every interval, attribute and removal. */
  lemma ReflectsUnique(ops: seq<MarkOp>, others: seq<MarkOp>, intervals: Intervals, removes: Removes,
          intervals': Intervals, removes': Removes)
    requires OneContent(ops) && (forall op :: op in ops <==> op in others)
    requires Reflects(ops, intervals, removes) && Reflects(others, intervals', removes')
    ensures intervals == intervals' && removes == removes'
  {
    hide SlotOk, OneContent;
    forall slot ensures Held(intervals, removes, slot) == Held(intervals', removes', slot) {
      SlotUnique(ops, others, slot, Held(intervals, removes, slot), Held(intervals', removes', slot));
    }
    SameSlots(intervals, removes, intervals', removes');
  }

  lemma SameSlots(intervals: Intervals, removes: Removes, intervals': Intervals, removes': Removes)
    requires forall slot :: Held(intervals, removes, slot) == Held(intervals', removes', slot)
    requires (forall id :: id in intervals ==> intervals[id].id == id) && forall id :: id in intervals' ==>
        intervals'[id].id == id
    ensures intervals == intervals' && removes == removes'
  {
    forall id
      ensures id in intervals <==> id in intervals'
      ensures id in intervals && id in intervals' ==> intervals[id] == intervals'[id]
      ensures id in removes <==> id in removes'
      ensures id in removes && id in removes' ==> removes[id] == removes'[id]
    {
      assert Held(intervals, removes, Header(id)) == Held(intervals', removes', Header(id));
      assert Held(intervals, removes, Removal(id)) == Held(intervals', removes', Removal(id));
      if id in intervals && id in intervals' {
        SameAttrs(intervals, removes, intervals', removes', id);
      }
    }
  }

  lemma SameAttrs(intervals: Intervals, removes: Removes, intervals': Intervals, removes': Removes, id: OpId)
    requires forall slot :: Held(intervals, removes, slot) == Held(intervals', removes', slot)
    requires id in intervals && id in intervals'
    ensures intervals[id].attrs == intervals'[id].attrs
  {
    forall name
      ensures name in intervals[id].attrs <==> name in intervals'[id].attrs
      ensures name in intervals[id].attrs && name in intervals'[id].attrs ==>
          intervals[id].attrs[name] == intervals'[id].attrs[name]
    {
      assert Held(intervals, removes, Attribute(id, name)) == Held(intervals', removes', Attribute(id, name));
    }
  }

  /** A mark shows exactly if it was set and the latest removal of it, if any, had not seen it. */
  lemma ActiveByOps(ops: seq<MarkOp>, intervals: Intervals, removes: Removes, id: OpId)
    requires OneContent(ops) && Reflects(ops, intervals, removes)
    ensures IsActive(intervals, removes, id) <==>
      && (exists op :: op in ops && op.SetOp? && op.id == id)
      && (forall op :: Latest(ops, Removal(id), op) && op.RemoveOp? ==> Get(op.observed, id.peer) < id.counter)
  {
    assert SlotOk(ops, Header(id), Held(intervals, removes, Header(id)));
    assert SlotOk(ops, Removal(id), Held(intervals, removes, Removal(id)));
    if id in intervals {
      var op :| Latest(ops, Header(id), op);
      assert op in ops && op.SetOp? && op.id == id;
    } else {
      assert forall op :: op in ops && op.SetOp? && op.id == id ==> Writes(op, Header(id));
    }
    if id in removes {
      var r :| Latest(ops, Removal(id), r) && removes[id].observed == r.observed && removes[id].opId == r.opId;
      forall op | Latest(ops, Removal(id), op) && op.RemoveOp? ensures op == r {
        assert op.opId == r.opId;
      }
    }
  }

  /** What one operation makes of one slot; of two writes with the same id either may stay, for they are one. */
  ghost predicate Steps(op: MarkOp, slot: Slot, was: Option<(Content, OpId)>, now: Option<(Content, OpId)>) {
    if !Writes(op, slot) then now == was
    else
      || (now == was && was.Some? && !Less(was.value.1, op.opId))
      || (now == Some((Written(op, slot), op.opId)) && (was.Some? ==> !Less(op.opId, was.value.1)))
  }

  lemma SlotNext(ops: seq<MarkOp>, op: MarkOp, slot: Slot, was: Option<(Content, OpId)>, now: Option<(Content, OpId)>)
    requires SlotOk(ops, slot, was) && Steps(op, slot, was, now)
    ensures SlotOk(ops + [op], slot, now)
  {
    var all := ops + [op];
    assert op in all && forall y :: y in all <==> y in ops || y == op;
    if was.Some? {
      var x :| Latest(ops, slot, x) && was.value.0 == Written(x, slot) && was.value.1 == x.opId;
      if Writes(op, slot) && now != was {
        assert Latest(all, slot, op);
      } else {
        assert now == was && Latest(all, slot, x);
      }
    } else if Writes(op, slot) {
      assert Latest(all, slot, op);
    }
  }

  /** Apply one operation. */
  method ApplyOp(marks: MarkSet, op: MarkOp, ghost ops: seq<MarkOp>)
    requires marks.Valid() && Reflects(ops, marks.intervals, marks.removes)
    modifies marks
    ensures marks.Valid() && Reflects(ops + [op], marks.intervals, marks.removes)
  {
    hide SlotOk;
    ghost var intervals, removes := marks.intervals, marks.removes;
    if op.SetOp? {
      marks.SetMark(op.id, op.kind, op.start, op.end, op.attrs, op.opId);
      forall slot ensures Steps(op, slot, Held(intervals, removes, slot), Held(marks.intervals, marks.removes, slot)) {
        SetSteps(intervals, removes, op, marks.intervals, slot);
      }
    } else {
      marks.Remove(op.id, op.observed, op.opId);
    }
    forall slot ensures SlotOk(ops + [op], slot, Held(marks.intervals, marks.removes, slot)) {
      SlotNext(ops, op, slot, Held(intervals, removes, slot), Held(marks.intervals, marks.removes, slot));
    }
  }

  lemma SetSteps(intervals: Intervals, removes: Removes, op: MarkOp, intervals': Intervals, slot: Slot)
    requires op.SetOp? && op.id in intervals' && intervals' == intervals[op.id := intervals'[op.id]]
    requires var m := intervals'[op.id];
      if op.id in intervals && Less(op.opId, intervals[op.id].opId)
      then m.(attrs := map[]) == intervals[op.id].(attrs := map[])
      else m.(attrs := map[]) == MarkInterval(op.id, op.kind, op.start, op.end, map[], op.opId)
    requires intervals'[op.id].attrs == MergeAttrs(if op.id in intervals then intervals[op.id].attrs
        else map[], op.attrs, op.opId)
    ensures Steps(op, slot, Held(intervals, removes, slot), Held(intervals', removes, slot))
  {
  }

  /** Apply all operations to a new set. */
  method ApplyAll(ops: seq<MarkOp>) returns (marks: MarkSet)
    ensures marks.Valid() && Reflects(ops, marks.intervals, marks.removes)
  {
    marks := new MarkSet();
    for i := 0 to |ops|
      invariant fresh(marks) && marks.Valid() && Reflects(ops[..i], marks.intervals, marks.removes)
    {
      assert ops[..i + 1] == ops[..i] + [ops[i]];
      ApplyOp(marks, ops[i], ops[..i]);
    }
    assert ops[..|ops|] == ops;
  }
}
