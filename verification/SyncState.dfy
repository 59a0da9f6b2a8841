/** The operation log of one replica (src/sync/mod.rs). */
module SyncStates {
  import opened OpIds
  import opened SyncLog

  const U64_MAX := 0xFFFF_FFFF_FFFF_FFFF

  datatype Operation<+P> = Operation(id: OpId, payload: P)

  datatype IntegrateResult = AlreadyPresent | Buffered | Applied

  datatype PeerLease = PeerLease(peer: PeerId, acknowledged: StateVector)

  datatype CheckpointResult =
    | Report(epoch: nat, pruned: nat, retained: nat, floor: StateVector)
    | DuplicatePeerLease(peer: PeerId)
    | RetentionBlocked(required: nat, eligible: nat)
    | EpochOverflow

  /** Every active lease has acknowledged `id`. */
  predicate Eligible(leases: seq<PeerLease>, id: OpId) {
    forall i :: 0 <= i < |leases| ==> Get(leases[i].acknowledged, id.peer) >= id.counter
  }

  predicate DistinctPeers(leases: seq<PeerLease>) {
    forall i, j :: 0 <= i < j < |leases| ==> leases[i].peer != leases[j].peer
  }

  /** The first peer, in lease order, that already had a lease. */
  ghost predicate RepeatedFirst(leases: seq<PeerLease>, peer: PeerId) {
    exists j :: 0 <= j < |leases| && leases[j].peer == peer && DistinctPeers(leases[..j])
        && !DistinctPeers(leases[..j + 1])
  }

  /** `delta` is what a peer at `since` still needs of `ops`, in id order. */
  ghost predicate IsDelta<P>(ops: map<OpId, P>, since: StateVector, delta: seq<Operation<P>>) {
    && (forall i, j :: 0 <= i < j < |delta| ==> Less(delta[i].id, delta[j].id))
    && (forall op :: op in delta ==> op.id in ops && op.payload == ops[op.id] && op.id.counter > Get(since, op.id.peer))
    && (forall id :: id in ops && id.counter > Get(since, id.peer) ==> Operation(id, ops[id]) in delta)
  }

  class SyncState<P> {
    var ops: map<OpId, P>
    var stateVector: StateVector
    var pending: map<OpId, Delivery<P>>
    var outbox: set<OpId>
    var sent: set<OpId>
    var checkpointEpoch: nat
    var deltaFloor: StateVector
    ghost var delivered: Deliveries<P>
    ghost var order: seq<OpId>

    ghost function Value(): Log<P>
      reads this
    {
      Log(ops, stateVector, pending, deltaFloor, delivered, order)
    }

    ghost predicate Valid()
      reads this
    {
      LogOk(Value())
    }

    constructor ()
      ensures Valid() && Settled(Value()) && Value() == Log(map[], map[], map[], map[], map[], [])
    {
      ops, stateVector, pending, outbox, sent := map[], map[], map[], {}, {};
      checkpointEpoch, deltaFloor := 0, map[];
      delivered, order := map[], [];
    }

    method Admit(id: OpId, payload: P)
      requires Valid() && id in delivered && delivered[id].payload == payload
      requires Ready(stateVector, id, delivered[id].span)
      modifies this`ops, this`stateVector, this`order, this`pending
      ensures Valid() && Value() == Admitted(old(Value()), id, payload)
    {
      hide LogOk;
      AdmitKeeps(Value(), id);
      pending := pending - {id};
      stateVector := Observe(stateVector, id);
      ops := ops[id := payload];
      order := order + [id];
    }

    method ApplyOne(op: Operation<P>, span: nat) returns (result: IntegrateResult)
      requires Valid()
      requires op.id in delivered ==> delivered[op.id] == Delivery(op.payload, span)
      modifies this`ops, this`stateVector, this`pending, this`delivered, this`order
      ensures Valid() && delivered == old(delivered)[op.id := Delivery(op.payload, span)]
      ensures result == AlreadyPresent <==> op.id in old(ops)
      ensures result == Buffered <==>
        op.id !in old(ops) && (op.id in old(pending) || !Ready(old(stateVector), op.id, span))
      ensures match result
        case AlreadyPresent => Value() == old(Value())
        case Buffered => Value() == Received(old(Value()), op.id, Delivery(op.payload, span))
        case Applied => Value() == Admitted(Received(old(Value()), op.id, Delivery(op.payload, span)), op.id,
            op.payload)
    {
      hide LogOk, SpanStart, Observe;
      ghost var d := Delivery(op.payload, span);
      ReceiveKeeps(Value(), op.id, d);
      ReadyIfApplied(Value(), op.id);
      if op.id in ops {
        assert delivered == delivered[op.id := d];
        return AlreadyPresent;
      }
      if op.id in pending {
        assert delivered == delivered[op.id := d] && pending == pending[op.id := d];
        return Buffered;
      }
      var start, frontier := SpanStart(op.id.counter, span), Get(stateVector, op.id.peer);
      delivered := delivered[op.id := d];
      if start > frontier + 1 {
        pending := pending[op.id := Delivery(op.payload, span)];
        return Buffered;
      }
      AdmitKeeps(Received(old(Value()), op.id, d), op.id);
      stateVector := Observe(stateVector, op.id);
      ops := ops[op.id := op.payload];
      order := order + [op.id];
      assert pending == Received(old(Value()), op.id, d).pending - {op.id};
      return Applied;
    }

    /** Log an operation of the own peer and queue it for sending; nothing is promoted. */
    method AddLocalOp(op: Operation<P>, ghost span: nat)
      requires Valid() && op.id !in delivered && Ready(stateVector, op.id, span)
      modifies this`ops, this`stateVector, this`outbox, this`delivered, this`order
      ensures Valid() && outbox == old(outbox) + {op.id}
      ensures Value() == Admitted(Received(old(Value()), op.id, Delivery(op.payload, span)), op.id, op.payload)
      ensures old(Settled(Value())) && (forall id :: id in pending ==> id.peer != op.id.peer) ==> Settled(Value())
    {
      hide LogOk;
      ghost var before, d := Value(), Delivery(op.payload, span);
      ReadyIfApplied(before, op.id);
      ReceiveKeeps(before, op.id, d);
      AdmitKeeps(Received(before, op.id, d), op.id);
      delivered := delivered[op.id := d];
      stateVector := Observe(stateVector, op.id);
      ops := ops[op.id := op.payload];
      outbox := outbox + {op.id};
      order := order + [op.id];
      assert pending == Received(before, op.id, d).pending - {op.id};
    }

    /** What was sent leaves the outbox. */
    method MarkSent(ids: seq<OpId>)
      modifies this`outbox, this`sent
      ensures outbox == old(outbox) - AppliedIds(ids)
      ensures sent == old(sent) + (old(outbox) * AppliedIds(ids))
    {
      for i := 0 to |ids|
        invariant outbox == old(outbox) - AppliedIds(ids[..i])
        invariant sent == old(sent) + (old(outbox) * AppliedIds(ids[..i]))
      {
        AppliedNext(ids, i);
        if ids[i] in outbox {
          outbox := outbox - {ids[i]};
          sent := sent + {ids[i]};
        }
      }
      assert ids[..|ids|] == ids;
    }

    /** Apply pending operations to a fixpoint; the promoted ones are returned in order. */
    method PromoteReadyPending() returns (promoted: seq<Operation<P>>)
      requires Valid()
      modifies this`ops, this`stateVector, this`pending, this`order
      ensures Valid() && Settled(Value())
      ensures Promotes(old(Value()), Value(), promoted)
    {
      hide LogOk;
      promoted := [];
      var madeProgress := true;
      while madeProgress
        invariant Valid() && (!madeProgress ==> Settled(Value()))
        invariant Promotes(old(Value()), Value(), promoted)
        decreases |pending|, madeProgress
      {
        madeProgress, promoted := PromoteRound(promoted, old(Value()));
      }
    }

    /** One pass over the pending ids, in id order. */
    method PromoteRound(sofar: seq<Operation<P>>, ghost from: Log<P>)
      returns (madeProgress: bool, promoted: seq<Operation<P>>)
      requires Valid() && Promotes(from, Value(), sofar)
      modifies this`ops, this`stateVector, this`pending, this`order
      ensures Valid() && Promotes(from, Value(), promoted)
      ensures if madeProgress then |pending| < |old(pending)| else pending == old(pending) && Settled(Value())
    {
      hide LogOk, Promotes, Ready;
      ghost var round := pending;
      var ids := SortedKeys(pending);
      madeProgress, promoted := false, sofar;
      for k := 0 to |ids|
        invariant Valid() && Promotes(from, Value(), promoted)
        invariant if madeProgress then |pending| < |round| else pending == round
        invariant forall j :: k <= j < |ids| ==> ids[j] in pending
        invariant !madeProgress ==> forall j :: 0 <= j < k ==>
          ids[j] in pending && !Ready(stateVector, ids[j], pending[ids[j]].span)
      {
        var id := ids[k];
        if Ready(stateVector, id, pending[id].span) {
          var payload := pending[id].payload;
          PromoteStep(from, Value(), promoted, id);
          Admit(id, payload);
          promoted := promoted + [Operation(id, payload)];
          madeProgress := true;
        }
      }
    }

    /** `apply_one` followed, when it applied, by `promote_ready_pending`. */
    method Integrate(op: Operation<P>, span: nat) returns (now: seq<OpId>)
      requires Valid() && Settled(Value())
      requires op.id in delivered ==> delivered[op.id] == Delivery(op.payload, span)
      modifies this`ops, this`stateVector, this`pending, this`delivered, this`order
      ensures Valid() && Settled(Value())
      ensures Integrates(old(Value()), Value(), op, span, now)
    {
      hide LogOk, Settled;
      ghost var before := Value();
      assert Settled(before);
      ReadyIfApplied(Value(), op.id);
      var result := ApplyOne(op, span);
      now := [];
      if result == Applied {
        ghost var mid := Value();
        var promoted := PromoteReadyPending();
        now := [op.id] + seq(|promoted|, i requires 0 <= i < |promoted| => promoted[i].id);
        PromotedIds(mid, Value(), promoted);
        AppliedIntegrates(before, mid, Value(), op, span, promoted);
      } else {
        NotAppliedIntegrates(before, Value(), op, span);
      }
    }

    /** Integrate a batch, promoting after every operation that is applied. */
    method ApplyChanges(batch: seq<(Operation<P>, nat)>) returns (applied: seq<OpId>, buffered: seq<OpId>)
      requires Valid() && Settled(Value()) && Agreeing(delivered, batch)
      modifies this`ops, this`stateVector, this`pending, this`delivered, this`order
      ensures Valid() && Settled(Value()) && deltaFloor == old(deltaFloor)
      ensures delivered == DeliverBatch(old(delivered), batch)
      ensures order == old(order) + applied && (old(Unpruned(Value())) ==> Unpruned(Value()))
      ensures forall id :: id in buffered <==> id in pending && Mentioned(batch, |batch|, id)
    {
      hide LogOk, Settled, Unpruned, Agreeing;
      applied, buffered := [], [];
      for i := 0 to |batch|
        invariant Valid() && Settled(Value()) && deltaFloor == old(deltaFloor)
        invariant delivered == DeliverBatch(old(delivered), batch[..i])
        invariant order == old(order) + applied && (old(Unpruned(Value())) ==> Unpruned(Value()))
        invariant forall id :: id in buffered <==> id in pending && Mentioned(batch, i, id)
      {
        assert batch[..i + 1][..i] == batch[..i];
        BatchAgrees(old(delivered), batch, i);
        MentionedNext(batch, i);
        var now := Integrate(batch[i].0, batch[i].1);
        applied := applied + now;
        buffered := Without(buffered, now) + if batch[i].0.id in pending then [batch[i].0.id] else [];
      }
      assert batch[..|batch|] == batch;
    }

    /** The operations a peer at `since` still needs, unless history it needs was pruned. */
    method EncodeChangesSince(since: StateVector) returns (r: DeltaResult<P>)
      ensures r.RebaseRequired? <==> exists p :: p in deltaFloor && Get(since, p) < deltaFloor[p]
      ensures r.RebaseRequired? ==> r.epoch == checkpointEpoch && r.floor == deltaFloor
      ensures r.Delta? ==> IsDelta(ops, since, r.ops) && Covers(since, deltaFloor)
    {
      if exists p | p in deltaFloor :: Get(since, p) < deltaFloor[p] {
        return RebaseRequired(checkpointEpoch, deltaFloor);
      }
      var out := Encode(ops, since);
      return Delta(out);
    }

    /** Prune the oldest acknowledged operations so that at most `maxRetained` stay. */
    method Checkpoint(maxRetained: nat, leases: seq<PeerLease>) returns (r: CheckpointResult)
      requires Valid()
      modifies this`ops, this`outbox, this`sent, this`deltaFloor, this`checkpointEpoch
      ensures Valid()
      ensures Decides(old(ops), old(checkpointEpoch), maxRetained, leases, r)
      ensures !r.Report? || |old(ops)| <= maxRetained ==> unchanged(this)
      ensures r.Report? ==>
        && PrunedSafely(old(ops), ops, old(deltaFloor), deltaFloor, leases)
        && |ops| == (if |old(ops)| <= maxRetained then |old(ops)| else maxRetained)
        && r == Report(checkpointEpoch, |old(ops)| - |ops|, |ops|, deltaFloor)
        && checkpointEpoch == old(checkpointEpoch) + (if |old(ops)| <= maxRetained then 0 else 1)
      ensures outbox == old(outbox) - (old(ops).Keys - ops.Keys) && sent == old(sent) - (old(ops).Keys - ops.Keys)
    {
      hide LogOk, PrunedSafely, EligibleIds, Eligible, DistinctPeers, SortedIds, RaiseFloor;
      var duplicate := FindDuplicate(leases);
      if duplicate.Some? {
        return DuplicatePeerLease(duplicate.value);
      }
      if |ops| <= maxRetained {
        NothingPruned(ops, deltaFloor, leases);
        return Report(checkpointEpoch, 0, |ops|, deltaFloor);
      }
      var required := |ops| - maxRetained;
      var eligible := SelectEligible(ops, leases);
      if |eligible| < required {
        return RetentionBlocked(required, |eligible|);
      }
      if checkpointEpoch >= U64_MAX {
        return EpochOverflow;
      }
      PrunesSafely(ops, eligible, required, deltaFloor, leases);
      SortedPrefix(eligible, required);
      PrunedSizes(ops, eligible[..required]);
      Prune(eligible[..required]);
      checkpointEpoch := checkpointEpoch + 1;
      return Report(checkpointEpoch, required, |ops|, deltaFloor);
    }

    method Prune(pruned: seq<OpId>)
      requires Valid() && forall id :: id in pruned ==> id in ops
      modifies this`ops, this`outbox, this`sent, this`deltaFloor
      ensures Valid() && ops == old(ops) - AppliedIds(pruned) && deltaFloor == RaiseFloor(old(deltaFloor), pruned)
      ensures outbox == old(outbox) - AppliedIds(pruned) && sent == old(sent) - AppliedIds(pruned)
    {
      hide LogOk;
      PruneKeeps(Value(), pruned);
      var i := 0;
      while i < |pruned|
        invariant 0 <= i <= |pruned|
        invariant ops == old(ops) - AppliedIds(pruned[..i])
        invariant outbox == old(outbox) - AppliedIds(pruned[..i]) && sent == old(sent) - AppliedIds(pruned[..i])
        invariant deltaFloor == RaiseFloor(old(deltaFloor), pruned[..i])
      {
        var id := pruned[i];
        assert pruned[..i + 1][..i] == pruned[..i];
        AppliedNext(pruned, i);
        ops := ops - {id};
        outbox := outbox - {id};
        sent := sent - {id};
        var floor := Raise(Get(deltaFloor, id.peer), id.peer, id);
        deltaFloor := deltaFloor[id.peer := floor];
        i := i + 1;
      }
      assert pruned[..|pruned|] == pruned;
    }
  }

  lemma SortedPrefix(ids: seq<OpId>, k: nat)
    requires SortedIds(ids) && k <= |ids|
    ensures SortedIds(ids[..k]) && forall id :: id in ids[..k] ==> id in ids
  {
  }

  lemma AppliedNext(ids: seq<OpId>, i: nat)
    requires i < |ids|
    ensures AppliedIds(ids[..i + 1]) == AppliedIds(ids[..i]) + {ids[i]}
  {
    assert ids[..i + 1] == ids[..i] + [ids[i]];
  }

  method Encode<P>(ops: map<OpId, P>, since: StateVector) returns (out: seq<Operation<P>>)
    ensures IsDelta(ops, since, out)
  {
    var keys := SortedKeys(ops);
    var ids := Above(keys, since);
    out := seq(|ids|, i requires 0 <= i < |ids| && ids[i] in ids => Operation(ids[i], ops[ids[i]]));
    forall id | id in ops && id.counter > Get(since, id.peer) ensures Operation(id, ops[id]) in out {
      var i :| 0 <= i < |ids| && ids[i] == id;
      assert out[i] == Operation(id, ops[id]);
    }
  }

  method Above(keys: seq<OpId>, since: StateVector) returns (ids: seq<OpId>)
    requires SortedIds(keys)
    ensures SortedIds(ids) && forall id :: id in ids <==> id in keys && id.counter > Get(since, id.peer)
  {
    ids := [];
    for i := 0 to |keys|
      invariant SortedIds(ids) && forall id :: id in ids <==> id in keys[..i] && id.counter > Get(since, id.peer)
    {
      assert keys[..i + 1] == keys[..i] + [keys[i]];
      assert forall j :: 0 <= j < |ids| ==> ids[j] in keys[..i];
      if keys[i].counter > Get(since, keys[i].peer) {
        ids := ids + [keys[i]];
      }
    }
    assert keys[..|keys|] == keys;
  }

  // ----- one step

  /** `now` lists what entered the log while `op` was integrated; everything else waits as before. */
  ghost predicate Integrates<P>(a: Log<P>, b: Log<P>, op: Operation<P>, span: nat, now: seq<OpId>) {
    && b.delivered == a.delivered[op.id := Delivery(op.payload, span)]
    && b.order == a.order + now && b.floor == a.floor
    && (Unpruned(a) ==> Unpruned(b))
    && (forall id :: id in b.pending <==> id !in now && (id in a.pending || (id == op.id && id !in a.ops)))
  }

  lemma NotAppliedIntegrates<P>(a: Log<P>, b: Log<P>, op: Operation<P>, span: nat)
    requires LogOk(a) && b.delivered == a.delivered[op.id := Delivery(op.payload, span)]
    requires if op.id in a.ops then b == a else op.id !in a.order && b == Received(a, op.id, Delivery(op.payload, span))
    requires Settled(a) && (op.id in a.ops || op.id in a.pending || !Ready(a.vector, op.id, span))
    requires op.id in a.delivered ==> a.delivered[op.id] == Delivery(op.payload, span)
    ensures Integrates(a, b, op, span, []) && Settled(b)
  {
    hide LogOk;
    ReadyIfApplied(a, op.id);
  }

  lemma AppliedIntegrates<P>(a: Log<P>, m: Log<P>, b: Log<P>, op: Operation<P>, span: nat, promoted: seq<Operation<P>>)
    requires LogOk(a) && op.id !in a.ops && op.id !in a.pending
    requires m == Admitted(Received(a, op.id, Delivery(op.payload, span)), op.id, op.payload)
    requires Promotes(m, b, promoted)
    ensures Integrates(a, b, op, span, [op.id] + seq(|promoted|, i requires 0 <= i < |promoted| => promoted[i].id))
  {
    hide LogOk, Promotes, Unpruned;
    PromotedIds(m, b, promoted);
    PromotedLog(m, b, promoted);
    AdmitsUnpruned(a, op, span, m);
    assert m.pending == a.pending;
    PendingAfter(m.pending, b.pending, op.id, seq(|promoted|, i requires 0 <= i < |promoted| => promoted[i].id));
  }

  /** Promotion appends to the order and touches neither deliveries nor floor. */
  lemma PromotedLog<P>(m: Log<P>, b: Log<P>, promoted: seq<Operation<P>>)
    requires Promotes(m, b, promoted)
    ensures b.order == m.order + seq(|promoted|, i requires 0 <= i < |promoted| => promoted[i].id)
    ensures b.delivered == m.delivered && b.floor == m.floor && b.pending.Keys <= m.pending.Keys
  {
  }

  lemma AdmitsUnpruned<P>(a: Log<P>, op: Operation<P>, span: nat, m: Log<P>)
    requires m == Admitted(Received(a, op.id, Delivery(op.payload, span)), op.id, op.payload)
    ensures Unpruned(a) ==> Unpruned(m)
  {
  }

  /** What waits after an operation was applied: what waited before and was not promoted. */
  lemma PendingAfter<P>(was: Deliveries<P>, now: Deliveries<P>, id: OpId, ids: seq<OpId>)
    requires now.Keys <= was.Keys && id !in was && forall x :: x in ids <==> x in was && x !in now
    ensures forall x :: x in now <==> x !in [id] + ids && (x in was || x == id)
  {
  }

  datatype DeltaResult<+P> = Delta(ops: seq<Operation<P>>) | RebaseRequired(epoch: nat, floor: StateVector)

  // ----- batches

  ghost predicate Agreeing<P>(d: Deliveries<P>, batch: seq<(Operation<P>, nat)>) {
    && (forall i :: 0 <= i < |batch| && batch[i].0.id in d ==>
        d[batch[i].0.id] == Delivery(batch[i].0.payload, batch[i].1))
    && (forall i, j :: 0 <= i < j < |batch| && batch[i].0.id == batch[j].0.id ==> batch[i] == batch[j])
  }

  ghost function DeliverBatch<P>(d: Deliveries<P>, batch: seq<(Operation<P>, nat)>): Deliveries<P> {
    if batch == [] then d
    else
      var (op, span) := batch[|batch| - 1];
      DeliverBatch(d, batch[..|batch| - 1])[op.id := Delivery(op.payload, span)]
  }

  lemma {:induction false} BatchAgrees<P>(d: Deliveries<P>, batch: seq<(Operation<P>, nat)>, i: nat)
    requires Agreeing(d, batch) && i < |batch|
    ensures var now := DeliverBatch(d, batch[..i]);
      batch[i].0.id in now ==> now[batch[i].0.id] == Delivery(batch[i].0.payload, batch[i].1)
  {
    BatchEntries(d, batch[..i], batch[i].0.id);
  }

  /** What a batch leaves under an id: an entry of the batch if there is one, else what was there. */
  lemma {:induction false} BatchEntries<P>(d: Deliveries<P>, batch: seq<(Operation<P>, nat)>, id: OpId)
    ensures var now := DeliverBatch(d, batch);
      && (id in d ==> id in now)
      && (id in now && !(id in d && now[id] == d[id]) ==>
            exists j :: 0 <= j < |batch| && batch[j].0.id == id && now[id] == Delivery(batch[j].0.payload, batch[j].1))
  {
    if batch != [] {
      var init := batch[..|batch| - 1];
      BatchEntries(d, init, id);
      assert forall j :: 0 <= j < |init| ==> init[j] == batch[j];
    }
  }

  lemma {:induction false} BatchDelivers<P>(d: Deliveries<P>, batch: seq<(Operation<P>, nat)>, i: nat)
    requires Agreeing(d, batch) && i < |batch|
    ensures var now := DeliverBatch(d, batch);
      batch[i].0.id in now && now[batch[i].0.id] == Delivery(batch[i].0.payload, batch[i].1)
    decreases |batch|
  {
    var init := batch[..|batch| - 1];
    if i < |init| {
      BatchDelivers(d, init, i);
    }
  }

  ghost predicate Mentioned<P>(batch: seq<(Operation<P>, nat)>, i: nat, id: OpId) {
    exists j :: 0 <= j < i && j < |batch| && batch[j].0.id == id
  }

  lemma MentionedNext<P>(batch: seq<(Operation<P>, nat)>, i: nat)
    requires i < |batch|
    ensures forall id :: Mentioned(batch, i + 1, id) <==> Mentioned(batch, i, id) || id == batch[i].0.id
  {
    assert Mentioned(batch, i + 1, batch[i].0.id);
  }

  function Without(ids: seq<OpId>, gone: seq<OpId>): (rest: seq<OpId>)
    ensures forall id :: id in rest <==> id in ids && id !in gone
  {
    if ids == [] then []
    else (if ids[0] in gone then [] else [ids[0]]) + Without(ids[1..], gone)
  }

  lemma PromotedIds<P>(a: Log<P>, b: Log<P>, promoted: seq<Operation<P>>)
    requires Promotes(a, b, promoted)
    ensures var ids := seq(|promoted|, i requires 0 <= i < |promoted| => promoted[i].id);
      && (forall id :: id in ids <==> id in a.pending && id !in b.pending)
      && (Unpruned(a) ==> Unpruned(b))
  {
    var ids := seq(|promoted|, i requires 0 <= i < |promoted| => promoted[i].id);
    forall id ensures id in ids <==> id in a.pending && id !in b.pending {
      if id in ids {
        var i :| 0 <= i < |ids| && ids[i] == id;
        assert promoted[i] in promoted;
      }
      if id in a.pending && id !in b.pending {
        var i :| 0 <= i < |promoted| && promoted[i] == Operation(id, a.pending[id].payload);
        assert ids[i] == id;
      }
    }
  }

  /** One exchange: serve `since` from the sender and integrate the answer at a receiver that has
      reached `since`. Unless a rebase is required, the receiver has then seen all the sender has. */
  method Transfer<P>(sender: SyncState<P>, receiver: SyncState<P>, since: StateVector, spanOf: P -> nat)
    returns (r: DeltaResult<P>)
    requires sender != receiver && sender.Valid() && receiver.Valid() && Settled(receiver.Value())
    requires Covers(receiver.stateVector, since)
    requires forall id :: id in sender.delivered ==> sender.delivered[id].span == spanOf(sender.delivered[id].payload)
    requires forall id :: id in sender.delivered && id in receiver.delivered ==>
        sender.delivered[id] == receiver.delivered[id]
    modifies receiver`ops, receiver`stateVector, receiver`pending, receiver`delivered, receiver`order
    ensures receiver.Valid() && Settled(receiver.Value())
    ensures r.RebaseRequired? <==> exists p :: p in sender.deltaFloor && Get(since, p) < sender.deltaFloor[p]
    ensures r.RebaseRequired? ==> unchanged(receiver)
    ensures r.Delta? ==> Covers(receiver.stateVector, sender.stateVector)
  {
    hide LogOk, Settled, IsDelta, Agreeing, DeliverBatch;
    r := sender.EncodeChangesSince(since);
    if r.Delta? {
      var delta := r.ops;
      var batch := seq(|delta|, i requires 0 <= i < |delta| => (delta[i], spanOf(delta[i].payload)));
      TrueSpans(sender.Value(), receiver.Value(), since, delta, batch, spanOf);
      ghost var before := receiver.Value();
      var _, _ := receiver.ApplyChanges(batch);
      VectorGrows(before, receiver.Value());
      DeltaDelivered(sender.Value(), before.delivered, since, delta, batch, spanOf);
      DeltaCompletes(sender.Value(), since, receiver.Value());
    }
  }

  /** After the batch, everything past `since` that the sender holds was delivered with its span. */
  lemma DeltaDelivered<P>(sender: Log<P>, d: Deliveries<P>, since: StateVector, delta: seq<Operation<P>>,
          batch: seq<(Operation<P>, nat)>, spanOf: P -> nat)
    requires IsDelta(sender.ops, since, delta) && |batch| == |delta| && Agreeing(d, batch)
    requires forall i :: 0 <= i < |delta| ==> batch[i] == (delta[i], spanOf(delta[i].payload))
    requires forall id :: id in sender.ops ==>
      id in sender.delivered && sender.delivered[id] == Delivery(sender.ops[id], spanOf(sender.ops[id]))
    ensures forall id :: id in sender.ops && id.counter > Get(since, id.peer) ==>
      id in DeliverBatch(d, batch) && DeliverBatch(d, batch)[id].span == sender.delivered[id].span
  {
    hide Agreeing, DeliverBatch;
    forall id | id in sender.ops && id.counter > Get(since, id.peer)
      ensures id in DeliverBatch(d, batch) && DeliverBatch(d, batch)[id].span == sender.delivered[id].span
    {
      var i :| 0 <= i < |delta| && delta[i] == Operation(id, sender.ops[id]);
      BatchDelivers(d, batch, i);
    }
  }

  lemma TrueSpans<P>(sender: Log<P>, receiver: Log<P>, since: StateVector, delta: seq<Operation<P>>,
          batch: seq<(Operation<P>, nat)>, spanOf: P -> nat)
    requires LogOk(sender) && IsDelta(sender.ops, since, delta) && |batch| == |delta|
    requires forall i :: 0 <= i < |delta| ==> batch[i] == (delta[i], spanOf(delta[i].payload))
    requires forall id :: id in sender.delivered ==> sender.delivered[id].span == spanOf(sender.delivered[id].payload)
    requires forall id :: id in sender.delivered && id in receiver.delivered ==>
        sender.delivered[id] == receiver.delivered[id]
    ensures Agreeing(receiver.delivered, batch)
    ensures forall id :: id in sender.ops ==>
        id in sender.delivered && sender.delivered[id] == Delivery(sender.ops[id], spanOf(sender.ops[id]))
  {
    hide Clocked;
    assert forall i :: 0 <= i < |delta| ==> delta[i] in delta;
  }

  lemma VectorGrows<P>(a: Log<P>, b: Log<P>)
    requires LogOk(a) && LogOk(b) && a.order <= b.order
    ensures Covers(b.vector, a.vector)
  {
    hide Holds, Grounded;
    forall p ensures Get(a.vector, p) <= Get(b.vector, p) {
      FrontierIncluded(a.order, b.order, p);
    }
  }

  // ----- checkpoints

  ghost function EligibleIds<P>(ops: map<OpId, P>, leases: seq<PeerLease>): set<OpId> {
    set id | id in ops && Eligible(leases, id)
  }

  /** An operation may go exactly if no active lease would still be sent it. */
  lemma EligibleIsUnneeded<P>(ops: map<OpId, P>, leases: seq<PeerLease>, deltas: seq<seq<Operation<P>>>, id: OpId)
    requires id in ops && |deltas| == |leases|
    requires forall i :: 0 <= i < |leases| ==> IsDelta(ops, leases[i].acknowledged, deltas[i])
    ensures Eligible(leases, id) <==> forall i :: 0 <= i < |leases| ==> Operation(id, ops[id]) !in deltas[i]
  {
    forall i | 0 <= i < |leases|
      ensures Operation(id, ops[id]) !in deltas[i] <==> id.counter <= Get(leases[i].acknowledged, id.peer)
    {
      assert IsDelta(ops, leases[i].acknowledged, deltas[i]);
    }
  }

  function RaiseFloor(floor: StateVector, pruned: seq<OpId>): StateVector {
    if pruned == [] then floor
    else
      var id, f := pruned[|pruned| - 1], RaiseFloor(floor, pruned[..|pruned| - 1]);
      f[id.peer := Raise(Get(f, id.peer), id.peer, id)]
  }

  lemma {:induction false} FloorRaised(floor: StateVector, pruned: seq<OpId>, p: PeerId)
    ensures Get(floor, p) <= Get(RaiseFloor(floor, pruned), p)
    ensures forall id :: id in pruned && id.peer == p ==> id.counter <= Get(RaiseFloor(floor, pruned), p)
    ensures Get(RaiseFloor(floor, pruned), p) == Get(floor, p) || OpId(Get(RaiseFloor(floor, pruned), p), p) in pruned
  {
    if pruned != [] {
      var init := pruned[..|pruned| - 1];
      FloorRaised(floor, init, p);
      assert pruned == init + [pruned[|pruned| - 1]];
    }
  }

  lemma PruneKeeps<P>(l: Log<P>, pruned: seq<OpId>)
    requires LogOk(l) && forall id :: id in pruned ==> id in l.ops
    ensures LogOk(l.(ops := l.ops - AppliedIds(pruned), floor := RaiseFloor(l.floor, pruned)))
  {
    hide Grounded;
    var floor := RaiseFloor(l.floor, pruned);
    assert Clocked(l.delivered, l.order, l.vector, floor) by {
      hide Holds;
      forall p ensures Get(floor, p) <= Get(l.vector, p) {
        FloorRaised(l.floor, pruned, p);
        if OpId(Get(floor, p), p) in pruned {
          PrunedWasApplied(l, OpId(Get(floor, p), p));
        }
      }
    }
    hide Clocked;
    forall id | id in AppliedIds(l.order)
        && id !in l.ops - AppliedIds(pruned) ensures id.counter <= Get(floor, id.peer) {
      FloorRaised(l.floor, pruned, id.peer);
    }
  }

  lemma PrunedWasApplied<P>(l: Log<P>, id: OpId)
    requires LogOk(l) && id in l.ops
    ensures id.counter <= Get(l.vector, id.peer)
  {
    hide Grounded;
    assert id in AppliedIds(l.order);
    FrontierBounds(l.order, id);
  }

  /** Which of the four outcomes a checkpoint request gets. */
  ghost predicate Decides<P>(ops: map<OpId, P>, epoch: nat, maxRetained: nat, leases: seq<PeerLease>,
          r: CheckpointResult) {
    var enough := |EligibleIds(ops, leases)| >= |ops| - maxRetained;
    && (r.DuplicatePeerLease? <==> !DistinctPeers(leases)) && (r.DuplicatePeerLease? ==> RepeatedFirst(leases, r.peer))
    && (r.RetentionBlocked? <==> DistinctPeers(leases) && |ops| > maxRetained && !enough)
    && (r.EpochOverflow? <==> DistinctPeers(leases) && |ops| > maxRetained && enough && epoch >= U64_MAX)
    && (r.RetentionBlocked? ==> r.required == |ops| - maxRetained && r.eligible == |EligibleIds(ops, leases)|)
  }

  /** What a checkpoint may do to the log. */
  ghost predicate PrunedSafely<P>(was: map<OpId, P>, now: map<OpId, P>, floor: StateVector, floor': StateVector,
          leases: seq<PeerLease>) {
    // nothing is altered or invented, and everything dropped is at or below the floor
    && (forall id :: id in now ==> id in was && now[id] == was[id])
    && (forall id :: id in was && id !in now ==> Eligible(leases, id) && id.counter <= Get(floor', id.peer))
    // each peer loses a prefix of its retained operations
    && (forall x, y :: x in was && x !in now && y in now && x.peer == y.peer ==> x.counter < y.counter)
    // the floor rises, and only to something that was dropped
    && (forall p :: Get(floor, p) <= Get(floor', p))
    && (forall p ::
          || Get(floor', p) == Get(floor, p)
          || (OpId(Get(floor', p), p) in was && OpId(Get(floor', p), p) !in now))
  }

  lemma NothingPruned<P>(ops: map<OpId, P>, floor: StateVector, leases: seq<PeerLease>)
    ensures PrunedSafely(ops, ops, floor, floor, leases)
  {
  }

  lemma PrunesSafely<P>(was: map<OpId, P>, eligible: seq<OpId>, required: nat, floor: StateVector,
          leases: seq<PeerLease>)
    requires required <= |eligible| && SortedIds(eligible)
    requires forall id :: id in eligible <==> id in was && Eligible(leases, id)
    ensures var pruned := eligible[..required];
      PrunedSafely(was, was - AppliedIds(pruned), floor, RaiseFloor(floor, pruned), leases)
  {
    hide SortedIds, Eligible, RaiseFloor;
    var pruned := eligible[..required];
    assert forall id :: id in pruned ==> id in eligible;
    var now, floor' := was - AppliedIds(pruned), RaiseFloor(floor, pruned);
    forall id | id in was && id !in now ensures id in pruned && id.counter <= Get(floor', id.peer) {
      FloorRaised(floor, pruned, id.peer);
    }
    forall x, y | x in was && x !in now && y in now && x.peer == y.peer ensures x.counter < y.counter {
      PrunedFirst(was.Keys, eligible, required, leases, x, y);
    }
    forall p
      ensures Get(floor, p) <= Get(floor', p)
      ensures Get(floor', p) == Get(floor, p) || OpId(Get(floor', p), p) in pruned
    {
      FloorRaised(floor, pruned, p);
    }
  }

  lemma PrunedSizes<P>(was: map<OpId, P>, pruned: seq<OpId>)
    requires SortedIds(pruned) && forall id :: id in pruned ==> id in was
    ensures |was - AppliedIds(pruned)| == |was| - |pruned|
    ensures was.Keys - (was - AppliedIds(pruned)).Keys == AppliedIds(pruned)
  {
    SameSize(pruned, AppliedIds(pruned));
    SizeAfterRemoval(was, AppliedIds(pruned));
  }

  lemma PrunedFirst(was: set<OpId>, eligible: seq<OpId>, required: nat, leases: seq<PeerLease>, x: OpId, y: OpId)
    requires required <= |eligible| && SortedIds(eligible)
    requires forall id :: id in eligible <==> id in was && Eligible(leases, id)
    requires x in eligible[..required] && y in was && y !in eligible[..required] && x.peer == y.peer
    ensures x.counter < y.counter
  {
    assert x in eligible;
    assert y.counter <= x.counter ==> Eligible(leases, y);
    if y in eligible {
      assert eligible == eligible[..required] + eligible[required..];
      var i :| 0 <= i < required && eligible[i] == x;
      var j :| required <= j < |eligible| && eligible[j] == y;
    }
  }

  /** An active lease that could be served a delta before a checkpoint is served the same one after. */
  lemma LeaseKeepsDelta<P>(was: map<OpId, P>, now: map<OpId, P>, floor: StateVector, floor': StateVector,
          leases: seq<PeerLease>, i: nat, before: seq<Operation<P>>, after: seq<Operation<P>>)
    requires PrunedSafely(was, now, floor, floor', leases) && i < |leases|
    requires Covers(leases[i].acknowledged, floor)
    requires IsDelta(was, leases[i].acknowledged, before) && IsDelta(now, leases[i].acknowledged, after)
    ensures Covers(leases[i].acknowledged, floor') && before == after
  {
    var ack := leases[i].acknowledged;
    forall p ensures Get(floor', p) <= Get(ack, p) {
      assert Get(floor', p) != Get(floor, p) ==> Eligible(leases, OpId(Get(floor', p), p));
    }
    forall op | op in before ensures op in after {
      assert op.id !in now ==> Eligible(leases, op.id);
      assert Operation(op.id, now[op.id]) == op;
    }
    forall op | op in after ensures op in before {
      assert Operation(op.id, was[op.id]) == op;
    }
    DeltaUnique(before, after);
  }

  lemma {:induction false} DeltaUnique<P>(a: seq<Operation<P>>, b: seq<Operation<P>>)
    requires forall i, j :: 0 <= i < j < |a| ==> Less(a[i].id, a[j].id)
    requires forall i, j :: 0 <= i < j < |b| ==> Less(b[i].id, b[j].id)
    requires (forall op :: op in a ==> op in b) && (forall op :: op in b ==> op in a)
    ensures a == b
  {
    assert a != [] ==> a[0] in b;
    assert b != [] ==> b[0] in a;
    if a != [] {
      assert a[0] == b[0];
      forall op | op in a[1..] ensures op in b[1..] {
        assert op in b && op != a[0];
      }
      forall op | op in b[1..] ensures op in a[1..] {
        assert op in a && op != b[0];
      }
      DeltaUnique(a[1..], b[1..]);
      assert a == [a[0]] + a[1..] && b == [b[0]] + b[1..];
    }
  }

  method FindDuplicate(leases: seq<PeerLease>) returns (duplicate: Option<PeerId>)
    ensures duplicate.None? <==> DistinctPeers(leases)
    ensures duplicate.Some? ==> RepeatedFirst(leases, duplicate.value)
  {
    var leased: set<PeerId> := {};
    for i := 0 to |leases|
      invariant forall p :: p in leased <==> exists j :: 0 <= j < i && leases[j].peer == p
      invariant DistinctPeers(leases[..i])
    {
      if leases[i].peer in leased {
        ghost var j :| 0 <= j < i && leases[j].peer == leases[i].peer;
        assert leases[..i + 1][j].peer == leases[..i + 1][i].peer;
        return Some(leases[i].peer);
      }
      leased := leased + {leases[i].peer};
    }
    assert leases[..|leases|] == leases;
    return None;
  }

  method SelectEligible<P>(ops: map<OpId, P>, leases: seq<PeerLease>) returns (eligible: seq<OpId>)
    ensures SortedIds(eligible) && forall id :: id in eligible <==> id in ops && Eligible(leases, id)
    ensures |eligible| == |EligibleIds(ops, leases)|
  {
    var keys := SortedKeys(ops);
    eligible := [];
    for i := 0 to |keys|
      invariant SortedIds(eligible) && forall id :: id in eligible <==> id in keys[..i] && Eligible(leases, id)
    {
      assert keys[..i + 1] == keys[..i] + [keys[i]];
      assert forall j :: 0 <= j < |eligible| ==> eligible[j] in keys[..i];
      if Eligible(leases, keys[i]) {
        eligible := eligible + [keys[i]];
      }
    }
    assert keys[..|keys|] == keys;
    SameSize(eligible, EligibleIds(ops, leases));
  }

  lemma {:induction false} SameSize(ids: seq<OpId>, s: set<OpId>)
    requires SortedIds(ids) && forall id :: id in ids <==> id in s
    ensures |s| == |ids|
  {
    if ids == [] {
      assert s == {};
    } else {
      var last := ids[|ids| - 1];
      assert ids == ids[..|ids| - 1] + [last];
      SameSize(ids[..|ids| - 1], s - {last});
    }
  }

  lemma {:induction false} SizeAfterRemoval<V>(m: map<OpId, V>, gone: set<OpId>)
    requires gone <= m.Keys
    ensures |m - gone| == |m| - |gone|
  {
    assert (m - gone).Keys == m.Keys - gone;
    assert |m - gone| == |(m - gone).Keys| && |m| == |m.Keys|;
  }

  /** From `a` to `b` exactly the operations `promoted`, in that order, left the buffer for the log. */
  ghost predicate Promotes<P>(a: Log<P>, b: Log<P>, promoted: seq<Operation<P>>) {
    && a.delivered == b.delivered && a.floor == b.floor
    && (forall op :: op in promoted ==>
        op.id in a.pending && op.id !in b.pending && op.payload == a.pending[op.id].payload)
    && (forall id :: id in a.pending && id !in b.pending ==> Operation(id, a.pending[id].payload) in promoted)
    && (forall id :: id in b.pending ==> id in a.pending && b.pending[id] == a.pending[id])
    && b.order == a.order + seq(|promoted|, i requires 0 <= i < |promoted| => promoted[i].id)
    && (forall i, j :: 0 <= i < j < |promoted| ==> promoted[i].id != promoted[j].id)
    && (forall id :: id in b.ops <==> id in a.ops || (id in a.pending && id !in b.pending))
  }

  lemma PromoteStep<P>(a: Log<P>, b: Log<P>, promoted: seq<Operation<P>>, id: OpId)
    requires LogOk(b) && Promotes(a, b, promoted) && id in b.pending
    ensures id in b.delivered && b.delivered[id] == b.pending[id]
    ensures Promotes(a, Admitted(b, id, b.pending[id].payload), promoted + [Operation(id, b.pending[id].payload)])
    ensures |b.pending - {id}| < |b.pending|
  {
    hide LogOk;
    ReadyIfApplied(b, id);
    var c, more := Admitted(b, id, b.pending[id].payload), promoted + [Operation(id, b.pending[id].payload)];
    assert b.pending == c.pending[id := b.pending[id]];
    forall x | x in a.pending && x !in c.pending ensures Operation(x, a.pending[x].payload) in more {
      assert x != id ==> Operation(x, a.pending[x].payload) in promoted;
      assert more[|promoted|] == Operation(id, b.pending[id].payload);
    }
    assert c.order == a.order + seq(|more|, i requires 0 <= i < |more| => more[i].id);
    assert forall i :: 0 <= i < |promoted| ==> promoted[i] in promoted;
  }

  lemma ReadyIfApplied<P>(l: Log<P>, id: OpId)
    requires LogOk(l)
    ensures id in l.order && id in l.delivered ==> Ready(l.vector, id, l.delivered[id].span)
    ensures id in l.ops ==> id in l.delivered && id in l.order && id !in l.pending
    ensures id in l.pending ==> id in l.delivered && id !in l.order && l.pending[id] == l.delivered[id]
    ensures id in l.order ==> id in l.delivered
  {
    if id in l.order {
      FrontierBounds(l.order, id);
    }
    hide Grounded;
    assert id in l.order <==> id in AppliedIds(l.order);
  }
}
