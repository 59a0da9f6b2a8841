/**
 A collaborative session (src/session/mod.rs): the document only sees an operation once it
 is in the log and everything its author had observed is in the log too.
 */
module Sessions {
  import opened OpIds
  import opened SyncLog
  import opened SyncStates

  /** A decoded operation: the frontier it carries, if any, and the id range it covers. */
  datatype Envelope<+B> = Envelope(observed: Option<StateVector>, top: OpId, span: nat, body: B)

  predicate FrontierReady<B>(vector: StateVector, env: Envelope<B>) {
    env.observed.Some? ==> forall p :: p in env.observed.value ==> Get(vector, p) >= env.observed.value[p]
  }

  predicate WellFormed<B>(op: Operation<Envelope<B>>) {
    op.id.counter > 0 && op.payload.top == op.id
  }

  /** Every logged operation reached the document, waits in `waiting`, or is in hand (`loose`). */
  ghost predicate Tracks<B>(l: Log<Envelope<B>>, waiting: map<OpId, Envelope<B>>, doc: seq<OpId>, loose: set<OpId>) {
    && Unpruned(l)
    && (forall i, j :: 0 <= i < j < |doc| ==> doc[i] != doc[j])
    && (forall id :: id in doc ==> id in l.ops && id in l.delivered && FrontierReady(l.vector, l.delivered[id].payload))
    && (forall id :: id in loose ==> id in l.ops && id !in doc && id !in waiting)
    && (forall id :: id in waiting <==> id in l.pending || (id in l.ops && id !in doc && id !in loose))
    && (forall id :: id in waiting ==> id in l.delivered && waiting[id] == l.delivered[id].payload)
  }

  /** The document holds exactly the logged operations whose frontier is covered. */
  ghost predicate ShowsReady<B>(l: Log<Envelope<B>>, doc: seq<OpId>) {
    forall id :: id in doc <==> id in l.ops && id in l.delivered && FrontierReady(l.vector, l.delivered[id].payload)
  }

  /** Everything a frontier names is in the log: each counter up to it lies in the span of a logged operation. */
  ghost predicate Seen<B>(l: Log<Envelope<B>>, frontier: StateVector) {
    forall p, c :: 1 <= c <= Get(frontier, p) ==> InLog(l, p, c)
  }

  /** Causal closure: the document holds exactly the logged operations whose author had seen nothing the log lacks. */
  ghost predicate CausallyClosed<B>(l: Log<Envelope<B>>, doc: seq<OpId>) {
    forall id :: id in doc <==> id in l.ops && (l.ops[id].observed.Some? ==> Seen(l, l.ops[id].observed.value))
  }

  /** A frontier is ready when the vector covers it. */
  lemma ReadyMeansCovered<B>(vector: StateVector, env: Envelope<B>)
    ensures FrontierReady(vector, env) <==> (env.observed.Some? ==> Covers(vector, env.observed.value))
  {
    if env.observed.Some? && Covers(vector, env.observed.value) {
      forall p | p in env.observed.value ensures Get(vector, p) >= env.observed.value[p] {
        assert Get(env.observed.value, p) <= Get(vector, p);
      }
    }
  }

  lemma CoveredMeansSeen<B>(l: Log<Envelope<B>>, frontier: StateVector)
    requires LogOk(l) && Unpruned(l)
    ensures Covers(l.vector, frontier) <==> Seen(l, frontier)
  {
    hide LogOk, Unpruned, InLog;
    forall p, c | 1 <= c <= Get(frontier, p) ensures InLog(l, p, c) <==> c <= Get(l.vector, p) {
      VectorIsInLog(l, p, c);
    }
    if Seen(l, frontier) {
      forall p ensures Get(frontier, p) <= Get(l.vector, p) {
        assert Get(frontier, p) > 0 ==> InLog(l, p, Get(frontier, p));
      }
    }
  }

  lemma ReadyIsClosed<B>(l: Log<Envelope<B>>, doc: seq<OpId>)
    requires LogOk(l) && Unpruned(l)
    ensures ShowsReady(l, doc) <==> CausallyClosed(l, doc)
  {
    hide Unpruned, Seen, Clocked, FrontierReady, Covers;
    forall id | id in l.ops
      ensures id in l.delivered && l.ops[id] == l.delivered[id].payload
      ensures FrontierReady(l.vector, l.ops[id]) <==> (l.ops[id].observed.Some? ==> Seen(l, l.ops[id].observed.value))
    {
      ReadyMeansCovered(l.vector, l.ops[id]);
      if l.ops[id].observed.Some? {
        CoveredMeansSeen(l, l.ops[id].observed.value);
      }
    }
  }

  ghost predicate SpansTrue<B>(l: Log<Envelope<B>>) {
    forall id :: id in l.delivered ==> l.delivered[id].span == l.delivered[id].payload.span
  }

  /** Independence of delivery order and batching: what reached the document is decided by what was delivered. */
  lemma SameDeliveriesSameEffects<B>(a: Log<Envelope<B>>, b: Log<Envelope<B>>, doc: seq<OpId>, doc': seq<OpId>)
    requires LogOk(a) && Settled(a) && Unpruned(a) && LogOk(b) && Settled(b) && Unpruned(b)
    requires a.delivered == b.delivered && ShowsReady(a, doc) && ShowsReady(b, doc')
    ensures forall id :: id in doc <==> id in doc'
  {
    hide LogOk, Settled, Unpruned;
    LogConfluence(a, b);
  }

  // ----- steps

  lemma StaysReady<B>(v: StateVector, w: StateVector, env: Envelope<B>)
    requires Covers(w, v) && FrontierReady(v, env)
    ensures FrontierReady(w, env)
  {
    if env.observed.Some? {
      forall p | p in env.observed.value ensures Get(w, p) >= env.observed.value[p] {
        assert Get(v, p) <= Get(w, p);
      }
    }
  }

  /** The log moved on: what left the buffer is still waiting, what was applied directly is in hand. */
  lemma LogMoved<B>(a: Log<Envelope<B>>, b: Log<Envelope<B>>, waiting: map<OpId, Envelope<B>>, doc: seq<OpId>,
          direct: set<OpId>)
    requires Tracks(a, waiting, doc, {}) && Unpruned(b) && Covers(b.vector, a.vector)
    requires forall id :: id in a.delivered ==> id in b.delivered && b.delivered[id] == a.delivered[id]
    requires forall id :: id in a.ops ==> id in b.ops
    requires forall id :: id in b.pending ==> id in a.pending
    requires forall id :: id in b.ops ==> id in a.ops || id in a.pending || id in direct
    requires forall id :: id in a.pending && id !in b.pending ==> id in b.ops
    requires forall id :: id in direct ==> id in b.ops && id !in a.ops && id !in a.pending
    requires forall id :: id in a.pending ==> id !in a.ops
    ensures Tracks(b, waiting, doc, direct)
  {
    forall id | id in doc ensures FrontierReady(b.vector, b.delivered[id].payload) {
      StaysReady(a.vector, b.vector, a.delivered[id].payload);
    }
  }

  /** A waiting operation that has entered the log. */
  ghost predicate Takable<B>(l: Log<Envelope<B>>, waiting: map<OpId, Envelope<B>>, id: OpId) {
    id in waiting && id in l.ops && id !in l.pending && id in l.delivered && waiting[id] == l.delivered[id].payload
  }

  lemma WaitingIsTakable<B>(l: Log<Envelope<B>>, waiting: map<OpId, Envelope<B>>, doc: seq<OpId>, id: OpId)
    requires LogOk(l) && Tracks(l, waiting, doc, {}) && id in waiting && id in l.ops
    ensures Takable(l, waiting, id)
  {
    hide LogOk;
    ReadyIfApplied(l, id);
  }

  lemma Took<B>(l: Log<Envelope<B>>, waiting: map<OpId, Envelope<B>>, doc: seq<OpId>, id: OpId)
    requires Tracks(l, waiting, doc, {}) && Takable(l, waiting, id)
    ensures Tracks(l, waiting - {id}, doc, {id})
  {
  }

  lemma NothingReady<B>(l: Log<Envelope<B>>, waiting: map<OpId, Envelope<B>>, doc: seq<OpId>)
    requires LogOk(l) && Tracks(l, waiting, doc, {})
    requires forall id :: id in waiting && id in l.ops ==> !FrontierReady(l.vector, waiting[id])
    ensures ShowsReady(l, doc)
  {
    hide LogOk;
  }

  lemma Shown<B>(l: Log<Envelope<B>>, waiting: map<OpId, Envelope<B>>, doc: seq<OpId>, id: OpId)
    requires Tracks(l, waiting, doc, {id}) && id in l.delivered && FrontierReady(l.vector, l.delivered[id].payload)
    ensures Tracks(l, waiting, doc + [id], {})
  {
    assert forall x :: x in doc + [id] <==> x in doc || x == id;
  }

  lemma Deferred<B>(l: Log<Envelope<B>>, waiting: map<OpId, Envelope<B>>, doc: seq<OpId>, id: OpId)
    requires Tracks(l, waiting, doc, {id}) && id in l.delivered
    ensures Tracks(l, waiting[id := l.delivered[id].payload], doc, {})
  {
  }

  lemma TrackBuffered<B>(l: Log<Envelope<B>>, waiting: map<OpId, Envelope<B>>, doc: seq<OpId>, id: OpId,
          d: Delivery<Envelope<B>>)
    requires Tracks(l, waiting, doc, {}) && id !in l.ops && id !in l.order
        && (id in l.delivered ==> l.delivered[id] == d)
    ensures Tracks(Received(l, id, d), waiting[id := d.payload], doc, {})
  {
  }

  lemma StillSettled<B>(l: Log<Envelope<B>>, id: OpId, d: Delivery<Envelope<B>>)
    requires Settled(l) && id !in l.order && (id in l.pending || !Ready(l.vector, id, d.span))
    requires id in l.pending ==> l.pending[id] == d
    ensures Settled(Received(l, id, d))
  {
  }

  lemma TrackApplied<B>(a: Log<Envelope<B>>, b: Log<Envelope<B>>, waiting: map<OpId, Envelope<B>>, doc: seq<OpId>,
          id: OpId, d: Delivery<Envelope<B>>)
    requires LogOk(a) && LogOk(b) && Tracks(a, waiting, doc, {}) && id !in a.ops && id !in a.pending
    requires id in a.delivered ==> a.delivered[id] == d
    requires b == Admitted(Received(a, id, d), id, d.payload)
    ensures Tracks(b, waiting, doc, {id}) && id in b.delivered && b.delivered[id] == d && Covers(b.vector, a.vector)
  {
    hide LogOk;
    assert a.order <= b.order;
    VectorGrows(a, b);
    assert b.pending == a.pending;
    forall x ensures x in a.pending ==> x !in a.ops {
      ReadyIfApplied(a, x);
    }
    LogMoved(a, b, waiting, doc, {id});
  }

  lemma TrackPromoted<B>(a: Log<Envelope<B>>, b: Log<Envelope<B>>, waiting: map<OpId, Envelope<B>>, doc: seq<OpId>,
          promoted: seq<Operation<Envelope<B>>>)
    requires LogOk(a) && LogOk(b) && Tracks(a, waiting, doc, {}) && Promotes(a, b, promoted)
    ensures Tracks(b, waiting, doc, {})
    ensures forall j :: 0 <= j < |promoted| ==> Takable(b, waiting, promoted[j].id)
    ensures a.delivered == b.delivered && Covers(b.vector, a.vector)
    ensures forall i, j :: 0 <= i < j < |promoted| ==> promoted[i].id != promoted[j].id
  {
    hide LogOk;
    PromotedIds(a, b, promoted);
    assert a.order <= b.order;
    VectorGrows(a, b);
    forall x ensures x in a.pending ==> x !in a.ops {
      ReadyIfApplied(a, x);
    }
    LogMoved(a, b, waiting, doc, {});
    forall j | 0 <= j < |promoted| ensures Takable(b, waiting, promoted[j].id) {
      assert promoted[j] in promoted;
    }
  }

  // ----- the own clock

  ghost predicate OwnLogged<B>(l: Log<Envelope<B>>, peer: PeerId, next: nat) {
    forall id :: id in l.delivered && id.peer == peer ==> id.counter < next && id in l.ops
  }

  /** No waiting operation claims to have seen a counter of the own peer that was not handed out. */
  ghost predicate NoneAwaits<B>(waiting: map<OpId, Envelope<B>>, peer: PeerId, next: nat) {
    forall id :: id in waiting && waiting[id].observed.Some? ==> Get(waiting[id].observed.value, peer) < next
  }

  lemma OwnIsNew<B>(l: Log<Envelope<B>>, peer: PeerId, next: nat, id: OpId)
    requires LogOk(l) && OwnLogged(l, peer, next) && id.peer == peer && id.counter >= next
    ensures id !in l.delivered && forall x :: x in l.pending ==> x.peer != peer
  {
    hide LogOk;
    forall x | x in l.pending ensures x.peer != peer {
      ReadyIfApplied(l, x);
    }
  }

  lemma LocalIsReady<B>(a: Log<Envelope<B>>, b: Log<Envelope<B>>, env: Envelope<B>)
    requires Covers(b.vector, a.vector) && (env.observed.Some? ==> env.observed.value == a.vector)
    ensures FrontierReady(b.vector, env)
  {
    if env.observed.Some? {
      forall p | p in env.observed.value ensures Get(b.vector, p) >= env.observed.value[p] {
        assert Get(a.vector, p) <= Get(b.vector, p);
      }
    }
  }

  lemma SpansStayTrue<B>(a: Log<Envelope<B>>, b: Log<Envelope<B>>, id: OpId, d: Delivery<Envelope<B>>)
    requires SpansTrue(a) && b.delivered == a.delivered[id := d] && d.span == d.payload.span
    ensures SpansTrue(b)
  {
  }

  lemma OwnNext<B>(a: Log<Envelope<B>>, b: Log<Envelope<B>>, peer: PeerId, id: OpId, d: Delivery<Envelope<B>>)
    requires b == Admitted(Received(a, id, d), id, d.payload) && id.peer == peer
    requires OwnLogged(a, peer, Get(a.vector, peer) + 1) && id.counter > Get(a.vector, peer)
    ensures OwnLogged(b, peer, id.counter + 1) && Get(b.vector, peer) == id.counter
  {
  }

  /** A local commit shows itself and makes nothing else ready. */
  lemma LocalShows<B>(a: Log<Envelope<B>>, b: Log<Envelope<B>>, waiting: map<OpId, Envelope<B>>, doc: seq<OpId>,
          peer: PeerId, id: OpId, d: Delivery<Envelope<B>>)
    requires LogOk(a) && Tracks(a, waiting, doc, {}) && Tracks(b, waiting, doc + [id], {})
    requires b == Admitted(Received(a, id, d), id, d.payload) && id.peer == peer && id !in a.delivered
    ensures ShowsReady(a, doc) && NoneAwaits(waiting, peer, Get(a.vector, peer) + 1) ==> ShowsReady(b, doc + [id])
  {
    hide LogOk;
    if ShowsReady(a, doc) && NoneAwaits(waiting, peer, Get(a.vector, peer) + 1) {
      forall x | x in b.ops && x !in doc + [id] ensures !FrontierReady(b.vector, b.delivered[x].payload) {
        assert x in a.ops && x in waiting && waiting[x] == a.delivered[x].payload;
        StillWaits(a.vector, b.vector, peer, waiting[x]);
      }
    }
  }

  lemma StillWaits<B>(v: StateVector, w: StateVector, peer: PeerId, env: Envelope<B>)
    requires !FrontierReady(v, env) && Get(env.observed.value, peer) <= Get(v, peer) && forall p :: p != peer ==>
        Get(w, p) == Get(v, p)
    ensures !FrontierReady(w, env)
  {
    var p :| p in env.observed.value && Get(v, p) < env.observed.value[p];
    assert Get(w, p) == Get(v, p);
  }

  class Session<B> {
    const peer: PeerId
    var nextCounter: nat
    const sync: SyncState<Envelope<B>>
    var pendingEnvelopes: map<OpId, Envelope<B>>
    /** The document, as the list of operations whose effects it has received. */
    var document: seq<OpId>

    ghost predicate Inv(loose: set<OpId>)
      reads this, sync
    {
      sync.Valid() && Tracks(sync.Value(), pendingEnvelopes, document, loose) && SpansTrue(sync.Value())
    }

    ghost predicate Valid()
      reads this, sync
    {
      Inv({}) && Settled(sync.Value())
    }

    /** The own counters below the clock, and no others, were handed out, and all of them are logged. */
    ghost predicate OwnClock()
      reads this, sync
    {
      && nextCounter == Get(sync.stateVector, peer) + 1
      && OwnLogged(sync.Value(), peer, nextCounter)
    }

    constructor (peer: PeerId)
      ensures Valid() && OwnClock() && fresh(sync) && this.peer == peer && nextCounter == 1
      ensures document == [] && sync.delivered == map[] && sync.ops == map[]
    {
      this.peer, nextCounter := peer, 1;
      sync := new SyncState<Envelope<B>>();
      pendingEnvelopes, document := map[], [];
    }

    /**
     * Commit a local operation that takes the next `span` counters. Its author has observed what the log
     * holds, so it is ready at once and goes straight into the document.
     */
    method CommitLocal(span: nat, body: B, observing: bool) returns (op: Operation<Envelope<B>>)
      requires Valid() && OwnClock() && span > 0
      modifies this`nextCounter, this`document, sync`ops, sync`stateVector, sync`outbox, sync`delivered, sync`order
      ensures Valid() && OwnClock() && nextCounter == old(nextCounter) + span
      ensures op.id == OpId(old(nextCounter) + span - 1, peer) && op.payload.span == span && op.payload.body == body
          && WellFormed(op)
      ensures op.payload.observed == if observing then Some(old(sync.stateVector)) else None
      ensures document == old(document) + [op.id]
      ensures op.id !in old(sync.delivered)
          && sync.delivered == old(sync.delivered)[op.id := Delivery(op.payload, span)]
      ensures old(ShowsReady(sync.Value(), document)) && NoneAwaits(pendingEnvelopes, peer, old(nextCounter)) ==>
        ShowsReady(sync.Value(), document)
    {
      hide LogOk, Tracks, Settled, SpansTrue, OwnLogged, ShowsReady;
      var id := OpId(nextCounter + span - 1, peer);
      var env := Envelope(if observing then Some(sync.stateVector) else None, id, span, body);
      op := Operation(id, env);
      ghost var before, d, doc := sync.Value(), Delivery(env, span), document;
      OwnIsNew(before, peer, nextCounter, id);
      ReadyIfApplied(before, id);
      sync.AddLocalOp(op, span);
      ghost var after := sync.Value();
      TrackApplied(before, after, pendingEnvelopes, document, id, d);
      LocalIsReady(before, after, env);
      Shown(after, pendingEnvelopes, document, id);
      SpansStayTrue(before, after, id, d);
      document := document + [id];
      nextCounter := id.counter + 1;
      OwnNext(before, after, peer, id, d);
      LocalShows(before, after, pendingEnvelopes, doc, peer, id, d);
    }

    /** Reject a message with a malformed new operation outright; otherwise integrate all of it. */
    method ApplyRemote(message: seq<Operation<Envelope<B>>>) returns (ok: bool)
      requires Valid()
      requires OneContent(sync.delivered, message)
      modifies this, sync
      ensures Valid()
      ensures ok <==> forall i :: 0 <= i < |message| && message[i].id !in old(sync.ops) ==>
          message[i].id.counter > 0 && message[i].payload.top == message[i].id
      ensures !ok ==> unchanged(this) && unchanged(sync)
      ensures ok ==> ShowsReady(sync.Value(), document) && old(document) <= document
      ensures ok ==> CausallyClosed(sync.Value(), document)
      ensures ok ==> sync.delivered == DeliverOps(old(sync.delivered), message)
      ensures nextCounter == old(nextCounter) && Covers(sync.stateVector, old(sync.stateVector))
    {
      hide LogOk, Tracks, Settled, ShowsReady, SpansTrue, OneContent, DeliverOps, CausallyClosed, Unpruned;
      ghost var d := sync.delivered;
      NothingMore(d);
      var checked := Prepare(message);
      if checked.None? {
        return false;
      }
      var prepared := checked.value;
      for i := 0 to |prepared|
        invariant Valid() && old(document) <= document
        invariant sync.delivered == DeliverOps(d, prepared[..i])
        invariant nextCounter == old(nextCounter) && Covers(sync.stateVector, old(sync.stateVector))
      {
        assert prepared[..i + 1] == prepared[..i] + [prepared[i]];
        DeliverOne(d, prepared[..i], prepared[i]);
        OpsAgree(d, prepared, i);
        IntegrateOne(prepared[i]);
      }
      assert prepared[..|prepared|] == prepared;
      DrainDeferred();
      StillUnpruned(this);
      ReadyIsClosed(sync.Value(), document);
      ok := true;
    }

    /** Keep the operations the log does not hold, or fail if one of them is malformed. */
    method Prepare(message: seq<Operation<Envelope<B>>>) returns (checked: Option<seq<Operation<Envelope<B>>>>)
      requires Valid() && OneContent(sync.delivered, message)
      ensures checked.Some? <==> forall i :: 0 <= i < |message| && message[i].id !in sync.ops ==> WellFormed(message[i])
      ensures checked.Some? ==> OneContent(sync.delivered, checked.value)
      ensures checked.Some? ==> DeliverOps(sync.delivered, checked.value) == DeliverOps(sync.delivered, message)
    {
      hide LogOk, Tracks, Settled, SpansTrue, OneContent, DeliverOps;
      var prepared: seq<Operation<Envelope<B>>> := [];
      ghost var d := sync.delivered;
      NothingMore(d);
      for i := 0 to |message|
        invariant forall j :: 0 <= j < i && message[j].id !in sync.ops ==> WellFormed(message[j])
        invariant OneContent(d, prepared) && DeliverOps(d, prepared) == DeliverOps(d, message[..i])
        invariant forall op :: op in prepared ==> op in message[..i]
      {
        var op := message[i];
        assert message[..i + 1] == message[..i] + [op];
        DeliverOne(d, message[..i], op);
        if op.id in sync.ops {
          KnownAlready(sync.Value(), message, i);
        } else {
          if !WellFormed(op) {
            return None;
          }
          PrepareKeeps(d, message, i, prepared);
          DeliverOne(d, prepared, op);
          prepared := prepared + [op];
        }
      }
      assert message[..|message|] == message;
      return Some(prepared);
    }

    method IntegrateOne(op: Operation<Envelope<B>>)
      requires Valid() && (op.id in sync.delivered ==> sync.delivered[op.id].payload == op.payload)
      modifies this`pendingEnvelopes, this`document, sync`ops, sync`stateVector, sync`pending, sync`delivered,
          sync`order
      ensures Valid() && old(document) <= document && Covers(sync.stateVector, old(sync.stateVector))
      ensures sync.delivered == old(sync.delivered)[op.id := Delivery(op.payload, op.payload.span)]
    {
      hide LogOk, Tracks, Settled;
      var id, env := op.id, op.payload;
      ghost var before, d := sync.Value(), Delivery(env, env.span);
      assert id in sync.delivered ==> sync.delivered[id] == d;
      ReadyIfApplied(before, id);
      var result := sync.ApplyOne(op, env.span);
      match result
      case AlreadyPresent =>
      case Buffered =>
        StillSettled(before, id, d);
        TrackBuffered(before, pendingEnvelopes, document, id, d);
        pendingEnvelopes := pendingEnvelopes[id := env];
      case Applied =>
        TrackApplied(before, sync.Value(), pendingEnvelopes, document, id, d);
        ApplyOrDefer(id, env);
        DrainPromoted();
        DrainDeferred();
    }

    method ApplyOrDefer(id: OpId, env: Envelope<B>)
      requires Inv({id}) && id in sync.delivered && env == sync.delivered[id].payload
      modifies this`pendingEnvelopes, this`document
      ensures Inv({})
      ensures if env.observed.Some? ==> Covers(sync.stateVector, env.observed.value)
              then document == old(document) + [id] && pendingEnvelopes == old(pendingEnvelopes)
              else document == old(document) && pendingEnvelopes == old(pendingEnvelopes)[id := env]
    {
      hide LogOk, Tracks, Covers;
      ReadyMeansCovered(sync.stateVector, env);
      if FrontierReady(sync.stateVector, env) {
        Shown(sync.Value(), pendingEnvelopes, document, id);
        document := document + [id];
      } else {
        Deferred(sync.Value(), pendingEnvelopes, document, id);
        pendingEnvelopes := pendingEnvelopes[id := env];
      }
    }

    method DrainPromoted()
      requires Inv({})
      modifies this`pendingEnvelopes, this`document, sync`ops, sync`stateVector, sync`pending, sync`order
      ensures Valid() && old(document) <= document && sync.delivered == old(sync.delivered)
      ensures Covers(sync.stateVector, old(sync.stateVector))
    {
      hide LogOk, Tracks, Settled, Promotes;
      ghost var before := sync.Value();
      var promoted := sync.PromoteReadyPending();
      TrackPromoted(before, sync.Value(), pendingEnvelopes, document, promoted);
      for k := 0 to |promoted|
        invariant Inv({}) && Settled(sync.Value()) && old(document) <= document
        invariant Covers(sync.stateVector, old(sync.stateVector))
        invariant forall j :: k <= j < |promoted| ==> Takable(sync.Value(), pendingEnvelopes, promoted[j].id)
        invariant forall i, j :: 0 <= i < j < |promoted| ==> promoted[i].id != promoted[j].id
      {
        var id := promoted[k].id;
        Took(sync.Value(), pendingEnvelopes, document, id);
        var env := pendingEnvelopes[id];
        pendingEnvelopes := pendingEnvelopes - {id};
        ApplyOrDefer(id, env);
      }
    }

    method DrainDeferred()
      requires Inv({})
      modifies this`pendingEnvelopes, this`document
      ensures Inv({}) && old(document) <= document && ShowsReady(sync.Value(), document)
    {
      hide LogOk, Tracks, Settled, ShowsReady;
      while true
        invariant Inv({}) && old(document) <= document
        decreases |pendingEnvelopes|
      {
        var ready := ReadyIds();
        if ready == [] {
          NothingReady(sync.Value(), pendingEnvelopes, document);
          return;
        }
        ApplyReady(ready);
      }
    }

    /** Apply waiting operations whose frontier is covered. */
    method ApplyReady(ready: seq<OpId>)
      requires Inv({}) && SortedIds(ready) && ready != []
      requires forall id :: id in ready ==>
          Takable(sync.Value(), pendingEnvelopes, id) && FrontierReady(sync.stateVector, pendingEnvelopes[id])
      modifies this`pendingEnvelopes, this`document
      ensures Inv({}) && old(document) <= document && |pendingEnvelopes| < old(|pendingEnvelopes|)
    {
      hide LogOk, Tracks, Settled, ShowsReady;
      for k := 0 to |ready|
        invariant Inv({}) && old(document) <= document
        invariant forall j :: k <= j < |ready| ==>
          Takable(sync.Value(), pendingEnvelopes, ready[j])
              && FrontierReady(sync.stateVector, pendingEnvelopes[ready[j]])
        invariant if k == 0 then pendingEnvelopes == old(pendingEnvelopes)
            else |pendingEnvelopes| < old(|pendingEnvelopes|)
      {
        var id := ready[k];
        Took(sync.Value(), pendingEnvelopes, document, id);
        var env := pendingEnvelopes[id];
        ghost var had := pendingEnvelopes;
        pendingEnvelopes := pendingEnvelopes - {id};
        assert had == pendingEnvelopes[id := env];
        ApplyOrDefer(id, env);
      }
    }

    method ReadyIds() returns (ready: seq<OpId>)
      requires Inv({})
      ensures SortedIds(ready)
      ensures forall id :: id in ready <==>
        id in pendingEnvelopes && id in sync.ops && FrontierReady(sync.stateVector, pendingEnvelopes[id])
      ensures forall id :: id in ready ==> Takable(sync.Value(), pendingEnvelopes, id)
    {
      hide Tracks, LogOk;
      var keys := SortedKeys(pendingEnvelopes);
      ready := [];
      for i := 0 to |keys|
        invariant SortedIds(ready)
        invariant forall id :: id in ready <==>
          id in keys[..i] && id in sync.ops && FrontierReady(sync.stateVector, pendingEnvelopes[id])
      {
        assert keys[i] in pendingEnvelopes && keys[..i + 1] == keys[..i] + [keys[i]];
        assert forall j :: 0 <= j < |ready| ==> ready[j] in keys[..i];
        if keys[i] in sync.ops && FrontierReady(sync.stateVector, pendingEnvelopes[keys[i]]) {
          ready := ready + [keys[i]];
        }
      }
      assert keys[..|keys|] == keys;
      forall id | id in ready ensures Takable(sync.Value(), pendingEnvelopes, id) {
        WaitingIsTakable(sync.Value(), pendingEnvelopes, document, id);
      }
    }
  }

  /** Operations with the spans their envelopes give. */
  ghost function Spanned<B>(ops: seq<Operation<Envelope<B>>>): (batch: seq<(Operation<Envelope<B>>, nat)>)
    ensures |batch| == |ops| && forall i :: 0 <= i < |ops| ==> batch[i] == (ops[i], ops[i].payload.span)
  {
    seq(|ops|, i requires 0 <= i < |ops| => (ops[i], ops[i].payload.span))
  }

  ghost function DeliverOps<B>(d: Deliveries<Envelope<B>>, ops: seq<Operation<Envelope<B>>>): Deliveries<Envelope<B>> {
    DeliverBatch(d, Spanned(ops))
  }

  /** One id names one operation, across the log and within a message. */
  ghost predicate OneContent<B>(d: Deliveries<Envelope<B>>, ops: seq<Operation<Envelope<B>>>) {
    Agreeing(d, Spanned(ops))
  }

  /** The same, by membership. */
  lemma {:induction false} OneContentMeans<B>(d: Deliveries<Envelope<B>>, ops: seq<Operation<Envelope<B>>>)
    ensures OneContent(d, ops) <==>
      && (forall op :: op in ops && op.id in d ==> d[op.id] == Delivery(op.payload, op.payload.span))
      && (forall x, y :: x in ops && y in ops && x.id == y.id ==> x == y)
  {
    if forall x, y :: x in ops && y in ops && x.id == y.id ==> x == y {
      assert forall i :: 0 <= i < |ops| ==> ops[i] in ops;
    }
    if OneContent(d, ops) {
      forall x, y | x in ops && y in ops && x.id == y.id ensures x == y {
        var i :| 0 <= i < |ops| && ops[i] == x;
        var j :| 0 <= j < |ops| && ops[j] == y;
        assert Spanned(ops)[i] == (x, x.payload.span) && Spanned(ops)[j] == (y, y.payload.span);
      }
      forall op | op in ops && op.id in d ensures d[op.id] == Delivery(op.payload, op.payload.span) {
        var i :| 0 <= i < |ops| && ops[i] == op;
        assert Spanned(ops)[i] == (op, op.payload.span);
      }
    }
  }

  lemma {:induction false} DeliverOne<B>(d: Deliveries<Envelope<B>>, ops: seq<Operation<Envelope<B>>>,
          op: Operation<Envelope<B>>)
    ensures DeliverOps(d, ops + [op]) == DeliverOps(d, ops)[op.id := Delivery(op.payload, op.payload.span)]
  {
    assert Spanned(ops + [op])[..|ops|] == Spanned(ops);
  }

  lemma {:induction false} OpsRecorded<B>(d: Deliveries<Envelope<B>>, ops: seq<Operation<Envelope<B>>>, id: OpId)
    ensures var now := DeliverOps(d, ops);
      && (id in d ==> id in now)
      && (id in now && !(id in d && now[id] == d[id]) ==>
            exists op :: op in ops && op.id == id && now[id] == Delivery(op.payload, op.payload.span))
  {
    BatchEntries(d, Spanned(ops), id);
    var now := DeliverOps(d, ops);
    if id in now && !(id in d && now[id] == d[id]) {
      var j :| 0 <= j < |ops| && ops[j].id == id && now[id] == Delivery(ops[j].payload, Spanned(ops)[j].1);
      assert ops[j] in ops;
    }
  }

  lemma {:induction false} OpsAgree<B>(d: Deliveries<Envelope<B>>, ops: seq<Operation<Envelope<B>>>, i: nat)
    requires OneContent(d, ops) && i < |ops|
    ensures var now := DeliverOps(d, ops[..i]); ops[i].id in now ==> now[ops[i].id].payload == ops[i].payload
  {
    assert Spanned(ops)[..i] == Spanned(ops[..i]);
    BatchAgrees(d, Spanned(ops), i);
  }

  lemma NothingMore<B>(d: Deliveries<Envelope<B>>)
    ensures DeliverOps(d, []) == d && OneContent(d, [])
  {
  }

  lemma PrepareKeeps<B>(d: Deliveries<Envelope<B>>, message: seq<Operation<Envelope<B>>>, i: nat,
          prepared: seq<Operation<Envelope<B>>>)
    requires OneContent(d, message) && i < |message| && forall op :: op in prepared ==> op in message[..i]
    ensures OneContent(d, prepared + [message[i]])
  {
    OneContentMeans(d, message);
    OneContentMeans(d, prepared + [message[i]]);
    assert message[i] in message && forall op :: op in prepared ==> op in message;
  }

  /** An operation already in the log adds nothing to what was delivered. */
  lemma KnownAlready<B>(l: Log<Envelope<B>>, message: seq<Operation<Envelope<B>>>, i: nat)
    requires LogOk(l) && SpansTrue(l) && OneContent(l.delivered, message) && i < |message| && message[i].id in l.ops
    ensures var now := DeliverOps(l.delivered,
        message[..i]); now == now[message[i].id := Delivery(message[i].payload, message[i].payload.span)]
  {
    hide LogOk, OneContent, DeliverOps;
    var op := message[i];
    ReadyIfApplied(l, op.id);
    OneContentMeans(l.delivered, message);
    OpsRecorded(l.delivered, message[..i], op.id);
    assert op in message && forall x :: x in message[..i] ==> x in message;
  }

  // ----- whole runs

  lemma {:induction false} DeliverInTurn<B>(d: Deliveries<Envelope<B>>, first: seq<Operation<Envelope<B>>>,
          later: seq<Operation<Envelope<B>>>)
    ensures DeliverOps(DeliverOps(d, first), later) == DeliverOps(d, first + later)
    decreases |later|
  {
    if later == [] {
      assert first + later == first;
    } else {
      var init, last := later[..|later| - 1], later[|later| - 1];
      DeliverInTurn(d, first, init);
      DeliverOne(DeliverOps(d, first), init, last);
      DeliverOne(d, first + init, last);
      assert init + [last] == later && first + init + [last] == first + later;
    }
  }

  /** What one operation among `ops` leaves recorded under its id. */
  lemma {:induction false} OpRecorded<B>(d: Deliveries<Envelope<B>>, ops: seq<Operation<Envelope<B>>>,
          op: Operation<Envelope<B>>)
    requires op in ops && forall x, y :: x in ops && y in ops && x.id == y.id ==> x == y
    ensures var now := DeliverOps(d, ops); op.id in now && now[op.id] == Delivery(op.payload, op.payload.span)
  {
    var init, last := ops[..|ops| - 1], ops[|ops| - 1];
    assert ops == init + [last] && last in ops;
    DeliverOne(d, init, last);
    if last.id != op.id {
      OpRecorded(d, init, op);
    }
  }

  ghost predicate SameOps<B>(xs: seq<Operation<Envelope<B>>>, ys: seq<Operation<Envelope<B>>>) {
    (forall op :: op in xs ==> op in ys) && (forall op :: op in ys ==> op in xs)
  }

  /** The deliveries of a run are decided by the set of operations in it. */
  lemma SameOpsSameDeliveries<B>(xs: seq<Operation<Envelope<B>>>, ys: seq<Operation<Envelope<B>>>)
    requires OneContent(map[], xs) && OneContent(map[], ys) && SameOps(xs, ys)
    ensures DeliverOps(map[], xs) == DeliverOps(map[], ys)
  {
    hide DeliverOps, OneContent;
    OneContentMeans(map[], xs);
    OneContentMeans(map[], ys);
    var a, b := DeliverOps<B>(map[], xs), DeliverOps<B>(map[], ys);
    forall id ensures (id in a <==> id in b) && (id in a && id in b ==> a[id] == b[id]) {
      OpsRecorded(map[], xs, id);
      OpsRecorded(map[], ys, id);
      if id in a {
        var op :| op in xs && op.id == id && a[id] == Delivery(op.payload, op.payload.span);
        OpRecorded(map[], ys, op);
      }
      if id in b {
        var op :| op in ys && op.id == id && b[id] == Delivery(op.payload, op.payload.span);
        OpRecorded(map[], xs, op);
      }
    }
  }

  ghost predicate AllWellFormed<B>(ops: seq<Operation<Envelope<B>>>) {
    forall op :: op in ops ==> WellFormed(op)
  }

  /** A local commit, or a message of foreign operations that may also echo all the session's own. */
  datatype Event<+B> =
    | Local(span: nat, body: B, observing: bool)
    | Remote(batch: seq<Operation<Envelope<B>>>, echo: bool)

  /** The foreign operations of a run. */
  ghost function Foreign<B>(events: seq<Event<B>>): seq<Operation<Envelope<B>>> {
    if events == [] then []
    else
      var e := events[|events| - 1];
      Foreign(events[..|events| - 1]) + if e.Remote? then e.batch else []
  }

  /** Local commits take counters; messages are well formed, give an id one content, and use no id of the own peer. */
  ghost predicate Possible<B>(peer: PeerId, events: seq<Event<B>>) {
    && (forall i :: 0 <= i < |events| && events[i].Local? ==> events[i].span > 0)
    && OneContent(map[], Foreign(events)) && AllWellFormed(Foreign(events))
    && forall op :: op in Foreign(events) ==> op.id.peer != peer
  }

  lemma {:induction false} ForeignHolds<B>(events: seq<Event<B>>, i: nat)
    requires i < |events|
    ensures events[i].Remote? ==> forall op :: op in events[i].batch ==> op in Foreign(events)
    decreases |events|
  {
    var n := |events| - 1;
    if i < n {
      ForeignHolds(events[..n], i);
    }
  }

  /** What was handed over in a run: foreign operations, and those the session itself issued. */
  ghost predicate HandedOver<B>(peer: PeerId, foreign: seq<Operation<Envelope<B>>>, issued: seq<Operation<Envelope<B>>>,
          ops: seq<Operation<Envelope<B>>>, next: nat) {
    && (forall op :: op in ops ==> if op.id.peer == peer then op in issued else op in foreign)
    && (forall op :: op in issued ==> op in ops && op.id.peer == peer && op.id.counter < next && WellFormed(op))
    && (forall i, j :: 0 <= i < j < |issued| ==> issued[i].id != issued[j].id)
  }

  lemma HandedOnce<B>(peer: PeerId, foreign: seq<Operation<Envelope<B>>>, issued: seq<Operation<Envelope<B>>>,
          ops: seq<Operation<Envelope<B>>>, next: nat)
    requires HandedOver(peer, foreign, issued, ops, next) && OneContent(map[], foreign)
    ensures OneContent(map[], ops)
  {
    OneContentMeans(map[], foreign);
    OneContentMeans(map[], ops);
    forall x, y | x in ops && y in ops && x.id == y.id ensures x == y {
      if x.id.peer == peer {
        var i :| 0 <= i < |issued| && issued[i] == x;
        var j :| 0 <= j < |issued| && issued[j] == y;
      }
    }
  }

  lemma MessageFits<B>(peer: PeerId, foreign: seq<Operation<Envelope<B>>>, issued: seq<Operation<Envelope<B>>>,
          ops: seq<Operation<Envelope<B>>>, next: nat, batch: seq<Operation<Envelope<B>>>, echo: bool)
    requires HandedOver(peer, foreign, issued, ops, next) && OneContent(map[], foreign) && AllWellFormed(foreign)
    requires forall op :: op in batch ==> op in foreign && op.id.peer != peer
    ensures var message := batch + if echo then issued else [];
      && OneContent(DeliverOps(map[], ops), message) && AllWellFormed(message)
      && HandedOver(peer, foreign, issued, ops + message, next)
      && forall op :: op in message && op.id.peer == peer ==> op in ops
  {
    var message := batch + if echo then issued else [];
    assert forall op :: op in message ==> op in batch || op in issued;
    HandedOnce(peer, foreign, issued, ops, next);
    assert HandedOver(peer, foreign, issued, ops + message, next);
    HandedOnce(peer, foreign, issued, ops + message, next);
    OneContentMeans(map[], ops + message);
    var d := DeliverOps<B>(map[], ops);
    OneContentMeans(d, message);
    hide OneContent, DeliverOps;
    forall op | op in message && op.id in d ensures d[op.id] == Delivery(op.payload, op.payload.span) {
      OpsRecorded(map[], ops, op.id);
      var x :| x in ops && x.id == op.id && d[op.id] == Delivery(x.payload, x.payload.span);
      assert x in ops + message && op in ops + message;
    }
    assert forall x, y :: x in message && y in message && x.id == y.id ==> x == y;
  }

  /** Foreign messages leave the own clock alone. */
  lemma OwnStays<B>(a: Log<Envelope<B>>, b: Log<Envelope<B>>, peer: PeerId, message: seq<Operation<Envelope<B>>>)
    requires LogOk(b) && Covers(b.vector, a.vector) && OwnLogged(a, peer, Get(a.vector, peer) + 1)
    requires b.delivered == DeliverOps(a.delivered, message) && Unpruned(b) && Settled(b)
    requires forall op :: op in message && op.id.peer == peer ==> op.id in a.delivered
    ensures Get(b.vector, peer) == Get(a.vector, peer) && OwnLogged(b, peer, Get(b.vector, peer) + 1)
  {
    hide LogOk, Settled;
    forall id | id in b.delivered && id.peer == peer ensures id in a.delivered {
      OpsRecorded(a.delivered, message, id);
    }
    OwnFrontier(b, peer);
    forall id | id in b.delivered && id.peer == peer ensures id in b.ops {
      BelowIsLogged(b, id);
    }
  }

  lemma OwnFrontier<P>(l: Log<P>, peer: PeerId)
    requires LogOk(l)
    ensures Get(l.vector, peer) > 0 ==> OpId(Get(l.vector, peer), peer) in l.delivered
  {
    if Get(l.vector, peer) > 0 {
      FrontierAttained(l.order, peer);
      ReadyIfApplied(l, OpId(Get(l.vector, peer), peer));
    }
  }

  /** In a settled log, nothing at or below the frontier waits. */
  lemma BelowIsLogged<B>(l: Log<Envelope<B>>, id: OpId)
    requires LogOk(l) && Settled(l) && Unpruned(l) && id in l.delivered && id.counter <= Get(l.vector, id.peer)
    ensures id in l.ops
  {
    hide Clocked;
    if id in l.pending {
      assert false;
    }
    assert id in AppliedIds(l.order);
  }

  /** The local commits of a run. */
  ghost function Locals<B>(events: seq<Event<B>>): seq<Event<B>> {
    if events == [] then []
    else
      var e := events[|events| - 1];
      Locals(events[..|events| - 1]) + if e.Local? then [e] else []
  }

  /** How many counters local commits take. */
  ghost function SpanSum<B>(locals: seq<Event<B>>): nat {
    if locals == [] then 0
    else
      var e := locals[|locals| - 1];
      SpanSum(locals[..|locals| - 1]) + if e.Local? then e.span else 0
  }

  /** Operation `k` is what local commit `k` asks for, under the counters right after those of the commits before it. */
  ghost predicate IssuedAt<B>(peer: PeerId, locals: seq<Event<B>>, issued: seq<Operation<Envelope<B>>>, k: nat)
    requires k < |locals| == |issued|
  {
    var e, op := locals[k], issued[k];
    && e.Local? && WellFormed(op) && op.payload.span == e.span && op.payload.body == e.body
    && op.id == OpId(SpanSum(locals[..k + 1]), peer) && SpanStart(op.id.counter, e.span) == SpanSum(locals[..k]) + 1
    && (op.payload.observed.Some? <==> e.observing)
    && (e.observing ==> Get(op.payload.observed.value, peer) == SpanSum(locals[..k]))
  }

  /** One operation per local commit, in order, over adjacent ranges of counters that start at 1. */
  ghost predicate IssuedFor<B>(peer: PeerId, locals: seq<Event<B>>, issued: seq<Operation<Envelope<B>>>) {
    |issued| == |locals| && forall k :: 0 <= k < |locals| ==> IssuedAt(peer, locals, issued, k)
  }

  lemma IssuedNext<B>(peer: PeerId, locals: seq<Event<B>>, issued: seq<Operation<Envelope<B>>>, e: Event<B>,
          op: Operation<Envelope<B>>)
    requires IssuedFor(peer, locals, issued) && e.Local? && e.span > 0 && WellFormed(op)
    requires op.payload.span == e.span && op.payload.body == e.body && op.id == OpId(SpanSum(locals) + e.span, peer)
    requires op.payload.observed.Some? <==> e.observing
    requires e.observing ==> Get(op.payload.observed.value, peer) == SpanSum(locals)
    ensures IssuedFor(peer, locals + [e], issued + [op]) && SpanSum(locals + [e]) == SpanSum(locals) + e.span
  {
    var n := |locals|;
    assert (locals + [e])[..n] == locals && (locals + [e])[..n + 1] == locals + [e];
    forall k | 0 <= k < n + 1 ensures IssuedAt(peer, locals + [e], issued + [op], k) {
      if k < n {
        assert IssuedAt(peer, locals, issued, k);
        assert (locals + [e])[..k] == locals[..k] && (locals + [e])[..k + 1] == locals[..k + 1];
      }
    }
  }

  lemma LocalsNext<B>(events: seq<Event<B>>, i: nat)
    requires i < |events|
    ensures Locals(events[..i + 1])
         == if events[i].Local? then Locals(events[..i]) + [events[i]] else Locals(events[..i])
  {
    assert events[..i + 1][..i] == events[..i];
  }

  predicate NoRepeats(doc: seq<OpId>) {
    forall i, j :: 0 <= i < j < |doc| ==> doc[i] != doc[j]
  }

  /** The operations a run hands to its session: the foreign ones and those it issued. */
  ghost function Handed<B>(events: seq<Event<B>>, issued: seq<Operation<Envelope<B>>>): seq<Operation<Envelope<B>>> {
    Foreign(events) + issued
  }

  /** `s` went through the events: what was delivered, what was issued, the clock and the document all follow. */
  ghost predicate Ran<B>(peer: PeerId, events: seq<Event<B>>, s: Session<B>, issued: seq<Operation<Envelope<B>>>)
    reads s, s.sync
  {
    && s.peer == peer && s.Valid() && s.OwnClock()
    && IssuedFor(peer, Locals(events), issued) && s.nextCounter == SpanSum(Locals(events)) + 1
    && s.sync.delivered == DeliverOps(map[], Handed(events, issued)) && OneContent(map[], Handed(events, issued))
    && NoRepeats(s.document) && (forall op :: op in issued ==> op.id in s.document)
    && (events == [] || events[|events| - 1].Remote? ==>
          ShowsReady(s.sync.Value(), s.document) && CausallyClosed(s.sync.Value(), s.document))
  }

  /** One local commit of a run. */
  method IssueOne<B>(s: Session<B>, e: Event<B>, ghost locals: seq<Event<B>>,
          ghost foreign: seq<Operation<Envelope<B>>>, issued: seq<Operation<Envelope<B>>>,
          ghost ops: seq<Operation<Envelope<B>>>)
    returns (more: seq<Operation<Envelope<B>>>, ghost all: seq<Operation<Envelope<B>>>)
    requires s.Valid() && s.OwnClock() && e.Local? && e.span > 0 && s.sync.delivered == DeliverOps(map[], ops)
    requires HandedOver(s.peer, foreign, issued, ops, s.nextCounter)
    requires IssuedFor(s.peer, locals, issued) && s.nextCounter == SpanSum(locals) + 1
    requires forall op :: op in issued ==> op.id in s.document
    modifies s, s.sync
    ensures s.Valid() && s.OwnClock() && s.sync.delivered == DeliverOps(map[], all)
    ensures HandedOver(s.peer, foreign, more, all, s.nextCounter) && ops <= all
    ensures IssuedFor(s.peer, locals + [e], more) && s.nextCounter == SpanSum(locals + [e]) + 1
    ensures forall op :: op in more ==> op.id in s.document
  {
    hide LogOk, Tracks, Settled, SpansTrue, DeliverOps, OwnLogged, HandedOver, ShowsReady, IssuedFor, NoneAwaits;
    ghost var was := s.nextCounter;
    var op := s.CommitLocal(e.span, e.body, e.observing);
    DeliverOne(map[], ops, op);
    Issued(s.peer, foreign, issued, ops, op, was, s.nextCounter);
    IssuedNext(s.peer, locals, issued, e, op);
    more, all := issued + [op], ops + [op];
  }

  /** One message of a run. */
  method TakeMessage<B>(s: Session<B>, batch: seq<Operation<Envelope<B>>>, echo: bool,
          ghost foreign: seq<Operation<Envelope<B>>>, issued: seq<Operation<Envelope<B>>>,
          ghost ops: seq<Operation<Envelope<B>>>)
    returns (ghost all: seq<Operation<Envelope<B>>>)
    requires s.Valid() && s.OwnClock() && s.sync.delivered == DeliverOps(map[], ops)
    requires HandedOver(s.peer, foreign, issued, ops, s.nextCounter)
    requires OneContent(map[], foreign) && AllWellFormed(foreign)
    requires forall op :: op in batch ==> op in foreign && op.id.peer != s.peer
    modifies s, s.sync
    ensures s.Valid() && s.OwnClock() && s.sync.delivered == DeliverOps(map[], all)
    ensures HandedOver(s.peer, foreign, issued, all, s.nextCounter)
    ensures s.nextCounter == old(s.nextCounter) && old(s.document) <= s.document
    ensures ops <= all && (forall op :: op in batch ==> op in all)
    ensures ShowsReady(s.sync.Value(), s.document) && CausallyClosed(s.sync.Value(), s.document)
  {
    hide LogOk, Tracks, Settled, OneContent, SpansTrue, AllWellFormed, DeliverOps, OwnLogged, HandedOver, ShowsReady,
         CausallyClosed;
    MessageFits(s.peer, foreign, issued, ops, s.nextCounter, batch, echo);
    var message := batch + if echo then issued else [];
    ghost var before := s.sync.Value();
    BatchWellFormed(message);
    var ok := s.ApplyRemote(message);
    EchoesKnown(ops, message, s.peer);
    StillUnpruned(s);
    OwnStays(before, s.sync.Value(), s.peer, message);
    DeliverInTurn<B>(map[], ops, message);
    all := ops + message;
  }

  /** A new session that goes through the events, and the operations it issued on the way. */
  method Run<B>(peer: PeerId, events: seq<Event<B>>) returns (s: Session<B>, issued: seq<Operation<Envelope<B>>>)
    requires Possible(peer, events)
    ensures fresh(s) && fresh(s.sync) && Ran(peer, events, s, issued)
  {
    hide LogOk, Tracks, Settled, OneContent, SpansTrue, AllWellFormed, DeliverOps, OwnLogged, HandedOver, ShowsReady,
         Foreign, Locals, IssuedFor, NoRepeats, CausallyClosed;
    s := new Session<B>(peer);
    ghost var ops: seq<Operation<Envelope<B>>> := [];
    issued := [];
    NothingYet(s.sync.Value());
    NothingHanded(peer, Foreign(events));
    assert events[..0] == [];
    for i := 0 to |events|
      invariant fresh(s) && fresh(s.sync) && s.peer == peer && s.Valid() && s.OwnClock()
      invariant s.sync.delivered == DeliverOps(map[], ops)
      invariant HandedOver(peer, Foreign(events), issued, ops, s.nextCounter)
      invariant forall op :: op in Foreign(events[..i]) ==> op in ops
      invariant IssuedFor(peer, Locals(events[..i]), issued) && s.nextCounter == SpanSum(Locals(events[..i])) + 1
      invariant forall op :: op in issued ==> op.id in s.document
      invariant i == 0 || events[i - 1].Remote? ==>
          ShowsReady(s.sync.Value(), s.document) && CausallyClosed(s.sync.Value(), s.document)
    {
      ForeignNext(events, i);
      LocalsNext(events, i);
      match events[i]
      case Local(_, _, _) =>
        issued, ops := IssueOne(s, events[i], Locals(events[..i]), Foreign(events), issued, ops);
      case Remote(batch, echo) =>
        ForeignHolds(events, i);
        ops := TakeMessage(s, batch, echo, Foreign(events), issued, ops);
    }
    assert events[..|events|] == events;
    HandedOnce(peer, Foreign(events), issued, ops, s.nextCounter);
    AllHanded(peer, Foreign(events), issued, ops, s.nextCounter);
    SameOpsSameDeliveries(ops, Foreign(events) + issued);
    StillUnpruned(s);
  }

  lemma ForeignNext<B>(events: seq<Event<B>>, i: nat)
    requires i < |events|
    ensures Foreign(events[..i + 1]) == Foreign(events[..i]) + if events[i].Remote? then events[i].batch else []
  {
    assert events[..i + 1][..i] == events[..i];
  }

  lemma NothingYet<B>(l: Log<Envelope<B>>)
    requires l.delivered == map[] && l.ops == map[]
    ensures DeliverOps<B>(map[], []) == map[] && Foreign<B>([]) == [] && Locals<B>([]) == [] && ShowsReady(l, [])
    ensures CausallyClosed(l, [])
    ensures forall peer :: IssuedFor<B>(peer, [], [])
  {
  }

  lemma NothingHanded<B>(peer: PeerId, foreign: seq<Operation<Envelope<B>>>)
    ensures HandedOver(peer, foreign, [], [], 1)
  {
  }

  lemma AllHanded<B>(peer: PeerId, foreign: seq<Operation<Envelope<B>>>, issued: seq<Operation<Envelope<B>>>,
          ops: seq<Operation<Envelope<B>>>, next: nat)
    requires HandedOver(peer, foreign, issued, ops, next) && OneContent(map[], ops) && forall op :: op in foreign ==>
        op in ops
    ensures SameOps(ops, foreign + issued) && OneContent(map[], foreign + issued)
    ensures forall op :: op in issued ==> op.id.peer == peer
  {
    OneContentMeans(map[], ops);
    OneContentMeans(map[], foreign + issued);
    assert forall op :: op in foreign + issued <==> op in foreign || op in issued;
  }

  lemma StillUnpruned<B>(s: Session<B>)
    requires s.Valid()
    ensures Unpruned(s.sync.Value()) && NoRepeats(s.document)
  {
  }

  lemma Issued<B>(peer: PeerId, foreign: seq<Operation<Envelope<B>>>, issued: seq<Operation<Envelope<B>>>,
          ops: seq<Operation<Envelope<B>>>, op: Operation<Envelope<B>>, was: nat, next: nat)
    requires op.id.peer == peer && WellFormed(op) && was <= op.id.counter < next
    requires HandedOver(peer, foreign, issued, ops, was)
    ensures HandedOver(peer, foreign, issued + [op], ops + [op], next)
  {
    assert forall i :: 0 <= i < |issued| ==> issued[i] in issued;
    assert forall x :: x in issued + [op] <==> x in issued || x == op;
    assert forall x :: x in ops + [op] <==> x in ops || x == op;
  }

  lemma EchoesKnown<B>(ops: seq<Operation<Envelope<B>>>, message: seq<Operation<Envelope<B>>>, peer: PeerId)
    requires forall op :: op in message && op.id.peer == peer ==> op in ops
    ensures forall op :: op in message && op.id.peer == peer ==> op.id in DeliverOps<B>(map[], ops)
  {
    forall op | op in message && op.id.peer == peer ensures op.id in DeliverOps<B>(map[], ops) {
      Recorded(ops, op);
    }
  }

  lemma {:induction false} Recorded<B>(ops: seq<Operation<Envelope<B>>>, op: Operation<Envelope<B>>)
    requires op in ops
    ensures op.id in DeliverOps<B>(map[], ops)
  {
    var init, last := ops[..|ops| - 1], ops[|ops| - 1];
    assert ops == init + [last];
    DeliverOne(map[], init, last);
    if last != op {
      Recorded(init, op);
    }
  }

  lemma BatchWellFormed<B>(ops: seq<Operation<Envelope<B>>>)
    requires AllWellFormed(ops)
    ensures forall i :: 0 <= i < |ops| ==> WellFormed(ops[i])
  {
  }

  /**
   * Two replicas that edit and exchange messages, in any order, cut into messages in any way and with any
   * repetition: once both have been handed the same operations, their own included, they hold the same log
   * and have applied the same operations to the document, each of them once.
   */
  method RunBothWays<B>(peer: PeerId, events: seq<Event<B>>, other: PeerId, others: seq<Event<B>>)
    returns (a: Session<B>, b: Session<B>, issued: seq<Operation<Envelope<B>>>, issuedB: seq<Operation<Envelope<B>>>)
    requires Possible(peer, events) && Possible(other, others)
    requires events != [] && events[|events| - 1].Remote? && others != [] && others[|others| - 1].Remote?
    ensures Ran(peer, events, a, issued) && Ran(other, others, b, issuedB)
    ensures SameOps(Handed(events, issued), Handed(others, issuedB)) ==>
      && multiset(a.document) == multiset(b.document)
      && a.sync.ops == b.sync.ops && a.sync.stateVector == b.sync.stateVector && a.sync.pending == b.sync.pending
  {
    hide Ran, Possible, Handed, SameOps;
    a, issued := Run(peer, events);
    b, issuedB := Run(other, others);
    if SameOps(Handed(events, issued), Handed(others, issuedB)) {
      RunsAgree(peer, events, a, issued, other, others, b, issuedB);
    }
  }

  /** Sessions that were handed the same operations agree on the log and on what reached the document. */
  lemma RunsAgree<B>(peer: PeerId, events: seq<Event<B>>, a: Session<B>, issued: seq<Operation<Envelope<B>>>,
          other: PeerId, others: seq<Event<B>>, b: Session<B>, issuedB: seq<Operation<Envelope<B>>>)
    requires Ran(peer, events, a, issued) && Ran(other, others, b, issuedB)
    requires events != [] && events[|events| - 1].Remote? && others != [] && others[|others| - 1].Remote?
    requires SameOps(Handed(events, issued), Handed(others, issuedB))
    ensures multiset(a.document) == multiset(b.document) && a.sync.ops == b.sync.ops
    ensures a.sync.stateVector == b.sync.stateVector && a.sync.pending == b.sync.pending
  {
    hide LogOk, Settled, DeliverOps, ShowsReady, SameOps, OneContent, OwnLogged, Handed, IssuedFor;
    SameOpsSameDeliveries(Handed(events, issued), Handed(others, issuedB));
    LogConfluence(a.sync.Value(), b.sync.Value());
    SameDeliveriesSameEffects(a.sync.Value(), b.sync.Value(), a.document, b.document);
    OnceEach(a.document, b.document);
  }

  lemma OnceEach(x: seq<OpId>, y: seq<OpId>)
    requires NoRepeats(x) && NoRepeats(y)
    requires forall id :: id in x <==> id in y
    ensures multiset(x) == multiset(y)
  {
    forall id ensures multiset(x)[id] == multiset(y)[id] {
      Once(x, id);
      Once(y, id);
    }
  }

  lemma {:induction false} Once(x: seq<OpId>, id: OpId)
    requires forall i, j :: 0 <= i < j < |x| ==> x[i] != x[j]
    ensures multiset(x)[id] == if id in x then 1 else 0
  {
    if x != [] {
      var init := x[..|x| - 1];
      assert x == init + [x[|x| - 1]];
      Once(init, id);
    }
  }
}
