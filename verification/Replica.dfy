/**
 Replicas end to end: sessions whose operations edit a replicated sequence (src/session/mod.rs over
 src/core/mod.rs). What a session applies to its document is applied to the sequence, in that order.
 */
module Replicas {
  import opened OpIds
  import opened SyncLog
  import opened SyncStates
  import opened Sessions
  import TreeOrder
  import Rga
  import Sequences

  type Edit<T> = Rga.SequenceOp<T>
  type Edits<T> = map<OpId, Envelope<Edit<T>>>

  /** The edits of the operations in `doc`, in its order. */
  function Bodies<T>(doc: seq<OpId>, ops: Edits<T>): (bodies: seq<Edit<T>>)
    requires forall i :: 0 <= i < |doc| ==> doc[i] in ops
    ensures |bodies| == |doc| && forall i :: 0 <= i < |doc| ==> bodies[i] == ops[doc[i]].body
  {
    seq(|doc|, i requires 0 <= i < |doc| => ops[doc[i]].body)
  }

  /** The edits of a run: those of foreign operations and those of local commits. */
  ghost function AllEdits<T>(events: seq<Event<Edit<T>>>): seq<Edit<T>> {
    var foreign, locals := Foreign(events), Locals(events);
    seq(|foreign|, i requires 0 <= i < |foreign| => foreign[i].payload.body) + LocalEdits(locals)
  }

  ghost function LocalEdits<T>(locals: seq<Event<Edit<T>>>): (edits: seq<Edit<T>>)
    ensures forall i :: 0 <= i < |locals| && locals[i].Local? ==> locals[i].body in edits
  {
    if locals == [] then []
    else
      (if locals[0].Local? then [locals[0].body] else []) + LocalEdits(locals[1..])
  }

  lemma DocumentIsLogged<B>(s: Session<B>)
    requires s.Valid()
    ensures forall i :: 0 <= i < |s.document| ==> s.document[i] in s.sync.ops
    ensures forall id :: id in s.sync.ops ==> id in s.sync.delivered && s.sync.ops[id] == s.sync.delivered[id].payload
  {
    assert forall i :: 0 <= i < |s.document| ==> s.document[i] in s.document;
  }

  /** Whatever a run logged carries one of its edits. */
  lemma {:induction false} LoggedIsAnEdit<T>(peer: PeerId, events: seq<Event<Edit<T>>>, s: Session<Edit<T>>,
          issued: seq<Operation<Envelope<Edit<T>>>>, id: OpId)
    requires Ran(peer, events, s, issued) && id in s.sync.ops
    ensures s.sync.ops[id].body in AllEdits(events)
  {
    hide LogOk, Tracks, Settled, OneContent, DeliverOps, OwnLogged, ShowsReady, SpansTrue, NoRepeats, Foreign, Locals;
    LoggedWasDelivered(s, id);
    OpsRecorded(map[], Handed(events, issued), id);
    var op :| op in Handed(events, issued) && op.id == id && s.sync.ops[id] == op.payload;
    var foreign := Foreign(events);
    if op in foreign {
      var i :| 0 <= i < |foreign| && foreign[i] == op;
      assert AllEdits(events)[i] == op.payload.body;
    } else {
      var k :| 0 <= k < |issued| && issued[k] == op;
      assert IssuedAt(peer, Locals(events), issued, k);
    }
  }

  lemma LoggedWasDelivered<B>(s: Session<B>, id: OpId)
    requires s.Valid() && id in s.sync.ops
    ensures id in s.sync.delivered && s.sync.ops[id] == s.sync.delivered[id].payload
  {
    DocumentIsLogged(s);
  }

  lemma BodiesConsistent<T>(peer: PeerId, events: seq<Event<Edit<T>>>, s: Session<Edit<T>>,
          issued: seq<Operation<Envelope<Edit<T>>>>)
    requires Ran(peer, events, s, issued) && Rga.Consistent(AllEdits(events))
    ensures forall i :: 0 <= i < |s.document| ==> s.document[i] in s.sync.ops
    ensures Rga.Consistent(Bodies(s.document, s.sync.ops))
  {
    hide Ran, AllEdits;
    RanIsValid(peer, events, s, issued);
    DocumentIsLogged(s);
    var bodies := Bodies(s.document, s.sync.ops);
    forall b | b in bodies ensures b in AllEdits(events) {
      var i :| 0 <= i < |bodies| && bodies[i] == b;
      LoggedIsAnEdit(peer, events, s, issued, s.document[i]);
    }
  }

  lemma RanIsValid<B>(peer: PeerId, events: seq<Event<B>>, s: Session<B>, issued: seq<Operation<Envelope<B>>>)
    requires Ran(peer, events, s, issued)
    ensures s.Valid()
  {
  }

  /** The sequence holds exactly the edits of the session's document, and shows their canonical listing. */
  ghost predicate ShowsDocument<T>(s: Session<Edit<T>>, text: Sequences.Sequence<T>)
    reads s, s.sync, text
  {
    && text.Valid() && Rga.Renders(text.history, text.elements)
    && (forall i :: 0 <= i < |s.document| ==> s.document[i] in s.sync.ops)
    && text.history == Rga.DeliverAll(Rga.History(map[], map[], {}, {}), Bodies(s.document, s.sync.ops))
  }

  /** The sequence a session shows: its document's edits, applied in document order to a new sequence. */
  method Show<T>(s: Session<Edit<T>>, incremental: bool) returns (text: Sequences.Sequence<T>)
    requires s.Valid() && (forall i :: 0 <= i < |s.document| ==> s.document[i] in s.sync.ops)
    requires Rga.Consistent(Bodies(s.document, s.sync.ops))
    ensures fresh(text) && ShowsDocument(s, text)
  {
    hide LogOk, Tracks, Settled, SpansTrue, Rga.Consistent, Rga.DeliverAll;
    var bodies := Bodies(s.document, s.sync.ops);
    text := new Sequences.Sequence<T>(incremental);
    text.ApplyAll(bodies);
    text.ShowsCanonical();
  }

  lemma {:induction false} SameBodies<T>(doc: seq<OpId>, doc': seq<OpId>, ops: Edits<T>)
    requires multiset(doc) == multiset(doc')
    requires (forall i :: 0 <= i < |doc| ==> doc[i] in ops) && (forall i :: 0 <= i < |doc'| ==> doc'[i] in ops)
    ensures forall b :: b in Bodies(doc, ops) ==> b in Bodies(doc', ops)
  {
    forall b | b in Bodies(doc, ops) ensures b in Bodies(doc', ops) {
      var i :| 0 <= i < |doc| && Bodies(doc, ops)[i] == b;
      assert doc[i] in multiset(doc) && doc[i] in doc';
      var j :| 0 <= j < |doc'| && doc'[j] == doc[i];
      assert Bodies(doc', ops)[j] == b;
    }
  }

  /**
   * The law the whole system is for: two replicas that edit locally and exchange messages, in any order, any
   * batching and with any repetition, show the same elements at the same positions as soon as they have been
   * handed the same operations, under either build of the sequence.
   */
  method ReplicasAgree<T>(peer: PeerId, events: seq<Event<Edit<T>>>, incremental: bool, other: PeerId,
          others: seq<Event<Edit<T>>>, incrementalB: bool)
    returns (a: Session<Edit<T>>, b: Session<Edit<T>>, issued: seq<Operation<Envelope<Edit<T>>>>,
          issuedB: seq<Operation<Envelope<Edit<T>>>>, s: Sequences.Sequence<T>, t: Sequences.Sequence<T>)
    requires Possible(peer, events) && Possible(other, others)
    requires Rga.Consistent(AllEdits(events)) && Rga.Consistent(AllEdits(others))
    requires events != [] && events[|events| - 1].Remote? && others != [] && others[|others| - 1].Remote?
    ensures Ran(peer, events, a, issued) && Ran(other, others, b, issuedB)
    ensures ShowsDocument(a, s) && ShowsDocument(b, t)
    ensures SameOps(Handed(events, issued), Handed(others, issuedB)) ==>
      s.elements == t.elements && s.index == t.index
  {
    hide Ran, Possible, Handed, SameOps, AllEdits, Foreign, Locals, LogOk, Tracks, Settled, SpansTrue;
    hide Rga.Consistent, Rga.Renders, Rga.DeliverAll, Rga.InsertsKept, Rga.DeletesKept, Rga.StrikesKept, Rga.IndexOk,
         Rga.Placed, TreeOrder.Sorted;
    a, issued := Run(peer, events);
    b, issuedB := Run(other, others);
    RanIsValid(peer, events, a, issued);
    RanIsValid(other, others, b, issuedB);
    BodiesConsistent(peer, events, a, issued);
    BodiesConsistent(other, others, b, issuedB);
    s := Show(a, incremental);
    t := Show(b, incrementalB);
    if SameOps(Handed(events, issued), Handed(others, issuedB)) {
      RunsAgree(peer, events, a, issued, other, others, b, issuedB);
      TextsAgree(a.document, b.document, a.sync.ops, s, t);
    }
  }

  /** The same edits give the same text, in whatever order each document holds them. */
  lemma {:induction false} TextsAgree<T>(doc: seq<OpId>, doc': seq<OpId>, ops: Edits<T>, s: Sequences.Sequence<T>,
          t: Sequences.Sequence<T>)
    requires multiset(doc) == multiset(doc')
    requires (forall i :: 0 <= i < |doc| ==> doc[i] in ops) && (forall i :: 0 <= i < |doc'| ==> doc'[i] in ops)
    requires s.Valid() && t.Valid() && Rga.Consistent(Bodies(doc, ops))
    requires s.history == Rga.DeliverAll(Rga.History(map[], map[], {}, {}), Bodies(doc, ops))
    requires t.history == Rga.DeliverAll(Rga.History(map[], map[], {}, {}), Bodies(doc', ops))
    ensures s.elements == t.elements && s.index == t.index
  {
    hide *;
    SameBodies(doc, doc', ops);
    SameBodies(doc', doc, ops);
    Sequences.Convergence(s, t, Bodies(doc, ops), Bodies(doc', ops));
  }
}
