/** Operation identifiers and version vectors (src/core/mod.rs). */
module OpIds {

  datatype Option<+T> = None | Some(value: T)

  type PeerId = nat

  /** Lamport-style id. The derived order compares `counter` first, then `peer`. */
  datatype OpId = OpId(counter: nat, peer: PeerId)

  predicate Less(a: OpId, b: OpId) {
    a.counter < b.counter || (a.counter == b.counter && a.peer < b.peer)
  }

  /** Highest contiguous counter seen per peer; an absent peer reads as 0. */
  type StateVector = map<PeerId, nat>

  function Get(v: StateVector, peer: PeerId): nat {
    if peer in v then v[peer] else 0
  }

  ghost predicate Covers(v: StateVector, w: StateVector) {
    forall p: PeerId :: Get(w, p) <= Get(v, p)
  }

  predicate SortedIds(s: seq<OpId>) {
    forall i, j :: 0 <= i < j < |s| ==> Less(s[i], s[j])
  }

  /** The keys of a map in ascending order, as an ordered map hands them out. */
  method SortedKeys<V>(m: map<OpId, V>) returns (keys: seq<OpId>)
    ensures SortedIds(keys)
    ensures forall id :: id in keys <==> id in m
    ensures |keys| == |m|
  {
    keys := [];
    var rest := m.Keys;
    while rest != {}
      invariant rest <= m.Keys
      invariant forall id :: id in keys <==> id in m.Keys - rest
      invariant SortedIds(keys)
      invariant forall i, id :: 0 <= i < |keys| && id in rest ==> Less(keys[i], id)
      invariant |keys| + |rest| == |m|
      decreases rest
    {
      var least := Least(rest);
      keys := keys + [least];
      rest := rest - {least};
    }
  }

  method Least(s: set<OpId>) returns (least: OpId)
    requires s != {}
    ensures least in s
    ensures forall id :: id in s && id != least ==> Less(least, id)
  {
    least :| least in s;
    var rest := s - {least};
    while rest != {}
      invariant rest <= s && least in s - rest
      invariant forall id :: id in s && id !in rest && id != least ==> Less(least, id)
      decreases rest
    {
      var id :| id in rest;
      rest := rest - {id};
      if Less(id, least) {
        least := id;
      }
    }
  }
}
