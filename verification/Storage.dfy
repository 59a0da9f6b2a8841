/** Snapshots in two slots, with a crash possible before any write reaches the disk (src/storage/mod.rs). */
module Storage {
  import opened OpIds

  type Bytes = seq<bv8>

  datatype Snapshot = Snapshot(payload: Bytes, pendingOps: Bytes, indexFlag: bool)

  /** A superblock describes the segment of its own slot by length and checksum. */
  datatype Superblock = Superblock(generation: nat, indexFlag: bool, pendingOps: Bytes, segmentChecksum: nat,
      segmentLength: nat)

  /** The two files of a slot; each is replaced atomically. */
  datatype Slot = Slot(superblock: Option<Superblock>, segment: Option<Bytes>)

  datatype ReadError = Missing | Corrupt

  datatype ReadResult = Read(snapshot: Snapshot) | Failed(error: ReadError)

  function Generation(slot: Slot): nat {
    if slot.superblock.Some? then slot.superblock.value.generation else 0
  }

  /** The segment passes the superblock's length and checksum tests. */
  predicate Matches(slot: Slot, sum: Bytes -> nat) {
    && slot.superblock.Some? && slot.segment.Some?
    && |slot.segment.value| == slot.superblock.value.segmentLength
    && sum(slot.segment.value) == slot.superblock.value.segmentChecksum
  }

  /** The superblock of a snapshot. */
  function Describes(snapshot: Snapshot, generation: nat, sum: Bytes -> nat): Superblock {
    Superblock(generation, snapshot.indexFlag, snapshot.pendingOps, sum(snapshot.payload), |snapshot.payload|)
  }

  /** A segment passes for a snapshot exactly if it has the length and the checksum of its payload. */
  lemma PassesFor(snapshot: Snapshot, generation: nat, sum: Bytes -> nat, segment: Bytes)
    ensures Matches(Slot(Some(Describes(snapshot, generation, sum)), Some(segment)), sum)
       <==> |segment| == |snapshot.payload| && sum(segment) == sum(snapshot.payload)
    ensures segment == snapshot.payload ==>
      Held(Slot(Some(Describes(snapshot, generation, sum)), Some(segment))) == snapshot
  {
  }

  function Held(slot: Slot): Snapshot
    requires slot.superblock.Some? && slot.segment.Some?
  {
    Snapshot(slot.segment.value, slot.superblock.value.pendingOps, slot.superblock.value.indexFlag)
  }

  /** Slot `i` has the newest superblock, which matches its segment and describes `committed`. */
  ghost predicate Publishes(a: Slot, b: Slot, sum: Bytes -> nat, committed: Snapshot) {
    var newest, other := if Generation(a) > Generation(b) then a else b, if Generation(a) > Generation(b) then b else a;
    Generation(newest) > Generation(other) && Matches(newest, sum) && Held(newest) == committed
  }

  /** The disk holds `committed`, whatever an interrupted write left in the other slot. */
  ghost predicate Stores(a: Slot, b: Slot, sum: Bytes -> nat, committed: Option<Snapshot>) {
    && (a.superblock.Some? ==> a.superblock.value.generation > 0)
    && (b.superblock.Some? ==> b.superblock.value.generation > 0)
    && if committed.None? then a.superblock.None? && b.superblock.None?
       else Publishes(a, b, sum, committed.value)
  }

  class Store {
    const sum: Bytes -> nat
    var a: Slot
    var b: Slot
    /** How many more disk writes happen before the power fails. */
    var budget: nat

    constructor (sum: Bytes -> nat)
      ensures this.sum == sum && Stores(a, b, sum, None)
    {
      this.sum := sum;
      a, b, budget := Slot(None, None), Slot(None, None), 0;
    }

    /** Replace one file of the slot that is not the newest; false if the power fails first. */
    method AtomicWrite(intoA: bool, superblock: Option<Superblock>, segment: Option<Bytes>) returns (done: bool)
      modifies this
      ensures done == (old(budget) > 0)
      ensures !done ==> a == old(a) && b == old(b) && budget == 0
      ensures done ==> budget == old(budget) - 1
      ensures done && intoA ==> b == old(b) && a == Replaced(old(a), superblock, segment)
      ensures done && !intoA ==> a == old(a) && b == Replaced(old(b), superblock, segment)
    {
      done := budget > 0;
      if done {
        budget := budget - 1;
        if intoA {
          a := Replaced(a, superblock, segment);
        } else {
          b := Replaced(b, superblock, segment);
        }
      }
    }

    /** An acknowledged write is what is stored; an interrupted one leaves the old snapshot or the new one. */
    method WriteSnapshot(snapshot: Snapshot, ghost committed: Option<Snapshot>)
      returns (acknowledged: bool, ghost now: Option<Snapshot>)
      requires Stores(a, b, sum, committed)
      modifies this
      ensures Stores(a, b, sum, now) && (now == committed || now == Some(snapshot))
      ensures acknowledged ==> now == Some(snapshot)
      ensures old(budget) >= 2 ==> acknowledged
    {
      var highest := if Generation(a) > Generation(b) then Generation(a) else Generation(b);
      var intoA := Generation(a) <= Generation(b);
      var done := AtomicWrite(intoA, None, Some(snapshot.payload));
      now := committed;
      if !done {
        return false, now;
      }
      var superblock := Describes(snapshot, highest + 1, sum);
      done := AtomicWrite(intoA, Some(superblock), None);
      if !done {
        return false, now;
      }
      return true, Some(snapshot);
    }

    /** The newest slot whose segment matches its superblock, on any disk. */
    method ReadSnapshot(ghost committed: Option<Snapshot>) returns (r: ReadResult)
      ensures Stores(a, b, sum, committed) ==> r == if committed.Some? then Read(committed.value) else Failed(Missing)
      ensures r == Failed(Missing) <==> a.superblock.None? && b.superblock.None?
      ensures r.Read? <==> Matches(a, sum) || Matches(b, sum)
      ensures r.Read? ==> r.snapshot == Held(if Matches(a, sum) && (Matches(b, sum) ==> Generation(a) >= Generation(b))
                                             then a else b)
    {
      var candidates: seq<Slot> := [];
      if a.superblock.Some? {
        candidates := [a];
      }
      if b.superblock.Some? {
        candidates := if candidates != [] && Generation(a) >= Generation(b) then candidates + [b] else [b] + candidates;
      }
      assert a.superblock.Some? && b.superblock.Some? ==>
        candidates == if Generation(a) >= Generation(b) then [a, b] else [b, a];
      assert a.superblock.Some? && b.superblock.None? ==> candidates == [a];
      assert a.superblock.None? && b.superblock.Some? ==> candidates == [b];
      for i := 0 to |candidates|
        invariant i > 0 ==> !Matches(candidates[0], sum)
        invariant i > 1 ==> !Matches(candidates[1], sum)
      {
        if Matches(candidates[i], sum) {
          return Read(Held(candidates[i]));
        }
      }
      return Failed(if candidates != [] then Corrupt else Missing);
    }
  }

  function Replaced(slot: Slot, superblock: Option<Superblock>, segment: Option<Bytes>): Slot {
    Slot(if superblock.Some? then superblock else slot.superblock, if segment.Some? then segment else slot.segment)
  }

  /** What a run of writes, some of them interrupted, may leave: nothing older than the last acknowledged write. */
  ghost predicate Survives(writes: seq<Snapshot>, acknowledged: seq<bool>, at: Option<nat>)
    requires |acknowledged| == |writes|
  {
    && (at.Some? ==> at.value < |writes|)
    && forall i :: 0 <= i < |writes| && acknowledged[i] ==> at.Some? && at.value >= i
  }

  /** Any number of writes from an empty store, the power failing after `budgets[i]` disk writes of the i-th. */
  method WriteDespiteCrashes(sum: Bytes -> nat, writes: seq<Snapshot>, budgets: seq<nat>)
    returns (r: ReadResult, acknowledged: seq<bool>, ghost at: Option<nat>)
    requires |budgets| == |writes|
    ensures |acknowledged| == |writes| && Survives(writes, acknowledged, at)
    ensures r == if at.Some? then Read(writes[at.value]) else Failed(Missing)
    ensures forall i :: 0 <= i < |writes| && budgets[i] >= 2 ==> acknowledged[i]
  {
    var store := new Store(sum);
    acknowledged, at := [], None;
    ghost var committed: Option<Snapshot> := None;
    for i := 0 to |writes|
      invariant fresh(store) && store.sum == sum
      invariant |acknowledged| == i && Survives(writes[..i], acknowledged, at)
      invariant committed == if at.Some? then Some(writes[at.value]) else None
      invariant Stores(store.a, store.b, sum, committed)
      invariant forall k :: 0 <= k < i && budgets[k] >= 2 ==> acknowledged[k]
    {
      store.budget := budgets[i];
      var ok, now := store.WriteSnapshot(writes[i], committed);
      acknowledged := acknowledged + [ok];
      if now != committed || ok {
        at := Some(i);
      }
      committed := now;
    }
    assert writes[..|writes|] == writes;
    r := store.ReadSnapshot(committed);
  }
}
