/**
 Where a row ends up (src/doc/mod.rs `move_row`, `resolve_pending_row_moves`), whatever the order in which its insert
 and its moves arrive.
 */
module AxisOrder {
  import opened OpIds
  import opened TreeOrder
  import opened Rga
  import opened TableAxis

  /** The author of `a` had seen `b`. */
  predicate Sees(a: PendingMove, b: PendingMove) {
    Get(a.observed, b.id.peer) >= b.id.counter
  }

  // ----- moves of a row that is there

  /** The history after a move that does not wait. */
  ghost function Moved<X>(h: History<Placement<X>>, m: PendingMove, blank: X): History<Placement<X>> {
    MoveStep(State(h, []), m, blank).history
  }

  ghost function MovedAll<X>(h: History<Placement<X>>, ms: seq<PendingMove>, blank: X): History<Placement<X>> {
    if ms == [] then h else Moved(MovedAll(h, ms[..|ms| - 1], blank), ms[|ms| - 1], blank)
  }

  /** The move can be placed: its id is new, and what it hangs under is there. */
  ghost predicate CanPlace<X>(h: History<Placement<X>>, m: PendingMove) {
    m.id !in h.links && m.id !in h.deleted && (m.after == None || Listed(h, m.after.value))
  }

  /** `c` is where the row is, and it got there by its insert (`last` is `None`) or by the move `last`. */
  ghost predicate At<X>(h: History<Placement<X>>, row: OpId, last: Option<PendingMove>) {
    var c := if last.Some? then last.value.id else row;
    && Current(h, FromOp(row), c) && h.values[c].elemId == c
    && (last.Some? ==> c != row && h.values[c].observed == last.value.observed)
  }

  lemma RootedUnder(links: Links, id: OpId, link: Link)
    requires id !in links && (link.after == None || (link.after.value in links && Rooted(links, link.after.value)))
    ensures Rooted(links[id := link], id)
    ensures forall x :: Rooted(links, x) ==> Rooted(links[id := link], x)
  {
    var more := links[id := link];
    forall x | Rooted(links, x) ensures Rooted(more, x) {
      PathStable(links, more, x);
    }
    PathOfChild(more, id);
  }

  /** Where a row is, is one place. */
  lemma AtIsCurrent<X>(h: History<Placement<X>>, row: OpId, last: Option<PendingMove>)
    requires Safe(h) && At(h, row, last)
    ensures CurrentOf(h, FromOp(row)) == Some(if last.Some? then last.value.id else row)
  {
    hide Rooted;
  }

  /** Whether a move displaces the one that put the row where it is. */
  predicate Displaces(m: PendingMove, last: Option<PendingMove>) {
    last.None? || Sees(m, last.value) || (!Sees(last.value, m) && Less(last.value.id, m.id))
  }

  lemma WinsIsDisplaces<X>(h: History<Placement<X>>, row: OpId, last: Option<PendingMove>, m: PendingMove)
    requires At(h, row, last) && (last.Some? ==> last.value.id != m.id)
    ensures Wins(h.values[if last.Some? then last.value.id else row], m.id, m.observed) <==> Displaces(m, last)
  {
    hide Rooted;
  }

  /** What a move leaves of the links and strikes. */
  ghost predicate Adds<X>(h: History<Placement<X>>, h': History<Placement<X>>, m: PendingMove, struck: OpId) {
    h'.links == h.links[m.id := Link(m.after, m.rightOrigin)] && h'.deleted <= h.deleted + {m.id, struck}
  }

  /** The current placement is struck and the next one made: the row is at the new one. */
  lemma RowFollows<X>(h: History<Placement<X>>, row: OpId, c: OpId, m: PendingMove)
    requires Safe(h) && Current(h, FromOp(row), c) && m.id != row && CanPlace(h, m)
    ensures var h' := Replaced(h, c, m.id, m.after, m.rightOrigin, m.observed);
      Safe(h') && At(h', row, Some(m)) && Adds(h, h', m, c)
  {
    RootedUnder(h.links, m.id, Link(m.after, m.rightOrigin));
    hide Rooted, Safe;
    var op := SequenceOp.Insert(m.after, m.id, h.values[c].(elemId := m.id, observed := m.observed), m.rightOrigin);
    WinningSafe(h, c, op);
    Placing(h, op, c, Deliver(Deliver(h, Delete(c, op.id)), op));
    hide Deliver;
  }

  /** A placement that is struck at once leaves the row where it is. */
  lemma RowIsStill<X>(h: History<Placement<X>>, row: OpId, last: Option<PendingMove>, m: PendingMove,
          value: Placement<X>)
    requires Safe(h) && At(h, row, last) && CanPlace(h, m) && value.elemId == m.id
    ensures var h' := PlacedAndStruck(h, m, value); Safe(h') && At(h', row, last) && Adds(h, h', m, m.id)
  {
    RootedUnder(h.links, m.id, Link(m.after, m.rightOrigin));
    hide Rooted, Safe;
    var op := SequenceOp.Insert(m.after, m.id, value, m.rightOrigin);
    LosingSafe(h, op);
    Placing(h, op, m.id, PlacedAndStruck(h, m, value));
    hide Deliver;
  }

  /** One move of a row that is there: the row goes along if the move displaces the last one, else it stays. */
  lemma OneMove<X>(h: History<Placement<X>>, row: OpId, last: Option<PendingMove>, m: PendingMove, blank: X)
    requires Safe(h) && At(h, row, last) && m.logical == FromOp(row) && m.id != row && CanPlace(h, m)
    ensures var h' := Moved(h, m, blank);
      && Safe(h') && At(h', row, if Displaces(m, last) then Some(m) else last)
      && Adds(h, h', m, if last.Some? then last.value.id else row)
  {
    var c := if last.Some? then last.value.id else row;
    AtIsCurrent(h, row, last);
    WinsIsDisplaces(h, row, last, m);
    hide Rooted, Safe, Wins, Displaces, PlacedAndStruck, Replaced;
    if Displaces(m, last) {
      RowFollows(h, row, c, m);
    } else {
      RowIsStill(h, row, last, m, h.values[c].(elemId := m.id));
    }
  }

  // ----- any number of moves

  /** New ids, each once, all of the one row, hung under what is there. */
  ghost predicate Fit<X>(h: History<Placement<X>>, row: OpId, ms: seq<PendingMove>) {
    && (forall i :: 0 <= i < |ms| ==> CanPlace(h, ms[i]) && ms[i].logical == FromOp(row) && ms[i].id != row)
    && OneEach(ms)
  }

  ghost predicate OneEach(ms: seq<PendingMove>) {
    forall i, j :: 0 <= i < j < |ms| ==> ms[i].id != ms[j].id
  }

  /** Whoever has seen a move gives its own a greater id. */
  ghost predicate IdsFollow(ms: seq<PendingMove>) {
    forall i, j :: 0 <= i < |ms| && 0 <= j < |ms| && i != j && Sees(ms[i], ms[j]) ==> Less(ms[j].id, ms[i].id)
  }

  /** No move has a greater id. */
  ghost predicate Greatest(ms: seq<PendingMove>, m: PendingMove) {
    m in ms && forall x :: x in ms && x != m ==> Less(x.id, m.id)
  }

  /** From `h` to `h'` only ids of `ids` were placed, and only they or the row were struck. */
  ghost predicate Extends<X>(h: History<Placement<X>>, h': History<Placement<X>>, row: OpId, ids: set<OpId>) {
    && (forall x :: x in h.links ==> x in h'.links && h'.links[x] == h.links[x])
    && h'.links.Keys <= h.links.Keys + ids && h'.deleted <= h.deleted + ids + {row}
  }

  lemma ExtendsNext<X>(h: History<Placement<X>>, h': History<Placement<X>>, h'': History<Placement<X>>, row: OpId,
          ids: set<OpId>, m: PendingMove, struck: OpId)
    requires Extends(h, h', row, ids) && m.id !in h'.links && (struck == row || struck in ids)
    requires Adds(h', h'', m, struck)
    ensures Extends(h, h'', row, ids + {m.id})
  {
  }

  lemma StillFits<X>(h: History<Placement<X>>, h': History<Placement<X>>, row: OpId, ids: set<OpId>, m: PendingMove)
    requires CanPlace(h, m) && Extends(h, h', row, ids) && m.id !in ids && m.id != row
    ensures CanPlace(h', m)
  {
    if m.after.Some? {
      PathStable(h.links, h'.links, m.after.value);
    }
  }

  /** The move that puts the row where it ends, among moves that arrive in this order. */
  function Survivor(ms: seq<PendingMove>): (last: Option<PendingMove>)
    ensures last.None? <==> ms == []
    ensures last.Some? ==> last.value in ms
  {
    if ms == [] then None
    else
      var m, last := ms[|ms| - 1], Survivor(ms[..|ms| - 1]);
      if Displaces(m, last) then Some(m) else last
  }

  lemma IdsNext(ms: seq<PendingMove>, k: nat)
    requires k < |ms| && OneEach(ms)
    ensures MoveIds(ms[..k + 1]) == MoveIds(ms[..k]) + {ms[k].id} && ms[k].id !in MoveIds(ms[..k])
  {
    assert ms[..k + 1] == ms[..k] + [ms[k]];
  }

  /** The row after the first `k` moves. */
  ghost predicate Through<X>(h: History<Placement<X>>, row: OpId, ms: seq<PendingMove>, blank: X) {
    var h' := MovedAll(h, ms, blank);
    Safe(h') && At(h', row, Survivor(ms)) && Extends(h, h', row, MoveIds(ms))
  }

  lemma NoneMoved<X>(h: History<Placement<X>>, row: OpId, blank: X)
    requires Safe(h) && At(h, row, None)
    ensures Through(h, row, [], blank)
  {
  }

  lemma ThroughNext<X>(h: History<Placement<X>>, row: OpId, ms: seq<PendingMove>, k: nat, blank: X)
    requires k < |ms| && Fit(h, row, ms) && Through(h, row, ms[..k], blank)
    ensures Through(h, row, ms[..k + 1], blank)
  {
    hide Safe, At, CanPlace, Extends, MoveIds, Displaces, Moved;
    assert ms[..k + 1][..k] == ms[..k];
    IdsNext(ms, k);
    OneMoreMoved(h, MovedAll(h, ms[..k], blank), row, ms[..k], ms[k], Survivor(ms[..k]), blank);
  }

  /** After any moves, in any order, the row is where the surviving move put it. */
  lemma AllMoved<X>(h: History<Placement<X>>, row: OpId, ms: seq<PendingMove>, blank: X)
    requires Safe(h) && At(h, row, None) && Fit(h, row, ms)
    ensures Through(h, row, ms, blank)
  {
    hide *;
    NoneMoved(h, row, blank);
    assert ms[..0] == [];
    for k := 0 to |ms|
      invariant Through(h, row, ms[..k], blank)
    {
      ThroughNext(h, row, ms, k, blank);
    }
    assert ms[..|ms|] == ms;
  }

  lemma OneMoreMoved<X>(h: History<Placement<X>>, h': History<Placement<X>>, row: OpId, ms: seq<PendingMove>,
          m: PendingMove, prior: Option<PendingMove>, blank: X)
    requires Safe(h') && At(h', row, prior) && Extends(h, h', row, MoveIds(ms)) && (prior.Some? ==> prior.value in ms)
    requires CanPlace(h, m) && m.logical == FromOp(row) && m.id != row && m.id !in MoveIds(ms)
    ensures var h'' := Moved(h', m, blank);
      && Safe(h'') && At(h'', row, if Displaces(m, prior) then Some(m) else prior)
      && Extends(h, h'', row, MoveIds(ms) + {m.id})
  {
    hide Safe, At, CanPlace, Extends, MoveIds, Displaces, Moved;
    StillFits(h, h', row, MoveIds(ms), m);
    NewHere(h', m);
    OneMove(h', row, prior, m, blank);
    if prior.Some? {
      IsId(ms, prior.value);
    }
    ExtendsNext(h, h', Moved(h', m, blank), row, MoveIds(ms), m, if prior.Some? then prior.value.id else row);
  }

  lemma IsId(ms: seq<PendingMove>, m: PendingMove)
    requires m in ms
    ensures m.id in MoveIds(ms)
  {
  }

  lemma EndsAt<X>(h: History<Placement<X>>, row: OpId, ms: seq<PendingMove>, blank: X)
    requires Safe(h) && At(h, row, None) && Fit(h, row, ms)
    ensures CurrentOf(MovedAll(h, ms, blank), FromOp(row)) == Some(if ms == [] then row else Survivor(ms).value.id)
  {
    AllMoved(h, row, ms, blank);
    hide Safe, At;
    AtIsCurrent(MovedAll(h, ms, blank), row, Survivor(ms));
  }

  lemma NewHere<X>(h: History<Placement<X>>, m: PendingMove)
    requires CanPlace(h, m)
    ensures m.id !in h.links
  {
  }

  // ----- when the order of arrival does not matter

  /** No other move displaces it. */
  ghost predicate Dominates(ms: seq<PendingMove>, g: PendingMove) {
    g in ms && forall x :: x in ms && x != g ==> !Displaces(x, Some(g))
  }

  lemma {:induction false} DominantSurvives(ms: seq<PendingMove>, g: PendingMove, k: nat)
    requires Dominates(ms, g) && k <= |ms| && g in ms[..k] && OneEach(ms)
    ensures Survivor(ms[..k]) == Some(g)
    decreases k
  {
    var m, init := ms[k - 1], ms[..k - 1];
    assert ms[..k] == init + [m] && ms[..k][..k - 1] == init && m in ms;
    if g in init {
      DominantSurvives(ms, g, k - 1);
      assert m != g;
    } else if init != [] {
      var last := Survivor(init).value;
      assert last in ms && last != g;
      SameIdSameMove(ms, last, g);
      assert Displaces(g, Some(last));
    }
  }

  /** Once displaced, a move never comes back. */
  lemma {:induction false} GoneForGood(first: seq<PendingMove>, rest: seq<PendingMove>, g: PendingMove)
    requires first != [] && Survivor(first) != Some(g) && g !in rest
    ensures Survivor(first + rest) != Some(g)
    decreases |rest|
  {
    if rest == [] {
      assert first + rest == first;
    } else {
      var init := rest[..|rest| - 1];
      assert (first + rest)[..|first + rest| - 1] == first + init;
      GoneForGood(first, init, g);
    }
  }

  /** The same moves, one of each, in some order. */
  ghost predicate SameMoves(a: seq<PendingMove>, b: seq<PendingMove>) {
    OneEach(a) && forall m :: m in a <==> m in b
  }

  /** The moves without two of them. */
  ghost function Others(ms: seq<PendingMove>, x: PendingMove, y: PendingMove): (rest: seq<PendingMove>)
    ensures forall m :: m in rest <==> m in ms && m != x && m != y
    ensures OneEach(ms) ==> OneEach(rest)
  {
    if ms == [] then []
    else
      var m, init := ms[|ms| - 1], Others(ms[..|ms| - 1], x, y);
      assert ms == ms[..|ms| - 1] + [m];
      assert forall i :: 0 <= i < |init| ==> init[i] in ms[..|ms| - 1];
      if m == x || m == y then init else init + [m]
  }

  lemma Fronted(ms: seq<PendingMove>, x: PendingMove, y: PendingMove)
    requires OneEach(ms) && x in ms && y in ms && x != y
    ensures SameMoves([x, y] + Others(ms, x, y), ms)
  {
    var rest := Others(ms, x, y);
    SameIdSameMove(ms, x, y);
    forall i | 0 <= i < |rest| ensures rest[i].id != x.id && rest[i].id != y.id {
      assert rest[i] in rest;
      SameIdSameMove(ms, rest[i], x);
      SameIdSameMove(ms, rest[i], y);
    }
    assert forall m :: m in [x, y] + rest <==> m == x || m == y || m in rest;
  }

  /** A move survives every order of arrival exactly if it dominates. */
  lemma SurvivesEveryOrder(ms: seq<PendingMove>, g: PendingMove)
    requires g in ms && OneEach(ms)
    ensures (forall order :: SameMoves(order, ms) ==> Survivor(order) == Some(g)) <==> Dominates(ms, g)
  {
    if Dominates(ms, g) {
      forall order | SameMoves(order, ms) ensures Survivor(order) == Some(g) {
        DominantSurvives(order, g, |order|);
        assert order[..|order|] == order;
      }
    } else {
      var x :| x in ms && x != g && Displaces(x, Some(g));
      Fronted(ms, g, x);
      SurvivorOfTwo(g, x);
      GoneForGood([g, x], Others(ms, g, x), g);
    }
  }

  lemma SurvivorOfTwo(a: PendingMove, b: PendingMove)
    ensures Survivor([a, b]) == Some(if Displaces(b, Some(a)) then b else a)
  {
    assert [a, b][..1] == [a] && [a][..0] == [];
    assert Survivor([a]) == Some(a);
  }

  /** The exact condition for a row: every order of its moves leaves it at `g` if and only if `g` dominates. */
  lemma EveryOrderEndsAt<X>(h: History<Placement<X>>, row: OpId, ms: seq<PendingMove>, g: PendingMove, blank: X)
    requires Safe(h) && At(h, row, None) && Fit(h, row, ms) && g in ms
    ensures (forall order :: SameMoves(order, ms) ==> CurrentOf(MovedAll(h, order, blank), FromOp(row)) == Some(g.id))
       <==> Dominates(ms, g)
  {
    hide Dominates, Survivor, CurrentOf, CanPlace, Safe, At, Displaces;
    SurvivesEveryOrder(ms, g);
    forall order | SameMoves(order, ms)
      ensures CurrentOf(MovedAll(h, order, blank), FromOp(row)) == Some(g.id) <==> Survivor(order) == Some(g)
    {
      assert order != [];
      assert forall i :: 0 <= i < |order| ==> order[i] in order;
      EndsAt(h, row, order, blank);
      SameIdSameMove(ms, Survivor(order).value, g);
    }
  }

  lemma SameIdSameMove(ms: seq<PendingMove>, a: PendingMove, b: PendingMove)
    requires a in ms && b in ms && OneEach(ms)
    ensures a.id == b.id ==> a == b
  {
  }

  /** If ids grow along what was seen, the greatest id dominates, so there every order agrees. */
  lemma GreatestDominates(ms: seq<PendingMove>, g: PendingMove)
    requires IdsFollow(ms) && Greatest(ms, g)
    ensures Dominates(ms, g)
  {
    var k :| 0 <= k < |ms| && ms[k] == g;
    forall x | x in ms && x != g ensures !Displaces(x, Some(g)) {
      var i :| 0 <= i < |ms| && ms[i] == x;
      assert Less(x.id, g.id);
    }
  }

  /** Two moves: one dominates unless each had seen the other. */
  lemma TwoMovesAgree(a: PendingMove, b: PendingMove)
    requires a.id != b.id
    ensures (Dominates([a, b], a) || Dominates([a, b], b)) <==> !(Sees(a, b) && Sees(b, a))
  {
    assert a in [a, b] && b in [a, b];
  }

  /** Three moves of which none dominates, though no two have seen each other: `c` saw `a`, and ids run the other
      way. */
  lemma ThreeMovesDisagree(a: PendingMove, b: PendingMove, c: PendingMove)
    requires a.id == OpId(3, 1) && a.observed == map[] && b.id == OpId(2, 2) && b.observed == map[]
    requires c.id == OpId(1, 3) && c.observed == map[1 := 3]
    ensures Survivor([a, c, b]) == Some(b) && Survivor([a, b, c]) == Some(c)
    ensures forall g :: g in [a, b, c] ==> !Dominates([a, b, c], g)
  {
    assert [a, c, b][..2] == [a, c] && [a, b, c][..2] == [a, b];
    SurvivorOfTwo(a, c);
    SurvivorOfTwo(a, b);
    var ms := [a, b, c];
    assert a in ms && b in ms && c in ms;
    assert Displaces(c, Some(a)) && Displaces(a, Some(b)) && Displaces(b, Some(c));
  }

  // ----- moves that arrive before their row

  /** The moves of a row, or those of all others. */
  ghost function Filtered(moves: seq<PendingMove>, row: OpId, own: bool): (ms: seq<PendingMove>)
    ensures forall m :: m in ms <==> m in moves && (m.logical == FromOp(row) <==> own)
  {
    if moves == [] then []
    else
      var m, init := moves[|moves| - 1], Filtered(moves[..|moves| - 1], row, own);
      assert moves == moves[..|moves| - 1] + [m];
      if m.logical == FromOp(row) <==> own then init + [m] else init
  }

  lemma {:induction false} FilteredById(moves: seq<PendingMove>, row: OpId, own: bool)
    requires ById(moves)
    ensures ById(Filtered(moves, row, own))
  {
    if moves != [] {
      var m, init := moves[|moves| - 1], moves[..|moves| - 1];
      FilteredById(init, row, own);
      var ms := Filtered(init, row, own);
      forall i | 0 <= i < |ms| ensures Less(ms[i].id, m.id) {
        assert ms[i] in ms && ms[i] in init;
      }
    }
  }

  ghost function OfRow(moves: seq<PendingMove>, row: OpId): seq<PendingMove> {
    Filtered(moves, row, true)
  }

  ghost function OfOthers(moves: seq<PendingMove>, row: OpId): seq<PendingMove> {
    Filtered(moves, row, false)
  }

  /** A move of a row that is not there waits. */
  lemma EarlyWaits<X>(s: State<X>, m: PendingMove, blank: X)
    requires Safe(s.history) && m.logical == FromOp(m.target) && m.target !in s.history.links
    ensures MoveStep(s, m, blank) == s.(pending := s.pending + [m])
  {
    hide Rooted;
  }

  /** The row has just been inserted, under something that is there. */
  lemma JustInserted<X>(h: History<Placement<X>>, row: OpId, after: Option<OpId>, rightOrigin: Option<OpId>, data: X)
    requires Safe(h) && row !in h.links && row !in h.deleted && (after == None || Listed(h, after.value))
    ensures var h' := Deliver(h, RowInsert(after, rightOrigin, row, data));
      && Safe(h') && At(h', row, None) && h'.links == h.links[row := Link(after, rightOrigin)]
      && h'.deleted == h.deleted
  {
    InsertSafe(h, RowInsert(after, rightOrigin, row, data));
    RootedUnder(h.links, row, Link(after, rightOrigin));
    hide Rooted;
  }

  /** The moves that waited for a row run, in id order; the others wait on. */
  lemma {:induction false} WaitingRun<X>(h: History<Placement<X>>, moves: seq<PendingMove>, row: OpId, blank: X)
    requires Safe(h) && At(h, row, None) && Fit(h, row, OfRow(moves, row))
    requires forall m :: m in OfRow(moves, row) ==> m.target == row
    ensures ResolveStep(h, moves, FromOp(row), blank)
         == State(MovedAll(h, OfRow(moves, row), blank), OfOthers(moves, row))
    decreases |moves|
  {
    if moves != [] {
      var m, init := moves[|moves| - 1], moves[..|moves| - 1];
      var ms := OfRow(init, row);
      if m.logical == FromOp(row) {
        assert (ms + [m])[..|ms|] == ms;
        FitFewer(h, row, ms, m);
        WaitingRun(h, init, row, blank);
        RowStays(h, row, ms, blank);
        NoWait(MovedAll(h, ms, blank), OfOthers(init, row), m, blank);
      } else {
        WaitingRun(h, init, row, blank);
      }
    }
  }

  lemma FitFewer<X>(h: History<Placement<X>>, row: OpId, ms: seq<PendingMove>, m: PendingMove)
    requires Fit(h, row, ms + [m])
    ensures Fit(h, row, ms)
  {
    hide CanPlace;
    assert forall i :: 0 <= i < |ms| ==> (ms + [m])[i] == ms[i];
  }

  lemma RowStays<X>(h: History<Placement<X>>, row: OpId, ms: seq<PendingMove>, blank: X)
    requires Safe(h) && At(h, row, None) && Fit(h, row, ms)
    ensures Listed(MovedAll(h, ms, blank), row)
  {
    AllMoved(h, row, ms, blank);
    PathStable(h.links, MovedAll(h, ms, blank).links, row);
  }

  /** A move whose target is there does not wait. */
  lemma NoWait<X>(h: History<Placement<X>>, pending: seq<PendingMove>, m: PendingMove, blank: X)
    requires Listed(h, m.target)
    ensures MoveStep(State(h, pending), m, blank) == State(Moved(h, m, blank), pending)
  {
    hide Rooted, CurrentOf, Wins;
  }

  lemma {:induction false} MovedInTurn<X>(h: History<Placement<X>>, a: seq<PendingMove>, b: seq<PendingMove>, blank: X)
    ensures MovedAll(MovedAll(h, a, blank), b, blank) == MovedAll(h, a + b, blank)
    decreases |b|
  {
    if b == [] {
      assert a + b == a;
    } else {
      assert (a + b)[..|a + b| - 1] == a + b[..|b| - 1];
      MovedInTurn(h, a, b[..|b| - 1], blank);
    }
  }

  /** All moves of a row: those that waited for it and those that came after it. */
  ghost function AllOf(pending: seq<PendingMove>, row: OpId, late: seq<PendingMove>): seq<PendingMove> {
    OfRow(SortedMoves(pending), row) + late
  }

  /** A row and its moves in any order of arrival: with some moves waiting when the row comes and the others following,
      the row ends at the move that dominates all of them. */
  lemma ArrivesInAnyOrder<X>(s: State<X>, row: OpId, after: Option<OpId>, rightOrigin: Option<OpId>, data: X,
          late: seq<PendingMove>, g: PendingMove, blank: X)
    requires Safe(s.history) && row !in s.history.links && row !in s.history.deleted
    requires after == None || Listed(s.history, after.value)
    requires Fit(Deliver(s.history, RowInsert(after, rightOrigin, row, data)), row, AllOf(s.pending, row, late))
    requires forall m :: m in OfRow(SortedMoves(s.pending), row) ==> m.target == row
    requires Dominates(AllOf(s.pending, row, late), g)
    ensures var h := MovedAll(InsertStep(s, after, rightOrigin, row, data, blank).history, late, blank);
      CurrentOf(h, FromOp(row)) == Some(g.id)
  {
    hide Safe, At, CurrentOf, CanPlace, ResolveStep, SortedMoves, Dominates, Survivor;
    var h1 := Deliver(s.history, RowInsert(after, rightOrigin, row, data));
    var waiting, all := OfRow(SortedMoves(s.pending), row), AllOf(s.pending, row, late);
    JustInserted(s.history, row, after, rightOrigin, data);
    FitFront(h1, row, waiting, late);
    WaitingRun(h1, SortedMoves(s.pending), row, blank);
    MovedInTurn(h1, waiting, late, blank);
    EndsAt(h1, row, all, blank);
    DominantEnds(all, g);
  }

  lemma DominantEnds(ms: seq<PendingMove>, g: PendingMove)
    requires Dominates(ms, g) && OneEach(ms)
    ensures ms != [] && Survivor(ms) == Some(g)
  {
    assert ms[..|ms|] == ms;
    DominantSurvives(ms, g, |ms|);
  }

  lemma FitFront<X>(h: History<Placement<X>>, row: OpId, a: seq<PendingMove>, b: seq<PendingMove>)
    requires Fit(h, row, a + b)
    ensures Fit(h, row, a)
  {
    hide CanPlace;
    assert forall i :: 0 <= i < |a| ==> (a + b)[i] == a[i];
  }

  /** The row inserted after one of its moves, with no other of them waiting. */
  lemma MoveFirst<X>(s: State<X>, row: OpId, after: Option<OpId>, rightOrigin: Option<OpId>, data: X, m: PendingMove,
          blank: X)
    requires Safe(s.history) && row !in s.history.links && row !in s.history.deleted
    requires after == None || Listed(s.history, after.value)
    requires m.logical == FromOp(row) && m.target == row && m.id != row
    requires OneEach(s.pending + [m]) && forall w :: w in s.pending ==> w.logical != FromOp(row)
    requires CanPlace(Deliver(s.history, RowInsert(after, rightOrigin, row, data)), m)
    ensures var h1 := Deliver(s.history, RowInsert(after, rightOrigin, row, data));
      InsertStep(MoveStep(s, m, blank), after, rightOrigin, row, data, blank)
        == State(Moved(h1, m, blank), SortedMoves(s.pending))
  {
    hide Safe, At, CurrentOf, CanPlace, ResolveStep, SortedMoves, MoveStep, Listed, Deliver, Moved;
    var h1 := Deliver(s.history, RowInsert(after, rightOrigin, row, data));
    EarlyWaits(s, m, blank);
    JustInserted(s.history, row, after, rightOrigin, data);
    OneWaiting(s.pending, m, row);
    WaitingRun(h1, SortedMoves(s.pending + [m]), row, blank);
    MovedOnce(h1, m, blank);
  }

  /** The row inserted before one of its moves, with none of them waiting. */
  lemma RowFirst<X>(s: State<X>, row: OpId, after: Option<OpId>, rightOrigin: Option<OpId>, data: X, m: PendingMove,
          blank: X)
    requires Safe(s.history) && row !in s.history.links && row !in s.history.deleted
    requires after == None || Listed(s.history, after.value)
    requires m.target == row && OneEach(s.pending) && forall w :: w in s.pending ==> w.logical != FromOp(row)
    ensures var h1 := Deliver(s.history, RowInsert(after, rightOrigin, row, data));
      MoveStep(InsertStep(s, after, rightOrigin, row, data, blank), m, blank)
        == State(Moved(h1, m, blank), SortedMoves(s.pending))
  {
    hide Safe, At, CurrentOf, CanPlace, ResolveStep, SortedMoves, MoveStep, Listed, Deliver, Moved;
    var h1 := Deliver(s.history, RowInsert(after, rightOrigin, row, data));
    JustInserted(s.history, row, after, rightOrigin, data);
    NoneWaiting(s.pending, row);
    WaitingRun(h1, SortedMoves(s.pending), row, blank);
    MovedOnce(h1, m, blank);
    RowStays(h1, row, [], blank);
    NoWait(h1, SortedMoves(s.pending), m, blank);
  }

  /** A move that comes before its row and one that comes after it leave the same axis behind, with the row where the
      move put it and the inserted placement struck. */
  lemma EarlyOrLate<X>(s: State<X>, row: OpId, after: Option<OpId>, rightOrigin: Option<OpId>, data: X, m: PendingMove,
          blank: X)
    requires Safe(s.history) && row !in s.history.links && row !in s.history.deleted
    requires after == None || Listed(s.history, after.value)
    requires m.logical == FromOp(row) && m.target == row && m.id != row
    requires OneEach(s.pending + [m]) && forall w :: w in s.pending ==> w.logical != FromOp(row)
    requires CanPlace(Deliver(s.history, RowInsert(after, rightOrigin, row, data)), m)
    ensures InsertStep(MoveStep(s, m, blank), after, rightOrigin, row, data, blank)
         == MoveStep(InsertStep(s, after, rightOrigin, row, data, blank), m, blank)
    ensures var h := InsertStep(MoveStep(s, m, blank), after, rightOrigin, row, data, blank).history;
      Live(h, m.id) && !Live(h, row) && CurrentOf(h, FromOp(row)) == Some(m.id)
  {
    hide Safe, At, CurrentOf, CanPlace, InsertStep, SortedMoves, MoveStep, Listed, Deliver, Moved, Live;
    var h1 := Deliver(s.history, RowInsert(after, rightOrigin, row, data));
    assert forall i :: 0 <= i < |s.pending| ==> (s.pending + [m])[i] == s.pending[i];
    MoveFirst(s, row, after, rightOrigin, data, m, blank);
    RowFirst(s, row, after, rightOrigin, data, m, blank);
    JustInserted(s.history, row, after, rightOrigin, data);
    EndsAt(h1, row, [m], blank);
    MovedOnce(h1, m, blank);
    FirstSurvives(m);
    FirstStrikes(h1, row, m, blank);
  }

  lemma MovedOnce<X>(h: History<Placement<X>>, m: PendingMove, blank: X)
    ensures MovedAll(h, [m], blank) == Moved(h, m, blank) && MovedAll(h, [], blank) == h
  {
    assert [m][..0] == [];
  }

  lemma FirstSurvives(m: PendingMove)
    ensures Survivor([m]) == Some(m)
  {
    assert [m][..0] == [];
  }

  /** The first move of a row strikes the placement of its insert. */
  lemma FirstStrikes<X>(h: History<Placement<X>>, row: OpId, m: PendingMove, blank: X)
    requires Safe(h) && At(h, row, None) && m.logical == FromOp(row) && m.id != row && CanPlace(h, m)
    ensures Live(Moved(h, m, blank), m.id) && !Live(Moved(h, m, blank), row)
  {
    OneMove(h, row, None, m, blank);
    hide Rooted;
    var h' := Moved(h, m, blank);
    assert Live(h', m.id) && h'.values[m.id].id == FromOp(row);
    AtIsCurrent(h, row, None);
    WinsIsDisplaces(h, row, None, m);
  }

  lemma NoMoves()
    ensures ById([])
  {
  }

  lemma {:induction false} NoneWaiting(pending: seq<PendingMove>, row: OpId)
    requires OneEach(pending) && forall w :: w in pending ==> w.logical != FromOp(row)
    ensures OfRow(SortedMoves(pending), row) == [] && OfOthers(SortedMoves(pending), row) == SortedMoves(pending)
  {
    SortedMovesSort(pending);
    hide SortedMoves, OneEach, ById;
    var sorted := SortedMoves(pending);
    FilteredById(sorted, row, true);
    FilteredById(sorted, row, false);
    NoMoves();
    MovesUnique(OfRow(sorted, row), []);
    MovesUnique(OfOthers(sorted, row), sorted);
  }

  lemma {:induction false} OneWaiting(pending: seq<PendingMove>, m: PendingMove, row: OpId)
    requires OneEach(pending + [m]) && m.logical == FromOp(row) && forall w :: w in pending ==> w.logical != FromOp(row)
    ensures OfRow(SortedMoves(pending + [m]), row) == [m]
    ensures OfOthers(SortedMoves(pending + [m]), row) == SortedMoves(pending)
  {
    assert forall i :: 0 <= i < |pending| ==> (pending + [m])[i] == pending[i];
    SortedMovesSort(pending + [m]);
    SortedMovesSort(pending);
    var sorted := SortedMoves(pending + [m]);
    assert m in pending + [m] && m in sorted;
    assert forall w :: w in pending + [m] <==> w in pending || w == m;
    FilteredById(sorted, row, true);
    FilteredById(sorted, row, false);
    MovesUnique(OfRow(sorted, row), [m]);
    MovesUnique(OfOthers(sorted, row), SortedMoves(pending));
  }
}
