/**
 The order of a sequence, stated without any algorithm: every element hangs under the
 element it was inserted after, siblings are ordered by `compare_siblings`, and the
 sequence lists the resulting forest in pre-order. A pre-order walk is the same thing as
 comparing root-to-element paths lexicographically, so that is the definition used here.
 */
module TreeOrder {
  import opened OpIds

  /** What an insert says about its place: its anchor and its right neighbour at creation. */
  datatype Link = Link(after: Option<OpId>, rightOrigin: Option<OpId>)

  type Links = map<OpId, Link>

  /** src/core/mod.rs `compare_siblings(a, b).is_lt()`. */
  predicate CompareSiblings(a: OpId, ra: Option<OpId>, b: OpId, rb: Option<OpId>) {
    match (ra, rb)
    case (Some(x), Some(y)) => if x == y then Less(b, a) else Less(x, y)
    case (Some(_), None) => true
    case (None, Some(_)) => false
    case (None, None) => Less(b, a)
  }

  function RightOrigin(links: Links, id: OpId): Option<OpId> {
    if id in links then links[id].rightOrigin else None
  }

  predicate SiblingLess(links: Links, a: OpId, b: OpId) {
    CompareSiblings(a, RightOrigin(links, a), b, RightOrigin(links, b))
  }

  /** A path from a root insert (no anchor) down to its last id. */
  predicate IsChain(links: Links, p: seq<OpId>) {
    && |p| > 0
    && (forall i :: 0 <= i < |p| ==> p[i] in links)
    && links[p[0]].after == None
    && (forall i :: 1 <= i < |p| ==> HangsUnder(links, p, i))
  }

  /** Step `i` of a path was inserted after the step before it. */
  predicate HangsUnder(links: Links, p: seq<OpId>, i: nat)
    requires 1 <= i < |p|
  {
    p[i] in links && links[p[i]].after == Some(p[i - 1])
  }

  predicate IsPathTo(links: Links, id: OpId, p: seq<OpId>) {
    IsChain(links, p) && p[|p| - 1] == id
  }

  /** An insert whose whole anchor chain has been delivered. */
  ghost predicate Rooted(links: Links, id: OpId) {
    exists p :: IsPathTo(links, id, p)
  }

  ghost function Path(links: Links, id: OpId): (p: seq<OpId>)
    ensures Rooted(links, id) ==> IsPathTo(links, id, p)
  {
    if Rooted(links, id) then var p :| IsPathTo(links, id, p); p else []
  }

  ghost function ParentPath(links: Links, parent: Option<OpId>): seq<OpId> {
    if parent == None then [] else Path(links, parent.value)
  }

  /** Lexicographic order on paths; a proper prefix (an ancestor) comes first. */
  predicate PathLess(links: Links, p: seq<OpId>, q: seq<OpId>) {
    if q == [] then false
    else if p == [] then true
    else if p[0] == q[0] then PathLess(links, p[1..], q[1..])
    else SiblingLess(links, p[0], q[0])
  }

  ghost predicate Before(links: Links, a: OpId, b: OpId) {
    PathLess(links, Path(links, a), Path(links, b))
  }

  ghost predicate Sorted(links: Links, ids: seq<OpId>) {
    forall i, j :: 0 <= i < j < |ids| ==> Before(links, ids[i], ids[j])
  }

  /** `id` lies in the subtree rooted at `top` (or is `top`). */
  ghost predicate InSubtree(links: Links, top: OpId, id: OpId) {
    Path(links, top) <= Path(links, id)
  }

  // ----- sibling order is a strict total order

  lemma SiblingTransitive(links: Links, a: OpId, b: OpId, c: OpId)
    requires SiblingLess(links, a, b) && SiblingLess(links, b, c)
    ensures SiblingLess(links, a, c)
  {
  }

  lemma SiblingTotal(links: Links, a: OpId, b: OpId)
    requires a != b
    ensures SiblingLess(links, a, b) <==> !SiblingLess(links, b, a)
  {
  }

  // ----- path order is a strict total order

  lemma {:induction false} PathTotal(links: Links, p: seq<OpId>, q: seq<OpId>)
    requires p != q
    ensures PathLess(links, p, q) <==> !PathLess(links, q, p)
  {
    if p != [] && q != [] && p[0] == q[0] {
      assert p == [p[0]] + p[1..] && q == [q[0]] + q[1..];
      PathTotal(links, p[1..], q[1..]);
    }
  }

  lemma {:induction false} PathIrreflexive(links: Links, p: seq<OpId>)
    ensures !PathLess(links, p, p)
  {
    if p != [] {
      PathIrreflexive(links, p[1..]);
    }
  }

  lemma {:induction false} PathTransitive(links: Links, p: seq<OpId>, q: seq<OpId>, r: seq<OpId>)
    requires PathLess(links, p, q) && PathLess(links, q, r)
    ensures PathLess(links, p, r)
  {
    if p != [] && p[0] == q[0] && q[0] == r[0] {
      PathTransitive(links, p[1..], q[1..], r[1..]);
    }
  }

  // ----- paths and subtrees

  /** An ancestor precedes everything below it. */
  lemma {:induction false} PrefixLess(links: Links, p: seq<OpId>, q: seq<OpId>)
    requires p <= q && p != q
    ensures PathLess(links, p, q)
  {
    if p != [] {
      assert p[1..] <= q[1..];
      assert p == [p[0]] + p[1..] && q == [q[0]] + q[1..];
      PrefixLess(links, p[1..], q[1..]);
    }
  }

  /** Two paths that part below the same node compare as the nodes where they part. */
  lemma {:induction false} CommonPrefix(links: Links, c: seq<OpId>, p: seq<OpId>, q: seq<OpId>)
    ensures PathLess(links, c + p, c + q) == PathLess(links, p, q)
  {
    if c == [] {
      assert c + p == p && c + q == q;
    } else {
      assert (c + p)[1..] == c[1..] + p && (c + q)[1..] == c[1..] + q;
      CommonPrefix(links, c[1..], p, q);
    }
  }

  /** If `p` precedes `q` and is no ancestor of it, its whole subtree precedes that of `q`. */
  lemma {:induction false} SubtreeLess(links: Links, p: seq<OpId>, q: seq<OpId>, s: seq<OpId>, t: seq<OpId>)
    requires PathLess(links, p, q) && !(p <= q)
    ensures PathLess(links, p + s, q + t)
  {
    if p[0] == q[0] {
      assert (p + s)[1..] == p[1..] + s && (q + t)[1..] == q[1..] + t;
      assert p == [p[0]] + p[1..] && q == [q[0]] + q[1..];
      SubtreeLess(links, p[1..], q[1..], s, t);
    }
  }

  /** Whatever lies between two members of a subtree lies in it: subtrees are contiguous. */
  lemma {:induction false} Sandwich(links: Links, c: seq<OpId>, p: seq<OpId>, q: seq<OpId>, r: seq<OpId>)
    requires c <= p && c <= r
    requires p == q || PathLess(links, p, q)
    requires PathLess(links, q, r)
    ensures c <= q
  {
    if c != [] {
      if q == [] {
        assert false;
      } else if q[0] != c[0] {
        SiblingTotal(links, q[0], c[0]);
        assert false;
      }
      assert c[1..] <= p[1..] && c[1..] <= r[1..];
      if p == q {
        assert p[1..] == q[1..];
      }
      Sandwich(links, c[1..], p[1..], q[1..], r[1..]);
      assert c == [c[0]] + c[1..] && q == [q[0]] + q[1..];
    }
  }

  // ----- chains

  lemma ChainPrefix(links: Links, p: seq<OpId>, k: nat)
    requires IsChain(links, p) && 1 <= k <= |p|
    ensures IsChain(links, p[..k])
  {
    forall i | 1 <= i < k ensures HangsUnder(links, p[..k], i) {
      assert HangsUnder(links, p, i);
    }
  }

  lemma {:induction false} ChainUnique(links: Links, p: seq<OpId>, q: seq<OpId>)
    requires IsChain(links, p) && IsChain(links, q) && p[|p| - 1] == q[|q| - 1]
    ensures p == q
    decreases |p|
  {
    var m, n := |p| - 1, |q| - 1;
    assert m > 0 ==> HangsUnder(links, p, m);
    assert n > 0 ==> HangsUnder(links, q, n);
    if m > 0 {
      ChainPrefix(links, p, m);
      ChainPrefix(links, q, n);
      ChainUnique(links, p[..|p| - 1], q[..|q| - 1]);
      assert p == p[..|p| - 1] + [p[|p| - 1]];
      assert q == q[..|q| - 1] + [q[|q| - 1]];
    }
  }

  lemma PathIs(links: Links, id: OpId, p: seq<OpId>)
    requires IsPathTo(links, id, p)
    ensures Rooted(links, id) && Path(links, id) == p
  {
    ChainUnique(links, p, Path(links, id));
  }

  lemma PathPrefix(links: Links, id: OpId, k: nat)
    requires Rooted(links, id) && 1 <= k <= |Path(links, id)|
    ensures Rooted(links, Path(links, id)[k - 1])
    ensures Path(links, Path(links, id)[k - 1]) == Path(links, id)[..k]
  {
    var p := Path(links, id);
    ChainPrefix(links, p, k);
    PathIs(links, p[k - 1], p[..k]);
  }

  lemma PathOfChild(links: Links, id: OpId)
    requires id in links
    requires links[id].after == None || Rooted(links, links[id].after.value)
    ensures Rooted(links, id)
    ensures Path(links, id) == ParentPath(links, links[id].after) + [id]
  {
    var above := ParentPath(links, links[id].after);
    var p := above + [id];
    forall i | 1 <= i < |p| ensures HangsUnder(links, p, i) {
      assert i < |above| ==> HangsUnder(links, above, i);
    }
    PathIs(links, id, p);
  }

  lemma PathInjective(links: Links, a: OpId, b: OpId)
    requires Rooted(links, a) && Rooted(links, b) && a != b
    ensures Path(links, a) != Path(links, b)
  {
  }

  /** Links are never edited, so a path survives every later delivery. */
  lemma PathStable(links: Links, more: Links, id: OpId)
    requires Rooted(links, id)
    requires forall x :: x in links ==> x in more && more[x] == links[x]
    ensures Rooted(more, id) && Path(more, id) == Path(links, id)
  {
    var p := Path(links, id);
    forall i | 1 <= i < |p| ensures HangsUnder(more, p, i) {
      assert HangsUnder(links, p, i);
    }
    PathIs(more, id, p);
  }

  lemma {:induction false} PathLessStable(links: Links, more: Links, p: seq<OpId>, q: seq<OpId>)
    requires forall x :: x in links ==> x in more && more[x] == links[x]
    requires forall i :: 0 <= i < |p| ==> p[i] in links
    requires forall i :: 0 <= i < |q| ==> q[i] in links
    ensures PathLess(more, p, q) == PathLess(links, p, q)
  {
    if p != [] && q != [] {
      PathLessStable(links, more, p[1..], q[1..]);
    }
  }

  lemma SortedStable(links: Links, more: Links, ids: seq<OpId>)
    requires Sorted(links, ids) && forall i :: 0 <= i < |ids| ==> Rooted(links, ids[i])
    requires forall x :: x in links ==> x in more && more[x] == links[x]
    ensures Sorted(more, ids) && forall i :: 0 <= i < |ids| ==> Rooted(more, ids[i])
  {
    forall i | 0 <= i < |ids|
      ensures Rooted(more, ids[i]) && Path(more, ids[i]) == Path(links, ids[i])
    {
      PathStable(links, more, ids[i]);
    }
    forall i, j | 0 <= i < j < |ids| ensures Before(more, ids[i], ids[j]) {
      assert Before(links, ids[i], ids[j]);
      PathLessStable(links, more, Path(links, ids[i]), Path(links, ids[j]));
    }
  }

  // ----- main consequences

  /** The order leaves no choice: two listings of the same ids are the same list. */
  lemma {:induction false} SortedUnique(links: Links, a: seq<OpId>, b: seq<OpId>)
    requires Sorted(links, a) && Sorted(links, b)
    requires forall id :: id in a <==> id in b
    ensures a == b
  {
    assert a != [] ==> a[0] in b;
    assert b != [] ==> b[0] in a;
    if a != [] {
      var j :| 0 <= j < |b| && b[j] == a[0];
      var i :| 0 <= i < |a| && a[i] == b[0];
      if i > 0 && j > 0 {
        assert Before(links, a[0], b[0]) && Before(links, b[0], a[0]);
        PathTransitive(links, Path(links, a[0]), Path(links, b[0]), Path(links, a[0]));
        PathIrreflexive(links, Path(links, a[0]));
        assert false;
      }
      assert a[0] == b[0];
      forall id ensures id in a[1..] <==> id in b[1..] {
        SameTail(links, a, b, id);
        SameTail(links, b, a, id);
      }
      SortedUnique(links, a[1..], b[1..]);
      assert a == [a[0]] + a[1..] && b == [b[0]] + b[1..];
    }
  }

  lemma SameTail(links: Links, a: seq<OpId>, b: seq<OpId>, id: OpId)
    requires Sorted(links, a) && a != [] && b != [] && a[0] == b[0]
    requires forall x :: x in a <==> x in b
    ensures id in a[1..] ==> id in b[1..]
  {
    if id in a[1..] {
      var k :| 1 <= k < |a| && a[k] == id;
      if id == a[0] {
        assert Before(links, a[0], a[k]);
        PathIrreflexive(links, Path(links, id));
        assert false;
      }
      assert id in b;
    }
  }

  /** Between two members of one subtree stands no stranger. */
  lemma SubtreeContiguous(links: Links, ids: seq<OpId>, top: OpId, i: nat, j: nat, k: nat)
    requires Sorted(links, ids) && i <= j < k < |ids|
    requires InSubtree(links, top, ids[i]) && InSubtree(links, top, ids[k])
    ensures InSubtree(links, top, ids[j])
  {
    Sandwich(links, Path(links, top), Path(links, ids[i]), Path(links, ids[j]), Path(links, ids[k]));
  }

  /** Two runs typed under different heads never interleave: one stands wholly before the other. */
  lemma SubtreesDoNotInterleave(links: Links, a: OpId, b: OpId, x: OpId, y: OpId)
    requires Rooted(links, a) && Rooted(links, b)
    requires !InSubtree(links, a, b) && !InSubtree(links, b, a)
    requires InSubtree(links, a, x) && InSubtree(links, b, y)
    ensures Before(links, x, y) <==> Before(links, a, b)
    ensures Before(links, y, x) <==> Before(links, b, a)
  {
    var pa, pb, px, py := Path(links, a), Path(links, b), Path(links, x), Path(links, y);
    assert px == pa + px[|pa|..] && py == pb + py[|pb|..];
    PathTotal(links, pa, pb);
    if PathLess(links, pa, pb) {
      SubtreeLess(links, pa, pb, px[|pa|..], py[|pb|..]);
    } else {
      SubtreeLess(links, pb, pa, py[|pb|..], px[|pa|..]);
    }
    if px == py {
      PathIrreflexive(links, px);
      assert false;
    }
    PathTotal(links, px, py);
  }

  // ----- where a new sibling belongs

  /** Every listed id is rooted and so is its whole anchor chain, inside the listing. */
  ghost predicate Closed(links: Links, all: set<OpId>) {
    forall id :: id in all ==>
      && id in links && Rooted(links, id)
      && (links[id].after == None || links[id].after.value in all)
  }

  lemma {:induction false} AncestorsPresent(links: Links, all: set<OpId>, id: OpId, k: nat)
    requires Closed(links, all) && id in all && k < |Path(links, id)|
    ensures Path(links, id)[k] in all
    decreases |Path(links, id)| - k
  {
    var p := Path(links, id);
    if k + 1 < |p| {
      AncestorsPresent(links, all, id, k + 1);
      assert HangsUnder(links, p, k + 1);
    }
  }

  /** The child of `parent` through which `id` hangs below `parent`. */
  lemma Branch(links: Links, all: set<OpId>, parent: Option<OpId>, id: OpId) returns (c: OpId)
    requires Closed(links, all) && id in all
    requires parent == None || parent.value in all
    requires ParentPath(links, parent) < Path(links, id)
    ensures c in all && links[c].after == parent
    ensures Path(links, c) == ParentPath(links, parent) + [c]
    ensures Path(links, c) <= Path(links, id)
  {
    var p, k := Path(links, id), |ParentPath(links, parent)|;
    c := p[k];
    AncestorsPresent(links, all, id, k);
    PathPrefix(links, id, k + 1);
    assert k > 0 ==> HangsUnder(links, p, k);
    assert p[..k + 1] == p[..k] + [c];
  }

  /** A new sibling follows whatever hangs under a smaller sibling. */
  lemma SiblingSubtreeLess(links: Links, parent: Option<OpId>, c: OpId, x: OpId, y: OpId)
    requires SiblingLess(links, c, x)
    requires c != x
    requires Path(links, c) == ParentPath(links, parent) + [c]
    requires Path(links, x) == ParentPath(links, parent) + [x]
    requires Path(links, c) <= Path(links, y)
    ensures Before(links, y, x)
  {
    var pc, py := Path(links, c), Path(links, y);
    CommonPrefix(links, ParentPath(links, parent), [c], [x]);
    assert py == pc + py[|pc|..] && Path(links, x) == Path(links, x) + [];
    SubtreeLess(links, pc, Path(links, x), py[|pc|..], []);
  }

  lemma BeforePosition(links: Links, ids: seq<OpId>, i: nat, j: nat)
    requires Sorted(links, ids) && i < |ids| && j < |ids|
    requires Path(links, ids[i]) <= Path(links, ids[j])
    ensures i <= j
  {
    if i > j {
      assert Before(links, ids[j], ids[i]);
      if Path(links, ids[i]) == Path(links, ids[j]) {
        PathIrreflexive(links, Path(links, ids[i]));
        assert false;
      }
      PrefixLess(links, Path(links, ids[i]), Path(links, ids[j]));
      PathTotal(links, Path(links, ids[i]), Path(links, ids[j]));
      assert false;
    }
  }

  ghost predicate FitsAt(links: Links, ids: seq<OpId>, x: OpId, at: nat)
  {
    && at <= |ids|
    && (forall j :: 0 <= j < at ==> Before(links, ids[j], x))
    && (forall j :: at <= j < |ids| ==> Before(links, x, ids[j]))
  }

  lemma SingleLess(links: Links, a: OpId, b: OpId)
    requires SiblingLess(links, a, b)
    ensures PathLess(links, [a], [b]) && !PathLess(links, [a], [])
  {
    assert !SiblingLess(links, a, a);
  }

  /** The place before the first greater sibling is the one the order asks for. */
  lemma FitsBeforeSibling(links: Links, ids: seq<OpId>, all: set<OpId>, x: OpId, s: nat)
    requires Sorted(links, ids) && Closed(links, all) && (forall id :: id in ids <==> id in all)
    requires x in links && x !in all && s < |ids|
    requires links[x].after == None || links[x].after.value in all
    requires links[ids[s]].after == links[x].after && SiblingLess(links, x, ids[s])
    requires forall j :: 0 <= j < s && links[ids[j]].after == links[x].after ==> !SiblingLess(links, x, ids[j])
    ensures FitsAt(links, ids, x, s)
  {
    hide PathLess, SiblingLess, Path;
    var parent := links[x].after;
    var pp, px, ps := ParentPath(links, parent), Path(links, x), Path(links, ids[s]);
    PathOfChild(links, x);
    assert ids[s] in all;
    PathOfChild(links, ids[s]);
    CommonPrefix(links, pp, [x], [ids[s]]);
    SingleLess(links, x, ids[s]);
    assert Before(links, x, ids[s]);
    forall j | s <= j < |ids| ensures Before(links, x, ids[j]) {
      if j > s {
        PathTransitive(links, px, ps, Path(links, ids[j]));
      }
    }
    forall j | 0 <= j < s ensures Before(links, ids[j], x) {
      var y := ids[j];
      var py := Path(links, y);
      assert y in all && Before(links, y, ids[s]);
      PathInjective(links, x, y);
      PathTotal(links, px, py);
      if PathLess(links, px, py) {
        Sandwich(links, pp, px, py, ps);
        CommonPrefix(links, pp, [x], []);
        assert pp + [] == pp;
        var c := Branch(links, all, parent, y);
        var m :| 0 <= m < |ids| && ids[m] == c;
        BeforePosition(links, ids, m, j);
        SiblingTotal(links, x, c);
        SiblingSubtreeLess(links, parent, c, x, y);
      }
    }
  }

  /** With no greater sibling, the place after the parent's whole subtree is the right one. */
  lemma FitsAtSubtreeEnd(links: Links, ids: seq<OpId>, all: set<OpId>, x: OpId, start: nat, end: nat)
    requires Sorted(links, ids) && Closed(links, all) && (forall id :: id in ids <==> id in all)
    requires x in links && x !in all && start <= end <= |ids|
    requires links[x].after == None || links[x].after.value in all
    requires forall j :: 0 <= j < |ids| && links[ids[j]].after == links[x].after ==> !SiblingLess(links, x, ids[j])
    requires if links[x].after == None then start == 0 && end == |ids|
             else start > 0 && ids[start - 1] == links[x].after.value
    requires forall j :: start <= j < end ==> ParentPath(links, links[x].after) < Path(links, ids[j])
    requires end < |ids| ==> !(ParentPath(links, links[x].after) < Path(links, ids[end]))
    ensures FitsAt(links, ids, x, end)
  {
    hide PathLess, SiblingLess, Path;
    var parent := links[x].after;
    var pp, px := ParentPath(links, parent), Path(links, x);
    PathOfChild(links, x);
    PrefixLess(links, pp, px);
    forall j | 0 <= j < end ensures Before(links, ids[j], x) {
      assert ids[j] in all;
      if j >= start {
        var c := Branch(links, all, parent, ids[j]);
        var m :| 0 <= m < |ids| && ids[m] == c;
        SiblingTotal(links, x, c);
        SiblingSubtreeLess(links, parent, c, x, ids[j]);
      } else if j < start - 1 {
        assert Before(links, ids[j], ids[start - 1]);
        PathTransitive(links, Path(links, ids[j]), pp, px);
      }
    }
    if end < |ids| {
      var pe := Path(links, ids[end]);
      assert Before(links, ids[start - 1], ids[end]);
      if pp == pe {
        PathIrreflexive(links, pp);
        assert false;
      }
      assert pe + [] == pe;
      SubtreeLess(links, pp, pe, [x], []);
      forall j | end <= j < |ids| ensures Before(links, x, ids[j]) {
        if j > end {
          PathTransitive(links, px, pe, Path(links, ids[j]));
        }
      }
    }
  }

  /** No other slot fits: the fitting place is the only one. */
  lemma FitsUnique(links: Links, ids: seq<OpId>, x: OpId, a: nat, b: nat)
    requires FitsAt(links, ids, x, a) && FitsAt(links, ids, x, b)
    ensures a == b
  {
    NotPast(links, ids, x, a, b);
    NotPast(links, ids, x, b, a);
  }

  lemma NotPast(links: Links, ids: seq<OpId>, x: OpId, a: nat, b: nat)
    requires FitsAt(links, ids, x, a) && FitsAt(links, ids, x, b)
    ensures a >= b
  {
    hide PathLess, Path;
    if a < b {
      PathTransitive(links, Path(links, x), Path(links, ids[a]), Path(links, x));
      PathIrreflexive(links, Path(links, x));
      assert false;
    }
  }

  /** Inserting at the fitting place keeps the listing sorted. */
  lemma InsertSorted(links: Links, ids: seq<OpId>, x: OpId, at: nat)
    requires Sorted(links, ids) && FitsAt(links, ids, x, at)
    ensures Sorted(links, ids[..at] + [x] + ids[at..])
  {
    var out := ids[..at] + [x] + ids[at..];
    forall i, j | 0 <= i < j < |out| ensures Before(links, out[i], out[j]) {
      var i' := if i < at then i else i - 1;
      var j' := if j < at then j else j - 1;
      assert i != at ==> out[i] == ids[i'];
      assert j != at ==> out[j] == ids[j'];
    }
  }
}
