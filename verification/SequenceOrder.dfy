/**
 The two ways a sequence puts its elements in order (src/core/mod.rs): the full rebuild
 (group by anchor, sort siblings, walk), and the incremental insert, which finds the place
 of one new element. Both are proved to produce the tree order of `TreeOrder`.
 */
module SequenceOrder {
  import opened OpIds
  import opened TreeOrder
  import opened Rga

  // ----- the incremental insert

  /** Where `element` goes: before the first greater sibling, or after its parent's subtree. */
  method InsertPosition<T>(elements: seq<Element<T>>, index: map<OpId, nat>, element: Element<T>, ghost links: Links)
    returns (at: nat)
    requires IndexOk(elements, index) && Placed(links, elements, index.Keys) && Sorted(links, Ids(elements))
    requires element.id in links && element.id !in index
        && links[element.id] == Link(element.after, element.rightOrigin)
    requires element.after == None || element.after.value in index
    ensures FitsAt(links, Ids(elements), element.id, at)
  {
    hide Sorted, Closed, SiblingLess, CompareSiblings, FitsAt, Path;
    ghost var ids := Ids(elements);
    PlacedIsClosed(links, elements, index);
    forall j | 0 <= j < |elements|
      ensures ids[j] in links && links[ids[j]] == Link(elements[j].after, elements[j].rightOrigin)
      ensures SiblingLess(links, element.id, ids[j]) ==
              CompareSiblings(element.id, element.rightOrigin, elements[j].id, elements[j].rightOrigin)
    {
      assert elements[j] in elements;
      ComparesAs(links, element.id, ids[j]);
    }
    hide Placed, IndexOk;
    at := 0;
    while at < |elements|
          && !(elements[at].after == element.after
               && CompareSiblings(element.id, element.rightOrigin, elements[at].id, elements[at].rightOrigin))
      invariant 0 <= at <= |elements|
      invariant forall j :: 0 <= j < at && links[ids[j]].after == element.after ==>
                  !SiblingLess(links, element.id, ids[j])
    {
      at := at + 1;
    }
    if at < |elements| {
      FitsBeforeSibling(links, ids, index.Keys, element.id, at);
    } else {
      ghost var start;
      at, start := SubtreeEnd(elements, index, element.after, links);
      FitsAtSubtreeEnd(links, ids, index.Keys, element.id, start, at);
    }
  }

  lemma ComparesAs(links: Links, a: OpId, b: OpId)
    requires a in links && b in links
    ensures SiblingLess(links, a, b) == CompareSiblings(a, links[a].rightOrigin, b, links[b].rightOrigin)
  {
  }

  method SubtreeEnd<T>(elements: seq<Element<T>>, index: map<OpId, nat>, parent: Option<OpId>, ghost links: Links)
    returns (end: nat, ghost start: nat)
    requires IndexOk(elements, index) && Placed(links, elements, index.Keys)
    requires parent == None || parent.value in index
    ensures start <= end <= |elements|
    ensures if parent == None then start == 0 && end == |elements|
        else start > 0 && elements[start - 1].id == parent.value
    ensures forall j :: start <= j < end ==> ParentPath(links, parent) < Path(links, Ids(elements)[j])
    ensures end < |elements| ==> !(ParentPath(links, parent) < Path(links, Ids(elements)[end]))
  {
    if parent == None {
      start, end := 0, |elements|;
      forall j | 0 <= j < |elements| ensures Rooted(links, Ids(elements)[j]) {
        assert elements[j] in elements;
      }
      return;
    }
    end := index[parent.value] + 1;
    start := end;
    hide Placed, IndexOk, Path;
    while end < |elements|
      invariant start <= end <= |elements|
      invariant forall j :: start <= j < end ==> ParentPath(links, parent) < Path(links, Ids(elements)[j])
    {
      var below := IsDescendantOf(elements, index, elements[end], parent.value, links);
      if !below {
        return;
      }
      end := end + 1;
    }
  }

  method IsDescendantOf<T>(elements: seq<Element<T>>, index: map<OpId, nat>, candidate: Element<T>, ancestor: OpId,
          ghost links: Links)
    returns (below: bool)
    requires IndexOk(elements, index) && Placed(links, elements, index.Keys)
    requires candidate in elements && ancestor in index
    ensures below <==> Path(links, ancestor) < Path(links, candidate.id)
  {
    PlacedIsClosed(links, elements, index);
    ghost var p := Path(links, candidate.id);
    ghost var k := |p| - 1;
    assert k > 0 ==> HangsUnder(links, p, k);
    var cursor := candidate.after;
    while cursor.Some?
      invariant 0 <= k < |p|
      invariant cursor == if k == 0 then None else Some(p[k - 1])
      invariant forall m :: k <= m < |p| - 1 ==> p[m] != ancestor
      decreases k
    {
      if cursor.value == ancestor {
        PathPrefix(links, candidate.id, k);
        return true;
      }
      AncestorsPresent(links, index.Keys, candidate.id, k - 1);
      assert elements[index[cursor.value]] in elements;
      k := k - 1;
      assert k > 0 ==> HangsUnder(links, p, k);
      cursor := elements[index[cursor.value]].after;
    }
    assert Path(links, ancestor)[|Path(links, ancestor)| - 1] == ancestor;
    return false;
  }

  // ----- the full rebuild

  method RebuildOrder<T>(elements: seq<Element<T>>, index: map<OpId, nat>, ghost links: Links)
    returns (ordered: seq<Element<T>>)
    requires IndexOk(elements, index) && Placed(links, elements, index.Keys)
    ensures forall e :: e in ordered <==> e in elements
    ensures Sorted(links, Ids(ordered))
  {
    PlacedIsClosed(links, elements, index);
    var byId := ById(elements, index);
    var ids := WalkAll(byId, links);
    ordered := seq(|ids|, i requires 0 <= i < |ids| && ids[i] in ids => byId[ids[i]]);
    assert Ids(ordered) == ids;
    forall e | e in elements ensures e in ordered {
      var i :| 0 <= i < |ids| && ids[i] == e.id;
      assert ordered[i] == e;
    }
  }

  method WalkAll<T>(byId: map<OpId, Element<T>>, ghost links: Links) returns (ids: seq<OpId>)
    requires Agrees(byId, links) && Closed(links, byId.Keys)
    ensures Sorted(links, ids) && forall id :: id in ids <==> id in byId
  {
    var keys := SortedKeys(byId);
    var groups := GroupByAnchor(byId, keys);
    forall a | a in groups ensures SortedIds(groups[a]) && forall id :: id in groups[a] ==> id in byId {
      KidsMembers(byId, keys, a);
    }
    var children := SortGroups(byId, groups, links);
    GroupsCover(byId, keys, children, links);
    ids := WalkChildren(None, children, links, byId.Keys);
    assert forall id :: id in byId ==> [] < Path(links, id);
  }

  method ById<T>(elements: seq<Element<T>>, index: map<OpId, nat>) returns (byId: map<OpId, Element<T>>)
    requires IndexOk(elements, index)
    ensures byId.Keys == index.Keys
    ensures forall id :: id in byId ==> byId[id] in elements && byId[id].id == id
    ensures forall e :: e in elements ==> e.id in byId && byId[e.id] == e
  {
    byId := map[];
    for i := 0 to |elements|
      invariant forall j :: 0 <= j < i ==> elements[j].id in byId && byId[elements[j].id] == elements[j]
      invariant forall id :: id in byId ==> id in index && byId[id] == elements[index[id]]
    {
      byId := byId[elements[i].id := elements[i]];
    }
  }

  /** The ids of `keys` inserted after `anchor`, in the order of `keys`. */
  ghost function Kids<T>(byId: map<OpId, Element<T>>, keys: seq<OpId>, anchor: Option<OpId>): seq<OpId> {
    if keys == [] then []
    else
      var id := keys[|keys| - 1];
      Kids(byId, keys[..|keys| - 1], anchor) + if id in byId && byId[id].after == anchor then [id] else []
  }

  lemma {:induction false} KidsMembers<T>(byId: map<OpId, Element<T>>, keys: seq<OpId>, anchor: Option<OpId>)
    requires SortedIds(keys)
    ensures forall id :: id in Kids(byId, keys, anchor) <==> id in keys && id in byId && byId[id].after == anchor
    ensures SortedIds(Kids(byId, keys, anchor))
  {
    if keys != [] {
      var init := keys[..|keys| - 1];
      KidsMembers(byId, init, anchor);
      assert keys == init + [keys[|keys| - 1]];
      forall i | 0 <= i < |Kids(byId, init, anchor)| ensures Less(Kids(byId, init, anchor)[i], keys[|keys| - 1]) {
        assert Kids(byId, init, anchor)[i] in init;
      }
    }
  }

  /** Every anchor in use has a group, which lists the keys inserted after it. */
  ghost predicate Grouped<T>(byId: map<OpId, Element<T>>, keys: seq<OpId>, children: map<Option<OpId>, seq<OpId>>) {
    && (forall a :: a in children ==> children[a] == Kids(byId, keys, a))
    && (forall a :: a !in children ==> Kids(byId, keys, a) == [])
    && (forall id :: id in keys ==> id in byId && byId[id].after in children)
  }

  lemma GroupedNext<T>(byId: map<OpId, Element<T>>, keys: seq<OpId>, i: nat, children: map<Option<OpId>, seq<OpId>>)
    requires i < |keys| && keys[i] in byId && Grouped(byId, keys[..i], children)
    ensures var anchor := byId[keys[i]].after;
      Grouped(byId, keys[..i + 1],
          children[anchor := (if anchor in children then children[anchor] else []) + [keys[i]]])
  {
    var anchor := byId[keys[i]].after;
    assert keys[..i + 1][..i] == keys[..i] && keys[..i + 1] == keys[..i] + [keys[i]];
    forall a ensures Kids(byId, keys[..i + 1], a) == Kids(byId, keys[..i], a) + if a == anchor then [keys[i]] else [] {
    }
    hide Kids;
  }

  method GroupByAnchor<T>(byId: map<OpId, Element<T>>, keys: seq<OpId>) returns (children: map<Option<OpId>, seq<OpId>>)
    requires SortedIds(keys) && forall id :: id in keys <==> id in byId
    ensures forall a :: a in children ==> children[a] == Kids(byId, keys, a)
    ensures forall id :: id in byId ==> byId[id].after in children
  {
    children := map[];
    for i := 0 to |keys|
      invariant Grouped(byId, keys[..i], children)
    {
      hide Grouped;
      assert keys[i] in byId;
      GroupedNext(byId, keys, i, children);
      var anchor := byId[keys[i]].after;
      children := children[anchor := (if anchor in children then children[anchor] else []) + [keys[i]]];
    }
    assert keys[..|keys|] == keys;
  }

  predicate SiblingsSorted(links: Links, ids: seq<OpId>) {
    forall i, j :: 0 <= i < j < |ids| ==> SiblingLess(links, ids[i], ids[j])
  }

  ghost predicate Agrees<T>(byId: map<OpId, Element<T>>, links: Links) {
    forall id :: id in byId ==>
        id in links && byId[id].id == id && links[id] == Link(byId[id].after, byId[id].rightOrigin)
  }

  ghost predicate Resorted(links: Links, group: seq<OpId>, sorted: seq<OpId>) {
    SiblingsSorted(links, sorted) && forall id :: id in group <==> id in sorted
  }

  method SortGroups<T>(byId: map<OpId, Element<T>>, groups: map<Option<OpId>, seq<OpId>>, ghost links: Links)
    returns (children: map<Option<OpId>, seq<OpId>>)
    requires Agrees(byId, links)
    requires forall a :: a in groups ==> SortedIds(groups[a]) && forall id :: id in groups[a] ==> id in byId
    ensures children.Keys == groups.Keys
    ensures forall a :: a in groups ==> Resorted(links, groups[a], children[a])
  {
    children := groups;
    var todo := groups.Keys;
    while todo != {}
      invariant todo <= groups.Keys == children.Keys
      invariant forall a :: a in groups ==>
          if a in todo then children[a] == groups[a] else Resorted(links, groups[a], children[a])
      decreases todo
    {
      var a :| a in todo;
      var sorted := SortSiblings(byId, groups[a], links);
      children := children[a := sorted];
      todo := todo - {a};
    }
  }

  method SortSiblings<T>(byId: map<OpId, Element<T>>, ids: seq<OpId>, ghost links: Links) returns (sorted: seq<OpId>)
    requires Agrees(byId, links) && SortedIds(ids) && forall id :: id in ids ==> id in byId
    ensures Resorted(links, ids, sorted)
  {
    sorted := [];
    for n := 0 to |ids|
      invariant Resorted(links, ids[..n], sorted)
    {
      assert ids[..n + 1] == ids[..n] + [ids[n]];
      assert ids[n] in ids && forall id :: id in sorted ==> id in ids[..n];
      sorted := InsertSibling(byId, sorted, ids[n], links);
    }
    assert ids[..|ids|] == ids;
  }

  method InsertSibling<T>(byId: map<OpId, Element<T>>, sorted: seq<OpId>, x: OpId, ghost links: Links)
    returns (out: seq<OpId>)
    requires Agrees(byId, links) && x in byId && x !in sorted && forall id :: id in sorted ==> id in byId
    requires SiblingsSorted(links, sorted)
    ensures Resorted(links, sorted + [x], out)
  {
    var at := 0;
    assert forall i :: 0 <= i < |sorted| ==> sorted[i] in sorted;
    while at < |sorted| && CompareSiblings(sorted[at], byId[sorted[at]].rightOrigin, x, byId[x].rightOrigin)
      invariant 0 <= at <= |sorted|
      invariant forall i :: 0 <= i < at ==> SiblingLess(links, sorted[i], x)
    {
      at := at + 1;
    }
    forall j | at <= j < |sorted| ensures SiblingLess(links, x, sorted[j]) {
      SiblingTotal(links, x, sorted[at]);
      if j > at {
        SiblingTransitive(links, x, sorted[at], sorted[j]);
      }
    }
    out := sorted[..at] + [x] + sorted[at..];
  }

  /** `children` lists exactly the members of `all` under their anchors, in sibling order. */
  ghost predicate ChildrenOk(links: Links, all: set<OpId>, children: map<Option<OpId>, seq<OpId>>) {
    && (forall a :: a in children ==> SiblingsSorted(links, children[a]))
    && (forall a, id :: a in children && id in children[a] ==> id in all && id in links && links[id].after == a)
    && (forall id :: id in all ==> id in links && links[id].after in children && id in children[links[id].after])
  }

  lemma GroupsCover<T>(byId: map<OpId, Element<T>>, keys: seq<OpId>, children: map<Option<OpId>, seq<OpId>>,
          links: Links)
    requires Agrees(byId, links) && SortedIds(keys) && (forall id :: id in keys <==> id in byId)
    requires forall a :: a in children ==> Resorted(links, Kids(byId, keys, a), children[a])
    requires forall id :: id in byId ==> byId[id].after in children
    ensures ChildrenOk(links, byId.Keys, children)
  {
    forall a | a in children
      ensures forall id :: id in children[a] <==> id in byId && byId[id].after == a
    {
      KidsMembers(byId, keys, a);
    }
  }

  /** The pre-order walk below `parent` lists that subtree in tree order. */
  method WalkChildren(parent: Option<OpId>, children: map<Option<OpId>, seq<OpId>>, ghost links: Links,
          ghost all: set<OpId>)
    returns (out: seq<OpId>)
    requires Closed(links, all) && (parent == None || parent.value in all) && ChildrenOk(links, all, children)
    ensures Sorted(links, out)
    ensures forall id :: id in out <==> id in all && ParentPath(links, parent) < Path(links, id)
    decreases all - (set id | id in ParentPath(links, parent))
  {
    hide Sorted, Closed, Path, UnderSome;
    out := [];
    var kids := if parent in children then children[parent] else [];
    UnderNone(links);
    for i := 0 to |kids|
      invariant Sorted(links, out)
      invariant forall id :: id in out <==> id in all && UnderSome(links, kids[..i], id)
    {
      WalkDescends(links, all, parent, kids, i);
      var below := WalkChildren(Some(kids[i]), children, links, all);
      WalkStep(links, all, parent, kids, i, out, below);
      out := out + ([kids[i]] + below);
    }
    assert kids[..|kids|] == kids;
    WalkedAll(links, all, parent, kids);
  }

  lemma UnderNone(links: Links)
    ensures Sorted(links, []) && forall id :: !UnderSome(links, [], id)
  {
  }

  lemma WalkDescends(links: Links, all: set<OpId>, parent: Option<OpId>, kids: seq<OpId>, i: nat)
    requires Closed(links, all) && (parent == None || parent.value in all) && i < |kids|
    requires forall c :: c in kids ==> c in all && links[c].after == parent
    ensures kids[i] in all
    ensures all - (set id | id in ParentPath(links, Some(kids[i]))) < all - (set id | id in ParentPath(links, parent))
  {
    assert kids[i] in kids;
    ChildNotOnPath(links, parent, kids[i]);
    assert kids[i] in all - (set id | id in ParentPath(links, parent));
  }

  lemma WalkStep(links: Links, all: set<OpId>, parent: Option<OpId>, kids: seq<OpId>, i: nat, out: seq<OpId>,
          below: seq<OpId>)
    requires Closed(links, all) && (parent == None || parent.value in all) && i < |kids|
    requires SiblingsSorted(links, kids) && forall c :: c in kids ==> c in all && links[c].after == parent
    requires Sorted(links, out) && forall id :: id in out <==> id in all && UnderSome(links, kids[..i], id)
    requires Sorted(links, below) && forall id :: id in below <==> id in all && Path(links, kids[i]) < Path(links, id)
    ensures Sorted(links, out + ([kids[i]] + below))
    ensures forall id :: id in out + ([kids[i]] + below) <==> id in all && UnderSome(links, kids[..i + 1], id)
  {
    assert kids[i] in kids;
    SubtreeSorted(links, all, kids[i], below);
    AppendSubtree(links, all, parent, kids, i, out, below);
    UnderNext(links, kids, i);
  }

  ghost predicate UnderSome(links: Links, kids: seq<OpId>, id: OpId) {
    exists c :: c in kids && InSubtree(links, c, id)
  }

  lemma UnderNext(links: Links, kids: seq<OpId>, i: nat)
    requires i < |kids|
    ensures forall id :: UnderSome(links, kids[..i + 1], id) <==>
        UnderSome(links, kids[..i], id) || InSubtree(links, kids[i], id)
  {
    assert kids[..i + 1] == kids[..i] + [kids[i]];
    assert kids[i] in kids[..i + 1];
  }

  lemma WalkedAll(links: Links, all: set<OpId>, parent: Option<OpId>, kids: seq<OpId>)
    requires Closed(links, all) && (parent == None || parent.value in all)
    requires forall c :: c in kids <==> c in all && links[c].after == parent
    ensures forall id :: id in all ==> (UnderSome(links, kids, id) <==> ParentPath(links, parent) < Path(links, id))
  {
    forall id | id in all
      ensures UnderSome(links, kids, id) <==> ParentPath(links, parent) < Path(links, id)
    {
      if ParentPath(links, parent) < Path(links, id) {
        var c := Branch(links, all, parent, id);
        assert c in kids;
      }
      if UnderSome(links, kids, id) {
        var c :| c in kids && InSubtree(links, c, id);
        PathOfChild(links, c);
      }
    }
  }

  lemma ChildNotOnPath(links: Links, parent: Option<OpId>, kid: OpId)
    requires kid in links && links[kid].after == parent
    requires parent == None || Rooted(links, parent.value)
    ensures kid !in ParentPath(links, parent)
    ensures ParentPath(links, Some(kid)) == ParentPath(links, parent) + [kid]
  {
    PathOfChild(links, kid);
    var p := ParentPath(links, parent);
    if kid in p {
      var k :| 0 <= k < |p| && p[k] == kid;
      PathPrefix(links, kid, k + 1);
      assert false;
    }
  }

  lemma SubtreeSorted(links: Links, all: set<OpId>, kid: OpId, below: seq<OpId>)
    requires Closed(links, all) && kid in all && Sorted(links, below)
    requires forall id :: id in below <==> id in all && Path(links, kid) < Path(links, id)
    ensures Sorted(links, [kid] + below)
    ensures forall id :: id in [kid] + below <==> id in all && InSubtree(links, kid, id)
  {
    forall j | 0 <= j < |below| ensures Before(links, kid, below[j]) {
      assert below[j] in below;
      PrefixLess(links, Path(links, kid), Path(links, below[j]));
    }
    forall id ensures id in [kid] + below <==> id in all && InSubtree(links, kid, id) {
      if id in all && id != kid {
        PathInjective(links, id, kid);
      }
    }
  }

  lemma AppendSubtree(links: Links, all: set<OpId>, parent: Option<OpId>, kids: seq<OpId>, i: nat, out: seq<OpId>,
          below: seq<OpId>)
    requires Closed(links, all) && (parent == None || parent.value in all) && i < |kids|
    requires SiblingsSorted(links, kids) && forall id :: id in kids ==> id in all && links[id].after == parent
    requires Sorted(links, out) && forall id :: id in out ==> UnderSome(links, kids[..i], id)
    requires Sorted(links, [kids[i]] + below)
    requires forall id :: id in [kids[i]] + below ==> InSubtree(links, kids[i], id)
    ensures Sorted(links, out + ([kids[i]] + below))
  {
    var added := [kids[i]] + below;
    forall a, b | 0 <= a < |out| && 0 <= b < |added| ensures Before(links, out[a], added[b]) {
      assert out[a] in out && added[b] in added;
      var c :| c in kids[..i] && InSubtree(links, c, out[a]);
      var k :| 0 <= k < i && kids[k] == c;
      assert c in kids && kids[i] in kids;
      SiblingSubtreesInOrder(links, parent, c, kids[i], out[a], added[b]);
    }
  }

  /** Everything under a smaller sibling precedes everything under a greater one. */
  lemma SiblingSubtreesInOrder(links: Links, parent: Option<OpId>, c: OpId, d: OpId, x: OpId, y: OpId)
    requires c in links && d in links && links[c].after == parent == links[d].after
    requires parent == None || Rooted(links, parent.value)
    requires SiblingLess(links, c, d) && InSubtree(links, c, x) && InSubtree(links, d, y)
    ensures Before(links, x, y)
  {
    PathOfChild(links, c);
    PathOfChild(links, d);
    CommonPrefix(links, ParentPath(links, parent), [c], [d]);
    var pc, pd, px, py := Path(links, c), Path(links, d), Path(links, x), Path(links, y);
    assert px == pc + px[|pc|..] && py == pd + py[|pd|..];
    assert pc[|pc| - 1] == c && pd[|pd| - 1] == d && |pc| == |pd|;
    SubtreeLess(links, pc, pd, px[|pc|..], py[|pd|..]);
  }
}
