/** The tree of name entries in daemon/name_cache.c. Entries are pool indices
    linked by a parent pointer and an ordered index of children. The forest
    also covers entries outside the tree, so it holds at every moment of an
    operation and not only between operations. */
module Forests {
  import opened Lists

  type Component = string
  type Path = seq<Component>
  type Fh = seq<nat>

  datatype NameEntry = NameEntry(
    component: Component, fh: Fh, children: map<Component, nat>, attributes: Option<nat>, parent: Option<nat>)

  /** Where an entry hangs: the parentless entry above it and the path from there. */
  datatype Place = Place(top: nat, path: Path)

  /** Parent pointers and child indices mirror each other and agree with `place`. */
  ghost predicate Forest(pool: seq<NameEntry>, place: seq<Place>) {
    && |place| == |pool|
    && (forall k :: 0 <= k < |pool| ==> Hangs(pool, place, k))
    && (forall p, c :: 0 <= p < |pool| && c in pool[p].children ==> IsChild(pool, p, c))
  }

  ghost predicate Hangs(pool: seq<NameEntry>, place: seq<Place>, k: nat)
    requires |place| == |pool| && k < |pool|
  {
    match pool[k].parent
    case None => place[k] == Place(k, [])
    case Some(p) =>
      && p < |pool|
      && pool[k].component in pool[p].children
      && pool[p].children[pool[k].component] == k
      && place[k] == Place(place[p].top, place[p].path + [pool[k].component])
  }

  ghost predicate IsChild(pool: seq<NameEntry>, p: nat, c: Component)
    requires p < |pool| && c in pool[p].children
  {
    var k := pool[p].children[c];
    k < |pool| && pool[k].parent == Some(p) && pool[k].component == c
  }

  ghost predicate Under(place: seq<Place>, a: nat, k: nat)
    requires a < |place| && k < |place|
  {
    place[a].top == place[k].top && place[a].path <= place[k].path
  }

  /** `a` and everything below it. */
  ghost function Subtree(place: seq<Place>, a: nat): set<nat>
    requires a < |place|
  {
    set k | 0 <= k < |place| && Under(place, a, k)
  }

  /** No two entries hang in the same place. */
  lemma {:induction false} PlaceUnique(pool: seq<NameEntry>, place: seq<Place>, a: nat, b: nat)
    requires Forest(pool, place) && a < |pool| && b < |pool|
    requires place[a] == place[b]
    ensures a == b
    decreases |place[a].path|
  {
    assert Hangs(pool, place, a) && Hangs(pool, place, b);
    if pool[a].parent.Some? && pool[b].parent.Some? {
      var p, q := pool[a].parent.value, pool[b].parent.value;
      assert place[p].path == place[a].path[..|place[a].path| - 1];
      assert place[q].path == place[b].path[..|place[b].path| - 1];
      PlaceUnique(pool, place, p, q);
      assert pool[a].component == place[a].path[|place[a].path| - 1];
      assert pool[b].component == place[b].path[|place[b].path| - 1];
    }
  }

  /** The tops are parentless. */
  lemma {:induction false} TopOf(pool: seq<NameEntry>, place: seq<Place>, k: nat)
    requires Forest(pool, place) && k < |pool|
    ensures place[k].top < |pool| && pool[place[k].top].parent.None? && place[place[k].top] == Place(place[k].top, [])
    decreases |place[k].path|
  {
    assert Hangs(pool, place, k);
    if pool[k].parent.Some? {
      TopOf(pool, place, pool[k].parent.value);
      assert Hangs(pool, place, place[k].top);
    }
  }

  /** A child lookup that fails proves the whole subtree absent. */
  lemma {:induction false} ChildAbsent(pool: seq<NameEntry>, place: seq<Place>, p: nat, c: Component, k: nat)
    requires Forest(pool, place) && p < |pool| && k < |pool|
    requires c !in pool[p].children
    ensures !(place[k].top == place[p].top && place[p].path + [c] <= place[k].path)
    decreases |place[k].path|
  {
    if place[k].top == place[p].top && place[p].path + [c] <= place[k].path {
      assert Hangs(pool, place, k) && Hangs(pool, place, p);
      assert pool[k].parent.Some?;
      var q := pool[k].parent.value;
      var n := |place[p].path|;
      if |place[k].path| == n + 1 {
        assert place[k].path == place[p].path + [c];
        assert place[q].path == place[k].path[..n];
        assert place[q] == place[p];
        PlaceUnique(pool, place, q, p);
      } else {
        assert place[k].path[..n + 1] == place[p].path + [c];
        assert place[q].path[..n + 1] == place[k].path[..n + 1];
        ChildAbsent(pool, place, p, c, q);
      }
    }
  }

  /** A child found hangs right below. */
  lemma ChildPlace(pool: seq<NameEntry>, place: seq<Place>, p: nat, c: Component)
    requires Forest(pool, place) && p < |pool| && c in pool[p].children
    ensures pool[p].children[c] < |pool|
    ensures place[pool[p].children[c]] == Place(place[p].top, place[p].path + [c])
  {
    assert IsChild(pool, p, c);
    assert Hangs(pool, place, pool[p].children[c]);
  }

  /** Below `a`, but not `a` itself, means below some parent that is itself under `a`. */
  lemma UnderParent(pool: seq<NameEntry>, place: seq<Place>, a: nat, k: nat)
    requires Forest(pool, place) && a < |pool| && k < |pool| && k != a
    ensures Under(place, a, k) <==> pool[k].parent.Some? && pool[k].parent.value < |pool| && Under(place, a, pool[k].parent.value)
  {
    assert Hangs(pool, place, k) && Hangs(pool, place, a);
    if Under(place, a, k) {
      if place[a].path == place[k].path {
        PlaceUnique(pool, place, a, k);
      }
      var n := |place[k].path|;
      assert place[a].path <= place[k].path[..n - 1];
      assert place[pool[k].parent.value].path == place[k].path[..n - 1];
    }
  }

  // name_cache_remove: unhook an entry, with its subtree, from its parent

  function DetachedPool(pool: seq<NameEntry>, k: nat): seq<NameEntry>
    requires k < |pool| && pool[k].parent.Some? && pool[k].parent.value < |pool|
  {
    var p := pool[k].parent.value;
    var cut := pool[p := pool[p].(children := pool[p].children - {pool[k].component})];
    cut[k := cut[k].(parent := None)]
  }

  ghost function DetachedPlace(place: seq<Place>, k: nat): seq<Place>
    requires k < |place|
  {
    seq(|place|, j requires 0 <= j < |place| =>
      if Under(place, k, j) then Place(k, place[j].path[|place[k].path|..]) else place[j])
  }

  lemma DetachForest(pool: seq<NameEntry>, place: seq<Place>, k: nat)
    requires Forest(pool, place) && k < |pool| && pool[k].parent.Some?
    ensures pool[k].parent.value < |pool| && pool[k].parent.value != k
    ensures Forest(DetachedPool(pool, k), DetachedPlace(place, k))
  {
    assert Hangs(pool, place, k);
    var p := pool[k].parent.value;
    var pool', place' := DetachedPool(pool, k), DetachedPlace(place, k);
    forall j | 0 <= j < |pool|
      ensures Hangs(pool', place', j)
    {
      DetachHangs(pool, place, k, j);
    }
    forall q, c | 0 <= q < |pool'| && c in pool'[q].children
      ensures IsChild(pool', q, c)
    {
      assert IsChild(pool, q, c);
    }
  }

  lemma DetachHangs(pool: seq<NameEntry>, place: seq<Place>, k: nat, j: nat)
    requires Forest(pool, place) && k < |pool| && j < |pool|
    requires pool[k].parent.Some? && pool[k].parent.value < |pool|
    ensures Hangs(DetachedPool(pool, k), DetachedPlace(place, k), j)
  {
    assert Hangs(pool, place, k) && Hangs(pool, place, j);
    if j != k && pool[j].parent.Some? {
      var q := pool[j].parent.value;
      UnderParent(pool, place, k, j);
      if Under(place, k, j) {
        var n := |place[k].path|;
        assert place[j].path[n..] == place[q].path[n..] + [pool[j].component];
      }
    } else if j != k {
      UnderParent(pool, place, k, j);
    }
  }

  // name_cache_insert: hook a parentless entry, with its subtree, under a parent

  function AttachedPool(pool: seq<NameEntry>, k: nat, p: nat): seq<NameEntry>
    requires k < |pool| && p < |pool|
  {
    var up := pool[k := pool[k].(parent := Some(p))];
    up[p := up[p].(children := up[p].children[pool[k].component := k])]
  }

  ghost function AttachedPlace(place: seq<Place>, k: nat, p: nat, c: Component): seq<Place>
    requires k < |place| && p < |place|
  {
    seq(|place|, j requires 0 <= j < |place| =>
      if place[j].top == k then Place(place[p].top, place[p].path + [c] + place[j].path) else place[j])
  }

  lemma AttachForest(pool: seq<NameEntry>, place: seq<Place>, k: nat, p: nat)
    requires Forest(pool, place) && k < |pool| && p < |pool|
    requires pool[k].parent.None? && place[p].top != k
    requires pool[k].component !in pool[p].children
    ensures Forest(AttachedPool(pool, k, p), AttachedPlace(place, k, p, pool[k].component))
  {
    var pool', place' := AttachedPool(pool, k, p), AttachedPlace(place, k, p, pool[k].component);
    assert Hangs(pool, place, k);
    forall j | 0 <= j < |pool|
      ensures Hangs(pool', place', j)
    {
      assert Hangs(pool, place, j);
      if j != k && pool[j].parent.Some? && place[j].top == k {
        var q := pool[j].parent.value;
        var c := [pool[j].component];
        assert place[p].path + [pool[k].component] + (place[q].path + c) ==
               (place[p].path + [pool[k].component] + place[q].path) + c;
      }
    }
    forall q, c | 0 <= q < |pool'| && c in pool'[q].children
      ensures IsChild(pool', q, c)
    {
      if c in pool[q].children {
        assert IsChild(pool, q, c);
      }
    }
  }

  // changes that leave the links alone

  ghost predicate SameLinks(pool: seq<NameEntry>, pool': seq<NameEntry>) {
    && |pool'| == |pool|
    && forall k :: 0 <= k < |pool| ==>
         && pool'[k].parent == pool[k].parent && pool'[k].children == pool[k].children
         && (pool[k].parent.Some? ==> pool'[k].component == pool[k].component)
  }

  lemma SameLinksForest(pool: seq<NameEntry>, pool': seq<NameEntry>, place: seq<Place>)
    requires Forest(pool, place) && SameLinks(pool, pool')
    ensures Forest(pool', place)
  {
    forall k | 0 <= k < |pool'|
      ensures Hangs(pool', place, k)
    {
      assert Hangs(pool, place, k);
    }
    forall p, c | 0 <= p < |pool'| && c in pool'[p].children
      ensures IsChild(pool', p, c)
    {
      assert IsChild(pool, p, c);
    }
  }

  /** The next entry of the pool starts out on its own. */
  lemma GrownForest(pool: seq<NameEntry>, place: seq<Place>, e: NameEntry)
    requires Forest(pool, place) && e.parent.None? && e.children == map[]
    ensures Forest(pool + [e], place + [Place(|pool|, [])])
  {
    var pool', place' := pool + [e], place + [Place(|pool|, [])];
    forall k | 0 <= k < |pool'|
      ensures Hangs(pool', place', k)
    {
      if k < |pool| {
        assert Hangs(pool, place, k);
      }
    }
    forall p, c | 0 <= p < |pool'| && c in pool'[p].children
      ensures IsChild(pool', p, c)
    {
      assert p < |pool| && IsChild(pool, p, c);
    }
  }

  // what a recursive unlink leaves behind

  ghost predicate Isolated(pool: seq<NameEntry>, place: seq<Place>, k: nat)
    requires k < |pool| == |place|
  {
    pool[k].parent.None? && pool[k].children == map[] && pool[k].attributes.None? && place[k] == Place(k, [])
  }

  /** `a` is `b`, except that it may have lost children. */
  predicate SameContent(a: NameEntry, b: NameEntry) {
    a.(children := map[]) == b.(children := map[]) && a.children.Keys <= b.children.Keys
  }

  /** The entries of `gone` are on their own and nothing else has moved or changed. */
  ghost predicate Pruned(pool: seq<NameEntry>, place: seq<Place>, pool': seq<NameEntry>, place': seq<Place>, gone: set<nat>)
    requires |place| == |pool|
  {
    && |place'| == |pool'| == |pool|
    && (forall k :: 0 <= k < |pool| && k in gone ==> Isolated(pool', place', k))
    && (forall k :: 0 <= k < |pool| && k !in gone ==> place'[k] == place[k] && SameContent(pool'[k], pool[k]))
  }

  lemma PrunedNone(pool: seq<NameEntry>, place: seq<Place>)
    requires |place| == |pool|
    ensures Pruned(pool, place, pool, place, {})
  {
  }

  lemma PrunedTwice(pool: seq<NameEntry>, place: seq<Place>, pool1: seq<NameEntry>, place1: seq<Place>, gone: set<nat>,
                    pool2: seq<NameEntry>, place2: seq<Place>, more: set<nat>)
    requires |place| == |pool| && Pruned(pool, place, pool1, place1, gone) && Pruned(pool1, place1, pool2, place2, more)
    ensures Pruned(pool, place, pool2, place2, gone + more)
  {
    forall k | 0 <= k < |pool| && k in gone + more
      ensures Isolated(pool2, place2, k)
    {
      if k !in more {
        assert Isolated(pool1, place1, k) && SameContent(pool2[k], pool1[k]);
      }
    }
  }

  /** `k` is parentless, above the same entries as before, and the rest has not moved. */
  ghost predicate Unhooked(pool: seq<NameEntry>, place: seq<Place>, pool': seq<NameEntry>, place': seq<Place>, k: nat)
    requires |place| == |pool| && k < |pool|
  {
    && |place'| == |pool'| == |pool|
    && Subtree(place', k) == Subtree(place, k) && place'[k] == Place(k, []) && pool'[k].parent.None?
    && (forall j :: 0 <= j < |pool| && j !in Subtree(place, k) ==> place'[j] == place[j] && SameContent(pool'[j], pool[j]))
  }

  lemma UnhookedDetached(pool: seq<NameEntry>, place: seq<Place>, k: nat)
    requires Forest(pool, place) && k < |pool| && pool[k].parent.Some? && pool[k].parent.value < |pool|
    ensures Unhooked(pool, place, DetachedPool(pool, k), DetachedPlace(place, k), k)
  {
    var place' := DetachedPlace(place, k);
    assert Under(place, k, k);
    forall j | 0 <= j < |place|
      ensures Under(place', k, j) <==> Under(place, k, j)
    {
      assert place'[k] == Place(k, []);
      if Under(place', k, j) && !Under(place, k, j) {
        TopOf(pool, place, j);
      }
    }
  }

  lemma UnhookedAlready(pool: seq<NameEntry>, place: seq<Place>, k: nat)
    requires Forest(pool, place) && k < |pool| && pool[k].parent.None?
    ensures Unhooked(pool, place, pool, place, k)
  {
    assert Hangs(pool, place, k);
  }

  /** With no children there is nothing below. */
  lemma {:induction false} ChildlessAlone(pool: seq<NameEntry>, place: seq<Place>, k: nat, j: nat)
    requires Forest(pool, place) && k < |pool| && j < |pool|
    requires pool[k].children == map[] && Under(place, k, j)
    ensures j == k
    decreases |place[j].path|
  {
    if j != k {
      assert Hangs(pool, place, j);
      UnderParent(pool, place, k, j);
      ChildlessAlone(pool, place, k, pool[j].parent.value);
    }
  }

  /** The subtree of a child lies strictly inside its parent's. */
  lemma ChildSubtree(pool: seq<NameEntry>, place: seq<Place>, k: nat, c: Component)
    requires Forest(pool, place) && k < |pool| && c in pool[k].children
    ensures pool[k].children[c] < |pool| && pool[pool[k].children[c]].parent == Some(k)
    ensures Subtree(place, pool[k].children[c]) <= Subtree(place, k) - {k}
    ensures pool[k].children[c] in Subtree(place, pool[k].children[c]) && k in Subtree(place, k)
  {
    assert IsChild(pool, k, c);
    ChildPlace(pool, place, k, c);
  }

  /** Pruning elsewhere leaves the rest of a subtree where it was. */
  lemma PrunedUnder(pool: seq<NameEntry>, place: seq<Place>, pool': seq<NameEntry>, place': seq<Place>, gone: set<nat>, k: nat)
    requires |place| == |pool| && Pruned(pool, place, pool', place', gone) && Forest(pool', place')
    requires k < |pool| && k !in gone
    ensures Subtree(place', k) <= Subtree(place, k) - gone
  {
    forall j | 0 <= j < |pool| && Under(place', k, j)
      ensures Under(place, k, j) && j !in gone
    {
      if j in gone {
        assert Isolated(pool', place', j);
        assert place'[k] == place'[j];
        PlaceUnique(pool', place', j, k);
      }
    }
  }

  /** Once an entry has no children left, all that was below it is pruned. */
  lemma PrunedAll(pool: seq<NameEntry>, place: seq<Place>, pool': seq<NameEntry>, place': seq<Place>, gone: set<nat>, k: nat)
    requires |place| == |pool| && Pruned(pool, place, pool', place', gone) && Forest(pool', place')
    requires k < |pool| && gone <= Subtree(place, k) - {k} && pool'[k].children == map[]
    ensures gone == Subtree(place, k) - {k}
  {
    forall j | 0 <= j < |pool| && Under(place, k, j) && j != k
      ensures j in gone
    {
      if j !in gone {
        ChildlessAlone(pool', place', k, j);
      }
    }
  }

  /** Unhooking `k`, pruning below it and dropping its record isolates its subtree. */
  lemma UnlinkedAll(pool: seq<NameEntry>, place: seq<Place>, pool1: seq<NameEntry>, place1: seq<Place>,
                    pool2: seq<NameEntry>, place2: seq<Place>, k: nat)
    requires |place| == |pool| && k < |pool| && Unhooked(pool, place, pool1, place1, k)
    requires Pruned(pool1, place1, pool2, place2, Subtree(place, k) - {k}) && pool2[k].children == map[]
    ensures Pruned(pool, place, pool2[k := pool2[k].(attributes := None)], place2, Subtree(place, k))
  {
    var pool3 := pool2[k := pool2[k].(attributes := None)];
    assert Under(place, k, k);
    forall j | 0 <= j < |pool| && j in Subtree(place, k)
      ensures Isolated(pool3, place2, j)
    {
      assert j != k ==> Isolated(pool2, place2, j);
    }
    forall j | 0 <= j < |pool| && j !in Subtree(place, k)
      ensures place2[j] == place[j] && SameContent(pool3[j], pool[j])
    {
      assert SameContent(pool2[j], pool1[j]);
    }
  }

  // expiry order

  /** `a` is a proper ancestor of `b`. */
  ghost predicate Above(place: seq<Place>, a: nat, b: nat)
    requires a < |place| && b < |place|
  {
    place[a].top == place[b].top && place[a].path < place[b].path
  }

  ghost predicate Listed(place: seq<Place>, exp: seq<nat>) {
    NoDup(exp) && forall i :: 0 <= i < |exp| ==> exp[i] < |place|
  }

  /** No entry of the list comes before one of its ancestors. */
  ghost predicate Ordered(place: seq<Place>, exp: seq<nat>)
    requires Listed(place, exp)
  {
    forall i, j :: 0 <= i < j < |exp| ==> !Above(place, exp[j], exp[i])
  }

  /** Ordered, except that `cur` and the entries above it may come too late. */
  ghost predicate OrderedBut(place: seq<Place>, exp: seq<nat>, cur: Option<nat>)
    requires Listed(place, exp) && (cur.Some? ==> cur.value < |place|)
  {
    forall i, j :: 0 <= i < j < |exp| && Above(place, exp[j], exp[i]) ==> cur.Some? && Under(place, exp[j], cur.value)
  }

  /** `y` lies on the way from `x` up to, but not including, `cur`. */
  ghost predicate OnWay(place: seq<Place>, x: nat, cur: Option<nat>, y: nat)
    requires x < |place| && y < |place| && (cur.Some? ==> cur.value < |place|)
  {
    Under(place, y, x) && (cur.Some? ==> !Under(place, y, cur.value))
  }

  /** The entries from `x` up to `cur`, as far as they are listed, head the list. */
  ghost predicate Fronted(place: seq<Place>, exp: seq<nat>, x: nat, cur: Option<nat>)
    requires Listed(place, exp) && x < |place| && (cur.Some? ==> cur.value < |place|)
  {
    forall i, j :: 0 <= i < j < |exp| && OnWay(place, x, cur, exp[j]) ==> OnWay(place, x, cur, exp[i])
  }

  lemma ChildlessNotAbove(pool: seq<NameEntry>, place: seq<Place>, k: nat, j: nat)
    requires Forest(pool, place) && k < |pool| && j < |pool| && pool[k].children == map[]
    ensures !Above(place, k, j)
  {
    if Above(place, k, j) {
      ChildlessAlone(pool, place, k, j);
    }
  }

  /** Every ancestor that comes too late does so for an entry of `gone`. */
  ghost predicate OrderedOutside(place: seq<Place>, exp: seq<nat>, gone: set<nat>)
    requires Listed(place, exp)
  {
    forall i, j :: 0 <= i < j < |exp| && Above(place, exp[j], exp[i]) ==> exp[i] in gone
  }

  /** Unlinking restores the order for everything that stays. */
  lemma RequeuedOrdered(pool: seq<NameEntry>, place: seq<Place>, pool': seq<NameEntry>, place': seq<Place>,
                        exp: seq<nat>, gone: set<nat>, moved: seq<nat>, exp': seq<nat>)
    requires |place| == |pool| && Listed(place, exp) && Requeued(exp, gone, moved, exp') && OrderedOutside(place, exp, gone)
    requires Forest(pool', place') && Pruned(pool, place, pool', place', gone) && Listed(place', exp')
    ensures Ordered(place', exp')
  {
    forall i, j | 0 <= i < j < |exp'|
      ensures !Above(place', exp'[j], exp'[i])
    {
      var a, b := exp'[j], exp'[i];
      if b in gone {
        assert Isolated(pool', place', b);
      } else if a in gone {
        assert Isolated(pool', place', a);
        ChildlessNotAbove(pool', place', a, b);
      } else {
        var w := |Without(exp, gone)|;
        assert exp'[w..] == moved && exp'[..w] == Without(exp, gone);
        var p, q := WithoutPair(exp, gone, i, j);
      }
    }
  }

  /** A lone entry at the tail may be hooked in anywhere. */
  lemma AttachedOrdered(pool: seq<NameEntry>, place: seq<Place>, exp: seq<nat>, k: nat, p: nat)
    requires Forest(pool, place) && Listed(place, exp) && Ordered(place, exp) && k < |pool| && p < |pool|
    requires Isolated(pool, place, k) && place[p].top != k && exp != [] && exp[|exp| - 1] == k
    requires Forest(AttachedPool(pool, k, p), AttachedPlace(place, k, p, pool[k].component))
    ensures Listed(AttachedPlace(place, k, p, pool[k].component), exp)
    ensures Ordered(AttachedPlace(place, k, p, pool[k].component), exp)
  {
    var pool', place' := AttachedPool(pool, k, p), AttachedPlace(place, k, p, pool[k].component);
    forall i, j | 0 <= i < j < |exp|
      ensures !Above(place', exp[j], exp[i])
    {
      LoneMoves(pool, place, k, exp[i]);
      LoneMoves(pool, place, k, exp[j]);
      if exp[j] == k {
        ChildlessNotAbove(pool', place', k, exp[i]);
      } else {
        assert !Above(place, exp[j], exp[i]);
      }
    }
  }

  lemma LoneMoves(pool: seq<NameEntry>, place: seq<Place>, k: nat, j: nat)
    requires Forest(pool, place) && k < |pool| && j < |pool| && Isolated(pool, place, k)
    ensures place[j].top == k ==> j == k
  {
    if place[j].top == k {
      ChildlessAlone(pool, place, k, j);
    }
  }

  lemma WithoutOrderedBut(place: seq<Place>, exp: seq<nat>, cur: Option<nat>, gone: set<nat>)
    requires Listed(place, exp) && (cur.Some? ==> cur.value < |place|) && OrderedBut(place, exp, cur)
    ensures Listed(place, Without(exp, gone)) && OrderedBut(place, Without(exp, gone), cur)
  {
    var r := Without(exp, gone);
    WithoutNoDup(exp, gone);
    WithoutIn(exp, gone);
    forall i | 0 <= i < |r|
      ensures r[i] < |place|
    {
      assert r[i] in r;
    }
    forall i, j | 0 <= i < j < |r| && Above(place, r[j], r[i])
      ensures cur.Some? && Under(place, r[j], cur.value)
    {
      var p, q := WithoutPair(exp, gone, i, j);
    }
  }

  lemma FrontedNone(place: seq<Place>, exp: seq<nat>, x: nat)
    requires Listed(place, exp) && x < |place|
    ensures Fronted(place, exp, x, Some(x))
  {
  }

  lemma OrderedButNone(place: seq<Place>, exp: seq<nat>)
    requires Listed(place, exp)
    ensures Ordered(place, exp) <==> OrderedBut(place, exp, None)
  {
  }

  lemma OrderedIsOrderedBut(place: seq<Place>, exp: seq<nat>, x: nat)
    requires Listed(place, exp) && x < |place| && Ordered(place, exp)
    ensures OrderedBut(place, exp, Some(x))
  {
  }

  /** Going up one parent stays above `x` and shortens the path. */
  lemma UpUnder(pool: seq<NameEntry>, place: seq<Place>, c: nat, x: nat)
    requires Forest(pool, place) && c < |pool| && x < |pool| && Under(place, c, x) && pool[c].parent.Some?
    ensures pool[c].parent.value < |pool| && Under(place, pool[c].parent.value, x)
    ensures |place[pool[c].parent.value].path| < |place[c].path|
  {
    assert Hangs(pool, place, c);
    var p := pool[c].parent.value;
    assert place[p].path <= place[c].path;
  }

  function ToFront(exp: seq<nat>, k: nat): seq<nat> {
    if k in exp then [k] + Without(exp, {k}) else exp
  }

  lemma ToFrontPair(exp: seq<nat>, k: nat, i: nat, j: nat) returns (p: nat, q: nat)
    requires NoDup(exp) && i < j < |ToFront(exp, k)|
    ensures ToFront(exp, k)[j] != k && p < |exp| && q < |exp|
    ensures exp[q] == ToFront(exp, k)[j] && exp[p] == ToFront(exp, k)[i]
    ensures exp[p] == k || p < q
  {
    if k !in exp {
      p, q := i, j;
      assert exp[j] in exp;
    } else {
      WithoutIn(exp, {k});
      var r := Without(exp, {k});
      assert r[j - 1] in r;
      if i > 0 {
        p, q := WithoutPair(exp, {k}, i - 1, j - 1);
      } else {
        p :| 0 <= p < |exp| && exp[p] == k;
        q :| 0 <= q < |exp| && exp[q] == r[j - 1];
      }
    }
  }

  lemma ToFrontListed(place: seq<Place>, exp: seq<nat>, k: nat)
    requires Listed(place, exp) && k < |place|
    ensures Listed(place, ToFront(exp, k)) && forall y :: y in ToFront(exp, k) <==> y in exp
  {
    WithoutIn(exp, {k});
    WithoutNoDup(exp, {k});
    NoDupConcat([k], Without(exp, {k}));
    forall i | 0 <= i < |ToFront(exp, k)|
      ensures ToFront(exp, k)[i] < |place|
    {
      assert ToFront(exp, k)[i] in ToFront(exp, k);
    }
  }

  /** One round of name_cache_entry_accessed. */
  lemma AccessStep(pool: seq<NameEntry>, place: seq<Place>, exp: seq<nat>, x: nat, c: nat)
    requires Forest(pool, place) && Listed(place, exp) && x < |pool| && c < |pool| && Under(place, c, x)
    requires OrderedBut(place, exp, Some(c)) && Fronted(place, exp, x, Some(c))
    ensures Listed(place, ToFront(exp, c)) && (pool[c].parent.Some? ==> pool[c].parent.value < |pool|)
    ensures OrderedBut(place, ToFront(exp, c), pool[c].parent)
    ensures Fronted(place, ToFront(exp, c), x, pool[c].parent)
  {
    ToFrontListed(place, exp, c);
    assert Hangs(pool, place, c);
    var exp', up := ToFront(exp, c), pool[c].parent;
    forall i, j | 0 <= i < j < |exp'|
      ensures Above(place, exp'[j], exp'[i]) ==> up.Some? && Under(place, exp'[j], up.value)
      ensures OnWay(place, x, up, exp'[j]) ==> OnWay(place, x, up, exp'[i])
    {
      AccessPair(pool, place, exp, x, c, i, j);
    }
  }

  lemma AccessPair(pool: seq<NameEntry>, place: seq<Place>, exp: seq<nat>, x: nat, c: nat, i: nat, j: nat)
    requires Forest(pool, place) && Listed(place, exp) && x < |pool| && c < |pool| && Under(place, c, x)
    requires OrderedBut(place, exp, Some(c)) && Fronted(place, exp, x, Some(c))
    requires i < j < |ToFront(exp, c)| && Listed(place, ToFront(exp, c)) && (pool[c].parent.Some? ==> pool[c].parent.value < |pool|)
    ensures var a, b := ToFront(exp, c)[j], ToFront(exp, c)[i];
      && (Above(place, a, b) ==> pool[c].parent.Some? && Under(place, a, pool[c].parent.value))
      && (OnWay(place, x, pool[c].parent, a) ==> OnWay(place, x, pool[c].parent, b))
  {
    assert Hangs(pool, place, c);
    var p, q := ToFrontPair(exp, c, i, j);
    UnderParent(pool, place, exp[q], c);
    if exp[p] != c {
      UnderParent(pool, place, exp[p], c);
      assert OnWay(place, x, Some(c), exp[q]) ==> OnWay(place, x, Some(c), exp[p]);
    }
  }

  lemma ListedRequeued(place: seq<Place>, exp: seq<nat>, gone: set<nat>, moved: seq<nat>, exp': seq<nat>)
    requires Listed(place, exp) && Requeued(exp, gone, moved, exp') && forall k :: k in gone ==> k < |place|
    ensures Listed(place, exp')
  {
    RequeuedNoDup(exp, gone, moved, exp');
    WithoutIn(exp, gone);
    forall i | 0 <= i < |exp'|
      ensures exp'[i] < |place|
    {
      assert exp'[i] in Without(exp, gone) || exp'[i] in moved;
    }
  }
}
