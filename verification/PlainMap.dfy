/** The reference the name cache is measured against: a plain, unbounded map
    from paths to bindings, with no pool, no expiry list and no invalidation. */
module PlainMaps {
  import opened Lists
  import opened Forests

  /** Negative caches that a lookup found nothing. */
  datatype Binding = Negative | Positive(fh: Fh)

  type Names = map<Path, Binding>

  predicate Within(a: Names, b: Names) {
    forall q :: q in a ==> q in b && b[q] == a[q]
  }

  /** Drop a path and all below it. */
  function Forget(m: Names, p: Path): Names {
    map q | q in m && !(p <= q) :: m[q]
  }

  function PlainRemove(m: Names, p: Path): Names {
    Forget(m, p)[p := Negative]
  }

  function PlainInsert(m: Names, p: Path, b: Binding): Names {
    if b.Negative? then PlainRemove(m, p) else m[p := b]
  }

  /** Everything at or below `src`, seen from `dst`. */
  function Moved(m: Names, src: Path, dst: Path): Names {
    var keys := set q | q in m && src <= q :: dst + q[|src|..];
    map r | r in keys && dst <= r && src + r[|dst|..] in m :: m[src + r[|dst|..]]
  }

  lemma MovedAt(m: Names, src: Path, dst: Path, q: Path)
    ensures src + q in m ==> dst + q in Moved(m, src, dst) && Moved(m, src, dst)[dst + q] == m[src + q]
    ensures dst + q in Moved(m, src, dst) ==> src + q in m
    ensures forall r :: r in Moved(m, src, dst) ==> dst <= r
  {
    assert (dst + q)[|dst|..] == q;
    if src + q in m {
      assert (src + q)[|src|..] == q;
    }
  }

  /** A rename takes the subtree along and leaves a negative name. If the name
      renamed is not known to exist, nothing is known about the target either. */
  function PlainRename(m: Names, src: Path, dst: Path): Names {
    if src == dst then m
    else
      var rest := Forget(Forget(m, dst), src);
      (if src in m && m[src].Positive? then rest + Moved(m, src, dst) else rest)[src := Negative]
  }

  lemma ForgetMonotone(a: Names, b: Names, p: Path)
    requires Within(a, b)
    ensures Within(Forget(a, p), Forget(b, p))
  {
  }

  lemma MovedMonotone(a: Names, b: Names, src: Path, dst: Path)
    requires Within(a, b)
    ensures Within(Moved(a, src, dst), Moved(b, src, dst))
  {
    forall r | r in Moved(a, src, dst)
      ensures r in Moved(b, src, dst) && Moved(b, src, dst)[r] == Moved(a, src, dst)[r]
    {
      var q := r[|dst|..];
      assert r == dst + q;
      MovedAt(a, src, dst, q);
      MovedAt(b, src, dst, q);
    }
  }

  lemma RenameMonotone(a: Names, b: Names, src: Path, dst: Path)
    requires Within(a, b)
    ensures Within(PlainRename(a, src, dst), PlainRename(b, src, dst))
  {
    ForgetMonotone(a, b, dst);
    ForgetMonotone(Forget(a, dst), Forget(b, dst), src);
    MovedMonotone(a, b, src, dst);
  }

  // reading the map off the tree

  function BindingOf(e: NameEntry): Binding {
    if e.attributes.Some? then Positive(e.fh) else Negative
  }

  predicate InTree(place: seq<Place>, root: Option<nat>, k: nat)
    requires k < |place|
  {
    root == Some(place[k].top)
  }

  /** The bindings a walk from the root can reach. */
  ghost function NamesOf(pool: seq<NameEntry>, place: seq<Place>, root: Option<nat>): Names
    requires Forest(pool, place)
  {
    PlacesUnique(pool, place);
    map k | 0 <= k < |pool| && InTree(place, root, k) :: place[k].path := BindingOf(pool[k])
  }

  lemma PlacesUnique(pool: seq<NameEntry>, place: seq<Place>)
    requires Forest(pool, place)
    ensures forall a, b :: 0 <= a < |pool| && 0 <= b < |pool| && place[a] == place[b] ==> a == b
  {
    forall a, b | 0 <= a < |pool| && 0 <= b < |pool| && place[a] == place[b]
      ensures a == b
    {
      PlaceUnique(pool, place, a, b);
    }
  }

  /** Nothing is reachable but what `m` holds. */
  ghost predicate ReadsWithin(pool: seq<NameEntry>, place: seq<Place>, root: Option<nat>, m: Names)
    requires |place| == |pool|
  {
    forall k :: 0 <= k < |pool| && InTree(place, root, k) ==> place[k].path in m && m[place[k].path] == BindingOf(pool[k])
  }

  lemma NamesWithin(pool: seq<NameEntry>, place: seq<Place>, root: Option<nat>, m: Names)
    requires Forest(pool, place)
    ensures Within(NamesOf(pool, place, root), m) <==> ReadsWithin(pool, place, root, m)
  {
    PlacesUnique(pool, place);
    var names := NamesOf(pool, place, root);
    forall k | 0 <= k < |pool| && InTree(place, root, k)
      ensures place[k].path in names && names[place[k].path] == BindingOf(pool[k])
    {
    }
  }

  lemma NamesExact(pool: seq<NameEntry>, place: seq<Place>, root: Option<nat>, m: Names)
    requires Forest(pool, place) && ReadsWithin(pool, place, root, m)
    requires forall q :: q in m ==> exists k :: 0 <= k < |pool| && InTree(place, root, k) && place[k].path == q
    ensures NamesOf(pool, place, root) == m
  {
    NamesWithin(pool, place, root, m);
  }

  /** Unlinking an entry forgets exactly its subtree. */
  lemma NamesPruned(pool: seq<NameEntry>, place: seq<Place>, root: Option<nat>, pool': seq<NameEntry>, place': seq<Place>, k: nat)
    requires Forest(pool, place) && Forest(pool', place') && k < |pool|
    requires root.Some? ==> root.value < |pool| && pool[root.value].parent.None?
    requires Pruned(pool, place, pool', place', Subtree(place, k))
    ensures NamesOf(pool', place', if root == Some(k) then None else root) ==
            if InTree(place, root, k) then Forget(NamesOf(pool, place, root), place[k].path) else NamesOf(pool, place, root)
  {
    var gone := Subtree(place, k);
    var root' := if root == Some(k) then None else root;
    var names := NamesOf(pool, place, root);
    var m := if InTree(place, root, k) then Forget(names, place[k].path) else names;
    assert root.Some? ==> Hangs(pool, place, root.value);
    NamesWithin(pool, place, root, names);
    forall j | 0 <= j < |pool'| && InTree(place', root', j)
      ensures place'[j].path in m && m[place'[j].path] == BindingOf(pool'[j])
    {
      PrunedInTree(pool, place, root, pool', place', k, j);
    }
    forall q | q in m
      ensures exists j :: 0 <= j < |pool'| && InTree(place', root', j) && place'[j].path == q
    {
      var j :| 0 <= j < |pool| && InTree(place, root, j) && place[j].path == q;
      PrunedInTree(pool, place, root, pool', place', k, j);
    }
    NamesExact(pool', place', root', m);
  }

  lemma PrunedInTree(pool: seq<NameEntry>, place: seq<Place>, root: Option<nat>, pool': seq<NameEntry>, place': seq<Place>, k: nat, j: nat)
    requires Forest(pool, place) && Forest(pool', place') && k < |pool| && j < |pool|
    requires root.Some? ==> root.value < |pool| && pool[root.value].parent.None?
    requires Pruned(pool, place, pool', place', Subtree(place, k))
    ensures var root' := if root == Some(k) then None else root;
      && (InTree(place', root', j) <==> InTree(place, root, j) && !Under(place, k, j))
      && (InTree(place', root', j) ==> place'[j] == place[j] && BindingOf(pool'[j]) == BindingOf(pool[j]))
  {
    assert root.Some? ==> Hangs(pool, place, root.value);
    TopOf(pool, place, k);
    TopOf(pool, place, j);
    if j in Subtree(place, k) {
      assert Isolated(pool', place', j);
      if root == Some(j) {
        assert place[k] == place[j];
        PlaceUnique(pool, place, k, j);
      }
    } else {
      assert SameContent(pool'[j], pool[j]);
    }
  }

  /** New content at one entry shows at its path and nowhere else. */
  lemma NamesUpdated(pool: seq<NameEntry>, place: seq<Place>, root: Option<nat>, pool': seq<NameEntry>, k: nat)
    requires Forest(pool, place) && k < |pool| && Forest(pool', place) && pool' == pool[k := pool'[k]]
    ensures NamesOf(pool', place, root) ==
            if InTree(place, root, k) then NamesOf(pool, place, root)[place[k].path := BindingOf(pool'[k])] else NamesOf(pool, place, root)
  {
    var names := NamesOf(pool, place, root);
    var m := if InTree(place, root, k) then names[place[k].path := BindingOf(pool'[k])] else names;
    NamesWithin(pool, place, root, names);
    forall j | 0 <= j < |pool'| && InTree(place, root, j)
      ensures place[j].path in m && m[place[j].path] == BindingOf(pool'[j])
    {
      if InTree(place, root, k) && place[j].path == place[k].path {
        PlaceUnique(pool, place, j, k);
      }
    }
    NamesExact(pool', place, root, m);
  }

  /** Hooking in a lone entry adds one name. */
  lemma NamesAttached(pool: seq<NameEntry>, place: seq<Place>, root: Option<nat>, k: nat, p: nat)
    requires Forest(pool, place) && k < |pool| && p < |pool| && root != Some(k)
    requires Isolated(pool, place, k) && place[p].top != k && pool[k].component !in pool[p].children
    requires Forest(AttachedPool(pool, k, p), AttachedPlace(place, k, p, pool[k].component))
    ensures NamesOf(AttachedPool(pool, k, p), AttachedPlace(place, k, p, pool[k].component), root) ==
            if InTree(place, root, p) then NamesOf(pool, place, root)[place[p].path + [pool[k].component] := Negative]
            else NamesOf(pool, place, root)
  {
    var pool', place' := AttachedPool(pool, k, p), AttachedPlace(place, k, p, pool[k].component);
    var names, path := NamesOf(pool, place, root), place[p].path + [pool[k].component];
    var m := if InTree(place, root, p) then names[path := Negative] else names;
    NamesWithin(pool, place, root, names);
    assert place'[k] == Place(place[p].top, path);
    forall j | 0 <= j < |pool|
      ensures j != k ==> place'[j] == place[j] && BindingOf(pool'[j]) == BindingOf(pool[j])
      ensures InTree(place, root, p) ==> !(InTree(place, root, j) && place[j].path == path)
    {
      if place[j].top == k {
        ChildlessAlone(pool, place, k, j);
      }
      ChildAbsent(pool, place, p, pool[k].component, j);
    }
    forall q | q in m
      ensures exists j :: 0 <= j < |pool'| && InTree(place', root, j) && place'[j].path == q
    {
      if InTree(place, root, p) && q == path {
        assert InTree(place', root, k);
      } else {
        var j :| 0 <= j < |pool| && InTree(place, root, j) && place[j].path == q;
        assert InTree(place', root, j);
      }
    }
    NamesExact(pool', place', root, m);
  }

  /** Nothing reachable at or below `path`. */
  ghost predicate Absent(place: seq<Place>, root: Option<nat>, path: Path) {
    forall k :: 0 <= k < |place| && InTree(place, root, k) ==> !(path <= place[k].path)
  }

  lemma AbsentForget(pool: seq<NameEntry>, place: seq<Place>, root: Option<nat>, path: Path)
    requires Forest(pool, place) && Absent(place, root, path)
    ensures Forget(NamesOf(pool, place, root), path) == NamesOf(pool, place, root)
    ensures path !in NamesOf(pool, place, root)
  {
  }

  /** Unlinking what is below an entry forgets exactly the names below its own. */
  lemma NamesPrunedBelow(pool: seq<NameEntry>, place: seq<Place>, root: Option<nat>, pool': seq<NameEntry>, place': seq<Place>, k: nat)
    requires Forest(pool, place) && Forest(pool', place') && k < |pool|
    requires root.Some? ==> root.value < |pool| && pool[root.value].parent.None?
    requires Pruned(pool, place, pool', place', Subtree(place, k) - {k})
    ensures NamesOf(pool', place', root) ==
            if InTree(place, root, k) then Forget(NamesOf(pool, place, root), place[k].path)[place[k].path := BindingOf(pool[k])]
            else NamesOf(pool, place, root)
  {
    var names := NamesOf(pool, place, root);
    var m := if InTree(place, root, k) then Forget(names, place[k].path)[place[k].path := BindingOf(pool[k])] else names;
    NamesWithin(pool, place, root, names);
    forall j | 0 <= j < |pool'| && InTree(place', root, j)
      ensures place'[j].path in m && m[place'[j].path] == BindingOf(pool'[j])
    {
      PrunedBelowInTree(pool, place, root, pool', place', k, j);
    }
    forall q | q in m
      ensures exists j :: 0 <= j < |pool'| && InTree(place', root, j) && place'[j].path == q
    {
      var j := k;
      if !(InTree(place, root, k) && q == place[k].path) {
        j :| 0 <= j < |pool| && InTree(place, root, j) && place[j].path == q;
      }
      PrunedBelowInTree(pool, place, root, pool', place', k, j);
    }
    NamesExact(pool', place', root, m);
  }

  lemma PrunedBelowInTree(pool: seq<NameEntry>, place: seq<Place>, root: Option<nat>, pool': seq<NameEntry>, place': seq<Place>, k: nat, j: nat)
    requires Forest(pool, place) && Forest(pool', place') && k < |pool| && j < |pool|
    requires root.Some? ==> root.value < |pool| && pool[root.value].parent.None?
    requires Pruned(pool, place, pool', place', Subtree(place, k) - {k})
    ensures InTree(place', root, j) <==> InTree(place, root, j) && (j == k || !Under(place, k, j))
    ensures InTree(place', root, j) ==> j !in Subtree(place, k) - {k} && place'[j] == place[j] && SameContent(pool'[j], pool[j])
    ensures InTree(place, root, j) && j != k && InTree(place, root, k) ==> place[j].path != place[k].path
  {
    assert root.Some? ==> Hangs(pool, place, root.value);
    if place[j] == place[k] {
      PlaceUnique(pool, place, j, k);
    }
    if j in Subtree(place, k) - {k} {
      assert Isolated(pool', place', j);
    } else {
      assert SameContent(pool'[j], pool[j]);
    }
  }
}
