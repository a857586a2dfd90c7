/** The name cache of daemon/name_cache.c: a pool of entries that is both a
    forest of search trees of names and a list in order of use, and shares the
    attribute records of the attribute cache. */
module NameCaches {
  import opened Lists
  import opened AttrCaches
  import opened Forests
  import opened PlainMaps
  import opened Renames

  // references held by name entries

  predicate UsesSlot(e: NameEntry, s: nat) {
    e.attributes == Some(s)
  }

  /** How many entries of the pool use attribute record `s`. */
  function Uses(pool: seq<NameEntry>, s: nat): nat {
    if pool == [] then 0 else
      Uses(pool[..|pool| - 1], s) + if UsesSlot(pool[|pool| - 1], s) then 1 else 0
  }

  lemma {:induction false} UsesUpdate(pool: seq<NameEntry>, k: nat, e: NameEntry, s: nat)
    requires k < |pool|
    ensures Uses(pool[k := e], s) + (if UsesSlot(pool[k], s) then 1 else 0)
         == Uses(pool, s) + (if UsesSlot(e, s) then 1 else 0)
  {
    var last := |pool| - 1;
    if k == last {
      assert pool[k := e][..last] == pool[..last];
    } else {
      UsesUpdate(pool[..last], k, e, s);
      assert pool[k := e][..last] == pool[..last][k := e];
    }
  }

  lemma {:induction false} UsesSame(pool: seq<NameEntry>, pool': seq<NameEntry>, s: nat)
    requires |pool'| == |pool|
    requires forall k :: 0 <= k < |pool| ==> pool'[k].attributes == pool[k].attributes
    ensures Uses(pool', s) == Uses(pool, s)
  {
    if pool != [] {
      UsesSame(pool[..|pool| - 1], pool'[..|pool| - 1], s);
    }
  }

  lemma {:induction false} UsesPositive(pool: seq<NameEntry>, k: nat, s: nat)
    requires k < |pool| && UsesSlot(pool[k], s)
    ensures Uses(pool, s) > 0
  {
    if k < |pool| - 1 {
      UsesPositive(pool[..|pool| - 1], k, s);
    }
  }

  ghost predicate CountExact(pool: seq<NameEntry>, attrs: seq<AttrEntry>, pins: multiset<nat>, s: nat) {
    (if s < |attrs| then attrs[s].refCount else 0) == Uses(pool, s) + pins[s]
  }

  /** Every reference count is the number of names using the record plus the
      delegations pinning it. */
  ghost predicate RefsExact(pool: seq<NameEntry>, attrs: seq<AttrEntry>, pins: multiset<nat>) {
    forall s: nat :: CountExact(pool, attrs, pins, s)
  }

  lemma RefsHeld(pool: seq<NameEntry>, attrs: seq<AttrEntry>, pins: multiset<nat>, k: nat)
    requires RefsExact(pool, attrs, pins) && k < |pool| && pool[k].attributes.Some?
    ensures pool[k].attributes.value < |attrs| && attrs[pool[k].attributes.value].refCount > 0
  {
    UsesPositive(pool, k, pool[k].attributes.value);
    assert CountExact(pool, attrs, pins, pool[k].attributes.value);
  }

  /** An entry gives up its record. */
  lemma RefsDropped(pool: seq<NameEntry>, attrs: seq<AttrEntry>, pins: multiset<nat>, k: nat, e: NameEntry)
    requires RefsExact(pool, attrs, pins) && k < |pool| && pool[k].attributes.Some? && e.attributes.None?
    ensures pool[k].attributes.value < |attrs| && attrs[pool[k].attributes.value].refCount > 0
    ensures var s := pool[k].attributes.value;
      RefsExact(pool[k := e], attrs[s := attrs[s].(refCount := attrs[s].refCount - 1)], pins)
  {
    RefsHeld(pool, attrs, pins, k);
    var s := pool[k].attributes.value;
    var pool', attrs' := pool[k := e], attrs[s := attrs[s].(refCount := attrs[s].refCount - 1)];
    forall t: nat
      ensures CountExact(pool', attrs', pins, t)
    {
      assert CountExact(pool, attrs, pins, t);
      UsesUpdate(pool, k, e, t);
    }
  }

  /** A negative entry takes a record. */
  lemma RefsTaken(pool: seq<NameEntry>, attrs: seq<AttrEntry>, attrs': seq<AttrEntry>, pins: multiset<nat>, k: nat, e: NameEntry, s: nat)
    requires RefsExact(pool, attrs, pins) && k < |pool| && pool[k].attributes.None? && e.attributes == Some(s)
    requires s < |attrs| == |attrs'| && attrs'[s].refCount == attrs[s].refCount + 1
    requires forall t :: 0 <= t < |attrs| && t != s ==> attrs'[t].refCount == attrs[t].refCount
    ensures RefsExact(pool[k := e], attrs', pins)
  {
    var pool' := pool[k := e];
    forall t: nat
      ensures CountExact(pool', attrs', pins, t)
    {
      assert CountExact(pool, attrs, pins, t);
      UsesUpdate(pool, k, e, t);
    }
  }

  /** A delegation takes a record. */
  lemma RefsPinned(pool: seq<NameEntry>, attrs: seq<AttrEntry>, attrs': seq<AttrEntry>, pins: multiset<nat>, s: nat)
    requires RefsExact(pool, attrs, pins)
    requires s < |attrs| == |attrs'| && attrs'[s].refCount == attrs[s].refCount + 1
    requires forall t :: 0 <= t < |attrs| && t != s ==> attrs'[t].refCount == attrs[t].refCount
    ensures RefsExact(pool, attrs', pins + multiset{s})
  {
    forall t: nat
      ensures CountExact(pool, attrs', pins + multiset{s}, t)
    {
      assert CountExact(pool, attrs, pins, t);
    }
  }

  /** A delegation gives up its record. */
  lemma RefsUnpinned(pool: seq<NameEntry>, attrs: seq<AttrEntry>, attrs': seq<AttrEntry>, pins: multiset<nat>, s: nat)
    requires RefsExact(pool, attrs, pins) && s in pins
    requires s < |attrs| == |attrs'| && attrs'[s].refCount == attrs[s].refCount - 1
    requires forall t :: 0 <= t < |attrs| && t != s ==> attrs'[t].refCount == attrs[t].refCount
    ensures RefsExact(pool, attrs', pins - multiset{s})
  {
    forall t: nat
      ensures CountExact(pool, attrs', pins - multiset{s}, t)
    {
      assert CountExact(pool, attrs, pins, t);
    }
  }

  lemma RefsSame(pool: seq<NameEntry>, pool': seq<NameEntry>, attrs: seq<AttrEntry>, attrs': seq<AttrEntry>, pins: multiset<nat>)
    requires RefsExact(pool, attrs, pins) && |pool'| == |pool| && |attrs'| == |attrs|
    requires forall k :: 0 <= k < |pool| ==> pool'[k].attributes == pool[k].attributes
    requires forall s :: 0 <= s < |attrs| ==> attrs'[s].refCount == attrs[s].refCount
    ensures RefsExact(pool', attrs', pins)
  {
    forall t: nat
      ensures CountExact(pool', attrs', pins, t)
    {
      assert CountExact(pool, attrs, pins, t);
      UsesSame(pool, pool', t);
    }
  }

  /** Records survive up to their reference counts. */
  ghost predicate AttrsKept(attrs: seq<AttrEntry>, attrs': seq<AttrEntry>) {
    |attrs'| == |attrs| && forall s :: 0 <= s < |attrs| ==> SameRecord(attrs'[s], attrs[s])
  }

  /** Delegated records stay delegated, under the same file id. */
  ghost predicate PinsStay(attrs: seq<AttrEntry>, attrs': seq<AttrEntry>) {
    |attrs'| == |attrs| &&
    forall s :: 0 <= s < |attrs| && attrs[s].delegated ==> attrs'[s].delegated && attrs'[s].fileid == attrs[s].fileid
  }

  /** A record that nobody references is not delegated. */
  lemma FreshIsUnpinned(pool: seq<NameEntry>, attrs: seq<AttrEntry>, pins: multiset<nat>, s: nat)
    requires RefsExact(pool, attrs, pins) && s < |attrs| && attrs[s].refCount == 0
    ensures s !in pins
  {
    assert CountExact(pool, attrs, pins, s);
  }

  /** change_info4: the directory's change attribute around the operation. */
  datatype ChangeInfo = ChangeInfo(atomic: bool, before: nat, after: nat)

  predicate Matches(c: ChangeInfo, change: nat) {
    c.after == change || (c.atomic && c.before == change)
  }

  datatype Status = NoError | FileNotFound | PathNotFound | OutOfMemory | TooManyOpenFiles

  /** Reachable negative entries are childless. */
  ghost predicate NegativeLeaves(pool: seq<NameEntry>, place: seq<Place>, root: Option<nat>)
    requires |place| == |pool|
  {
    forall k :: 0 <= k < |pool| && InTree(place, root, k) && pool[k].attributes.None? ==> pool[k].children == map[]
  }

  lemma InSubtree(place: seq<Place>, k: nat)
    requires k < |place|
    ensures k in Subtree(place, k)
  {
  }

  lemma LeavesPruned(pool: seq<NameEntry>, place: seq<Place>, root: Option<nat>, pool': seq<NameEntry>, place': seq<Place>, k: nat)
    requires Forest(pool, place) && Forest(pool', place') && k < |pool|
    requires root.Some? ==> root.value < |pool| && pool[root.value].parent.None?
    requires Pruned(pool, place, pool', place', Subtree(place, k)) && NegativeLeaves(pool, place, root)
    ensures NegativeLeaves(pool', place', if root == Some(k) then None else root)
    ensures Isolated(pool', place', k)
    ensures forall j :: 0 <= j < |pool| && InTree(place', if root == Some(k) then None else root, j) ==> j !in Subtree(place, k)
  {
    InSubtree(place, k);
    forall j | 0 <= j < |pool'| && InTree(place', if root == Some(k) then None else root, j)
      ensures j !in Subtree(place, k) && (pool'[j].attributes.None? ==> pool'[j].children == map[])
    {
      PrunedInTree(pool, place, root, pool', place', k, j);
      assert SameContent(pool'[j], pool[j]);
    }
  }

  lemma LeavesAttached(pool: seq<NameEntry>, place: seq<Place>, root: Option<nat>, k: nat, p: nat)
    requires Forest(pool, place) && k < |pool| && p < |pool| && k != p && NegativeLeaves(pool, place, root)
    requires Isolated(pool, place, k) && (InTree(place, root, p) ==> pool[p].attributes.Some?)
    ensures NegativeLeaves(AttachedPool(pool, k, p), AttachedPlace(place, k, p, pool[k].component), root)
  {
    forall j | 0 <= j < |pool|
      ensures place[j].top == k ==> j == k
    {
      LoneMoves(pool, place, k, j);
    }
  }

  lemma NewName(pool: seq<NameEntry>, place: seq<Place>, root: Option<nat>, p: nat, c: Component)
    requires Forest(pool, place) && p < |pool| && InTree(place, root, p) && c !in pool[p].children
    ensures var path := place[p].path + [c];
      path !in NamesOf(pool, place, root) && Forget(NamesOf(pool, place, root), path) == NamesOf(pool, place, root)
  {
    var path := place[p].path + [c];
    assert path[..|path| - 1] == place[p].path;
    ChildMissing(pool, place, root, p, path, |path| - 1);
    AbsentForget(pool, place, root, path);
  }

  lemma ForgetWithin(m: Names, path: Path)
    requires path != []
    ensures Within(Forget(m, path[..|path| - 1]), Forget(m, path))
  {
    assert path[..|path| - 1] <= path;
  }

  /** A negative name was added at `path`, and perhaps others were forgotten;
      the new entry itself may have ended up out of reach. */
  ghost predicate Opened(m: Names, m': Names, path: Path, reachable: bool, at: Path) {
    && path !in m && Forget(m, path) == m && Within(m', m[path := Negative])
    && (if reachable then at == path else Within(m', m))
  }

  lemma WithinSelf(m: Names)
    ensures Within(m, m)
  {
  }

  lemma OpenedAt(m: Names, m': Names, path: Path, reachable: bool, at: Path)
    requires Opened(m, m', path, reachable, at) && reachable
    ensures at == path
  {
  }

  lemma InsertBinds(m: Names, path: Path, b: Binding)
    ensures path in PlainInsert(m, path, b)
  {
  }

  lemma AbsentBelow(pool: seq<NameEntry>, place: seq<Place>, root: Option<nat>, up: Path, path: Path)
    requires Forest(pool, place) && Absent(place, root, up) && up <= path
    ensures Forget(NamesOf(pool, place, root), path) == NamesOf(pool, place, root)
  {
    assert Absent(place, root, path);
    AbsentForget(pool, place, root, path);
  }

  lemma ParentUnique(pool: seq<NameEntry>, place: seq<Place>, root: Option<nat>, p: nat, path: Path)
    requires Forest(pool, place) && root.Some? && p < |pool| && path != [] && place[p] == Place(root.value, path[..|path| - 1])
    ensures forall q: nat :: q < |place| && place[q] == place[p] ==> q == p
    ensures path in NamesOf(pool, place, root) <==> path[|path| - 1] in pool[p].children
    ensures path !in NamesOf(pool, place, root) ==> Forget(NamesOf(pool, place, root), path) == NamesOf(pool, place, root)
    ensures path[|path| - 1] in pool[p].children ==>
              var t := pool[p].children[path[|path| - 1]]; t < |pool| && place[t] == Place(root.value, path)
  {
    PlacesUnique(pool, place);
    var c := path[|path| - 1];
    assert path == path[..|path| - 1] + [c];
    if c in pool[p].children {
      ChildFound(pool, place, p, c);
      NamesWithin(pool, place, root, NamesOf(pool, place, root));
      assert InTree(place, root, pool[p].children[c]);
    } else {
      NewName(pool, place, root, p, c);
    }
  }

  /** Touching `p` leaves it last only if all that is listed lies above it. */
  lemma TailNotFront(place: seq<Place>, exp: seq<nat>, p: nat)
    requires Listed(place, exp) && p < |place| && Fronted(place, exp, p, None)
    ensures exp != [] && exp[|exp| - 1] == p ==> p in exp && forall y :: y in exp ==> Under(place, y, p)
  {
    if exp != [] && exp[|exp| - 1] == p {
      forall y | y in exp
        ensures Under(place, y, p)
      {
        var i :| 0 <= i < |exp| && exp[i] == y;
        assert OnWay(place, p, None, exp[|exp| - 1]);
        assert i < |exp| - 1 ==> OnWay(place, p, None, exp[i]);
      }
    }
  }

  lemma OrderedIsOutside(place: seq<Place>, exp: seq<nat>, gone: set<nat>)
    requires Listed(place, exp) && Ordered(place, exp)
    ensures OrderedOutside(place, exp, gone)
  {
  }

  lemma GrownRefs(pool: seq<NameEntry>, attrs: seq<AttrEntry>, pins: multiset<nat>, e: NameEntry)
    requires RefsExact(pool, attrs, pins) && e.attributes.None?
    ensures RefsExact(pool + [e], attrs, pins)
  {
    var pool' := pool + [e];
    assert pool'[..|pool|] == pool;
    forall s: nat
      ensures CountExact(pool', attrs, pins, s)
    {
      assert CountExact(pool, attrs, pins, s);
    }
  }

  lemma GrownNames(pool: seq<NameEntry>, place: seq<Place>, root: Option<nat>, e: NameEntry)
    requires Forest(pool, place) && Forest(pool + [e], place + [Place(|pool|, [])])
    requires root.Some? ==> root.value < |pool|
    ensures NamesOf(pool + [e], place + [Place(|pool|, [])], root) == NamesOf(pool, place, root)
  {
    var pool', place' := pool + [e], place + [Place(|pool|, [])];
    var names := NamesOf(pool, place, root);
    NamesWithin(pool, place, root, names);
    forall q | q in names
      ensures exists j :: 0 <= j < |pool'| && InTree(place', root, j) && place'[j].path == q
    {
      var j :| 0 <= j < |pool| && InTree(place, root, j) && place[j].path == q;
      assert InTree(place', root, j);
    }
    NamesExact(pool', place', root, names);
  }

  lemma GrownOrdered(place: seq<Place>, exp: seq<nat>)
    requires Listed(place, exp) && Ordered(place, exp)
    requires forall k :: 0 <= k < |place| ==> place[k].top < |place|
    ensures Listed(place + [Place(|place|, [])], exp + [|place|])
    ensures Ordered(place + [Place(|place|, [])], exp + [|place|])
  {
    var place', exp' := place + [Place(|place|, [])], exp + [|place|];
    forall i, j | 0 <= i < j < |exp'|
      ensures !Above(place', exp'[j], exp'[i])
    {
      if j < |exp| {
        assert !Above(place, exp[j], exp[i]);
      }
    }
  }

  lemma RootPlace(pool: seq<NameEntry>, place: seq<Place>, root: nat)
    requires Forest(pool, place) && root < |pool| && pool[root].parent.None?
    ensures |place| == |pool| && place[root] == Place(root, [])
  {
    assert Hangs(pool, place, root);
  }

  lemma ChildFound(pool: seq<NameEntry>, place: seq<Place>, p: nat, c: Component)
    requires Forest(pool, place) && p < |pool| && c in pool[p].children
    ensures var k := pool[p].children[c];
      k < |pool| == |place| && place[k] == Place(place[p].top, place[p].path + [c]) && pool[k].parent == Some(p)
  {
    ChildPlace(pool, place, p, c);
    assert IsChild(pool, p, c);
  }

  lemma ChildMissing(pool: seq<NameEntry>, place: seq<Place>, root: Option<nat>, p: nat, path: Path, i: nat)
    requires Forest(pool, place) && root.Some? && p < |pool| && i < |path|
    requires place[p] == Place(root.value, path[..i]) && path[i] !in pool[p].children
    ensures forall n :: i < n <= |path| ==> Absent(place, root, path[..n])
    ensures Absent(place, root, path)
  {
    forall k, n | 0 <= k < |place| && InTree(place, root, k) && i < n <= |path|
      ensures !(path[..n] <= place[k].path)
    {
      ChildAbsent(pool, place, p, path[i], k);
      assert path[..i] + [path[i]] == path[..i + 1] <= path[..n];
    }
    assert path[..|path|] == path;
  }

  function NewBinding(fh: Option<Fh>, info: Option<FileInfo>): Binding {
    if info.None? then Negative else Positive(if fh.Some? then fh.value else [])
  }

  function ParentOf(path: Path): Path {
    if path == [] then [] else path[..|path| - 1]
  }

  /** A positive entry is updated with attributes of the file it already stands for. */
  ghost predicate FileIdAgrees(e: NameEntry, attrs: seq<AttrEntry>, info: FileInfo) {
    e.attributes.Some? && e.attributes.value < |attrs| ==> attrs[e.attributes.value].fileid == info.fileid
  }

  /** A record for the file can be had: it has one, or there is a free one. */
  ghost predicate CanHold(cache: AttrCache, fileid: FileId)
    reads cache
  {
    fileid in cache.tree || cache.free != []
  }

  /** The entry has a record, which is as new as the attributes. */
  ghost predicate Records(e: NameEntry, attrs: seq<AttrEntry>, info: FileInfo) {
    && e.attributes.Some? && e.attributes.value < |attrs|
    && (info.hasChange ==> attrs[e.attributes.value].change == info.change && !attrs[e.attributes.value].invalidated)
  }

  /** The record of a delegated file can be found by its file id. */
  ghost predicate Pinned(cache: AttrCache, fileid: FileId)
    reads cache
  {
    fileid in cache.tree && cache.tree[fileid] < |cache.pool| && cache.pool[cache.tree[fileid]].delegated
  }

  lemma RootNamed(pool: seq<NameEntry>, place: seq<Place>, root: nat)
    requires Forest(pool, place) && root < |pool| && pool[root].parent.None?
    ensures place[root] == Place(root, []) && [] in NamesOf(pool, place, Some(root))
  {
    RootPlace(pool, place, root);
    assert InTree(place, Some(root), root);
  }

  lemma NoRoot(pool: seq<NameEntry>, place: seq<Place>)
    requires Forest(pool, place)
    ensures NamesOf(pool, place, None) == map[]
  {
  }

  /** A lone entry made root is a tree of one negative name. */
  lemma LoneTree(pool: seq<NameEntry>, place: seq<Place>, k: nat)
    requires Forest(pool, place) && k < |pool| && Isolated(pool, place, k)
    ensures NamesOf(pool, place, Some(k)) == map[[] := Negative] && place[k] == Place(k, [])
    ensures NegativeLeaves(pool, place, Some(k))
  {
    var m: Names := map[[] := Negative];
    forall j | 0 <= j < |pool|
      ensures InTree(place, Some(k), j) ==> j == k
    {
      LoneMoves(pool, place, k, j);
    }
    assert InTree(place, Some(k), k);
    NamesExact(pool, place, Some(k), m);
  }

  /** Storing at an entry that is there is inserting into the plain map. */
  lemma StoredFound(pool: seq<NameEntry>, place: seq<Place>, root: Option<nat>, t: nat, path: Path, b: Binding)
    requires Forest(pool, place) && root.Some? && t < |pool| && place[t] == Place(root.value, path)
    requires b.Negative? ==> pool[t].children == map[]
    ensures NamesOf(pool, place, root)[path := b] == PlainInsert(NamesOf(pool, place, root), path, b)
    ensures Within(NamesOf(pool, place, root)[path := b], PlainInsert(NamesOf(pool, place, root), path, b))
  {
    var m := NamesOf(pool, place, root);
    if b.Negative? {
      forall q | q in m && path <= q
        ensures q == path
      {
        var k :| 0 <= k < |pool| && InTree(place, root, k) && place[k].path == q;
        ChildlessAlone(pool, place, t, k);
      }
      assert m[path := b] == Forget(m, path)[path := Negative];
    }
  }

  lemma StoredOpened(m: Names, m1: Names, path: Path, reachable: bool, at: Path, b: Binding)
    requires Opened(m, m1, path, reachable, at)
    ensures reachable ==> at == path && Within(m1[path := b], PlainInsert(m, path, b)) && Within(Forget(m1, path), Forget(m, path))
    ensures !reachable ==> Within(m1, PlainInsert(m, path, b)) && Within(m1, Forget(m, path))
    ensures m[path := Negative][path := b] == PlainInsert(m, path, b)
  {
  }

  lemma ForgetIsLess(m: Names, m1: Names, path: Path, b: Binding)
    ensures Within(m1, Forget(m, path)) ==> Within(m1, PlainInsert(m, path, b))
  {
  }

  lemma FoundUnique(pool: seq<NameEntry>, place: seq<Place>, root: Option<nat>, t: nat, path: Path)
    requires Forest(pool, place) && root.Some? && t < |pool| && place[t] == Place(root.value, path)
    ensures path in NamesOf(pool, place, root) && NamesOf(pool, place, root)[path] == BindingOf(pool[t])
    ensures forall k: nat :: k < |place| && place[k] == place[t] ==> k == t
  {
    PlacesUnique(pool, place);
    NamesWithin(pool, place, root, NamesOf(pool, place, root));
    assert InTree(place, root, t);
  }

  /** After a name has been opened, no other entry is at its path. */
  lemma OnlyEntryAt(pool: seq<NameEntry>, place: seq<Place>, root: Option<nat>, m: Names, t: nat, path: Path, k: nat)
    requires Forest(pool, place) && |place| == |pool| && t < |pool|
    requires (root.Some? && place[t] == Place(root.value, path))
             || Opened(m, NamesOf(pool, place, root), path, InTree(place, root, t), place[t].path)
    requires root.Some? && k < |pool| && place[k] == Place(root.value, path)
    ensures k == t
  {
    hide Forest, NamesOf;
    FoundUnique(pool, place, root, k, path);
    if InTree(place, root, t) {
      assert place[t] == place[k];
    }
  }

  lemma PinnedHeld(pool: seq<NameEntry>, attrs: seq<AttrEntry>, pins: multiset<nat>, s: nat)
    requires RefsExact(pool, attrs, pins) && s in pins
    ensures s < |attrs| && attrs[s].refCount > 0
  {
    assert CountExact(pool, attrs, pins, s);
  }

  lemma ForgetTwice(m: Names, path: Path, b: Binding)
    ensures Forget(m[path := b], path) == Forget(m, path)
  {
  }

  lemma LeavesBelow(pool: seq<NameEntry>, pool1: seq<NameEntry>, place: seq<Place>, root: Option<nat>,
                    pool2: seq<NameEntry>, place2: seq<Place>, k: nat)
    requires Forest(pool1, place) && Forest(pool2, place2) && k < |pool| == |pool1| && pool1 == pool[k := pool1[k]]
    requires root.Some? ==> root.value < |pool1| && pool1[root.value].parent.None?
    requires NegativeLeaves(pool, place, root) && Pruned(pool1, place, pool2, place2, Subtree(place, k) - {k}) && pool2[k].children == map[]
    ensures NegativeLeaves(pool2, place2, root)
  {
    forall j | 0 <= j < |pool2| && InTree(place2, root, j) && pool2[j].attributes.None?
      ensures pool2[j].children == map[]
    {
      PrunedBelowInTree(pool1, place, root, pool2, place2, k, j);
    }
  }

  lemma NegativeAt(pool: seq<NameEntry>, place: seq<Place>, root: Option<nat>, k: nat)
    requires Forest(pool, place) && k < |pool| && pool[k].attributes.None? && InTree(place, root, k)
    ensures place[k].path in NamesOf(pool, place, root) && NamesOf(pool, place, root)[place[k].path] == Negative
  {
    NamesWithin(pool, place, root, NamesOf(pool, place, root));
  }

  lemma CastDistinct(pool: seq<NameEntry>, place: seq<Place>, top: nat, src: Path, dst: Path, s: nat, sp: nat, dp: nat, e: Option<nat>)
    requires Forest(pool, place) && Cast(place, top, src, dst, s, sp, dp, e)
    ensures e.Some? ==> e.value != s && e.value != sp && e.value != dp
    ensures s != sp && s != dp && top != s && (e.Some? ==> top != e.value)
  {
    UnhookedAt(pool, place, top, src, dst, s, sp, dp, e, s);
  }

  /** Only the links between `k` and `p` and the name of `k` have changed. */
  ghost predicate Relinked(pool: seq<NameEntry>, pool': seq<NameEntry>, k: nat, p: nat) {
    && |pool'| == |pool|
    && forall j :: 0 <= j < |pool| ==>
         && pool'[j].attributes == pool[j].attributes && pool'[j].fh == pool[j].fh
         && (j != p ==> pool'[j].children == pool[j].children)
         && (j != k ==> pool'[j].parent == pool[j].parent && pool'[j].component == pool[j].component)
  }

  lemma SwapTops(pool: seq<NameEntry>, place: seq<Place>, top: nat, src: Path, dst: Path, s: nat, sp: nat, dp: nat, e: Option<nat>)
    requires Forest(pool, place) && Cast(place, top, src, dst, s, sp, dp, e)
    ensures Unhook2(place, s, e)[dp].top == top && Hook1(place, dst, s, dp, e)[sp].top == top
    ensures sp == dp ==> src[|src| - 1] != dst[|dst| - 1]
  {
    hide Hook1; hide Unhook2; hide ShiftedPlace; hide Absent;
    UnhookedAt(pool, place, top, src, dst, s, sp, dp, e, dp);
    HookedAt(pool, place, top, src, dst, s, sp, dp, e, sp);
    if sp == dp {
      NamesDiffer(src, dst);
    }
  }

  lemma NamesDiffer(a: Path, b: Path)
    requires a != [] && b != [] && a != b && a[..|a| - 1] == b[..|b| - 1]
    ensures a[|a| - 1] != b[|b| - 1]
  {
    assert a == a[..|a| - 1] + [a[|a| - 1]];
    assert b == b[..|b| - 1] + [b[|b| - 1]];
  }

  lemma ParentPositive(pool: seq<NameEntry>, place: seq<Place>, root: Option<nat>, s: nat, sp: nat)
    requires Forest(pool, place) && NegativeLeaves(pool, place, root) && s < |pool| && sp < |pool|
    requires pool[s].parent == Some(sp) && InTree(place, root, sp)
    ensures pool[sp].attributes.Some?
  {
    assert Hangs(pool, place, s);
  }

  lemma SwapLeaves(pool: seq<NameEntry>, place: seq<Place>, root: Option<nat>, pool': seq<NameEntry>, place': seq<Place>,
                   top: nat, src: Path, dst: Path, s: nat, sp: nat, dp: nat, e: Option<nat>)
    requires Forest(pool, place) && Cast(place, top, src, dst, s, sp, dp, e) && Shifted(place, place', src, dst, s, e) && root == Some(top)
    requires NegativeLeaves(pool, place, root) && |pool'| == |pool| && pool[sp].attributes.Some? && pool[dp].attributes.Some?
    requires forall j :: 0 <= j < |pool| ==> pool'[j].attributes == pool[j].attributes
    requires forall j :: 0 <= j < |pool| && j != sp && j != dp ==> pool'[j].children == pool[j].children
    ensures |place'| == |pool'| && NegativeLeaves(pool', place', root)
    ensures place'[sp] == place[sp] && (e.Some? ==> place'[e.value] == Place(top, src))
    ensures forall y :: 0 <= y < |place| && Under(place', y, sp) ==> Under(place, y, sp)
  {
    UnhookedAt(pool, place, top, src, dst, s, sp, dp, e, s);
    forall j | 0 <= j < |pool| && InTree(place', root, j) && pool'[j].attributes.None?
      ensures pool'[j].children == map[]
    {
      ShiftedTop(place, place', src, dst, s, e, j);
      assert InTree(place, root, j);
    }
    assert place'[sp] == ShiftedPlace(place, src, dst, s, e, sp);
    if e.Some? {
      assert place'[e.value] == ShiftedPlace(place, src, dst, s, e, e.value);
    }
    forall y | 0 <= y < |place| && Under(place', y, sp)
      ensures Under(place, y, sp)
    {
      assert place'[y] == ShiftedPlace(place, src, dst, s, e, y);
      NotBelowParent(dst, src);
    }
  }

  lemma AbsentWithin(m: Names, path: Path)
    requires Forget(m, path) == m
    ensures Within(m, PlainRemove(m, path))
  {
  }

  lemma AwayWithin(m: Names, src: Path, dst: Path)
    requires Forget(m, dst) == m && (src == dst ==> src !in m)
    ensures src in m ==> Within(PlainRemove(m, src), PlainRename(m, src, dst))
    ensures Forget(m, src) == m && src !in m ==> Within(m, PlainRename(m, src, dst))
  {
    hide Moved;
    MovedAt(m, src, dst, []);
  }

  lemma UnknownWithin(m: Names, src: Path, dst: Path)
    requires forall q :: q in m && src <= q ==> q == src && m[q] == Negative
    ensures Within(Forget(m, dst), PlainRename(m, src, dst))
    ensures Forget(m, dst) == m ==> Within(m, PlainRename(m, src, dst))
  {
  }

  predicate Known(m: Names, p: Path) {
    p in m && m[p].Positive?
  }

  /** What a rename leaves of a map, given whether the change infos contradict
      what is known of the two directories. */
  function RenameOutcome(m: Names, src: Path, dst: Path, dstStale: bool, srcStale: bool): Names {
    if !Known(m, ParentOf(dst)) then (if src in m then PlainRemove(m, src) else m)
    else if !Known(m, src) then Forget(m, dst)
    else if dstStale then
      var rest := Forget(m, ParentOf(dst));
      if src !in rest then rest else if srcStale then Forget(rest, ParentOf(src)) else PlainRemove(rest, src)
    else if src == dst then m
    else if srcStale then Forget(PlainRename(m, src, dst), ParentOf(src))
    else PlainRename(m, src, dst)
  }

  lemma StaleOutcome(m: Names, src: Path, dst: Path)
    requires src != [] && dst != [] && Known(m, src) && Known(m, dst[..|dst| - 1])
    ensures var rest := Forget(m, dst[..|dst| - 1]);
      && (src in rest <==> !(dst[..|dst| - 1] <= src))
      && RenameOutcome(m, src, dst, true, true) == (if src !in rest then rest else Forget(rest, src[..|src| - 1]))
      && RenameOutcome(m, src, dst, true, false) == (if src !in rest then rest else PlainRemove(rest, src))
  {
  }

  lemma FreshOutcome(m: Names, src: Path, dst: Path)
    requires src != [] && dst != [] && Known(m, src) && Known(m, dst[..|dst| - 1])
    ensures RenameOutcome(m, src, dst, false, true) == if src == dst then m else Forget(PlainRename(m, src, dst), src[..|src| - 1])
    ensures RenameOutcome(m, src, dst, false, false) == if src == dst then m else PlainRename(m, src, dst)
  {
    hide PlainRename, Forget;
  }

  lemma UnknownOutcome(m: Names, src: Path, dst: Path, a: bool, b: bool)
    requires src != [] && dst != []
    ensures !Known(m, dst[..|dst| - 1]) ==> RenameOutcome(m, src, dst, a, b) == if src in m then PlainRemove(m, src) else m
    ensures Known(m, dst[..|dst| - 1]) && !Known(m, src) ==> RenameOutcome(m, src, dst, a, b) == Forget(m, dst)
  {
    hide PlainRename, Forget;
  }

  lemma ForgetRemoved(m: Names, path: Path)
    requires path != []
    ensures Forget(PlainRemove(m, path), path[..|path| - 1]) == Forget(m, path[..|path| - 1])
  {
    assert path[..|path| - 1] <= path;
  }

  lemma StaleWithin(m: Names, src: Path, dst: Path)
    requires src != [] && dst != [] && (src == dst || Apart(src, dst))
    ensures src[..|src| - 1] == dst[..|dst| - 1] ==> Within(Forget(m, dst[..|dst| - 1]), PlainRename(m, src, dst))
  {
    hide Moved;
    MovedAt(m, src, dst, []);
  }

  lemma SameParent(src: Path, dst: Path, p: Place)
    requires src != [] && dst != [] && p.path == src[..|src| - 1]
    ensures p.path == dst[..|dst| - 1] ==> src[..|src| - 1] == dst[..|dst| - 1]
  {
  }

  lemma ParentsApart(pool: seq<NameEntry>, place: seq<Place>, src: Path, dst: Path, sp: nat, dp: nat)
    requires Forest(pool, place) && sp < |pool| && dp < |pool| && sp != dp && src != [] && dst != [] && place[sp].top == place[dp].top
    requires place[sp].path == src[..|src| - 1] && place[dp].path == dst[..|dst| - 1]
    ensures src != dst
  {
    if src == dst {
      PlaceUnique(pool, place, sp, dp);
    }
  }

  /** Dropping the subtree of `dp` takes `s` along exactly when it takes `sp`. */
  lemma StillThere(pool: seq<NameEntry>, place: seq<Place>, root: Option<nat>, pool': seq<NameEntry>, place': seq<Place>,
                   src: Path, dst: Path, s: nat, sp: nat, dp: nat)
    requires Forest(pool, place) && Forest(pool', place') && root.Some? && root.value < |pool| && pool[root.value].parent.None?
    requires src != [] && dst != [] && Apart(src, dst) && s < |pool| && sp < |pool| && dp < |pool|
    requires place[s] == Place(root.value, src) && place[sp] == Place(root.value, src[..|src| - 1])
    requires place[dp] == Place(root.value, dst[..|dst| - 1]) && Pruned(pool, place, pool', place', Subtree(place, dp))
    ensures var root' := if root == Some(dp) then None else root;
      if dst[..|dst| - 1] <= src then !InTree(place', root', s) && pool'[sp].attributes.None?
      else place'[s] == place[s] && place'[sp] == place[sp] && root' == root && pool'[sp].attributes == pool[sp].attributes
  {
    PrunedInTree(pool, place, root, pool', place', dp, s);
    RootPlace(pool, place, root.value);
    if dst[..|dst| - 1] <= src {
      NotBelowParent(src, dst);
      ProperPrefixOfParent(dst[..|dst| - 1], src);
      assert Isolated(pool', place', sp);
    } else {
      assert s !in Subtree(place, dp);
      NotBelowParent(dst[..|dst| - 1], src);
    }
  }

  lemma StaleThen(m: Names, m1: Names, src: Path, dst: Path)
    requires src != [] && dst != [] && Apart(src, dst)
    ensures Within(m1, PlainRemove(Forget(m, dst[..|dst| - 1]), src)) ==> Within(m1, PlainRename(m, src, dst))
    ensures dst[..|dst| - 1] <= src && m1 == Forget(m, dst[..|dst| - 1]) ==> Within(m1, PlainRename(m, src, dst))
  {
    hide Moved;
    MovedAt(m, src, dst, []);
    var gone := Forget(m, dst[..|dst| - 1]);
    forall q | q in gone && !(src <= q)
      ensures q in PlainRename(m, src, dst) && PlainRename(m, src, dst)[q] == gone[q]
    {
      assert dst[..|dst| - 1] <= dst;
    }
  }

  lemma RenameSelf(m: Names, src: Path, dst: Path)
    requires src == dst
    ensures PlainRename(m, src, dst) == m && Within(m, PlainRename(m, src, dst))
  {
  }

  /** The entries of a rename stand as `Cast` says. */
  lemma RenameSetting(pool: seq<NameEntry>, place: seq<Place>, root: Option<nat>, src: Path, dst: Path, s: nat, sp: nat, dp: nat)
    requires Forest(pool, place) && root.Some? && s < |pool| && sp < |pool| && dp < |pool|
    requires src != [] && dst != [] && (src == dst || Apart(src, dst)) && pool[s].parent == Some(sp)
    requires place[s] == Place(root.value, src) && place[sp] == Place(root.value, src[..|src| - 1])
    requires place[dp] == Place(root.value, dst[..|dst| - 1])
    ensures var c := dst[|dst| - 1];
      var e := if c in pool[dp].children then Some(pool[dp].children[c]) else None;
      && pool[s].component == src[|src| - 1] && (e == Some(s) <==> src == dst)
      && (e.Some? ==> e.value < |pool| && pool[e.value].parent == Some(dp) && pool[e.value].component == c)
      && (src != dst ==> Cast(place, root.value, src, dst, s, sp, dp, e))
      && (dst in NamesOf(pool, place, root) <==> e.Some?)
  {
    ParentUnique(pool, place, root, dp, dst);
    assert Hangs(pool, place, s);
    var c := dst[|dst| - 1];
    assert dst == dst[..|dst| - 1] + [c];
    if c in pool[dp].children {
      ChildFound(pool, place, dp, c);
      assert IsChild(pool, dp, c);
      if src == dst {
        PlaceUnique(pool, place, s, pool[dp].children[c]);
      }
    } else {
      ChildMissing(pool, place, root, dp, dst, |dst| - 1);
    }
  }

  /** Without a positive parent there are no names at or below `dst`. */
  lemma NoTargetNames(pool: seq<NameEntry>, place: seq<Place>, root: Option<nat>, dst: Path, dp: Option<nat>)
    requires Forest(pool, place) && NegativeLeaves(pool, place, root) && dst != []
    requires dp.None? ==> Absent(place, root, dst[..|dst| - 1])
    requires dp.Some? ==> dp.value < |pool| && root.Some? && place[dp.value] == Place(root.value, dst[..|dst| - 1]) && pool[dp.value].attributes.None?
    ensures Forget(NamesOf(pool, place, root), dst) == NamesOf(pool, place, root) && dst !in NamesOf(pool, place, root)
    ensures forall k: nat :: k < |pool| && root.Some? && place[k] == Place(root.value, dst[..|dst| - 1]) ==> pool[k].attributes.None?
  {
    forall k: nat | k < |pool| && root.Some? && place[k] == Place(root.value, dst[..|dst| - 1])
      ensures pool[k].attributes.None?
    {
      assert InTree(place, root, k);
      if dp.Some? {
        PlaceUnique(pool, place, k, dp.value);
      }
    }
    if dp.None? {
      AbsentBelow(pool, place, root, dst[..|dst| - 1], dst);
      assert Absent(place, root, dst);
    } else {
      assert InTree(place, root, dp.value);
      ParentUnique(pool, place, root, dp.value, dst);
    }
  }

  /** A name that is absent or negative has nothing below it. */
  lemma NoSourceNames(pool: seq<NameEntry>, place: seq<Place>, root: Option<nat>, src: Path, s: Option<nat>)
    requires Forest(pool, place) && NegativeLeaves(pool, place, root)
    requires s.None? ==> Absent(place, root, src)
    requires s.Some? ==> s.value < |pool| && root.Some? && place[s.value] == Place(root.value, src) && pool[s.value].attributes.None?
    ensures var m := NamesOf(pool, place, root);
      && (forall q :: q in m && src <= q ==> q == src && m[q] == Negative)
      && (src in m ==> m[src] == Negative)
  {
    var m := NamesOf(pool, place, root);
    if s.Some? {
      assert InTree(place, root, s.value);
      NegativeAt(pool, place, root, s.value);
    }
    forall q | q in m && src <= q
      ensures q == src
    {
      var k :| 0 <= k < |pool| && InTree(place, root, k) && place[k].path == q;
      if s.Some? {
        ChildlessAlone(pool, place, s.value, k);
      }
    }
  }

  lemma OpenedRemove(m: Names, m1: Names, path: Path, reachable: bool, at: Path)
    requires Opened(m, m1, path, reachable, at)
    ensures reachable ==> at == path && Within(PlainRemove(m1, path), PlainRemove(m, path))
    ensures !reachable ==> Within(m1, PlainRemove(m, path))
    ensures PlainRemove(m[path := Negative], path) == PlainRemove(m, path)
  {
  }

  /** The record in use under a file id is the one in the index. */
  lemma SearchIndexed(c: AttrCache, fileid: FileId, slot: Option<nat>)
    requires c.Valid()
    requires slot.Some? ==> slot.value < |c.pool| && c.pool[slot.value].fileid == fileid && c.pool[slot.value].refCount > 0
    requires slot.None? ==> forall s :: 0 <= s < |c.pool| && c.pool[s].refCount > 0 ==> c.pool[s].fileid != fileid
    ensures slot == if fileid in c.tree then Some(c.tree[fileid]) else None
  {
  }

  class NameCache {
    const maxEntries: nat
    const maxDelegations: nat
    const attributes: AttrCache
    var root: Option<nat>
    var pool: seq<NameEntry>
    var exp: seq<nat>
    var delegations: nat
    /** Where each entry of the pool hangs. */
    ghost var place: seq<Place>
    /** The record pinned by each counted delegation. */
    ghost var pins: multiset<nat>

    /** What holds at every moment of every operation. */
    ghost predicate Core()
      reads this, attributes
    {
      && attributes.Valid()
      && Forest(pool, place) && |place| == |pool|
      && |pool| <= maxEntries
      && (root.Some? ==> root.value < |pool| && pool[root.value].parent.None?)
      && Listed(place, exp)
      && RefsExact(pool, attributes.pool, pins)
      && |pins| == delegations <= maxDelegations
      && (forall s :: 0 <= s < |attributes.pool| && attributes.pool[s].delegated ==> s in pins)
    }

    /** What holds between operations: besides `Core`, every ancestor precedes
        its descendants on the expiry list, and negative names are leaves. */
    ghost predicate Valid()
      reads this, attributes
    {
      Core() && Ordered(place, exp) && NegativeLeaves(pool, place, root)
    }

    /** The bindings the cache can answer from. */
    ghost function Names(): Names
      reads this
      requires Forest(pool, place)
    {
      NamesOf(pool, place, root)
    }

    /** The entry a path leads to. */
    ghost predicate At(k: nat, path: Path)
      reads this
    {
      k < |place| && root.Some? && place[k] == Place(root.value, path)
    }

    /** nfs41_name_cache_create */
    constructor (entries: nat)
      ensures Valid() && pool == [] && root == None && exp == [] && fresh(attributes)
      ensures maxEntries == entries == |attributes.pool| && maxDelegations == entries / 2
    {
      maxEntries, maxDelegations := entries, entries / 2;
      attributes := new AttrCache(entries);
      root, pool, exp, delegations := None, [], [], 0;
      place, pins := [], multiset{};
    }

    /** name_cache_remove */
    method Detach(k: nat)
      requires Core() && k < |pool| && pool[k].parent.Some?
      modifies this`pool, this`place
      ensures Core()
      ensures old(pool[k].parent.value) < |old(pool)| && pool == DetachedPool(old(pool), k)
      ensures place == DetachedPlace(old(place), k)
    {
      hide Indexed; hide FreeListed; hide NoDup;
      DetachForest(pool, place, k);
      RefsSame(pool, DetachedPool(pool, k), attributes.pool, attributes.pool, pins);
      var p := pool[k].parent.value;
      pool := pool[p := pool[p].(children := pool[p].children - {pool[k].component})];
      pool := pool[k := pool[k].(parent := None)];
      place := DetachedPlace(place, k);
    }

    /** name_cache_insert */
    method Attach(k: nat, p: nat)
      requires Core() && k < |pool| && p < |pool|
      requires pool[k].parent.None? && place[p].top != k && pool[k].component !in pool[p].children
      requires root != Some(k)
      modifies this`pool, this`place
      ensures Core()
      ensures pool == AttachedPool(old(pool), k, p)
      ensures place == AttachedPlace(old(place), k, p, old(pool)[k].component)
    {
      hide Indexed; hide FreeListed; hide NoDup;
      AttachForest(pool, place, k, p);
      RefsSame(pool, AttachedPool(pool, k, p), attributes.pool, attributes.pool, pins);
      place := AttachedPlace(place, k, p, pool[k].component);
      pool := pool[k := pool[k].(parent := Some(p))];
      pool := pool[p := pool[p].(children := pool[p].children[pool[k].component := k])];
    }

    /** Release the cached attributes of an entry, if it has any. */
    method DropAttributes(k: nat)
      requires Core() && k < |pool|
      modifies this`pool, attributes
      ensures Core() && AttrsKept(old(attributes.pool), attributes.pool)
      ensures pool == old(pool)[k := old(pool)[k].(attributes := None)]
    {
      hide Indexed; hide FreeListed; hide NoDup;
      if pool[k].attributes.Some? {
        RefsDropped(pool, attributes.pool, pins, k, pool[k].(attributes := None));
        attributes.Deref(pool[k].attributes.value);
        SameLinksForest(pool, pool[k := pool[k].(attributes := None)], place);
        pool := pool[k := pool[k].(attributes := None)];
      }
    }

    /** Take an entry, with all below it, out of the tree. */
    method Unhook(k: nat)
      requires Core() && k < |pool|
      modifies this`pool, this`place, this`root
      ensures Core() && |pool| == |old(pool)| && |place| == |pool| && k in Subtree(place, k)
      ensures Unhooked(old(pool), old(place), pool, place, k) && Subtree(place, k) == old(Subtree(place, k))
      ensures root == if old(root) == Some(k) then None else old(root)
    {
      hide Indexed; hide FreeListed; hide NoDup; hide Hangs; hide IsChild;
      if pool[k].parent.Some? {
        Detach(k);
        UnhookedDetached(old(pool), old(place), k);
      } else {
        UnhookedAlready(pool, place, k);
        if root == Some(k) {
          root := None;
        }
      }
    }

    /** list_remove and list_add_tail on exp_entries */
    method MoveToTail(k: nat)
      requires Core() && k < |pool|
      modifies this`exp
      ensures Core() && Requeued(old(exp), {k}, [k], exp) && exp != [] && exp[|exp| - 1] == k
    {
      hide Indexed; hide FreeListed; hide NoDup; hide Requeued;
      RequeuedOne(exp, k);
      ListedRequeued(place, exp, {k}, [k], Without(exp, {k}) + [k]);
      exp := Without(exp, {k}) + [k];
    }

    method SetFh(k: nat, fh: Fh)
      requires Core() && k < |pool|
      modifies this`pool
      ensures Core() && pool == old(pool)[k := old(pool)[k].(fh := fh)]
    {
      hide Indexed; hide FreeListed; hide NoDup;
      var pool' := pool[k := pool[k].(fh := fh)];
      SameLinksForest(pool, pool', place);
      RefsSame(pool, pool', attributes.pool, attributes.pool, pins);
      pool := pool';
    }

    /** Give a negative entry the record of a file, if one can be had. */
    method TakeAttributes(k: nat, fileid: FileId) returns (ok: bool)
      requires Core() && k < |pool| && pool[k].attributes.None?
      modifies this`pool, attributes
      ensures Core() && PinsStay(old(attributes.pool), attributes.pool)
      ensures pool == old(pool)[k := old(pool)[k].(attributes := pool[k].attributes)]
      ensures ok <==> pool[k].attributes.Some?
      ensures ok <==> old(CanHold(attributes, fileid))
      ensures ok ==> fileid in attributes.tree && attributes.tree[fileid] == pool[k].attributes.value
    {
      hide Indexed; hide FreeListed; hide NoDup;
      var slot := attributes.FindOrCreate(fileid);
      if slot.None? {
        return false;
      }
      if fileid !in old(attributes.tree) {
        FreshIsUnpinned(pool, old(attributes.pool), pins, slot.value);
      }
      var pool' := pool[k := pool[k].(attributes := slot)];
      RefsTaken(pool, old(attributes.pool), attributes.pool, pins, k, pool[k].(attributes := slot), slot.value);
      SameLinksForest(pool, pool', place);
      pool := pool';
      return true;
    }

    /** Count a delegation and hold its record. */
    method Pin(s: nat)
      requires Core() && s < |attributes.pool| && attributes.pool[s].refCount > 0 && delegations < maxDelegations
      modifies this`delegations, this`pins, attributes`pool
      ensures Core() && AttrsKept(old(attributes.pool), attributes.pool)
      ensures forall t :: 0 <= t < |attributes.pool| && t != s ==> attributes.pool[t] == old(attributes.pool)[t]
      ensures delegations == old(delegations) + 1 && pins == old(pins) + multiset{s}
    {
      hide Indexed; hide FreeListed; hide NoDup;
      attributes.Ref(s);
      RefsPinned(pool, old(attributes.pool), attributes.pool, pins, s);
      delegations := delegations + 1;
      pins := pins + multiset{s};
    }

    /** attr_cache_update on a record that a delegation may mark only once it is pinned */
    method Refresh(s: nat, info: FileInfo, delegation: bool)
      requires Core() && s < |attributes.pool| && (delegation ==> s in pins)
      modifies attributes`pool
      ensures Core() && PinsStay(old(attributes.pool), attributes.pool)
      ensures attributes.pool == old(attributes.pool)[s := Refreshed(old(attributes.pool)[s], info, delegation)]
    {
      hide Indexed; hide FreeListed; hide NoDup;
      attributes.Update(s, info, delegation);
      RefsSame(pool, pool, old(attributes.pool), attributes.pool, pins);
    }

    /** name_cache_entry_rename on an entry outside the tree */
    method Relabel(k: nat, component: Component)
      requires Core() && k < |pool| && pool[k].parent.None? && root != Some(k)
      modifies this`pool
      ensures Core() && pool == old(pool)[k := old(pool)[k].(component := component)]
      ensures NegativeLeaves(old(pool), place, root) ==> NegativeLeaves(pool, place, root)
      ensures Names() == old(Names())
    {
      hide Indexed; hide FreeListed; hide NoDup;
      var pool' := pool[k := pool[k].(component := component)];
      SameLinksForest(pool, pool', place);
      RefsSame(pool, pool', attributes.pool, attributes.pool, pins);
      NamesUpdated(pool, place, root, pool', k);
      RootPlace(pool, place, k);
      pool := pool';
    }

    /** The next entry of the pool, at the tail of the expiry list. */
    method Grow(component: Component)
      requires Valid() && |pool| < maxEntries
      modifies this`pool, this`place, this`exp
      ensures Valid() && pool == old(pool) + [NameEntry(component, [], map[], None, None)]
      ensures place == old(place) + [Place(|old(pool)|, [])] && exp == old(exp) + [|old(pool)|] && Names() == old(Names())
    {
      var e := NameEntry(component, [], map[], None, None);
      GrownForest(pool, place, e);
      GrownRefs(pool, attributes.pool, pins, e);
      GrownNames(pool, place, root, e);
      forall k | 0 <= k < |place|
        ensures place[k].top < |place|
      {
        TopOf(pool, place, k);
      }
      GrownOrdered(place, exp);
      exp := exp + [|pool|];
      place := place + [Place(|pool|, [])];
      pool := pool + [e];
    }

    /** name_cache_unlink */
    method Unlink(k: nat) returns (ghost moved: seq<nat>)
      requires Core() && k < |pool|
      modifies this, attributes
      ensures Core() && AttrsKept(old(attributes.pool), attributes.pool)
      ensures Pruned(old(pool), old(place), pool, place, old(Subtree(place, k)))
      ensures |pool| == |old(pool)| && |place| == |pool|
      ensures Requeued(old(exp), old(Subtree(place, k)), moved, exp) && exp != [] && exp[|exp| - 1] == k
      ensures root == if old(root) == Some(k) then None else old(root)
      ensures delegations == old(delegations) && pins == old(pins)
      decreases Subtree(place, k), 1
    {
      hide Indexed; hide FreeListed; hide NoDup; hide Requeued; hide Hangs; hide IsChild; hide Unhooked; hide Pruned;
      hide RefsExact; hide Without; hide Listed; hide Subtree;
      Unhook(k);
      label unhooked:
      moved := UnlinkChildren(k);
      UnlinkedAll(old(pool), old(place), old@unhooked(pool), old@unhooked(place), pool, place, k);
      DropAttributes(k);
      ghost var before := exp;
      MoveToTail(k);
      RequeuedTwice(old(exp), old(Subtree(place, k)) - {k}, moved, before, {k}, [k], exp);
      assert old(Subtree(place, k)) - {k} + {k} == old(Subtree(place, k));
      moved := moved + [k];
    }

    /** name_cache_unlink_children_recursive */
    method UnlinkChildren(k: nat) returns (ghost moved: seq<nat>)
      requires Core() && k < |pool|
      modifies this, attributes
      ensures Core() && AttrsKept(old(attributes.pool), attributes.pool)
      ensures Pruned(old(pool), old(place), pool, place, old(Subtree(place, k)) - {k})
      ensures |pool| == |old(pool)| && |place| == |pool| && pool[k].children == map[]
      ensures Requeued(old(exp), old(Subtree(place, k)) - {k}, moved, exp)
      ensures root == old(root) && delegations == old(delegations) && pins == old(pins)
      decreases Subtree(place, k), 0
    {
      hide Indexed; hide FreeListed; hide NoDup; hide Requeued; hide Hangs; hide IsChild;
      moved := [];
      ghost var below := Subtree(place, k) - {k};
      ghost var gone: set<nat> := {};
      PrunedNone(pool, place);
      RequeuedNone(exp);
      while pool[k].children != map[]
        invariant Core() && AttrsKept(old(attributes.pool), attributes.pool)
        invariant gone <= below && Pruned(old(pool), old(place), pool, place, gone)
        invariant Requeued(old(exp), gone, moved, exp)
        invariant root == old(root) && delegations == old(delegations) && pins == old(pins)
        decreases below - gone
      {
        var c :| c in pool[k].children;
        var child := pool[k].children[c];
        ChildSubtree(pool, place, k, c);
        PrunedUnder(old(pool), old(place), pool, place, gone, k);
        label next:
        ghost var less := Subtree(place, child);
        ghost var more := Unlink(child);
        PrunedTwice(old(pool), old(place), old@next(pool), old@next(place), gone, pool, place, less);
        RequeuedTwice(old(exp), gone, moved, old@next(exp), less, more, exp);
        gone, moved := gone + less, moved + more;
      }
      PrunedAll(old(pool), old(place), pool, place, gone, k);
    }

    /** name_cache_entry_accessed: an entry and those above it go to the front,
        the topmost first, which also mends the order along that way. */
    method Accessed(x: nat)
      requires Core() && x < |pool| && OrderedBut(place, exp, Some(x))
      modifies this`exp
      ensures Core() && Ordered(place, exp) && Fronted(place, exp, x, None)
      ensures forall y :: y in exp <==> y in old(exp)
    {
      hide Indexed; hide FreeListed; hide NoDup; hide Hangs; hide IsChild; hide RefsExact;
      hide OrderedBut; hide Fronted; hide ToFront;
      FrontedNone(place, exp, x);
      var cur: Option<nat> := Some(x);
      while cur.Some?
        invariant Core() && (cur.Some? ==> cur.value < |pool| && Under(place, cur.value, x))
        invariant OrderedBut(place, exp, cur) && Fronted(place, exp, x, cur)
        invariant forall y :: y in exp <==> y in old(exp)
        decreases if cur.Some? then 1 + |place[cur.value].path| else 0
      {
        var c := cur.value;
        AccessStep(pool, place, exp, x, c);
        ToFrontListed(place, exp, c);
        if pool[c].parent.Some? {
          UpUnder(pool, place, c, x);
        }
        exp := ToFront(exp, c);
        cur := pool[c].parent;
      }
      OrderedButNone(place, exp);
    }

    /** name_cache_entry_changed: true when the directory has changed behind the cache */
    method EntryChanged(k: nat, cinfo: ChangeInfo) returns (changed: bool)
      requires Core() && k < |pool| && OrderedBut(place, exp, Some(k))
      modifies this`exp, attributes`pool
      ensures Core() && forall y :: y in exp <==> y in old(exp)
      ensures pool[k].attributes.Some? ==> pool[k].attributes.value < |old(attributes.pool)|
      ensures changed <==> pool[k].attributes.Some? && !Matches(cinfo, old(attributes.pool)[pool[k].attributes.value].change)
      ensures changed || pool[k].attributes.None? ==> exp == old(exp) && attributes.pool == old(attributes.pool)
      ensures !changed && pool[k].attributes.Some? ==>
                && Ordered(place, exp) && Fronted(place, exp, k, None)
                && attributes.pool == old(attributes.pool)[pool[k].attributes.value :=
                     old(attributes.pool)[pool[k].attributes.value].(change := cinfo.after)]
    {
      if pool[k].attributes.None? {
        return false;
      }
      var s := pool[k].attributes.value;
      RefsHeld(pool, attributes.pool, pins, k);
      var change := attributes.pool[s].change;
      if cinfo.after == change || (cinfo.atomic && cinfo.before == change) {
        RefsSame(pool, pool, attributes.pool, attributes.pool[s := attributes.pool[s].(change := cinfo.after)], pins);
        attributes.SetChange(s, cinfo.after);
        Accessed(k);
        return false;
      }
      return true;
    }

    /** list_remove: the entry can no longer expire */
    method Unlist(k: nat)
      requires Core() && k < |pool| && OrderedBut(place, exp, Some(k))
      modifies this`exp
      ensures Core() && OrderedBut(place, exp, Some(k)) && exp == Without(old(exp), {k})
    {
      hide Indexed; hide FreeListed; hide NoDup; hide OrderedBut; hide Forest; hide RefsExact;
      WithoutOrderedBut(place, exp, Some(k), {k});
      exp := Without(exp, {k});
    }

    /** The end of name_cache_entry_update: an entry that is kept from expiring
        leaves the list, and the others on its way up come to the front. */
    method Touch(k: nat, off: bool)
      requires Core() && k < |pool| && OrderedBut(place, exp, Some(k))
      modifies this`exp
      ensures Core() && Ordered(place, exp)
      ensures forall y :: y in exp <==> y in old(exp) && !(y == k && off)
    {
      hide Indexed; hide FreeListed; hide NoDup; hide OrderedBut; hide Fronted; hide Forest; hide RefsExact; hide Ordered; hide Without;
      if off {
        WithoutIn(exp, {k});
        Unlist(k);
      }
      Accessed(k);
    }

    /** The part of name_cache_entry_update for an entry that has attributes. A
        delegated entry leaves the expiry list. */
    method UpdatePositive(k: nat, info: FileInfo, delegation: bool)
      requires Core() && k < |pool| && OrderedBut(place, exp, Some(k)) && pool[k].attributes.Some?
      requires delegation ==> delegations < maxDelegations
      modifies this`exp, this`delegations, this`pins, attributes`pool
      ensures Core() && PinsStay(old(attributes.pool), attributes.pool) && Ordered(place, exp)
      ensures delegations == old(delegations) + if delegation then 1 else 0
      ensures Records(pool[k], attributes.pool, info) && (delegation ==> attributes.pool[pool[k].attributes.value].delegated)
      ensures forall s :: 0 <= s < |attributes.pool| && Some(s) != pool[k].attributes ==> attributes.pool[s] == old(attributes.pool)[s]
      ensures forall s :: 0 <= s < |attributes.pool| ==> attributes.pool[s].fileid == old(attributes.pool)[s].fileid
      ensures forall y :: y in exp <==> y in old(exp) && !(y == k && attributes.pool[pool[k].attributes.value].delegated)
    {
      hide Indexed; hide FreeListed; hide NoDup; hide OrderedBut; hide Fronted; hide Forest; hide RefsExact; hide Ordered; hide Without;
      var s := pool[k].attributes.value;
      RefsHeld(pool, attributes.pool, pins, k);
      if delegation {
        Pin(s);
      }
      Refresh(s, info, delegation);
      Touch(k, attributes.pool[s].delegated);
    }

    /** name_cache_entry_update: false is ERROR_OUTOFMEMORY from the attribute cache */
    method EntryUpdate(k: nat, fh: Option<Fh>, info: Option<FileInfo>, delegation: bool) returns (ok: bool)
      requires Core() && k < |pool| && OrderedBut(place, exp, Some(k))
      requires delegation ==> info.Some? && delegations < maxDelegations
      modifies this`pool, this`exp, this`delegations, this`pins, attributes
      ensures Core() && PinsStay(old(attributes.pool), attributes.pool)
      ensures |pool| == |old(pool)| && pool == old(pool)[k := pool[k]]
      ensures pool[k] == old(pool)[k].(fh := if fh.Some? then fh.value else [], attributes := pool[k].attributes)
      ensures ok <==> info.None? || old(pool)[k].attributes.Some? || old(CanHold(attributes, info.value.fileid))
      ensures info.None? ==> pool[k].attributes.None?
      ensures ok ==> Ordered(place, exp)
      ensures ok && info.Some? ==> pool[k].attributes.Some?
      ensures ok && info.Some? && old(pool)[k].attributes.Some? ==> pool[k].attributes == old(pool)[k].attributes
      ensures ok && info.Some? && old(pool)[k].attributes.None? ==>
                info.value.fileid in attributes.tree && attributes.tree[info.value.fileid] == pool[k].attributes.value
      ensures !ok ==> old(pool)[k].attributes.None? && pool[k].attributes.None? && exp == old(exp)
      ensures delegations == old(delegations) + if ok && delegation then 1 else 0
      ensures ok && info.Some? ==> Records(pool[k], attributes.pool, info.value)
      ensures ok && delegation ==> attributes.pool[pool[k].attributes.value].delegated
      ensures ok ==> forall y :: y in exp <==> y in old(exp) && !(y == k && info.Some? && attributes.pool[pool[k].attributes.value].delegated)
      ensures ok && info.Some? && old(pool)[k].attributes.Some? ==>
                forall s :: 0 <= s < |attributes.pool| ==> attributes.pool[s].fileid == old(attributes.pool)[s].fileid
    {
      hide Indexed; hide FreeListed; hide NoDup; hide OrderedBut; hide Fronted;
      SetFh(k, if fh.Some? then fh.value else []);
      if info.None? {
        DropAttributes(k);
        Accessed(k);
        return true;
      }
      if pool[k].attributes.None? {
        ok := TakeAttributes(k, info.value.fileid);
        if !ok {
          return false;
        }
      }
      UpdatePositive(k, info.value, delegation);
      ok := true;
    }

    /** name_cache_lookup without the visibility test */
    method Lookup(path: Path) returns (status: Status, parent: Option<nat>, target: Option<nat>)
      requires Core()
      ensures status in {NoError, FileNotFound, PathNotFound}
      ensures status == NoError <==> target.Some?
      ensures target.Some? ==> At(target.value, path)
      ensures status != NoError ==> Absent(place, root, path)
      ensures status == PathNotFound && path != [] ==> Absent(place, root, path[..|path| - 1])
      ensures status == FileNotFound ==> path != []
      ensures status != PathNotFound && path != [] ==>
                parent.Some? && At(parent.value, path[..|path| - 1]) && parent.value < |pool|
      ensures status == NoError && path != [] ==> pool[target.value].parent == parent
    {
      hide Indexed; hide FreeListed; hide NoDup; hide RefsExact; hide Listed; hide Forest;
      if root.None? {
        return PathNotFound, None, None;
      }
      RootPlace(pool, place, root.value);
      parent, target := None, root;
      for i := 0 to |path|
        invariant target.Some? && target.value < |pool| && At(target.value, path[..i])
        invariant i > 0 ==> parent.Some? && parent.value < |pool| && At(parent.value, path[..i - 1]) && pool[target.value].parent == parent
      {
        parent := target;
        if path[i] !in pool[parent.value].children {
          ChildMissing(pool, place, root, parent.value, path, i);
          return if i == |path| - 1 then FileNotFound else PathNotFound, parent, None;
        }
        ChildFound(pool, place, parent.value, path[i]);
        assert path[..i + 1] == path[..i] + [path[i]];
        target := Some(pool[parent.value].children[path[i]]);
      }
      assert path[..|path|] == path;
      status := NoError;
    }

    /** name_cache_unlink as its callers see it: the subtree is forgotten, and
        with it every disorder that was confined to it. */
    method Discard(k: nat)
      requires Core() && k < |pool| && OrderedOutside(place, exp, Subtree(place, k)) && NegativeLeaves(pool, place, root)
      modifies this, attributes
      ensures Valid() && AttrsKept(old(attributes.pool), attributes.pool)
      ensures Names() == if InTree(old(place), old(root), k) then Forget(old(Names()), old(place)[k].path) else old(Names())
      ensures |pool| == |old(pool)| && Pruned(old(pool), old(place), pool, place, old(Subtree(place, k))) && Isolated(pool, place, k)
      ensures root == if old(root) == Some(k) then None else old(root)
      ensures exp != [] && exp[|exp| - 1] == k && forall j :: j in old(exp) ==> j in exp
      ensures forall j :: 0 <= j < |pool| && InTree(place, root, j) ==> j !in old(Subtree(place, k))
      ensures delegations == old(delegations) && pins == old(pins)
    {
      hide Indexed; hide FreeListed; hide NoDup; hide RefsExact; hide Requeued; hide Hangs; hide IsChild;
      hide Pruned; hide OrderedOutside; hide Ordered; hide NegativeLeaves; hide NamesOf;
      ghost var moved := Unlink(k);
      RequeuedOrdered(old(pool), old(place), pool, place, old(exp), old(Subtree(place, k)), moved, exp);
      NamesPruned(old(pool), old(place), old(root), pool, place, k);
      LeavesPruned(old(pool), old(place), old(root), pool, place, k);
      RequeuedKeeps(old(exp), old(Subtree(place, k)), moved, exp);
    }

    /** name_cache_entry_invalidate */
    method Invalidate(k: nat)
      requires Core() && k < |pool| && OrderedOutside(place, exp, Subtree(place, k)) && NegativeLeaves(pool, place, root)
      modifies this, attributes
      ensures Valid() && PinsStay(old(attributes.pool), attributes.pool)
      ensures Names() == if InTree(old(place), old(root), k) then Forget(old(Names()), old(place)[k].path) else old(Names())
      ensures |pool| == |old(pool)| && Pruned(old(pool), old(place), pool, place, old(Subtree(place, k))) && Isolated(pool, place, k)
      ensures root == if old(root) == Some(k) then None else old(root)
      ensures delegations == old(delegations) && pins == old(pins)
      ensures |attributes.pool| == |old(attributes.pool)| && forall s :: 0 <= s < |attributes.pool| ==>
                SameRecord(attributes.pool[s], if old(pool)[k].attributes == Some(s) then old(attributes.pool)[s].(invalidated := true)
                                               else old(attributes.pool)[s])
    {
      hide Indexed; hide FreeListed; hide NoDup; hide Hangs; hide IsChild; hide OrderedOutside; hide NegativeLeaves; hide NamesOf;
      if pool[k].attributes.Some? {
        RefsHeld(pool, attributes.pool, pins, k);
        attributes.Invalidate(pool[k].attributes.value);
        RefsSame(pool, pool, old(attributes.pool), attributes.pool, pins);
      }
      Discard(k);
    }

    /** name_cache_entry_create: a fresh entry of the pool, or else the oldest
        one on the expiry list. None is ERROR_OUTOFMEMORY. */
    method EntryCreate(component: Component) returns (r: Option<nat>)
      requires Valid()
      modifies this, attributes
      ensures Valid() && AttrsKept(old(attributes.pool), attributes.pool)
      ensures delegations == old(delegations) && pins == old(pins)
      ensures r.None? <==> |old(pool)| == maxEntries && old(exp) == []
      ensures r.None? ==> unchanged(this) && unchanged(attributes)
      ensures r.Some? ==> r.value < |pool| && Isolated(pool, place, r.value) && pool[r.value].component == component
      ensures r.Some? ==> root != Some(r.value) && exp != [] && exp[|exp| - 1] == r.value
      ensures r.Some? && |old(pool)| == maxEntries ==> r.value == old(exp)[|old(exp)| - 1] && (root == old(root) || root == None)
      ensures r.Some? && |old(pool)| < maxEntries ==> r.value == |old(pool)| && root == old(root)
      ensures Within(Names(), old(Names())) && (|old(pool)| < maxEntries ==> Names() == old(Names()))
      ensures |old(pool)| < maxEntries ==> forall j :: 0 <= j < |old(pool)| ==> place[j] == old(place)[j] && pool[j] == old(pool)[j]
      ensures |old(pool)| < maxEntries ==> unchanged(attributes)
      ensures |pool| >= |old(pool)| && forall j :: 0 <= j < |old(pool)| && r != Some(j) ==>
                || (place[j] == old(place)[j] && SameContent(pool[j], old(pool)[j]))
                || (Isolated(pool, place, j) && !InTree(place, root, j))
    {
      hide Indexed; hide FreeListed; hide NoDup; hide RefsExact; hide Hangs; hide IsChild; hide OrderedOutside; hide NamesOf; hide NegativeLeaves; hide Ordered;
      if |pool| >= maxEntries {
        if exp == [] {
          return None;
        }
        var k := exp[|exp| - 1];
        OrderedIsOutside(place, exp, Subtree(place, k));
        Discard(k);
        Relabel(k, component);
        r := Some(k);
      } else {
        Grow(component);
        r := Some(|pool| - 1);
      }
    }

    /** name_cache_find_or_create */
    method FindOrCreate(p: nat, c: Component, ghost path: Path) returns (t: Option<nat>)
      requires Valid() && p < |pool| && InTree(place, root, p) && pool[p].attributes.Some? && path == place[p].path + [c]
      requires c !in pool[p].children && |pool| == maxEntries && exp != [] ==> exp[|exp| - 1] != p
      modifies this, attributes
      ensures Valid() && AttrsKept(old(attributes.pool), attributes.pool)
      ensures delegations == old(delegations) && pins == old(pins) && (t.Some? ==> t.value < |pool|)
      ensures t.None? ==> unchanged(this) && unchanged(attributes) && c !in pool[p].children && |pool| == maxEntries
      ensures c in old(pool)[p].children ==> t == Some(old(pool)[p].children[c]) && unchanged(this) && unchanged(attributes)
      ensures c !in old(pool)[p].children && t.Some? ==>
                && pool[t.value].attributes.None? && pool[t.value].children == map[]
                && Opened(old(Names()), Names(), path, InTree(place, root, t.value), place[t.value].path)
                && (|old(pool)| < maxEntries ==> InTree(place, root, t.value) && Names() == old(Names())[path := Negative] && unchanged(attributes))
    {
      hide Indexed; hide FreeListed; hide NoDup; hide RefsExact; hide Hangs; hide IsChild; hide NamesOf; hide Ordered;
      if c in pool[p].children {
        ChildFound(pool, place, p, c);
        return Some(pool[p].children[c]);
      }
      NewName(pool, place, root, p, c);
      t := EntryCreate(c);
      if t.None? {
        return;
      }
      var k := t.value;
      LoneMoves(pool, place, k, p);
      label created:
      AttachForest(pool, place, k, p);
      NamesAttached(pool, place, root, k, p);
      AttachedOrdered(pool, place, exp, k, p);
      Attach(k, p);
      LeavesAttached(old@created(pool), old@created(place), root, k, p);
    }

    /** A new name under `p` does not make the pool recycle `p` itself. If the
        operation touches `p` first, `p` is last only when nothing else is listed. */
    ghost predicate ScavengeOk(p: nat, c: Component, touched: bool)
      reads this
      requires p < |pool| && Listed(place, exp) && |place| == |pool|
    {
      c !in pool[p].children && |pool| == maxEntries && exp != [] ==>
        if touched then p !in exp || exists y :: y in exp && !Under(place, y, p) else exp[|exp| - 1] != p
    }

    /** What nfs41_name_cache_insert and nfs41_name_cache_rename rely on for a
        name that they may have to create. */
    ghost predicate ParentOk(path: Path, touched: bool)
      reads this
      requires path != [] && Listed(place, exp) && |place| == |pool|
    {
      forall p: nat :: At(p, path[..|path| - 1]) ==> pool[p].attributes.Some? && ScavengeOk(p, path[|path| - 1], touched)
    }

    /** The change info contradicts the cached parent directory. */
    ghost predicate Stale(path: Path, cinfo: Option<ChangeInfo>)
      reads this, attributes
      requires |place| == |pool|
    {
      cinfo.Some? && path != [] && exists p: nat ::
        && At(p, path[..|path| - 1]) && pool[p].attributes.Some?
        && pool[p].attributes.value < |attributes.pool| && !Matches(cinfo.value, attributes.pool[pool[p].attributes.value].change)
    }

    /** The name needs no entry that is in use for another one. */
    ghost predicate Room(path: Path)
      reads this
      requires |place| == |pool| && Forest(pool, place)
    {
      |pool| < maxEntries || path in Names()
    }

    /** The parent is cached, the change info agrees with it, and there is room. */
    ghost predicate Insertable(path: Path, cinfo: Option<ChangeInfo>)
      reads this, attributes
      requires |place| == |pool| && Forest(pool, place)
    {
      (path != [] ==> path[..|path| - 1] in Names()) && !Stale(path, cinfo) && Room(path)
    }

    /** Compare a directory with the change info of an operation in it; if it has
        changed, everything cached below is forgotten. */
    method CheckParent(p: nat, cinfo: ChangeInfo) returns (changed: bool)
      requires Valid() && p < |pool|
      modifies this, attributes
      ensures Valid() && PinsStay(old(attributes.pool), attributes.pool)
      ensures delegations == old(delegations) && pins == old(pins)
      ensures old(pool)[p].attributes.Some? ==> old(pool)[p].attributes.value < |old(attributes.pool)|
      ensures changed <==> old(pool)[p].attributes.Some? && !Matches(cinfo, old(attributes.pool)[old(pool)[p].attributes.value].change)
      ensures changed && InTree(old(place), old(root), p) ==> Names() == Forget(old(Names()), old(place)[p].path)
      ensures !changed ==> forall s :: 0 <= s < |attributes.pool| ==> attributes.pool[s].fileid == old(attributes.pool)[s].fileid
      ensures !changed ==> pool == old(pool) && place == old(place) && root == old(root) && forall y :: y in exp <==> y in old(exp)
      ensures !changed ==> attributes.tree == old(attributes.tree) && attributes.free == old(attributes.free)
      ensures !changed && old(pool)[p].attributes.Some? ==>
                var s := old(pool)[p].attributes.value;
                attributes.pool == old(attributes.pool)[s := old(attributes.pool)[s].(change := cinfo.after)]
      ensures !changed && old(pool)[p].attributes.Some? && exp != [] && exp[|exp| - 1] == p ==> p in exp && forall y :: y in exp ==> Under(place, y, p)
    {
      hide Indexed; hide FreeListed; hide NoDup; hide RefsExact; hide Hangs; hide IsChild; hide NamesOf; hide Ordered;
      hide Fronted; hide OrderedBut; hide OrderedOutside;
      OrderedIsOrderedBut(place, exp, p);
      changed := EntryChanged(p, cinfo);
      if changed {
        OrderedIsOutside(place, exp, Subtree(place, p));
        Invalidate(p);
      } else if pool[p].attributes.Some? {
        TailNotFront(place, exp, p);
      }
    }

    /** Find the entry of a path under its parent, or make a negative one, unless
        the parent turns out to have changed. */
    method LocateUnder(p: nat, path: Path, cinfo: Option<ChangeInfo>) returns (status: Status, target: Option<nat>)
      requires Valid() && path != [] && At(p, path[..|path| - 1])
      requires pool[p].attributes.Some? && ScavengeOk(p, path[|path| - 1], cinfo.Some?)
      modifies this, attributes
      ensures Valid() && PinsStay(old(attributes.pool), attributes.pool)
      ensures delegations == old(delegations) && pins == old(pins)
      ensures target.Some? ==> status == NoError && target.value < |pool|
      ensures target.None? ==> Within(Names(), Forget(old(Names()), path))
      ensures target.None? && status != NoError ==> !old(Room(path))
      ensures target.None? ==> Names() == if status == NoError then Forget(old(Names()), path[..|path| - 1]) else old(Names())
      ensures old(pool)[p].attributes.value < |old(attributes.pool)|
      ensures status == NoError && target.None? <==>
                cinfo.Some? && !Matches(cinfo.value, old(attributes.pool)[old(pool)[p].attributes.value].change)
      ensures target.Some? && path in old(Names()) ==>
                && At(target.value, path) && pool == old(pool) && place == old(place) && root == old(root)
                && forall s :: 0 <= s < |attributes.pool| ==> attributes.pool[s].fileid == old(attributes.pool)[s].fileid
      ensures target.Some? && path !in old(Names()) ==>
                && pool[target.value].attributes.None? && pool[target.value].children == map[]
                && Opened(old(Names()), Names(), path, InTree(place, root, target.value), place[target.value].path)
                && (|old(pool)| < maxEntries ==> InTree(place, root, target.value) && Names() == old(Names())[path := Negative])
      ensures old(Room(path)) && target.Some? ==> attributes.tree == old(attributes.tree) && attributes.free == old(attributes.free)
    {
      hide Indexed; hide FreeListed; hide NoDup; hide RefsExact; hide Forest; hide NamesOf; hide Ordered; hide NegativeLeaves;
      hide Within; hide Forget; hide Listed; hide Opened; hide Subtree; hide Under;
      ParentUnique(pool, place, root, p, path);
      RefsHeld(pool, attributes.pool, pins, p);
      WithinSelf(Names());
      ForgetWithin(Names(), path);
      if cinfo.Some? {
        var changed := CheckParent(p, cinfo.value);
        if changed {
          return NoError, None;
        }
      }
      target := FindOrCreate(p, path[|path| - 1], path);
      status := if target.None? then OutOfMemory else NoError;
    }

    /** Find the entry of a path below the root, or make a negative one; an
        absent or changed parent leaves no entry. */
    method Locate(path: Path, cinfo: Option<ChangeInfo>) returns (status: Status, target: Option<nat>)
      requires Valid() && path != [] && ParentOk(path, cinfo.Some?)
      modifies this, attributes
      ensures Valid() && PinsStay(old(attributes.pool), attributes.pool)
      ensures delegations == old(delegations) && pins == old(pins)
      ensures target.Some? ==> status == NoError && target.value < |pool|
      ensures target.None? ==> Within(Names(), Forget(old(Names()), path))
      ensures old(Insertable(path, cinfo)) ==> target.Some?
      ensures target.None? ==> Names() == if old(Stale(path, cinfo)) then Forget(old(Names()), ParentOf(path)) else old(Names())
      ensures status == NoError && target.None? <==> old(Stale(path, cinfo))
      ensures target.Some? && path != [] ==> ParentOf(path) in old(Names())
      ensures target.Some? && path in old(Names()) ==>
                && At(target.value, path) && pool == old(pool) && place == old(place) && root == old(root)
                && forall s :: 0 <= s < |attributes.pool| ==> attributes.pool[s].fileid == old(attributes.pool)[s].fileid
      ensures target.Some? && path !in old(Names()) ==>
                && pool[target.value].attributes.None? && pool[target.value].children == map[]
                && Opened(old(Names()), Names(), path, InTree(place, root, target.value), place[target.value].path)
                && (|old(pool)| < maxEntries ==> InTree(place, root, target.value) && Names() == old(Names())[path := Negative])
      ensures old(Room(path)) && target.Some? ==> attributes.tree == old(attributes.tree) && attributes.free == old(attributes.free)
    {
      hide Indexed; hide FreeListed; hide NoDup; hide RefsExact; hide Forest; hide NamesOf; hide Ordered; hide NegativeLeaves;
      hide Within; hide Forget; hide Listed; hide Opened; hide Subtree; hide Under; hide ScavengeOk;
      var parent;
      status, parent, target := Lookup(path[..|path| - 1]);
      if target.None? {
        AbsentBelow(pool, place, root, path[..|path| - 1], path);
        AbsentForget(pool, place, root, path[..|path| - 1]);
        WithinSelf(Names());
        return;
      }
      FoundUnique(pool, place, root, target.value, path[..|path| - 1]);
      status, target := LocateUnder(target.value, path, cinfo);
    }

    /** The root entry, made negative if there is none yet. */
    method LocateRoot() returns (status: Status, target: Option<nat>)
      requires Valid()
      modifies this, attributes
      ensures Valid() && PinsStay(old(attributes.pool), attributes.pool)
      ensures delegations == old(delegations) && pins == old(pins)
      ensures status == NoError <==> target.Some?
      ensures target.None? ==> Within(Names(), Forget(old(Names()), [])) && !old(Room([])) && Names() == old(Names())
      ensures old(Room([])) ==> attributes.tree == old(attributes.tree) && attributes.free == old(attributes.free)
      ensures target.Some? ==> target.value < |pool| && At(target.value, [])
      ensures target.Some? && [] in old(Names()) ==>
                pool == old(pool) && place == old(place) && root == old(root) && attributes.pool == old(attributes.pool)
      ensures target.Some? && [] !in old(Names()) ==>
                && pool[target.value].attributes.None? && pool[target.value].children == map[]
                && Opened(old(Names()), Names(), [], true, []) && Names() == old(Names())[[] := Negative]
    {
      hide Indexed; hide FreeListed; hide NoDup; hide RefsExact; hide Forest; hide Ordered; hide NegativeLeaves; hide NamesOf;
      if root.Some? {
        RootNamed(pool, place, root.value);
        return NoError, root;
      }
      NoRoot(pool, place);
      target := EntryCreate("ROOT");
      if target.None? {
        return OutOfMemory, None;
      }
      LoneTree(pool, place, target.value);
      root := target;
      status := NoError;
    }

    /** The entry for a path, wherever it lies. */
    method Target(path: Path, cinfo: Option<ChangeInfo>) returns (status: Status, target: Option<nat>)
      requires Valid() && (path != [] ==> ParentOk(path, cinfo.Some?))
      modifies this, attributes
      ensures Valid() && PinsStay(old(attributes.pool), attributes.pool)
      ensures delegations == old(delegations) && pins == old(pins)
      ensures target.Some? ==> status == NoError && target.value < |pool|
      ensures target.None? ==> Within(Names(), Forget(old(Names()), path))
      ensures old(Insertable(path, cinfo)) ==> target.Some?
      ensures target.None? ==> Names() == if old(Stale(path, cinfo)) then Forget(old(Names()), ParentOf(path)) else old(Names())
      ensures status == NoError && target.None? <==> old(Stale(path, cinfo))
      ensures target.Some? && path != [] ==> ParentOf(path) in old(Names())
      ensures target.Some? && path in old(Names()) ==>
                && At(target.value, path) && pool == old(pool) && place == old(place) && root == old(root)
                && forall s :: 0 <= s < |attributes.pool| ==> attributes.pool[s].fileid == old(attributes.pool)[s].fileid
      ensures target.Some? && path !in old(Names()) ==>
                && pool[target.value].attributes.None? && pool[target.value].children == map[]
                && Opened(old(Names()), Names(), path, InTree(place, root, target.value), place[target.value].path)
                && (|old(pool)| < maxEntries ==> InTree(place, root, target.value) && Names() == old(Names())[path := Negative])
      ensures old(Room(path)) && target.Some? ==> attributes.tree == old(attributes.tree) && attributes.free == old(attributes.free)
    {
      hide Indexed; hide FreeListed; hide NoDup; hide RefsExact; hide Forest; hide Ordered; hide NegativeLeaves; hide NamesOf;
      hide Listed; hide Within; hide Opened; hide Forget; hide ParentOk;
      if path == [] {
        status, target := LocateRoot();
      } else {
        status, target := Locate(path, cinfo);
      }
    }

    /** name_cache_entry_update on a located entry; an entry that cannot get
        attributes is removed again. */
    method Store(t: nat, fh: Option<Fh>, info: Option<FileInfo>, delegation: bool) returns (ok: bool)
      requires Valid() && t < |pool| && (info.None? ==> pool[t].children == map[])
      requires delegation ==> info.Some? && delegations < maxDelegations
      modifies this, attributes
      ensures Valid() && PinsStay(old(attributes.pool), attributes.pool)
      ensures delegations == old(delegations) + if ok && delegation then 1 else 0
      ensures ok && InTree(old(place), old(root), t) ==> Names() == old(Names())[old(place)[t].path := NewBinding(fh, info)]
      ensures ok && !InTree(old(place), old(root), t) ==> Names() == old(Names())
      ensures !ok && InTree(old(place), old(root), t) ==> Names() == Forget(old(Names()), old(place)[t].path)
      ensures !ok && !InTree(old(place), old(root), t) ==> Names() == old(Names())
      ensures ok <==> info.None? || old(pool)[t].attributes.Some? || old(CanHold(attributes, info.value.fileid))
      ensures ok && delegation && FileIdAgrees(old(pool)[t], old(attributes.pool), info.value) ==> Pinned(attributes, info.value.fileid)
      ensures ok ==> place == old(place) && root == old(root) && (delegation ==> t !in exp)
      ensures ok ==> |pool| == |old(pool)| && (info.Some? ==> Records(pool[t], attributes.pool, info.value))
    {
      hide Indexed; hide FreeListed; hide NoDup; hide RefsExact; hide Hangs; hide IsChild; hide Ordered; hide NamesOf;
      hide OrderedBut; hide OrderedOutside; hide Subtree;
      OrderedIsOrderedBut(place, exp, t);
      ok := EntryUpdate(t, fh, info, delegation);
      NamesUpdated(old(pool), place, root, pool, t);
      if !ok {
        if InTree(place, root, t) {
          NegativeAt(old(pool), place, root, t);
        }
        OrderedIsOutside(place, exp, Subtree(place, t));
        Invalidate(t);
      } else if delegation {
        RefsHeld(pool, attributes.pool, pins, t);
        HeldIndexed(attributes.pool, attributes.tree, pool[t].attributes.value);
      }
    }

    /** The located entry, which is that of `path` if it is in the tree at all,
        gets the binding; `m` is what was known before it was located. */
    method StoreAs(t: nat, ghost path: Path, ghost m: Names, fh: Option<Fh>, info: Option<FileInfo>, delegation: bool) returns (ok: bool)
      requires Valid() && t < |pool| && (info.None? ==> pool[t].children == map[])
      requires delegation ==> info.Some? && delegations < maxDelegations
      requires if path in m then At(t, path) && m == Names()
               else Opened(m, Names(), path, InTree(place, root, t), place[t].path)
      modifies this, attributes
      ensures Valid() && PinsStay(old(attributes.pool), attributes.pool)
      ensures delegations == old(delegations) + if ok && delegation then 1 else 0
      ensures ok <==> info.None? || old(pool)[t].attributes.Some? || old(CanHold(attributes, info.value.fileid))
      ensures !ok && (path in m || (InTree(old(place), old(root), t) && old(Names()) == m[path := Negative])) ==> Names() == Forget(m, path)
      ensures ok ==> Within(Names(), PlainInsert(m, path, NewBinding(fh, info)))
      ensures ok && (path in m || (InTree(old(place), old(root), t) && old(Names()) == m[path := Negative])) ==>
                Names() == PlainInsert(m, path, NewBinding(fh, info))
      ensures !ok ==> Within(Names(), PlainInsert(m, path, NewBinding(fh, info)))
      ensures ok && delegation && FileIdAgrees(old(pool)[t], old(attributes.pool), info.value) ==> Pinned(attributes, info.value.fileid)
      ensures ok && delegation ==> forall k: nat :: At(k, path) ==> k !in exp
      ensures ok && info.Some? ==> forall k: nat :: At(k, path) ==> k < |pool| && Records(pool[k], attributes.pool, info.value)
    {
      hide Indexed; hide FreeListed; hide NoDup; hide RefsExact; hide Forest; hide Ordered; hide NegativeLeaves; hide NamesOf;
      hide Listed; hide Within; hide Opened; hide Forget; hide PlainInsert; hide PinsStay; hide FileIdAgrees;
      ghost var b := NewBinding(fh, info);
      if path in m {
        StoredFound(pool, place, root, t, path, b);
        WithinSelf(Forget(m, path));
      } else {
        StoredOpened(m, Names(), path, InTree(place, root, t), place[t].path, b);
        WithinSelf(Names());
      }
      ok := Store(t, fh, info, delegation);
      ForgetIsLess(m, Names(), path, b);
      ForgetTwice(m, path, Negative);
      if ok {
        forall k: nat | At(k, path) ensures k == t {
          OnlyEntryAt(old(pool), place, root, m, t, path, k);
        }
      }
    }

    /** A delegation whose name could not be cached still pins its record. */
    method PinRecord(info: FileInfo) returns (ok: bool)
      requires Valid() && delegations < maxDelegations
      modifies this`delegations, this`pins, attributes
      ensures Valid() && PinsStay(old(attributes.pool), attributes.pool)
      ensures delegations == old(delegations) + if ok then 1 else 0
      ensures ok ==> Pinned(attributes, info.fileid)
      ensures ok && info.hasChange ==> attributes.pool[attributes.tree[info.fileid]].change == info.change
      ensures ok <==> old(CanHold(attributes, info.fileid))
      ensures !ok ==> attributes.tree == old(attributes.tree) && attributes.free == old(attributes.free)
    {
      hide Indexed; hide FreeListed; hide NoDup; hide RefsExact; hide Forest; hide Ordered; hide NegativeLeaves;
      var slot := attributes.FindOrCreate(info.fileid);
      if slot.None? {
        return false;
      }
      var s := slot.value;
      if info.fileid !in old(attributes.tree) {
        FreshIsUnpinned(pool, old(attributes.pool), pins, s);
      }
      RefsPinned(pool, old(attributes.pool), attributes.pool, pins, s);
      delegations, pins := delegations + 1, pins + multiset{s};
      Refresh(s, info, true);
      return true;
    }

    /** What nfs41_name_cache_insert relies on and does not check. */
    ghost predicate InsertOk(path: Path, info: Option<FileInfo>, cinfo: Option<ChangeInfo>, delegation: bool)
      reads this, attributes
      requires Core()
    {
      && (delegation ==> info.Some?)
      && (path != [] ==> ParentOk(path, cinfo.Some?))
      && (forall t: nat :: At(t, path) ==>
            if info.None? then pool[t].children == map[] else FileIdAgrees(pool[t], attributes.pool, info.value))
    }

    /** The name is located and gets the binding; `stored` says whether it did. */
    method InsertName(path: Path, fh: Option<Fh>, info: Option<FileInfo>, cinfo: Option<ChangeInfo>, delegation: bool)
        returns (status: Status, stored: bool)
      requires Valid() && InsertOk(path, info, cinfo, delegation) && (delegation ==> delegations < maxDelegations)
      modifies this, attributes
      ensures Valid() && PinsStay(old(attributes.pool), attributes.pool)
      ensures Within(Names(), PlainInsert(old(Names()), path, NewBinding(fh, info)))
      ensures stored && old(Room(path)) ==> Names() == PlainInsert(old(Names()), path, NewBinding(fh, info))
      ensures stored <==> status == NoError && !old(Stale(path, cinfo))
      ensures delegations == old(delegations) + if stored && delegation then 1 else 0
      ensures old(Insertable(path, cinfo)) ==>
                && (stored <==> info.None? || old(path in Names() && Names()[path].Positive?) || old(CanHold(attributes, info.value.fileid)))
                && (!stored ==> Names() == Forget(old(Names()), path))
      ensures old(Stale(path, cinfo)) || (path != [] && ParentOf(path) !in old(Names())) ==>
                !stored && Names() == if old(Stale(path, cinfo)) then Forget(old(Names()), ParentOf(path)) else old(Names())
      ensures stored && delegation ==> Pinned(attributes, info.value.fileid) && forall t: nat :: At(t, path) ==> t !in exp
      ensures stored && info.Some? ==> forall t: nat :: At(t, path) ==> t < |pool| && Records(pool[t], attributes.pool, info.value)
    {
      hide Indexed; hide FreeListed; hide NoDup; hide RefsExact; hide Forest; hide Ordered; hide NegativeLeaves; hide NamesOf;
      hide Listed; hide Within; hide Opened; hide Forget; hide Stale; hide ParentOk; hide Records; hide PlainInsert;
      stored := false;
      var target;
      status, target := Target(path, cinfo);
      if target.None? {
        WithinSelf(Names());
        ForgetIsLess(old(Names()), Names(), path, NewBinding(fh, info));
        return;
      }
      var t := target.value;
      if path in old(Names()) {
        FoundUnique(pool, place, root, t, path);
      } else if InTree(place, root, t) {
        OpenedAt(old(Names()), Names(), path, true, place[t].path);
      }
      var ok := StoreAs(t, path, old(Names()), fh, info, delegation);
      return if ok then NoError else OutOfMemory, ok;
    }

    /** nfs41_name_cache_insert */
    method Insert(path: Path, fh: Option<Fh>, info: Option<FileInfo>, cinfo: Option<ChangeInfo>, delegation: bool)
        returns (status: Status, ghost stored: bool)
      requires Valid() && InsertOk(path, info, cinfo, delegation)
      modifies this, attributes
      ensures Valid() && PinsStay(old(attributes.pool), attributes.pool)
      ensures delegation && old(delegations) >= maxDelegations ==>
                status == TooManyOpenFiles && unchanged(this) && unchanged(attributes)
      ensures !(delegation && old(delegations) >= maxDelegations) ==> Within(Names(), PlainInsert(old(Names()), path, NewBinding(fh, info)))
      ensures stored && old(Room(path)) ==> Names() == PlainInsert(old(Names()), path, NewBinding(fh, info))
      ensures stored ==> status == NoError
      ensures !delegation ==> (stored <==> status == NoError && !old(Stale(path, cinfo)))
      ensures old(Insertable(path, cinfo)) && !(delegation && old(delegations) >= maxDelegations) ==>
                && (stored <==> info.None? || old(path in Names() && Names()[path].Positive?) || old(CanHold(attributes, info.value.fileid)))
                && Names() == (if stored then PlainInsert(old(Names()), path, NewBinding(fh, info)) else Forget(old(Names()), path))
      ensures !(delegation && old(delegations) >= maxDelegations) && (old(Stale(path, cinfo)) || (path != [] && ParentOf(path) !in old(Names()))) ==>
                !stored && Names() == if old(Stale(path, cinfo)) then Forget(old(Names()), ParentOf(path)) else old(Names())
      ensures stored && info.Some? ==> forall t: nat :: At(t, path) ==> t < |pool| && Records(pool[t], attributes.pool, info.value)
      ensures stored && delegation ==> forall t: nat :: At(t, path) ==> t !in exp
      ensures delegation && status == NoError ==> delegations == old(delegations) + 1 && Pinned(attributes, info.value.fileid)
      ensures delegation && status != NoError ==>
                status == TooManyOpenFiles && (old(delegations) >= maxDelegations || !CanHold(attributes, info.value.fileid))
      ensures !(delegation && status == NoError) ==> delegations == old(delegations)
    {
      hide Indexed; hide FreeListed; hide NoDup; hide RefsExact; hide Forest; hide Ordered; hide NegativeLeaves; hide NamesOf;
      hide Listed; hide Within; hide Opened; hide Forget; hide Stale; hide Room; hide PlainInsert; hide ParentOk; hide FileIdAgrees; hide Records;
      stored := false;
      if delegation && delegations >= maxDelegations {
        return TooManyOpenFiles, false;
      }
      InsertBinds(Names(), path, NewBinding(fh, info));
      var kept;
      status, kept := InsertName(path, fh, info, cinfo, delegation);
      stored := kept;
      if !kept && delegation {
        var ok := PinRecord(info.value);
        status := if ok then NoError else TooManyOpenFiles;
      }
    }

    /** Give up the pin of a delegated record. */
    method Unpin(s: nat)
      requires Valid() && s < |attributes.pool| && attributes.pool[s].delegated
      modifies this`delegations, this`pins, attributes
      ensures Valid() && |attributes.pool| == |old(attributes.pool)|
      ensures !attributes.pool[s].delegated && delegations == old(delegations) - 1
      ensures forall t :: 0 <= t < |attributes.pool| && t != s ==> attributes.pool[t] == old(attributes.pool)[t]
    {
      hide Indexed; hide FreeListed; hide NoDup; hide RefsExact; hide Forest; hide Ordered; hide NegativeLeaves;
      PinnedHeld(pool, attributes.pool, pins, s);
      attributes.ClearDelegated(s);
      attributes.Deref(s);
      RefsUnpinned(pool, old(attributes.pool), attributes.pool, pins, s);
      delegations, pins := delegations - 1, pins - multiset{s};
    }

    /** nfs41_name_cache_delegreturn: the name, if cached, may expire again, and
        its record, or else the record of the file, is released. */
    method DelegReturn(fileid: FileId, path: Path) returns (status: Status, ghost slot: Option<nat>)
      requires Valid() && forall t: nat :: At(t, path) ==> t !in exp
      modifies this, attributes
      ensures Valid() && pool == old(pool) && place == old(place) && root == old(root) && |attributes.pool| == |old(attributes.pool)|
      ensures forall t: nat :: At(t, path) ==> slot == pool[t].attributes && t in exp
      ensures path !in old(Names()) ==> slot == if fileid in old(attributes.tree) then Some(old(attributes.tree)[fileid]) else None
      ensures slot.Some? ==> slot.value < |attributes.pool| && !attributes.pool[slot.value].delegated
      ensures status == if slot.Some? then NoError else FileNotFound
      ensures delegations == old(delegations) - if slot.Some? && old(attributes.pool)[slot.value].delegated then 1 else 0
      ensures forall s :: 0 <= s < |attributes.pool| && slot != Some(s) ==> attributes.pool[s] == old(attributes.pool)[s]
    {
      hide Indexed; hide FreeListed; hide NoDup; hide RefsExact; hide Forest; hide Ordered; hide NegativeLeaves; hide NamesOf;
      var st, parent, target := Lookup(path);
      var attr: Option<nat>;
      if target.Some? {
        var t := target.value;
        FoundUnique(pool, place, root, t, path);
        Relist(t);
        attr := pool[t].attributes;
        if attr.Some? {
          RefsHeld(pool, attributes.pool, pins, t);
        }
      } else {
        AbsentForget(pool, place, root, path);
        attr := attributes.Search(fileid);
        SearchIndexed(attributes, fileid, attr);
      }
      slot := attr;
      if attr.None? {
        return FileNotFound, None;
      }
      if attributes.pool[attr.value].delegated {
        Unpin(attr.value);
      }
      status := NoError;
    }

    /** list_add_head and name_cache_entry_updated */
    method Relist(t: nat)
      requires Valid() && t < |pool| && t !in exp
      modifies this`exp
      ensures Valid() && t in exp
    {
      hide Indexed; hide FreeListed; hide RefsExact; hide Forest; hide NegativeLeaves;
      exp := [t] + exp;
      Accessed(t);
      assert t in old([t] + exp);
    }

    /** Turn an entry negative and drop all below it. */
    method MakeNegative(t: nat)
      requires Core() && t < |pool| && OrderedBut(place, exp, Some(t)) && NegativeLeaves(pool, place, root)
      modifies this, attributes
      ensures Valid() && PinsStay(old(attributes.pool), attributes.pool) && root == old(root)
      ensures delegations == old(delegations) && |pool| == |old(pool)|
      ensures Names() == if InTree(old(place), root, t) then PlainRemove(old(Names()), old(place)[t].path) else old(Names())
    {
      hide Indexed; hide FreeListed; hide NoDup; hide RefsExact; hide Forest; hide Ordered; hide NegativeLeaves; hide NamesOf;
      hide Pruned; hide Requeued; hide OrderedBut; hide OrderedOutside; hide Subtree;
      var ok := EntryUpdate(t, None, None, false);
      NamesUpdated(old(pool), place, root, pool, t);
      label negative:
      ghost var moved := UnlinkChildren(t);
      OrderedIsOutside(old@negative(place), old@negative(exp), old@negative(Subtree(place, t)) - {t});
      RequeuedOrdered(old@negative(pool), old@negative(place), pool, place, old@negative(exp), old@negative(Subtree(place, t)) - {t}, moved, exp);
      NamesPrunedBelow(old@negative(pool), old@negative(place), root, pool, place, t);
      LeavesBelow(old(pool), old@negative(pool), old(place), root, pool, place, t);
      ForgetTwice(old(Names()), old(place)[t].path, Negative);
    }

    /** nfs41_name_cache_remove */
    method Remove(path: Path, cinfo: Option<ChangeInfo>) returns (status: Status)
      requires Valid() && path != []
      modifies this, attributes
      ensures Valid() && PinsStay(old(attributes.pool), attributes.pool) && delegations == old(delegations)
      ensures Within(Names(), PlainRemove(old(Names()), path))
      ensures status == NoError <==> path in old(Names())
      ensures Names() == if old(Stale(path, cinfo)) then Forget(old(Names()), ParentOf(path))
                         else if path in old(Names()) then PlainRemove(old(Names()), path) else old(Names())
    {
      hide Indexed; hide FreeListed; hide NoDup; hide RefsExact; hide Forest; hide Ordered; hide NegativeLeaves; hide NamesOf;
      hide OrderedBut; hide Within; hide Forget;
      var parent, target;
      status, parent, target := Lookup(path);
      if target.None? {
        AbsentForget(pool, place, root, path);
        WithinSelf(Names());
        ForgetIsLess(old(Names()), Names(), path, Negative);
      } else {
        FoundUnique(pool, place, root, target.value, path);
      }
      if status == PathNotFound {
        return;
      }
      var p := parent.value;
      ParentUnique(pool, place, root, p, path);
      if cinfo.Some? {
        var changed := CheckParent(p, cinfo.value);
        if changed {
          ForgetWithin(old(Names()), path);
          ForgetIsLess(old(Names()), Names(), path, Negative);
          return;
        }
      }
      if status == FileNotFound {
        return;
      }
      OrderedIsOrderedBut(place, exp, target.value);
      MakeNegative(target.value);
      WithinSelf(Names());
    }

    /** delete_stale_component, the updating step of nfs41_name_cache_remove_stale */
    method RemoveStale(path: Path) returns (status: Status)
      requires Valid()
      modifies this, attributes
      ensures Valid() && PinsStay(old(attributes.pool), attributes.pool) && delegations == old(delegations)
      ensures Names() == Forget(old(Names()), path)
      ensures status == NoError <==> path in old(Names())
    {
      hide Indexed; hide FreeListed; hide NoDup; hide RefsExact; hide Forest; hide Ordered; hide NegativeLeaves; hide NamesOf;
      hide OrderedOutside; hide Forget; hide Subtree;
      var parent, target;
      status, parent, target := Lookup(path);
      if status == NoError {
        FoundUnique(pool, place, root, target.value, path);
        OrderedIsOutside(place, exp, Subtree(place, target.value));
        Discard(target.value);
      } else {
        AbsentForget(pool, place, root, path);
      }
    }

    /** name_cache_entry_rename and name_cache_insert */
    method HookAs(k: nat, p: nat, name: Component)
      requires Core() && k < |pool| && p < |pool| && pool[k].parent.None? && root != Some(k)
      requires place[p].top != k && k != p && name !in pool[p].children
      modifies this`pool, this`place
      ensures Core() && place == AttachedPlace(old(place), k, p, name) && Relinked(old(pool), pool, k, p)
      ensures pool[p].children == old(pool)[p].children[name := k]
      ensures pool[k].component == name && pool[k].parent == Some(p)
    {
      hide Indexed; hide FreeListed; hide NoDup; hide RefsExact; hide Listed; hide Under; hide Hangs; hide IsChild;
      hide AttachedPlace; hide NamesOf; hide NegativeLeaves;
      Relabel(k, name);
      Attach(k, p);
    }

    /** name_cache_remove */
    method UnhookFrom(k: nat, p: nat)
      requires Core() && k < |pool| && pool[k].parent == Some(p) && p < |pool| && p != k
      modifies this`pool, this`place
      ensures Core() && place == DetachedPlace(old(place), k) && Relinked(old(pool), pool, k, p)
      ensures pool[p].children == old(pool)[p].children - {old(pool)[k].component}
      ensures pool[k].parent.None?
    {
      hide Indexed; hide FreeListed; hide NoDup; hide RefsExact; hide Listed; hide Under; hide Hangs; hide IsChild;
      hide DetachedPlace; hide NamesOf; hide NegativeLeaves;
      Detach(k);
    }

    /** Give the subtree at `src` the name `dst`, and the one that had this name,
        if any, the name `src`. */
    method Swap(ghost top: nat, ghost src: Path, ghost dst: Path,
                s: nat, sp: nat, dp: nat, e: Option<nat>, srcName: Component, dstName: Component)
      requires Core() && root == Some(top) && Cast(place, top, src, dst, s, sp, dp, e)
      requires srcName == src[|src| - 1] && dstName == dst[|dst| - 1]
      requires pool[s].parent == Some(sp) && pool[s].component == srcName
      requires e.Some? ==> pool[e.value].parent == Some(dp) && pool[e.value].component == dstName
      requires e.None? ==> dstName !in pool[dp].children
      modifies this`pool, this`place
      ensures Core() && |pool| == |old(pool)| && Shifted(old(place), place, src, dst, s, e)
      ensures forall j :: 0 <= j < |pool| ==> pool[j].attributes == old(pool)[j].attributes && pool[j].fh == old(pool)[j].fh
      ensures forall j :: 0 <= j < |pool| && j != sp && j != dp ==> pool[j].children == old(pool)[j].children
      ensures srcName in pool[sp].children <==> e.Some?
    {
      hide Indexed; hide FreeListed; hide NoDup; hide RefsExact; hide Listed; hide Under; hide Hangs; hide IsChild;
      hide DetachedPlace; hide AttachedPlace; hide Shifted; hide Absent;
      CastDistinct(pool, place, top, src, dst, s, sp, dp, e);
      HookedIsShifted(pool, place, top, src, dst, s, sp, dp, e);
      SwapTops(pool, place, top, src, dst, s, sp, dp, e);
      if e.Some? {
        UnhookFrom(e.value, dp);
      }
      UnhookFrom(s, sp);
      HookAs(s, dp, dstName);
      if e.Some? {
        HookAs(e.value, sp, srcName);
      }
    }

    /** The renaming step proper, with what it leaves for the next step to mend. */
    method MoveTree(ghost src: Path, ghost dst: Path, s: nat, sp: nat, dp: nat, e: Option<nat>, srcName: Component, dstName: Component)
      requires Valid() && root.Some? && Cast(place, root.value, src, dst, s, sp, dp, e) && Fronted(place, exp, dp, None)
      requires srcName == src[|src| - 1] && dstName == dst[|dst| - 1]
      requires pool[s].parent == Some(sp) && pool[s].component == srcName && pool[s].attributes.Some? && pool[dp].attributes.Some?
      requires e.Some? ==> pool[e.value].parent == Some(dp) && pool[e.value].component == dstName
      requires e.None? ==> dstName !in pool[dp].children
      modifies this`pool, this`place
      ensures Core() && NegativeLeaves(pool, place, root) && |pool| == |old(pool)|
      ensures OrderedBut(place, exp, Some(sp)) && OrderedOutside(place, exp, Subtree(place, sp))
      ensures PlainRemove(Names(), src) == PlainRename(old(Names()), src, dst)
      ensures place[sp] == old(place)[sp] && pool[sp].attributes.Some? && pool[sp].attributes == old(pool)[sp].attributes
      ensures e.Some? ==> place[e.value] == Place(root.value, src)
      ensures srcName in pool[sp].children <==> e.Some?
      ensures forall y :: 0 <= y < |place| && Under(place, y, sp) ==> Under(old(place), y, sp)
    {
      hide Indexed; hide FreeListed; hide NoDup; hide RefsExact; hide Hangs; hide IsChild; hide NamesOf; hide Ordered;
      hide Shifted; hide Absent; hide Fronted; hide OrderedBut; hide OrderedOutside; hide Subtree; hide PlainRename; hide NegativeLeaves; hide Under; hide Listed;
      ParentPositive(pool, place, root, s, sp);
      Swap(root.value, src, dst, s, sp, dp, e, srcName, dstName);
      SwapLeaves(old(pool), old(place), root, pool, place, root.value, src, dst, s, sp, dp, e);
      ShiftedOrder(old(pool), old(place), place, exp, root.value, src, dst, s, sp, dp, e);
      ShiftedNames(old(pool), old(place), pool, place, root.value, src, dst, s, sp, dp, e);
    }

    /** The end of a rename: leave a negative entry where the file used to be. */
    method Vacate(ghost src: Path, sp: nat, e: Option<nat>, srcName: Component, srcInfo: ChangeInfo) returns (status: Status)
      requires Core() && NegativeLeaves(pool, place, root) && root.Some? && src != [] && sp < |pool| && srcName == src[|src| - 1]
      requires OrderedBut(place, exp, Some(sp)) && OrderedOutside(place, exp, Subtree(place, sp))
      requires place[sp] == Place(root.value, src[..|src| - 1]) && pool[sp].attributes.Some?
      requires e.Some? ==> e.value < |pool| && place[e.value] == Place(root.value, src)
      requires srcName in pool[sp].children <==> e.Some?
      requires |pool| == maxEntries && e.None? ==> sp !in exp || exists y :: y in exp && !Under(place, y, sp)
      modifies this, attributes
      ensures Valid() && PinsStay(old(attributes.pool), attributes.pool) && delegations == old(delegations)
      ensures Within(Names(), PlainRemove(old(Names()), src))
      ensures old(pool)[sp].attributes.value < |old(attributes.pool)|
      ensures Matches(srcInfo, old(attributes.pool)[old(pool)[sp].attributes.value].change) && (e.Some? || |old(pool)| < maxEntries) ==>
                status == NoError && Names() == PlainRemove(old(Names()), src)
      ensures !Matches(srcInfo, old(attributes.pool)[old(pool)[sp].attributes.value].change) ==>
                status == NoError && Names() == Forget(old(Names()), src[..|src| - 1])
    {
      hide Indexed; hide FreeListed; hide NoDup; hide RefsExact; hide Forest; hide NamesOf; hide Ordered; hide Listed;
      hide Fronted; hide OrderedBut; hide OrderedOutside; hide Subtree; hide NegativeLeaves; hide Within; hide Forget; hide Opened;
      ParentUnique(pool, place, root, sp, src);
      var changed := EntryChanged(sp, srcInfo);
      if changed {
        Invalidate(sp);
        ForgetWithin(old(Names()), src);
        ForgetIsLess(old(Names()), Names(), src, Negative);
        return NoError;
      }
      if e.Some? {
        OrderedIsOrderedBut(place, exp, e.value);
        MakeNegative(e.value);
        WithinSelf(Names());
        return NoError;
      }
      TailNotFront(place, exp, sp);
      status := OpenNegative(src, sp, srcName);
    }

    /** src was moved, create a new entry in its place */
    method OpenNegative(ghost src: Path, sp: nat, srcName: Component) returns (status: Status)
      requires Valid() && src != [] && sp < |pool| && srcName == src[|src| - 1] && srcName !in pool[sp].children
      requires root.Some? && place[sp] == Place(root.value, src[..|src| - 1]) && pool[sp].attributes.Some?
      requires |pool| == maxEntries && exp != [] ==> exp[|exp| - 1] != sp
      modifies this, attributes
      ensures Valid() && PinsStay(old(attributes.pool), attributes.pool) && delegations == old(delegations)
      ensures Within(Names(), PlainRemove(old(Names()), src))
      ensures |old(pool)| < maxEntries ==> status == NoError && Names() == PlainRemove(old(Names()), src)
    {
      hide Indexed; hide FreeListed; hide NoDup; hide RefsExact; hide Forest; hide NamesOf; hide Ordered; hide Listed;
      hide OrderedBut; hide NegativeLeaves; hide Within; hide Forget; hide Opened; hide PlainRemove;
      ParentUnique(pool, place, root, sp, src);
      AbsentWithin(Names(), src);
      var negative := FindOrCreate(sp, srcName, src);
      if negative.None? {
        return OutOfMemory;
      }
      var t := negative.value;
      OpenedRemove(old(Names()), Names(), src, InTree(place, root, t), place[t].path);
      OrderedIsOrderedBut(place, exp, t);
      MakeNegative(t);
      WithinSelf(Names());
      status := NoError;
    }

    /** nfs41_name_cache_rename without a directory to rename into */
    method RenameAway(src: Path, ghost dst: Path) returns (status: Status)
      requires Valid() && src != [] && Forget(Names(), dst) == Names() && (src == dst ==> src !in Names())
      modifies this, attributes
      ensures Valid() && PinsStay(old(attributes.pool), attributes.pool) && delegations == old(delegations)
      ensures status == PathNotFound && Within(Names(), PlainRename(old(Names()), src, dst))
      ensures Names() == if src in old(Names()) then PlainRemove(old(Names()), src) else old(Names())
    {
      hide Indexed; hide FreeListed; hide NoDup; hide RefsExact; hide Forest; hide NamesOf; hide Ordered; hide Listed;
      hide OrderedBut; hide NegativeLeaves; hide Within; hide Forget; hide PlainRename;
      AwayWithin(Names(), src, dst);
      var st, parent, target := Lookup(src);
      if st == NoError {
        FoundUnique(pool, place, root, target.value, src);
        OrderedIsOrderedBut(place, exp, target.value);
        MakeNegative(target.value);
      } else {
        AbsentForget(pool, place, root, src);
      }
      status := PathNotFound;
    }

    /** nfs41_name_cache_rename when nothing is known about the name renamed */
    method RenameUnknown(ghost src: Path, ghost dst: Path, dp: nat, dstName: Component)
      requires Valid() && dst != [] && At(dp, dst[..|dst| - 1]) && dstName == dst[|dst| - 1]
      requires forall q :: q in Names() && src <= q ==> q == src && Names()[q] == Negative
      modifies this, attributes
      ensures Valid() && PinsStay(old(attributes.pool), attributes.pool) && delegations == old(delegations)
      ensures Within(Names(), PlainRename(old(Names()), src, dst))
      ensures Names() == Forget(old(Names()), dst)
    {
      hide Indexed; hide FreeListed; hide NoDup; hide RefsExact; hide Forest; hide NamesOf; hide Ordered; hide Listed;
      hide OrderedOutside; hide NegativeLeaves; hide Within; hide Forget; hide PlainRename; hide Subtree;
      UnknownWithin(Names(), src, dst);
      ParentUnique(pool, place, root, dp, dst);
      if dstName in pool[dp].children {
        var e := pool[dp].children[dstName];
        OrderedIsOutside(place, exp, Subtree(place, e));
        Discard(e);
      }
    }

    /** The change info contradicts what the cache last saw of the directory. */
    ghost predicate Differs(p: nat, cinfo: ChangeInfo)
      reads this, attributes
    {
      && p < |pool| && pool[p].attributes.Some? && pool[p].attributes.value < |attributes.pool|
      && !Matches(cinfo, attributes.pool[pool[p].attributes.value].change)
    }

    /** nfs41_name_cache_rename after the directory renamed into was dropped;
        `s` and `sp` are either both still in place or both gone with it. */
    method RenameGone(ghost src: Path, s: nat, sp: nat, srcInfo: ChangeInfo)
      requires Valid() && src != [] && s < |pool| && sp < |pool|
      requires (At(s, src) && At(sp, src[..|src| - 1])) || (!InTree(place, root, s) && pool[sp].attributes.None?)
      modifies this, attributes
      ensures Valid() && PinsStay(old(attributes.pool), attributes.pool) && delegations == old(delegations)
      ensures old(At(s, src)) ==> Within(Names(), PlainRemove(old(Names()), src))
      ensures old(At(s, src)) ==>
                Names() == if old(Differs(sp, srcInfo)) then Forget(old(Names()), src[..|src| - 1]) else PlainRemove(old(Names()), src)
      ensures !old(At(s, src)) ==> Names() == old(Names())
    {
      hide Indexed; hide FreeListed; hide NoDup; hide RefsExact; hide Forest; hide NamesOf; hide Ordered; hide Listed;
      hide OrderedBut; hide NegativeLeaves; hide Within; hide Forget; hide PlainRename; hide Subtree;
      var changed := CheckParent(sp, srcInfo);
      if changed {
        ForgetWithin(old(Names()), src);
        ForgetIsLess(old(Names()), Names(), src, Negative);
        return;
      }
      OrderedIsOrderedBut(place, exp, s);
      MakeNegative(s);
      WithinSelf(Names());
    }

    /** An entry to rename, its directory, and the directory to rename into. */
    ghost predicate Renamable(src: Path, dst: Path, s: nat, sp: nat, dp: nat)
      reads this
    {
      && src != [] && dst != [] && (src == dst || Apart(src, dst))
      && At(s, src) && At(sp, src[..|src| - 1]) && At(dp, dst[..|dst| - 1]) && |place| == |pool|
      && pool[s].parent == Some(sp) && pool[s].attributes.Some? && pool[dp].attributes.Some?
    }

    /** nfs41_name_cache_rename when the directory renamed into has changed */
    method RenameStale(ghost src: Path, ghost dst: Path, s: nat, sp: nat, dp: nat, srcInfo: ChangeInfo)
      requires Valid() && Renamable(src, dst, s, sp, dp)
      modifies this, attributes
      ensures Valid() && PinsStay(old(attributes.pool), attributes.pool) && delegations == old(delegations)
      ensures Within(Names(), PlainRename(old(Names()), src, dst))
      ensures Names() == RenameOutcome(old(Names()), src, dst, true, old(Differs(sp, srcInfo)))
    {
      hide Indexed; hide FreeListed; hide NoDup; hide RefsExact; hide Forest; hide NamesOf; hide Ordered; hide Listed;
      hide OrderedOutside; hide NegativeLeaves; hide Within; hide Forget; hide PlainRename; hide Subtree; hide Pruned; hide RenameOutcome;
      FoundUnique(pool, place, root, s, src);
      FoundUnique(pool, place, root, dp, dst[..|dst| - 1]);
      StaleOutcome(Names(), src, dst);
      StaleWithin(Names(), src, dst);
      OrderedIsOutside(place, exp, Subtree(place, dp));
      Invalidate(dp);
      if dp == sp {
        SameParent(src, dst, old(place)[sp]);
        return;
      }
      ParentsApart(old(pool), old(place), src, dst, sp, dp);
      StillThere(old(pool), old(place), old(root), pool, place, src, dst, s, sp, dp);
      label dropped:
      RenameGone(src, s, sp, srcInfo);
      StaleThen(old(Names()), Names(), src, dst);
    }

    /** nfs41_name_cache_rename of a known subtree into an unchanged directory */
    method RenameMove(ghost src: Path, ghost dst: Path, s: nat, sp: nat, dp: nat, e: Option<nat>, srcName: Component, dstName: Component,
                      srcInfo: ChangeInfo) returns (status: Status)
      requires Valid() && root.Some? && Cast(place, root.value, src, dst, s, sp, dp, e) && Fronted(place, exp, dp, None)
      requires srcName == src[|src| - 1] && dstName == dst[|dst| - 1]
      requires pool[s].parent == Some(sp) && pool[s].component == srcName && pool[s].attributes.Some? && pool[dp].attributes.Some?
      requires e.Some? ==> pool[e.value].parent == Some(dp) && pool[e.value].component == dstName
      requires e.None? ==> dstName !in pool[dp].children
      requires |pool| == maxEntries ==> sp !in exp || exists y :: y in exp && !Under(place, y, sp)
      modifies this, attributes
      ensures Valid() && PinsStay(old(attributes.pool), attributes.pool) && delegations == old(delegations)
      ensures Within(Names(), PlainRename(old(Names()), src, dst))
      ensures old(pool)[sp].attributes.Some? && old(pool)[sp].attributes.value < |old(attributes.pool)|
      ensures Matches(srcInfo, old(attributes.pool)[old(pool)[sp].attributes.value].change) && (e.Some? || |old(pool)| < maxEntries) ==>
                status == NoError && Names() == PlainRename(old(Names()), src, dst)
      ensures !Matches(srcInfo, old(attributes.pool)[old(pool)[sp].attributes.value].change) ==>
                status == NoError && Names() == Forget(PlainRename(old(Names()), src, dst), src[..|src| - 1])
    {
      hide Indexed; hide FreeListed; hide NoDup; hide RefsExact; hide Forest; hide NamesOf; hide Ordered; hide Under; hide Absent; hide Forget;
      hide OrderedOutside; hide NegativeLeaves; hide Within; hide PlainRename; hide Subtree; hide Fronted; hide OrderedBut; hide PlainRemove;
      ghost var other: nat;
      if |pool| == maxEntries && sp in exp {
        other :| other in exp && !Under(place, other, sp);
      }
      MoveTree(src, dst, s, sp, dp, e, srcName, dstName);
      assert |pool| == maxEntries && sp in exp ==> other in exp && !Under(place, other, sp);
      ForgetRemoved(Names(), src);
      status := Vacate(src, sp, e, srcName, srcInfo);
    }

    /** nfs41_name_cache_rename when all three entries are at hand */
    method RenameInto(ghost src: Path, ghost dst: Path, s: nat, sp: nat, dp: nat, srcName: Component, dstName: Component,
                      srcInfo: ChangeInfo, dstInfo: ChangeInfo) returns (status: Status)
      requires Valid() && Renamable(src, dst, s, sp, dp) && srcName == src[|src| - 1] && dstName == dst[|dst| - 1]
      requires |pool| == maxEntries ==> sp !in exp || exists y :: y in exp && !Under(place, y, sp)
      modifies this, attributes
      ensures Valid() && PinsStay(old(attributes.pool), attributes.pool) && delegations == old(delegations)
      ensures Within(Names(), PlainRename(old(Names()), src, dst))
      ensures old(Room(dst)) ==>
                status == NoError
                && Names() == RenameOutcome(old(Names()), src, dst, old(Differs(dp, dstInfo)), old(SourceDiffers(sp, dp, srcInfo, dstInfo)))
    {
      hide Indexed; hide FreeListed; hide NoDup; hide RefsExact; hide Forest; hide NamesOf; hide Ordered; hide Cast; hide Under;
      hide OrderedOutside; hide NegativeLeaves; hide Within; hide Forget; hide PlainRename; hide Subtree; hide Fronted; hide OrderedBut; hide PlainRemove; hide RenameOutcome;
      hide Matches; hide Listed;
      FoundUnique(pool, place, root, s, src);
      FoundUnique(pool, place, root, dp, dst[..|dst| - 1]);
      FreshOutcome(Names(), src, dst);
      OrderedIsOrderedBut(place, exp, dp);
      RenameSetting(pool, place, root, src, dst, s, sp, dp);
      WithinSelf(Names());
      var changed := EntryChanged(dp, dstInfo);
      if changed {
        RenameStale(src, dst, s, sp, dp, srcInfo);
        return NoError;
      }
      var e: Option<nat> := if dstName in pool[dp].children then Some(pool[dp].children[dstName]) else None;
      if e == Some(s) {
        RenameSelf(Names(), src, dst);
        return NoError;
      }
      status := RenameMove(src, dst, s, sp, dp, e, srcName, dstName, srcInfo);
    }

    /** The same for the source directory, whose record takes on the outcome of
        the first comparison if the two directories share it. */
    ghost predicate SourceDiffers(sp: nat, dp: nat, srcInfo: ChangeInfo, dstInfo: ChangeInfo)
      reads this, attributes
    {
      if dp < |pool| && sp < |pool| && pool[dp].attributes == pool[sp].attributes && pool[sp].attributes.Some? && !Differs(dp, dstInfo)
      then !Matches(srcInfo, dstInfo.after)
      else Differs(sp, srcInfo)
    }

    /** What nfs41_name_cache_rename relies on and does not check: neither name
        lies below the other, and a new entry for `src` does not recycle its parent. */
    ghost predicate RenameOk(src: Path, dst: Path)
      reads this
      requires Listed(place, exp)
    {
      && src != [] && dst != [] && (src == dst || Apart(src, dst))
      && (|pool| == maxEntries ==> forall p: nat :: At(p, src[..|src| - 1]) ==> p !in exp || exists y :: y in exp && !Under(place, y, p))
    }

    ghost predicate StaleSource(src: Path, dst: Path, srcInfo: ChangeInfo, dstInfo: ChangeInfo)
      reads this, attributes
    {
      exists sp: nat, dp: nat :: At(sp, ParentOf(src)) && At(dp, ParentOf(dst)) && SourceDiffers(sp, dp, srcInfo, dstInfo)
    }

    /** The directories are the only entries at their places. */
    lemma StaleFlags(src: Path, dst: Path, sp: nat, dp: nat, srcInfo: ChangeInfo, dstInfo: ChangeInfo)
      requires Core() && src != [] && dst != [] && At(sp, ParentOf(src)) && At(dp, ParentOf(dst))
      ensures Stale(dst, Some(dstInfo)) == Differs(dp, dstInfo)
      ensures StaleSource(src, dst, srcInfo, dstInfo) == SourceDiffers(sp, dp, srcInfo, dstInfo)
    {
      hide Indexed; hide FreeListed; hide RefsExact; hide NamesOf; hide Listed; hide Forest; hide Matches;
      FoundUnique(pool, place, root, sp, ParentOf(src));
      FoundUnique(pool, place, root, dp, ParentOf(dst));
    }

    /** What a lookup tells about the names. */
    lemma KnownAt(path: Path, target: Option<nat>)
      requires Core() && (if target.Some? then At(target.value, path) else Absent(place, root, path))
      ensures path in Names() <==> target.Some?
      ensures Known(Names(), path) <==> target.Some? && pool[target.value].attributes.Some?
      ensures forall k: nat :: At(k, path) ==> target == Some(k)
    {
      hide Indexed; hide FreeListed; hide RefsExact; hide NamesOf; hide Listed;
      if target.Some? {
        FoundUnique(pool, place, root, target.value, path);
      } else {
        AbsentForget(pool, place, root, path);
        forall k: nat ensures !At(k, path) {
          assert k < |place| && InTree(place, root, k) ==> !(path <= place[k].path);
        }
      }
    }

    /** nfs41_name_cache_rename */
    method Rename(src: Path, dst: Path, srcInfo: ChangeInfo, dstInfo: ChangeInfo) returns (status: Status)
      requires Valid() && RenameOk(src, dst)
      modifies this, attributes
      ensures Valid() && PinsStay(old(attributes.pool), attributes.pool) && delegations == old(delegations)
      ensures Within(Names(), PlainRename(old(Names()), src, dst))
      ensures !Known(old(Names()), ParentOf(dst)) ==>
                status == PathNotFound && Names() == RenameOutcome(old(Names()), src, dst, false, false)
      ensures Known(old(Names()), ParentOf(dst)) && !Known(old(Names()), src) ==>
                (status == NoError <==> src in old(Names())) && Names() == RenameOutcome(old(Names()), src, dst, false, false)
      ensures old(Room(dst)) ==>
                && Names() == RenameOutcome(old(Names()), src, dst, old(Stale(dst, Some(dstInfo))), old(StaleSource(src, dst, srcInfo, dstInfo)))
                && (Known(old(Names()), ParentOf(dst)) && Known(old(Names()), src) ==> status == NoError)
    {
      hide Indexed; hide FreeListed; hide NoDup; hide RefsExact; hide Forest; hide NamesOf; hide Ordered; hide Listed;
      hide OrderedOutside; hide NegativeLeaves; hide Within; hide Forget; hide PlainRename; hide Under; hide RenameOutcome; hide Absent;
      hide PlainRemove; hide Room;
      var dup, srcName, dstName := dst[..|dst| - 1], src[|src| - 1], dst[|dst| - 1];
      forall x: bool, y: bool {
        UnknownOutcome(Names(), src, dst, x, y);
      }
      var st, dparent, dtarget := Lookup(dup);
      KnownAt(dup, dtarget);
      if dtarget.None? || pool[dtarget.value].attributes.None? {
        NoTargetNames(pool, place, root, dst, dtarget);
        status := RenameAway(src, dst);
        return;
      }
      var dp := dtarget.value;
      var sparent, starget;
      st, sparent, starget := Lookup(src);
      KnownAt(src, starget);
      if starget.None? || pool[starget.value].attributes.None? {
        NoSourceNames(pool, place, root, src, starget);
        RenameUnknown(src, dst, dp, dstName);
        return st;
      }
      StaleFlags(src, dst, sparent.value, dp, srcInfo, dstInfo);
      status := RenameInto(src, dst, starget.value, sparent.value, dp, srcName, dstName, srcInfo, dstInfo);
    }
  }
}
