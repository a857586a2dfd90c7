/** Whole runs of the name cache: refinement of the plain map, conservation of
    references, the delegation budget, and what scavenging can cost. */
module NameCacheRuns {
  import opened Lists
  import opened AttrCaches
  import opened Forests
  import opened PlainMaps
  import opened NameCaches

  datatype Call =
    | Insert(path: Path, fh: Option<Fh>, info: Option<FileInfo>, cinfo: Option<ChangeInfo>, delegation: bool)
    | DelegReturn(fileid: FileId, path: Path)
    | Remove(path: Path, cinfo: Option<ChangeInfo>)
    | Rename(src: Path, dst: Path, srcInfo: ChangeInfo, dstInfo: ChangeInfo)
    | RemoveStale(path: Path)

  /** The plain map driven by the same call; a refused call changes nothing. */
  function PlainStep(m: Names, call: Call, refused: bool): Names {
    if refused then m else
    match call
    case Insert(path, fh, info, _, _) => PlainInsert(m, path, NewBinding(fh, info))
    case DelegReturn(_, _) => m
    case Remove(path, _) => PlainRemove(m, path)
    case Rename(src, dst, _, _) => PlainRename(m, src, dst)
    case RemoveStale(path) => Forget(m, path)
  }

  function PlainRun(m: Names, calls: seq<Call>, refused: seq<bool>): Names
    requires |refused| == |calls|
  {
    if calls == [] then m else
      var n := |calls| - 1;
      PlainStep(PlainRun(m, calls[..n], refused[..n]), calls[n], refused[n])
  }

  /** What the code relies on in the state it finds. */
  ghost predicate Admissible(c: NameCache, call: Call)
    reads c, c.attributes
    requires c.Valid()
  {
    match call
    case Insert(path, _, info, cinfo, delegation) => c.InsertOk(path, info, cinfo, delegation)
    case DelegReturn(_, path) => forall t: nat :: c.At(t, path) ==> t !in c.exp
    case Remove(path, _) => path != []
    case Rename(src, dst, _, _) => c.RenameOk(src, dst)
    case RemoveStale(_) => true
  }

  /** The entry has the record of the file. */
  predicate RecordIs(e: NameEntry, attrs: seq<AttrEntry>, f: FileId) {
    e.attributes.Some? && e.attributes.value < |attrs| && attrs[e.attributes.value].fileid == f
  }

  /** DELEGRETURN for a file and a path releases the delegation of this file:
      that of the name at the path, if it is cached, and only otherwise the file
      that the call is about. */
  ghost predicate Releases(pool: seq<NameEntry>, named: iset<nat>, attrs: seq<AttrEntry>, fileid: FileId, f: FileId) {
    if named == iset{} then f == fileid else forall t :: t in named ==> t < |pool| && RecordIs(pool[t], attrs, f)
  }

  /** The entry that the path leads to, if there is one. */
  ghost function NamedBy(c: NameCache, path: Path): iset<nat>
    reads c
  {
    iset t: nat | c.At(t, path)
  }

  /** One call under the exclusive lock. No step invents a binding or keeps one
      that the call supersedes, only a call at the delegation limit is refused,
      and only DELEGRETURN unpins, and only the file that it releases. */
  method Perform(c: NameCache, call: Call) returns (refused: bool)
    requires c.Valid() && Admissible(c, call)
    modifies c, c.attributes
    ensures c.Valid()
    ensures refused <==> call.Insert? && call.delegation && old(c.delegations) >= c.maxDelegations
    ensures Within(c.Names(), PlainStep(old(c.Names()), call, refused))
    ensures forall f :: old(Pinned(c.attributes, f)) && !call.DelegReturn? ==> Pinned(c.attributes, f)
    ensures call.DelegReturn? ==>
        forall f :: Pinned(c.attributes, f) <==> old(Pinned(c.attributes, f)) && !old(Releases(c.pool, NamedBy(c, call.path), c.attributes.pool, call.fileid, f))
  {
    hide Indexed; hide FreeListed; hide NoDup; hide RefsExact; hide Forest; hide NamesOf; hide Ordered; hide Listed; hide NegativeLeaves;
    hide Within; hide PlainInsert; hide PlainRemove; hide PlainRename; hide Forget; hide PinsStay; hide Under;
    ghost var stored, slot;
    var status: Status;
    WithinSelf(c.Names());
    refused := call.Insert? && call.delegation && c.delegations >= c.maxDelegations;
    ghost var attrs, tree, pins := c.attributes.pool, c.attributes.tree, c.pins;
    match call {
      case Insert(path, fh, info, cinfo, delegation) =>
        status, stored := c.Insert(path, fh, info, cinfo, delegation);
      case DelegReturn(fileid, path) =>
        status, slot := c.DelegReturn(fileid, path);
        OthersStayPinned(c, attrs, tree, pins, fileid, path, slot);
        assert NamedBy(c, path) == old(NamedBy(c, path));
      case Remove(path, cinfo) =>
        status := c.Remove(path, cinfo);
      case Rename(src, dst, srcInfo, dstInfo) =>
        status := c.Rename(src, dst, srcInfo, dstInfo);
      case RemoveStale(path) =>
        status := c.RemoveStale(path);
        WithinSelf(c.Names());
    }
    if !call.DelegReturn? {
      StaysPinned(c, attrs, tree);
    }
  }

  /** A delegated record is in use, so it is where its file id says. */
  lemma DelegatedFound(c: NameCache, s: nat)
    requires c.Core() && s < |c.attributes.pool| && c.attributes.pool[s].delegated
    ensures c.attributes.pool[s].refCount > 0
    ensures c.attributes.pool[s].fileid in c.attributes.tree && c.attributes.tree[c.attributes.pool[s].fileid] == s
  {
    PinnedHeld(c.pool, c.attributes.pool, c.pins, s);
    HeldIndexed(c.attributes.pool, c.attributes.tree, s);
  }

  lemma StaysPinned(c: NameCache, attrs: seq<AttrEntry>, tree: map<FileId, nat>)
    requires c.Core() && Indexed(attrs, tree) && PinsStay(attrs, c.attributes.pool)
    ensures forall f :: f in tree && tree[f] < |attrs| && attrs[tree[f]].delegated ==> Pinned(c.attributes, f)
  {
    forall f | f in tree && tree[f] < |attrs| && attrs[tree[f]].delegated
      ensures Pinned(c.attributes, f)
    {
      DelegatedFound(c, tree[f]);
    }
  }

  /** The pins after the record in the slot has been released. */
  lemma ReleasedPins(c: NameCache, attrs: seq<AttrEntry>, tree: map<FileId, nat>, slot: Option<nat>, f: FileId)
    requires c.Core() && Indexed(attrs, tree) && |c.attributes.pool| == |attrs|
    requires slot.Some? ==> slot.value < |attrs| && attrs[slot.value].refCount > 0 && !c.attributes.pool[slot.value].delegated
    requires forall s :: 0 <= s < |attrs| && slot != Some(s) ==> c.attributes.pool[s] == attrs[s]
    requires forall s :: 0 <= s < |attrs| && attrs[s].delegated ==> attrs[s].refCount > 0
    ensures Pinned(c.attributes, f) <==>
            f in tree && tree[f] < |attrs| && attrs[tree[f]].delegated && (slot.Some? ==> attrs[slot.value].fileid != f)
  {
    if f in tree && attrs[tree[f]].delegated && slot != Some(tree[f]) {
      DelegatedFound(c, tree[f]);
    }
  }

  /** What the slot says about the file that is released. */
  lemma SlotReleases(c: NameCache, attrs: seq<AttrEntry>, tree: map<FileId, nat>, pins: multiset<nat>,
                     fileid: FileId, path: Path, slot: Option<nat>, f: FileId)
    requires c.Core() && Indexed(attrs, tree) && RefsExact(c.pool, attrs, pins)
    requires forall t: nat :: c.At(t, path) ==> slot == c.pool[t].attributes
    requires path !in c.Names() ==> slot == if fileid in tree then Some(tree[fileid]) else None
    ensures slot.Some? ==> slot.value < |attrs| && attrs[slot.value].refCount > 0
    ensures f in tree ==> (Releases(c.pool, NamedBy(c, path), attrs, fileid, f) <==> slot.Some? && attrs[slot.value].fileid == f)
  {
    hide RefsExact, NamesOf, FreeListed;
    if t: nat :| c.At(t, path) {
      assert t in NamedBy(c, path);
      FoundUnique(c.pool, c.place, c.root, t, path);
      if slot.Some? {
        RefsHeld(c.pool, attrs, pins, t);
      }
    } else {
      NotNamed(c, path);
    }
  }

  lemma NotNamed(c: NameCache, path: Path)
    requires c.Core() && forall t: nat :: !c.At(t, path)
    ensures path !in c.Names() && NamedBy(c, path) == iset{}
  {
    assert forall k :: 0 <= k < |c.pool| && InTree(c.place, c.root, k) && c.place[k].path == path ==> c.At(k, path);
  }

  lemma OthersStayPinned(c: NameCache, attrs: seq<AttrEntry>, tree: map<FileId, nat>, pins: multiset<nat>,
                         fileid: FileId, path: Path, slot: Option<nat>)
    requires c.Core() && Indexed(attrs, tree) && RefsExact(c.pool, attrs, pins) && |c.attributes.pool| == |attrs|
    requires forall s :: 0 <= s < |attrs| && attrs[s].delegated ==> s in pins
    requires forall t: nat :: c.At(t, path) ==> slot == c.pool[t].attributes
    requires path !in c.Names() ==> slot == if fileid in tree then Some(tree[fileid]) else None
    requires slot.Some? ==> slot.value < |attrs| && !c.attributes.pool[slot.value].delegated
    requires forall s :: 0 <= s < |attrs| && slot != Some(s) ==> c.attributes.pool[s] == attrs[s]
    ensures forall f :: Pinned(c.attributes, f) <==>
              f in tree && tree[f] < |attrs| && attrs[tree[f]].delegated && !Releases(c.pool, NamedBy(c, path), attrs, fileid, f)
  {
    hide RefsExact, NamesOf, Releases, NamedBy;
    forall s | 0 <= s < |attrs| && attrs[s].delegated ensures attrs[s].refCount > 0 {
      PinnedHeld(c.pool, attrs, pins, s);
    }
    forall f ensures Pinned(c.attributes, f) <==>
              f in tree && tree[f] < |attrs| && attrs[tree[f]].delegated && !Releases(c.pool, NamedBy(c, path), attrs, fileid, f)
    {
      SlotReleases(c, attrs, tree, pins, fileid, path, slot, f);
      ReleasedPins(c, attrs, tree, slot, f);
    }
  }

  /** DELEGRETURN releases the file that it is about if and only if the path is
      not cached, or cached for that file, and never two files. */
  lemma OwnReleasedIff(c: NameCache, attrs: seq<AttrEntry>, fileid: FileId, path: Path, f: FileId, g: FileId)
    requires c.Core()
    ensures Releases(c.pool, NamedBy(c, path), attrs, fileid, fileid) <==>
            path !in c.Names() || exists t: nat :: c.At(t, path) && RecordIs(c.pool[t], attrs, fileid)
    ensures Releases(c.pool, NamedBy(c, path), attrs, fileid, f) && Releases(c.pool, NamedBy(c, path), attrs, fileid, g) ==> f == g
  {
    hide NamesOf;
    if t: nat :| c.At(t, path) {
      assert t in NamedBy(c, path);
      FoundUnique(c.pool, c.place, c.root, t, path);
    } else {
      NotNamed(c, path);
    }
  }

  // runs

  lemma StepMonotone(a: Names, b: Names, call: Call, refused: bool)
    requires Within(a, b)
    ensures Within(PlainStep(a, call, refused), PlainStep(b, call, refused))
  {
    match call
    case Rename(src, dst, _, _) => RenameMonotone(a, b, src, dst);
    case _ =>
  }

  lemma PlainRunOn(calls: seq<Call>, refused: seq<bool>, call: Call, r: bool)
    requires |refused| == |calls|
    ensures PlainRun(map[], calls + [call], refused + [r]) == PlainStep(PlainRun(map[], calls, refused), call, r)
  {
    hide PlainStep;
    assert (calls + [call])[..|calls|] == calls && (refused + [r])[..|calls|] == refused;
  }

  /** A name cache with the calls that it has served since it was created. In
      every run the cache holds nothing that the plain map driven by the same
      calls does not hold. */
  class RecordedCache {
    const cache: NameCache
    ghost var calls: seq<Call>
    ghost var refused: seq<bool>

    ghost predicate Valid()
      reads this, cache, cache.attributes
    {
      cache.Valid() && |refused| == |calls| && Within(cache.Names(), PlainRun(map[], calls, refused))
    }

    constructor (entries: nat)
      ensures Valid() && calls == [] && fresh(cache) && fresh(cache.attributes)
      ensures cache.maxEntries == entries
    {
      cache := new NameCache(entries);
      calls, refused := [], [];
      new;
      NothingCached(cache);
    }

    method Do(call: Call) returns (refusal: bool)
      requires Valid() && Admissible(cache, call)
      modifies this, cache, cache.attributes
      ensures Valid() && calls == old(calls) + [call] && refused == old(refused) + [refusal]
    {
      hide PlainStep; hide PlainRun; hide Within; hide Admissible;
      refusal := Perform(cache, call);
      StepMonotone(old(cache.Names()), PlainRun(map[], calls, refused), call, refusal);
      PlainRunOn(calls, refused, call, refusal);
      calls, refused := calls + [call], refused + [refusal];
      WithinTrans(cache.Names(), PlainStep(old(cache.Names()), call, refusal), PlainRun(map[], calls, refused));
    }
  }

  lemma NothingCached(c: NameCache)
    requires c.Valid() && c.pool == [] && c.root == None
    ensures Within(c.Names(), map[])
  {
  }

  lemma WithinTrans(a: Names, b: Names, c: Names)
    requires Within(a, b) && Within(b, c)
    ensures Within(a, c)
  {
  }

  // conservation of references

  /** Name entries that hold a record. */
  function Positives(pool: seq<NameEntry>): nat {
    if pool == [] then 0 else Positives(pool[..|pool| - 1]) + if pool[|pool| - 1].attributes.Some? then 1 else 0
  }

  function SumUses(pool: seq<NameEntry>, n: nat): nat {
    if n == 0 then 0 else SumUses(pool, n - 1) + Uses(pool, n - 1)
  }

  lemma {:induction false} SumUsesStep(pool: seq<NameEntry>, n: nat)
    requires pool != []
    ensures var e := pool[|pool| - 1];
      SumUses(pool, n) == SumUses(pool[..|pool| - 1], n) + if e.attributes.Some? && e.attributes.value < n then 1 else 0
  {
    if n > 0 {
      SumUsesStep(pool, n - 1);
    }
  }

  lemma {:induction false} SumUsesIsPositives(pool: seq<NameEntry>, n: nat)
    requires forall k :: 0 <= k < |pool| && pool[k].attributes.Some? ==> pool[k].attributes.value < n
    ensures SumUses(pool, n) == Positives(pool)
  {
    if pool == [] {
      NoUses(n);
    } else {
      SumUsesStep(pool, n);
      SumUsesIsPositives(pool[..|pool| - 1], n);
    }
  }

  lemma {:induction false} NoUses(n: nat)
    ensures SumUses([], n) == 0
  {
    if n > 0 {
      NoUses(n - 1);
    }
  }

  lemma {:induction false} TotalSplits(pool: seq<NameEntry>, attrs: seq<AttrEntry>, rest: multiset<nat>)
    requires forall s :: 0 <= s < |attrs| ==> attrs[s].refCount == Uses(pool, s) + rest[s]
    requires forall s :: s in rest ==> s < |attrs|
    ensures TotalRefs(attrs) == SumUses(pool, |attrs|) + |rest|
  {
    if attrs == [] {
      assert rest == multiset{};
    } else {
      var last := |attrs| - 1;
      TotalSplits(pool, attrs[..last], rest[last := 0]);
      assert rest == rest[last := 0][last := rest[last]];
    }
  }

  /** All reference counts together are the names that hold a record plus the
      counted delegations. */
  lemma ReferencesConserved(c: NameCache)
    requires c.Core()
    ensures TotalRefs(c.attributes.pool) == Positives(c.pool) + c.delegations
  {
    var attrs := c.attributes.pool;
    forall k | 0 <= k < |c.pool| && c.pool[k].attributes.Some?
      ensures c.pool[k].attributes.value < |attrs|
    {
      RefsHeld(c.pool, attrs, c.pins, k);
    }
    forall s | s in c.pins
      ensures s < |attrs|
    {
      PinnedHeld(c.pool, attrs, c.pins, s);
    }
    forall s | 0 <= s < |attrs|
      ensures attrs[s].refCount == Uses(c.pool, s) + c.pins[s]
    {
      assert CountExact(c.pool, attrs, c.pins, s);
    }
    TotalSplits(c.pool, attrs, c.pins);
    SumUsesIsPositives(c.pool, |attrs|);
  }

  function DelegatedCount(attrs: seq<AttrEntry>): nat {
    if attrs == [] then 0 else DelegatedCount(attrs[..|attrs| - 1]) + if attrs[|attrs| - 1].delegated then 1 else 0
  }

  lemma {:induction false} DelegatedAtMost(attrs: seq<AttrEntry>, pins: multiset<nat>)
    requires forall s :: 0 <= s < |attrs| && attrs[s].delegated ==> s in pins
    ensures DelegatedCount(attrs) <= |pins|
  {
    if attrs != [] {
      var last := |attrs| - 1;
      var rest := if attrs[last].delegated then pins - multiset{last} else pins;
      DelegatedAtMost(attrs[..last], rest);
    }
  }

  /** Delegated records never outnumber the counted delegations, which never
      exceed the budget, and each can be found by its file id. */
  lemma DelegationBudget(c: NameCache)
    requires c.Core()
    ensures DelegatedCount(c.attributes.pool) <= c.delegations <= c.maxDelegations
    ensures forall s :: 0 <= s < |c.attributes.pool| && c.attributes.pool[s].delegated ==> Pinned(c.attributes, c.attributes.pool[s].fileid)
  {
    DelegatedAtMost(c.attributes.pool, c.pins);
    forall s | 0 <= s < |c.attributes.pool| && c.attributes.pool[s].delegated
      ensures Pinned(c.attributes, c.attributes.pool[s].fileid)
    {
      DelegatedFound(c, s);
    }
  }

  /** Scavenging the tail of the expiry list costs no other listed entry. */
  lemma ScavengeTakesOne(c: NameCache)
    requires c.Valid() && c.exp != []
    ensures forall j :: j in c.exp && j in Subtree(c.place, c.exp[|c.exp| - 1]) ==> j == c.exp[|c.exp| - 1]
  {
    var tail := c.exp[|c.exp| - 1];
    forall j | j in c.exp && j in Subtree(c.place, tail)
      ensures j == tail
    {
      var i :| 0 <= i < |c.exp| && c.exp[i] == j;
      assert i == |c.exp| - 1 || !Above(c.place, tail, c.exp[i]);
      if c.place[j].path == c.place[tail].path {
        PlaceUnique(c.pool, c.place, j, tail);
      }
    }
  }
}
