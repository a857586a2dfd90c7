/** The attribute cache of daemon/name_cache.c: a fixed pool of reference
    counted records, an index by file id and a free list. */
module AttrCaches {
  import opened Lists

  type FileId = nat

  /** `hasChange` is the FATTR4_WORD0_CHANGE bit of the reply's attribute mask. */
  datatype FileInfo = FileInfo(fileid: FileId, hasChange: bool, change: nat)

  datatype AttrEntry = AttrEntry(fileid: FileId, change: nat, refCount: nat, invalidated: bool, delegated: bool)

  /** The record is the same but for its reference count. */
  predicate SameRecord(a: AttrEntry, b: AttrEntry) {
    a.(refCount := 0) == b.(refCount := 0)
  }

  /** The index holds exactly the records in use, each under its own file id. */
  ghost predicate Indexed(pool: seq<AttrEntry>, tree: map<FileId, nat>) {
    && (forall f :: f in tree ==> tree[f] < |pool| && pool[tree[f]].fileid == f && pool[tree[f]].refCount > 0)
    && (forall s :: 0 <= s < |pool| && pool[s].refCount > 0 ==> pool[s].fileid in tree && tree[pool[s].fileid] == s)
  }

  /** The free list holds every other record, once. */
  ghost predicate FreeListed(pool: seq<AttrEntry>, free: seq<nat>) {
    && NoDup(free)
    && (forall i :: 0 <= i < |free| ==> free[i] < |pool| && pool[free[i]].refCount == 0)
    && (forall s :: 0 <= s < |pool| && pool[s].refCount == 0 ==> s in free)
  }

  lemma HeldIndexed(pool: seq<AttrEntry>, tree: map<FileId, nat>, s: nat)
    requires Indexed(pool, tree) && s < |pool| && pool[s].refCount > 0
    ensures pool[s].fileid in tree && tree[pool[s].fileid] == s
  {
  }

  class AttrCache {
    var pool: seq<AttrEntry>
    var tree: map<FileId, nat>
    var free: seq<nat>

    /** Index and free list partition the pool, and a reference count is zero
        exactly on the free list. */
    ghost predicate Valid()
      reads this
    {
      Indexed(pool, tree) && FreeListed(pool, free)
    }

    constructor (capacity: nat)
      ensures Valid()
      ensures |pool| == capacity && tree == map[]
      ensures forall s :: 0 <= s < |pool| ==> pool[s].refCount == 0 && !pool[s].delegated
    {
      var slots := seq(capacity, i => i);
      pool := seq(capacity, _ => AttrEntry(0, 0, 0, false, false));
      tree := map[];
      free := slots;
      forall s | 0 <= s < capacity
        ensures s in slots
      {
        assert slots[s] == s;
      }
    }

    /** attr_cache_entry_ref */
    method Ref(s: nat)
      requires Valid() && s < |pool| && pool[s].refCount > 0
      modifies this`pool
      ensures Valid() && pool == old(pool)[s := old(pool)[s].(refCount := old(pool)[s].refCount + 1)]
    {
      pool := pool[s := pool[s].(refCount := pool[s].refCount + 1)];
    }

    /** attr_cache_entry_deref, with attr_cache_entry_free on the last reference */
    method Deref(s: nat)
      requires Valid() && s < |pool| && pool[s].refCount > 0
      modifies this
      ensures Valid() && pool == old(pool)[s := old(pool)[s].(refCount := old(pool)[s].refCount - 1)]
    {
      pool := pool[s := pool[s].(refCount := pool[s].refCount - 1)];
      if pool[s].refCount == 0 {
        tree := tree - {pool[s].fileid};
        assert s !in free;
        free := free + [s];
        assert free[|free| - 1] == s;
      }
    }

    /** attr_cache_find_or_create: None is ERROR_OUTOFMEMORY */
    method FindOrCreate(fileid: FileId) returns (slot: Option<nat>)
      requires Valid()
      modifies this
      ensures Valid() && |pool| == |old(pool)|
      ensures slot.None? <==> fileid !in old(tree) && old(free) == []
      ensures slot.None? ==> pool == old(pool) && tree == old(tree) && free == old(free)
      ensures slot.Some? ==> slot.value < |pool| && fileid in tree && tree[fileid] == slot.value
      ensures slot.Some? ==> pool == old(pool)[slot.value := pool[slot.value]]
      ensures slot.Some? && fileid !in old(tree) ==> old(pool)[slot.value].refCount == 0
      ensures slot.Some? ==> pool[slot.value].refCount == old(pool)[slot.value].refCount + 1
      ensures slot.Some? ==> SameRecord(pool[slot.value],
                               if fileid in old(tree) then old(pool)[slot.value] else AttrEntry(fileid, 0, 0, false, false))
    {
      if fileid in tree {
        var s := tree[fileid];
        Ref(s);
        return Some(s);
      }
      if free == [] {
        return None;
      }
      var s := free[0];
      free := free[1..];
      pool := pool[s := AttrEntry(fileid, 0, 1, false, false)];
      tree := tree[fileid := s];
      return Some(s);
    }

    /** attr_cache_update: a change attribute also revalidates the record */
    method Update(s: nat, info: FileInfo, delegated: bool)
      requires Valid() && s < |pool|
      modifies this`pool
      ensures Valid() && pool == old(pool)[s := Refreshed(old(pool)[s], info, delegated)]
    {
      var e := pool[s];
      if info.hasChange {
        e := e.(change := info.change, invalidated := false);
      }
      if delegated {
        e := e.(delegated := true);
      }
      pool := pool[s := e];
    }

    /** attr_cache_search: the record of the file that is in use, if there is one */
    method Search(fileid: FileId) returns (slot: Option<nat>)
      requires Valid()
      ensures slot.Some? ==> slot.value < |pool| && pool[slot.value].fileid == fileid && pool[slot.value].refCount > 0
      ensures slot.None? ==> forall s :: 0 <= s < |pool| && pool[s].refCount > 0 ==> pool[s].fileid != fileid
    {
      slot := if fileid in tree then Some(tree[fileid]) else None;
    }

    method ClearDelegated(s: nat)
      requires Valid() && s < |pool|
      modifies this`pool
      ensures Valid() && pool == old(pool)[s := old(pool)[s].(delegated := false)]
    {
      pool := pool[s := pool[s].(delegated := false)];
    }

    method Invalidate(s: nat)
      requires Valid() && s < |pool|
      modifies this`pool
      ensures Valid() && pool == old(pool)[s := old(pool)[s].(invalidated := true)]
    {
      pool := pool[s := pool[s].(invalidated := true)];
    }

    method SetChange(s: nat, change: nat)
      requires Valid() && s < |pool|
      modifies this`pool
      ensures Valid() && pool == old(pool)[s := old(pool)[s].(change := change)]
    {
      pool := pool[s := pool[s].(change := change)];
    }
  }

  /** The record after attr_cache_update. */
  function Refreshed(e: AttrEntry, info: FileInfo, delegated: bool): AttrEntry {
    AttrEntry(e.fileid, if info.hasChange then info.change else e.change, e.refCount,
              e.invalidated && !info.hasChange, e.delegated || delegated)
  }

  /** The record after a number of replies, the latest one last. */
  function AllRefreshed(e: AttrEntry, infos: seq<FileInfo>): AttrEntry {
    if infos == [] then e else Refreshed(AllRefreshed(e, infos[..|infos| - 1]), infos[|infos| - 1], false)
  }

  /** The change attribute is that of the latest reply that had one, which also
      makes the record valid again; the file and the references stay. */
  lemma {:induction false} LatestChangeKept(e: AttrEntry, infos: seq<FileInfo>, k: nat)
    requires k < |infos| && infos[k].hasChange && forall i :: k < i < |infos| ==> !infos[i].hasChange
    ensures var r := AllRefreshed(e, infos);
      r.change == infos[k].change && !r.invalidated && r.fileid == e.fileid && r.refCount == e.refCount && r.delegated == e.delegated
  {
    var n := |infos| - 1;
    if k < n {
      LatestChangeKept(e, infos[..n], k);
    } else {
      OthersKept(e, infos[..n]);
    }
  }

  lemma {:induction false} OthersKept(e: AttrEntry, infos: seq<FileInfo>)
    ensures var r := AllRefreshed(e, infos);
      && r.fileid == e.fileid && r.refCount == e.refCount && r.delegated == e.delegated
      && ((forall i :: 0 <= i < |infos| ==> !infos[i].hasChange) ==> r == e)
  {
    if infos != [] {
      OthersKept(e, infos[..|infos| - 1]);
    }
  }

  /** Sum of the reference counts over the pool. */
  function TotalRefs(pool: seq<AttrEntry>): nat {
    if pool == [] then 0 else TotalRefs(pool[..|pool| - 1]) + pool[|pool| - 1].refCount
  }
}
