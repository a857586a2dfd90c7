/** The byte-range locks of one open, daemon/lock.c, and their replay when a
    delegation is returned, delegation_flush_locks in daemon/delegation.c. */
module OpenLocks {
  import opened Lists
  import opened Delegations
  import opened DelegationSafety

  const UINT64_MAX: nat := 0xFFFF_FFFF_FFFF_FFFF
  const UINT32_RANGE: nat := 0x1_0000_0000
  const ID_RANGE: nat := 0x4000_0000  // nfs41_lock_state.id is a 30-bit field

  datatype Range = Range(offset: nat, length: nat)
  datatype Stateid = Stateid(seqid: nat, other: nat)
  datatype StateidArg = OpenStateid(open: Stateid) | LockStateid(lock: Stateid)

  /** A LOCK request as sent to the server, and its answer. */
  datatype Request = Request(range: Range, exclusive: bool, stateid: StateidArg)
  datatype Reply = LockOk(stateid: Stateid) | LockFailed

  datatype UnlockStatus = Unlocked | NotLocked | Locked | ServerError(error: nat)

  /** The translation that both LOCK and UNLOCK apply to the caller's range. */
  function Normalised(r: Range): Range {
    if r.length >= UINT64_MAX - r.offset then Range(r.offset, UINT64_MAX) else r
  }

  lemma NormalisedTwice(r: Range)
    ensures Normalised(Normalised(r)) == Normalised(r)
  {
  }

  /** The byte is in the range; UINT64_MAX as a length means the end of the file. */
  predicate Covers(r: Range, i: nat) {
    r.offset <= i && (r.length == UINT64_MAX || i < r.offset + r.length)
  }

  /** The lock is for exactly the bytes that the caller has asked for, below the
      largest offset. */
  ghost predicate LocksWhat(l: Lock, asked: Range) {
    forall i: nat :: i < UINT64_MAX ==> (Covers(Range(l.offset, l.length), i) <==> asked.offset <= i < asked.offset + asked.length)
  }

  /** The translation keeps the bytes, and changes only ranges that reach the
      largest offset. */
  lemma NormalisedCovers(r: Range)
    ensures forall i: nat :: i < UINT64_MAX ==> (Covers(Normalised(r), i) <==> r.offset <= i < r.offset + r.length)
    ensures Normalised(r) != r ==> r.offset + r.length >= UINT64_MAX
  {
  }

  function RangeOf(l: Lock): Range {
    Range(l.offset, l.length)
  }

  function Ranges(locks: seq<Lock>): seq<Range> {
    seq(|locks|, i requires 0 <= i < |locks| => RangeOf(locks[i]))
  }

  /** list_search with lock_range_cmp */
  function FirstMatch(locks: seq<Lock>, r: Range): (k: nat)
    ensures k <= |locks|
    ensures k < |locks| ==> RangeOf(locks[k]) == r
    ensures forall i :: 0 <= i < k ==> RangeOf(locks[i]) != r
  {
    if locks == [] || RangeOf(locks[0]) == r then 0 else 1 + FirstMatch(locks[1..], r)
  }

  function WithoutFirst(locks: seq<Lock>, r: Range): seq<Lock> {
    var k := FirstMatch(locks, r);
    if k < |locks| then locks[..k] + locks[k + 1..] else locks
  }

  function WithoutAll(locks: seq<Lock>, ranges: seq<Range>): seq<Lock> {
    if ranges == [] then locks else WithoutFirst(WithoutAll(locks, ranges[..|ranges| - 1]), Normalised(ranges[|ranges| - 1]))
  }

  /** The locks, the lock stateid and the result of the latest unlock. */
  datatype Unlocking = Unlocking(locks: seq<Lock>, stateid: Stateid, status: UnlockStatus)

  /** One range of an UNLOCK: a delegated lock goes quietly, and one known to the
      server goes whatever the server answers. */
  function UnlockRange(u: Unlocking, r: Range, reply: (StateidArg, Option<nat>)): Unlocking {
    var k := FirstMatch(u.locks, r);
    if k == |u.locks| then u.(status := NotLocked)
    else if u.locks[k].delegated then Unlocking(WithoutFirst(u.locks, r), u.stateid, Unlocked)
    else Unlocking(WithoutFirst(u.locks, r), Saved(u.stateid, reply.0), if reply.1.Some? then ServerError(reply.1.value) else Unlocked)
  }

  function UnlockAll(u: Unlocking, ranges: seq<Range>, replies: nat -> (StateidArg, Option<nat>)): Unlocking {
    if ranges == [] then u
    else
      var n := |ranges| - 1;
      UnlockRange(UnlockAll(u, ranges[..n], replies), Normalised(ranges[n]), replies(n))
  }

  lemma {:induction false} UnlockAllRemoves(u: Unlocking, ranges: seq<Range>, replies: nat -> (StateidArg, Option<nat>))
    ensures UnlockAll(u, ranges, replies).locks == WithoutAll(u.locks, ranges)
  {
    if ranges != [] {
      UnlockAllRemoves(u, ranges[..|ranges| - 1], replies);
    }
  }

  function DelegatedLocks(locks: seq<Lock>): seq<Lock> {
    if locks == [] then [] else (if locks[0].delegated then [locks[0]] else []) + DelegatedLocks(locks[1..])
  }

  /** The same locks in the same order, up to who knows about them. */
  ghost predicate SameLocks(a: seq<Lock>, b: seq<Lock>) {
    |a| == |b| && forall i :: 0 <= i < |a| ==> a[i].(delegated := false) == b[i].(delegated := false)
  }

  function Updated(have: Stateid, got: Stateid): Stateid {
    if have.seqid == 0 then got
    else if got.seqid > have.seqid then have.(seqid := got.seqid)
    else have
  }

  /** The lock stateid after the given replies, in the order in which they are handled. */
  function AllUpdated(have: Stateid, replies: seq<Stateid>): Stateid
    decreases |replies|
  {
    if replies == [] then have else AllUpdated(Updated(have, replies[0]), replies[1..])
  }

  /** In whatever order the replies are handled, the seqid never falls and ends
      up as the largest one seen, and once the stateid is in use it stays the
      same stateid. */
  lemma {:induction false} StateidStaysNewest(have: Stateid, replies: seq<Stateid>)
    ensures var now := AllUpdated(have, replies);
      && have.seqid <= now.seqid && (forall i :: 0 <= i < |replies| ==> replies[i].seqid <= now.seqid)
      && (now.seqid == have.seqid || exists i :: 0 <= i < |replies| && replies[i].seqid == now.seqid)
      && (have.seqid != 0 ==> now.other == have.other)
    decreases |replies|
  {
    if replies != [] {
      var next := Updated(have, replies[0]);
      StateidStaysNewest(next, replies[1..]);
      var now := AllUpdated(have, replies);
      if now.seqid != next.seqid {
        var i :| 0 <= i < |replies[1..]| && replies[1..][i].seqid == now.seqid;
        assert replies[i + 1].seqid == now.seqid;
      }
    }
  }

  /** Settling clears the first lock with the id. */
  lemma {:induction false} SettledAt(locks: seq<Lock>, k: nat)
    requires k < |locks| && forall i :: 0 <= i < k ==> locks[i].id != locks[k].id
    ensures Settled(locks, locks[k].id) == locks[k := locks[k].(delegated := false)]
  {
    if k > 0 {
      var rest := locks[1..];
      assert rest[k - 1] == locks[k];
      SettledAt(rest, k - 1);
    }
  }

  lemma {:induction false} SettledNone(locks: seq<Lock>, id: nat)
    requires forall i :: 0 <= i < |locks| ==> locks[i].id != id
    ensures Settled(locks, id) == locks
  {
    if locks != [] {
      SettledNone(locks[1..], id);
    }
  }

  lemma {:induction false} NoDelegatedLocks(locks: seq<Lock>)
    requires forall i :: 0 <= i < |locks| ==> !locks[i].delegated
    ensures DelegatedLocks(locks) == []
  {
    if locks != [] {
      NoDelegatedLocks(locks[1..]);
    }
  }

  /** deleg_lock_find returns this position. */
  ghost predicate IsFirstDelegated(locks: seq<Lock>, k: nat) {
    k < |locks| && locks[k].delegated && forall i :: 0 <= i < k ==> !locks[i].delegated
  }

  lemma {:induction false} FirstDelegatedAt(locks: seq<Lock>, k: nat)
    requires IsFirstDelegated(locks, k)
    ensures FirstDelegated(locks) == Some(locks[k].id)
    ensures DelegatedLocks(locks) == [locks[k]] + DelegatedLocks(locks[k + 1..])
  {
    if k > 0 {
      var rest := locks[1..];
      FirstDelegatedAt(rest, k - 1);
      assert rest[k..] == locks[k + 1..];
    }
  }

  lemma {:induction false} ClearedAt(locks: seq<Lock>, k: nat)
    requires IsFirstDelegated(locks, k)
    ensures DelegatedLocks(locks[k := locks[k].(delegated := false)]) == DelegatedLocks(locks[k + 1..])
  {
    var after := locks[k := locks[k].(delegated := false)];
    if k > 0 {
      ClearedAt(locks[1..], k - 1);
      assert after[1..] == locks[1..][k - 1 := locks[k].(delegated := false)];
      assert locks[1..][k..] == locks[k + 1..];
    } else {
      assert after[1..] == locks[1..];
    }
  }

  /** One round of the flush makes progress exactly if no earlier lock carries
      the id of the lock that was sent. If one does, the round changes
      nothing, and the loop would send the same lock for ever. */
  lemma FlushProgress(locks: seq<Lock>, k: nat)
    requires IsFirstDelegated(locks, k)
    ensures (forall i :: 0 <= i < k ==> locks[i].id != locks[k].id)
            <==> DelegatedLocks(locks) == [locks[k]] + DelegatedLocks(Settled(locks, locks[k].id))
    ensures (exists i :: 0 <= i < k && locks[i].id == locks[k].id) ==> Settled(locks, locks[k].id) == locks
  {
    FirstDelegatedAt(locks, k);
    if j: nat :| j < k && locks[j].id == locks[k].id && forall i :: 0 <= i < j ==> locks[i].id != locks[k].id {
      SettledAt(locks, j);
      assert Settled(locks, locks[k].id) == locks;
      assert |[locks[k]] + DelegatedLocks(locks)| > |DelegatedLocks(locks)|;
    } else {
      NoEarlier(locks, k, k);
      SettledAt(locks, k);
      ClearedAt(locks, k);
    }
  }

  /** Without a least earlier lock with the id there is none. */
  lemma {:induction false} NoEarlier(locks: seq<Lock>, k: nat, n: nat)
    requires n <= k < |locks|
    requires !exists j: nat :: j < k && locks[j].id == locks[k].id && forall i :: 0 <= i < j ==> locks[i].id != locks[k].id
    ensures forall i :: 0 <= i < n ==> locks[i].id != locks[k].id
  {
    if n > 0 {
      NoEarlier(locks, k, n - 1);
      assert locks[n - 1].id != locks[k].id;
    }
  }

  lemma NoMatch(locks: seq<Lock>, r: Range)
    ensures r !in Ranges(locks) <==> FirstMatch(locks, r) == |locks|
  {
    var k := FirstMatch(locks, r);
    if k < |locks| {
      assert Ranges(locks)[k] == r;
    }
  }

  // Unlocking undoes locking

  /** An unlock takes one lock with the range off the list, if there is one,
      and keeps the order of the others. */
  lemma WithoutFirstRanges(locks: seq<Lock>, r: Range)
    ensures multiset(Ranges(WithoutFirst(locks, r))) == multiset(Ranges(locks)) - multiset{r}
    ensures |WithoutFirst(locks, r)| == |locks| - if r in Ranges(locks) then 1 else 0
  {
    var k := FirstMatch(locks, r);
    NoMatch(locks, r);
    if k < |locks| {
      var a, b := locks[..k], locks[k + 1..];
      assert Ranges(locks) == Ranges(a) + [r] + Ranges(b);
      assert Ranges(a + b) == Ranges(a) + Ranges(b);
    }
  }

  lemma FirstMatchAppend(locks: seq<Lock>, l: Lock)
    ensures FirstMatch(locks + [l], RangeOf(l)) == FirstMatch(locks, RangeOf(l))
  {
    var r := RangeOf(l);
    var k := FirstMatch(locks, r);
    if k < |locks| {
      assert (locks + [l])[k] == locks[k];
    } else {
      assert (locks + [l])[k] == l;
    }
  }

  /** LOCK and then UNLOCK with the caller's own arguments gives back the very
      same locks exactly if that range was not held already: otherwise the
      older lock is the one removed. */
  lemma {:induction false} LockThenUnlock(locks: seq<Lock>, l: Lock, asked: Range)
    requires RangeOf(l) == Normalised(asked)
    requires forall i :: 0 <= i < |locks| ==> locks[i].id < l.id
    ensures WithoutAll(locks + [l], [asked]) == locks <==> RangeOf(l) !in Ranges(locks)
  {
    hide Normalised, Ranges;
    var r := RangeOf(l);
    NoMatch(locks, r);
    FirstMatchAppend(locks, l);
    var k := FirstMatch(locks, r);
    OneUnlock(locks + [l], asked);
    if k < |locks| {
      assert WithoutFirst(locks + [l], r)[|locks| - 1] == l;
    }
  }

  lemma OneUnlock(locks: seq<Lock>, asked: Range)
    ensures WithoutAll(locks, [asked]) == WithoutFirst(locks, Normalised(asked))
  {
    assert [asked][..0] == [];
    assert WithoutAll(locks, []) == locks;
  }

  /** It always gives back the ranges held before. */
  lemma {:induction false} LockThenUnlockRanges(locks: seq<Lock>, l: Lock, asked: Range)
    requires RangeOf(l) == Normalised(asked)
    ensures multiset(Ranges(WithoutAll(locks + [l], [asked]))) == multiset(Ranges(locks))
  {
    hide Normalised, WithoutFirst;
    OneUnlock(locks + [l], asked);
    WithoutFirstRanges(locks + [l], RangeOf(l));
    assert Ranges(locks + [l]) == Ranges(locks) + [RangeOf(l)];
  }

  // Replay

  function AsRequest(l: Lock, arg: StateidArg): Request {
    Request(RangeOf(l), l.exclusive, arg)
  }

  /** The stateid that the i-th LOCK of a flush carries: the open's own first,
      then the one that the answer before it gave. */
  function ArgFor(start: StateidArg, replies: nat -> Reply, i: nat): StateidArg {
    if i == 0 then start
    else match replies(i - 1)
      case LockOk(stateid) => LockStateid(stateid)
      case LockFailed => start
  }

  function StartArg(lock: Stateid, open: Stateid): StateidArg {
    if lock.seqid != 0 then LockStateid(lock) else OpenStateid(open)
  }

  lemma ArgAfter(start: StateidArg, replies: nat -> Reply, i: nat)
    ensures replies(i).LockOk? ==> ArgFor(start, replies, i + 1) == LockStateid(replies(i).stateid)
  {
  }

  lemma FirstIsIn(locks: seq<Lock>, k: nat)
    requires IsFirstDelegated(locks, k)
    ensures k < |locks|
  {
  }

  lemma StartReplay(todo: seq<Lock>, start: StateidArg, replies: nat -> Reply)
    ensures Replayed(todo, start, replies, [], true) && ArgFor(start, replies, 0) == start
  {
  }

  /** The requests are the first of the locks in `todo`, in order, each with its
      range and type; all were granted but the last one if the flush failed. */
  ghost predicate Replayed(todo: seq<Lock>, start: StateidArg, replies: nat -> Reply, sent: seq<Request>, ok: bool) {
    && |sent| <= |todo| && (!ok ==> sent != [])
    && (forall i :: 0 <= i < |sent| ==>
          && sent[i].range == Range(todo[i].offset, todo[i].length) && sent[i].exclusive == todo[i].exclusive
          && sent[i].stateid == ArgFor(start, replies, i))
    && (forall i :: 0 <= i < |sent| ==> (replies(i).LockFailed? <==> !ok && i == |sent| - 1))
  }

  lemma FirstSent(todo: seq<Lock>, start: StateidArg, replies: nat -> Reply, sent: seq<Request>, ok: bool)
    requires Replayed(todo, start, replies, sent, ok) && sent != []
    ensures sent[0].stateid == start
  {
  }

  lemma ReplayedOne(todo: seq<Lock>, start: StateidArg, replies: nat -> Reply, sent: seq<Request>)
    requires Replayed(todo, start, replies, sent, true) && |sent| < |todo|
    ensures Replayed(todo, start, replies, sent + [AsRequest(todo[|sent|], ArgFor(start, replies, |sent|))], replies(|sent|).LockOk?)
  {
  }

  /** The lock sent next is the first that is left, and settling it leaves the rest. */
  lemma FlushRound(locks: seq<Lock>, counter: nat, k: nat, todo: seq<Lock>, n: nat)
    requires Increasing(locks, counter) && IsFirstDelegated(locks, k)
    requires n <= |todo| && DelegatedLocks(locks) == todo[n..]
    ensures n < |todo| && todo[n] == locks[k]
    ensures DelegatedLocks(Settled(locks, locks[k].id)) == todo[n + 1..]
  {
    FirstDelegatedAt(locks, k);
    FlushProgress(locks, k);
    var rest := DelegatedLocks(Settled(locks, locks[k].id));
    assert todo[n..] == [locks[k]] + rest;
    assert todo[n..][0] == todo[n];
    assert todo[n + 1..] == todo[n..][1..];
  }

  function Saved(have: Stateid, arg: StateidArg): Stateid {
    if arg.LockStateid? then Updated(have, arg.lock) else have
  }

  class OpenLocks {
    var locks: seq<Lock>
    var counter: nat
    var stateid: Stateid

    /** Ids grow along the list as long as the counter has not outgrown them. */
    ghost predicate Valid()
      reads this
    {
      counter <= ID_RANGE && Increasing(locks, counter)
    }

    constructor ()
      ensures Valid() && locks == [] && counter == 0 && stateid.seqid == 0
    {
      locks, counter, stateid := [], 0, Stateid(0, 0);
    }

    /** The id of the next lock: `lock->id = open->locks.counter++`. */
    method Append(r: Range, exclusive: bool, delegated: bool)
      modifies this`locks, this`counter
      ensures locks == old(locks) + [Delegations.Lock(old(counter) % ID_RANGE, r.offset, r.length, exclusive, delegated)]
      ensures counter == (old(counter) + 1) % UINT32_RANGE
      ensures old(Valid()) && old(counter) < ID_RANGE ==> Valid()
    {
      locks := locks + [Delegations.Lock(counter % ID_RANGE, r.offset, r.length, exclusive, delegated)];
      counter := (counter + 1) % UINT32_RANGE;
    }

    /** lock_stateid_update */
    method StateidUpdate(got: Stateid)
      modifies this`stateid
      ensures stateid == Updated(old(stateid), got)
    {
      if stateid.seqid == 0 {
        stateid := got;
      } else if got.seqid > stateid.seqid {
        stateid := stateid.(seqid := got.seqid);
      }
    }

    /** open_lock_delegate: a granted write delegation lets the client grant the
        lock on its own. */
    method Delegate(r: Range, exclusive: bool, delegation: Option<(Kind, Phase)>) returns (delegated: bool)
      modifies this`locks, this`counter
      ensures delegated <==> delegation == Some((WriteDelegation, Granted))
      ensures delegated ==> locks == old(locks) + [Delegations.Lock(old(counter) % ID_RANGE, r.offset, r.length, exclusive, true)]
      ensures delegated ==> counter == (old(counter) + 1) % UINT32_RANGE
      ensures !delegated ==> unchanged(this)
      ensures old(Valid()) && old(counter) < ID_RANGE ==> Valid()
    {
      delegated := false;
      if delegation.Some? && delegation.value.0.WriteDelegation? && delegation.value.1.Granted? {
        Append(r, exclusive, true);
        delegated := true;
      }
    }

    /** open_lock_add */
    method Add(r: Range, exclusive: bool, arg: StateidArg)
      modifies this
      ensures locks == old(locks) + [Delegations.Lock(old(counter) % ID_RANGE, r.offset, r.length, exclusive, false)]
      ensures counter == (old(counter) + 1) % UINT32_RANGE
      ensures stateid == Saved(old(stateid), arg)
      ensures old(Valid()) && old(counter) < ID_RANGE ==> Valid()
    {
      if arg.LockStateid? {
        StateidUpdate(arg.lock);
      }
      Append(r, exclusive, false);
    }

    /** handle_lock_retry: the lock is granted locally under a write delegation,
        and otherwise by the server once the open has a stateid of its own. */
    method Lock(asked: Range, exclusive: bool, delegation: Option<(Kind, Phase)>, toOpen: bool, reply: Reply) returns (ok: bool)
      modifies this
      ensures var local := delegation == Some((WriteDelegation, Granted));
        && ok == (local || (toOpen && reply.LockOk?))
        && (ok ==>
              var r := Normalised(asked);
              locks == old(locks) + [Delegations.Lock(old(counter) % ID_RANGE, r.offset, r.length, exclusive, local)])
        && (ok ==> LocksWhat(locks[|locks| - 1], asked) && RangeOf(locks[|locks| - 1]) == Normalised(asked))
        && (ok ==> counter == (old(counter) + 1) % UINT32_RANGE)
        && (ok ==> stateid == if local then old(stateid) else Updated(old(stateid), reply.stateid))
      ensures !ok ==> unchanged(this)
      ensures old(Valid()) && old(counter) < ID_RANGE ==> Valid()
    {
      var r := Normalised(asked);
      NormalisedCovers(asked);
      ok := Delegate(r, exclusive, delegation);
      if !ok && toOpen && reply.LockOk? {
        Add(r, exclusive, LockStateid(reply.stateid));
        ok := true;
      }
    }

    /** open_unlock_delegate */
    method UnlockDelegate(r: Range) returns (status: UnlockStatus)
      modifies this`locks
      ensures status.NotLocked? <==> r !in Ranges(old(locks))
      ensures status.Unlocked? ==> locks == WithoutFirst(old(locks), r) && old(locks)[FirstMatch(old(locks), r)].delegated
      ensures status.Locked? ==> locks == old(locks) && !locks[FirstMatch(locks, r)].delegated
      ensures status.NotLocked? ==> locks == old(locks)
      ensures !status.ServerError?
      ensures old(Valid()) ==> Valid()
    {
      var k := FirstMatch(locks, r);
      status := NotLocked;
      if k < |locks| {
        assert Ranges(locks)[k] == r;
        if locks[k].delegated {
          locks := locks[..k] + locks[k + 1..];
          status := Unlocked;
        } else {
          status := Locked;
        }
      }
    }

    /** open_unlock_remove */
    method UnlockRemove(r: Range, arg: StateidArg)
      modifies this`locks, this`stateid
      ensures locks == WithoutFirst(old(locks), r)
      ensures stateid == Saved(old(stateid), arg)
      ensures old(Valid()) ==> Valid()
    {
      if arg.LockStateid? {
        StateidUpdate(arg.lock);
      }
      var k := FirstMatch(locks, r);
      if k < |locks| {
        locks := locks[..k] + locks[k + 1..];
      }
    }

    /** handle_unlock: each range is removed once, from the first lock with the
        same range; the status is that of the last one. */
    method Unlock(ranges: seq<Range>, replies: nat -> (StateidArg, Option<nat>)) returns (status: UnlockStatus)
      modifies this`locks, this`stateid
      ensures Unlocking(locks, stateid, status) == UnlockAll(Unlocking(old(locks), old(stateid), Unlocked), ranges, replies)
      ensures locks == WithoutAll(old(locks), ranges)
      ensures old(Valid()) ==> Valid()
    {
      status := Unlocked;
      ghost var start := Unlocking(locks, stateid, status);
      var i := 0;
      while i < |ranges|
        invariant i <= |ranges|
        invariant Unlocking(locks, stateid, status) == UnlockAll(start, ranges[..i], replies)
        invariant old(Valid()) ==> Valid()
      {
        hide WithoutFirst, Increasing;
        var r := Normalised(ranges[i]);
        assert ranges[..i + 1][..i] == ranges[..i];
        NoMatch(locks, r);
        status := UnlockDelegate(r);
        if status.Locked? {
          var (arg, error) := replies(i);
          UnlockRemove(r, arg);
          status := if error.Some? then ServerError(error.value) else Unlocked;
        }
        i := i + 1;
      }
      assert ranges[..i] == ranges;
      UnlockAllRemoves(start, ranges, replies);
    }

    /** delegation_flush_locks: the delegated locks go to the server one by one,
        in list order, each exactly once with its range and type, until one is
        refused or none is left. */
    method Flush(open: Stateid, replies: nat -> Reply) returns (ok: bool, sent: seq<Request>)
      requires Valid()
      modifies this`locks, this`stateid
      ensures Valid() && SameLocks(locks, old(locks))
      ensures Replayed(DelegatedLocks(old(locks)), StartArg(old(stateid), open), replies, sent, ok)
      ensures sent != [] ==> sent[0].stateid == if old(stateid).seqid == 0 then OpenStateid(open) else LockStateid(old(stateid))
      ensures ok ==> |sent| == |DelegatedLocks(old(locks))| && DelegatedLocks(locks) == []
      ensures !ok ==> DelegatedLocks(locks) == DelegatedLocks(old(locks))[|sent| - 1..]
      ensures stateid == Saved(old(stateid), ArgFor(StartArg(old(stateid), open), replies, if ok then |sent| else |sent| - 1))
    {
      hide Replayed, AsRequest, DelegatedLocks, Settled, IsFirstDelegated, Increasing, ArgFor;
      var arg := StartArg(stateid, open);
      ghost var start, todo := arg, DelegatedLocks(locks);
      ok, sent := true, [];
      StartReplay(todo, start, replies);
      var next := Find();
      while next.Some? && ok
        invariant next.Some? ==> IsFirstDelegated(locks, next.value)
        invariant next.None? ==> DelegatedLocks(locks) == []
        invariant Valid() && SameLocks(locks, old(locks)) && stateid == old(stateid)
        invariant Replayed(todo, start, replies, sent, ok)
        invariant |sent| <= |todo| && (!ok ==> sent != [] && next.Some?)
        invariant ok ==> DelegatedLocks(locks) == todo[|sent|..] && arg == ArgFor(start, replies, |sent|)
        invariant !ok ==> DelegatedLocks(locks) == todo[|sent| - 1..] && arg == ArgFor(start, replies, |sent| - 1)
        decreases ok, |todo| - |sent|
      {
        var k := next.value;
        FlushRound(locks, counter, k, todo, |sent|);
        ReplayedOne(todo, start, replies, sent);
        var reply := replies(|sent|);
        ArgAfter(start, replies, |sent|);
        assert k < |locks| by { FirstIsIn(locks, k); }
        sent := sent + [AsRequest(locks[k], arg)];
        if reply.LockFailed? {
          ok := false;
        } else {
          arg := LockStateid(reply.stateid);
          Settle(locks[k].id);
          next := Find();
        }
      }
      if arg.LockStateid? {
        StateidUpdate(arg.lock);
      }
      if sent != [] {
        FirstSent(todo, start, replies, sent, ok);
      }
    }

    /** deleg_lock_find */
    method Find() returns (next: Option<nat>)
      ensures next.Some? ==> IsFirstDelegated(locks, next.value)
      ensures next.None? ==> DelegatedLocks(locks) == []
    {
      var i := 0;
      while i < |locks|
        invariant i <= |locks| && forall j :: 0 <= j < i ==> !locks[j].delegated
      {
        if locks[i].delegated {
          return Some(i);
        }
        i := i + 1;
      }
      NoDelegatedLocks(locks);
      return None;
    }

    /** deleg_lock_update */
    method Settle(id: nat)
      modifies this`locks
      ensures locks == Settled(old(locks), id)
      ensures old(Valid()) ==> Valid()
      ensures SameLocks(locks, old(locks))
    {
      var i := 0;
      while i < |locks|
        invariant i <= |locks| && forall j :: 0 <= j < i ==> locks[j].id != id
        invariant locks == old(locks)
      {
        if locks[i].id == id {
          SettledAt(locks, i);
          locks := locks[i := locks[i].(delegated := false)];
          return;
        }
        i := i + 1;
      }
      SettledNone(locks, id);
    }
  }
}
