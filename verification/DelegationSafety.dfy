/** What every step of the delegation protocol keeps. A step changes at most one
    delegation, one open and one thread, so each part of the invariant is kept
    by every change that meets a local rule, and every step meets the rules. */
module DelegationSafety {
  import opened Lists
  import opened Delegations

  /** Where the thread that moves was before the change. */
  function Before(s: State, c: Change): Pc {
    if c.t.Some? then PcOf(s, c.t.value) else Idle
  }

  /** A change that moves no thread carries no program point. */
  predicate Mover(c: Change) {
    c.t.None? ==> c.pc.Idle?
  }

  // References

  ghost function Linked(s: State, d: DelegId): set<OpenId> {
    set o | o in s.opens && s.opens[o].deleg == Some(d)
  }

  ghost function Holders(s: State, d: DelegId): set<ThreadId> {
    set t | t in s.threads && Holds(s.threads[t], d)
  }

  function Refs(x: Option<Deleg>): nat {
    if x.Some? then x.value.refCount else 0
  }

  function ClientRef(x: Option<Deleg>): nat {
    if x.Some? && x.value.clientRef then 1 else 0
  }

  function Link(y: Option<Open>, d: DelegId): nat {
    if y.Some? && y.value.deleg == Some(d) then 1 else 0
  }

  function Held(pc: Pc, d: DelegId): nat {
    if Holds(pc, d) then 1 else 0
  }

  /** ref_count is the client's reference plus the linked opens plus the threads
      that hold the delegation. */
  ghost predicate RefsExact(s: State) {
    forall d: DelegId :: Refs(At(s.delegs, d)) == ClientRef(At(s.delegs, d)) + |Linked(s, d)| + |Holders(s, d)|
  }

  ghost predicate RefsRule(s: State, c: Change) {
    var x, y, pc := At(s.delegs, c.d), At(s.opens, c.o), Before(s, c);
    && Refs(c.x) - ClientRef(c.x) - Link(c.y, c.d) - Held(c.pc, c.d) == Refs(x) - ClientRef(x) - Link(y, c.d) - Held(pc, c.d)
    && forall e: DelegId :: e != c.d ==> Link(c.y, e) == Link(y, e) && Held(c.pc, e) == Held(pc, e)
  }

  lemma CardinalityUpdate<T>(a: set<T>, b: set<T>, k: T)
    requires a - {k} == b - {k}
    ensures |b| + (if k in a then 1 else 0) == |a| + (if k in b then 1 else 0)
  {
    assert |a - {k}| == |a| - if k in a then 1 else 0;
    assert |b - {k}| == |b| - if k in b then 1 else 0;
  }

  lemma CountsUpdate(s: State, c: Change, d: DelegId)
    requires Mover(c)
    ensures |Linked(Apply(s, c), d)| == |Linked(s, d)| + Link(c.y, d) - Link(At(s.opens, c.o), d)
    ensures |Holders(Apply(s, c), d)| == |Holders(s, d)| + Held(c.pc, d) - Held(Before(s, c), d)
  {
    var s' := Apply(s, c);
    assert Linked(s, d) - {c.o} == Linked(s', d) - {c.o};
    CardinalityUpdate(Linked(s, d), Linked(s', d), c.o);
    if c.t.Some? {
      assert Holders(s, d) - {c.t.value} == Holders(s', d) - {c.t.value};
      CardinalityUpdate(Holders(s, d), Holders(s', d), c.t.value);
    }
  }

  lemma RefsKept(s: State, c: Change)
    requires RefsExact(s) && Mover(c) && RefsRule(s, c)
    ensures RefsExact(Apply(s, c))
  {
    hide Linked, Holders, Link, Held, ClientRef, Refs;
    var s' := Apply(s, c);
    forall d: DelegId ensures Refs(At(s'.delegs, d)) == ClientRef(At(s'.delegs, d)) + |Linked(s', d)| + |Holders(s', d)| {
      CountsUpdate(s, c, d);
      assert At(s'.delegs, d) == if d == c.d then c.x else At(s.delegs, d);
    }
  }

  lemma HolderCounts(s: State, t: ThreadId, d: DelegId)
    requires Holds(PcOf(s, t), d)
    ensures |Holders(s, d)| >= 1
  {
    assert t in Holders(s, d);
  }

  lemma LinkCounts(s: State, o: OpenId, d: DelegId)
    requires o in s.opens && s.opens[o].deleg == Some(d)
    ensures |Linked(s, d)| >= 1
  {
    assert o in Linked(s, d);
  }

  // Life cycle

  /** A granted delegation is listed, a listed one is owned by the client, and
      the client gives up its reference only once it is returned. */
  predicate Lifecycle(x: Deleg) {
    && x.refCount > 0
    && (x.phase == Granted ==> x.listed)
    && (x.listed ==> x.clientRef)
    && (!x.clientRef ==> x.phase == Returned)
  }

  ghost predicate Lifecycles(s: State) {
    forall d :: d in s.delegs ==> Lifecycle(s.delegs[d])
  }

  function Rank(p: Phase): nat {
    match p case Granted => 0 case Returning => 1 case Returned => 2
  }

  /** The delegation moves forward; only a releasing thread takes the client's reference. */
  predicate Forward(x: Option<Deleg>, x': Option<Deleg>, releasing: bool) {
    match x
    case None => x'.Some? ==> Lifecycle(x'.value) && x'.value.phase == Granted
    case Some(v) =>
      && (x'.None? ==> releasing || !v.clientRef)
      && (x'.Some? ==>
            && Lifecycle(x'.value) && Rank(v.phase) <= Rank(x'.value.phase) && x'.value.kind == v.kind
            && (x'.value.listed ==> v.listed) && (x'.value.clientRef ==> v.clientRef)
            && (v.clientRef ==> x'.value.clientRef || releasing))
  }

  predicate ReleasingOf(pc: Pc, d: DelegId) {
    pc.Releasing? && pc.d == d
  }

  ghost predicate LifeRule(s: State, c: Change) {
    Forward(At(s.delegs, c.d), c.x, ReleasingOf(Before(s, c), c.d))
  }

  lemma LifecyclesKept(s: State, c: Change)
    requires Lifecycles(s) && LifeRule(s, c)
    ensures Lifecycles(Apply(s, c))
  {
  }

  // Names

  /** Every delegation that exists or is being registered has been issued. */
  ghost predicate Named(s: State) {
    && (forall d :: d in s.delegs ==> d < s.issued)
    && (forall t: ThreadId :: PcOf(s, t).Registered? ==> PcOf(s, t).d < s.issued)
  }

  /** A name is given once. */
  ghost predicate NameRule(s: State, c: Change) {
    && s.issued <= c.issued
    && (c.x.Some? ==> c.d < c.issued && (c.d in s.delegs || s.issued <= c.d))
    && (c.pc.Registered? ==> c.pc.d < c.issued)
  }

  lemma NamedKept(s: State, c: Change)
    requires Named(s) && NameRule(s, c)
    ensures Named(Apply(s, c))
  {
    var s' := Apply(s, c);
    forall t: ThreadId | PcOf(s', t).Registered? ensures PcOf(s', t).d < s'.issued {
      if Some(t) != c.t {
        assert PcOf(s', t) == PcOf(s, t);
      }
    }
  }

  // Returning

  /** What a thread that returns `d` can rely on. */
  ghost predicate ReturnOk(s: State, pc: Pc, d: DelegId) {
    && d in s.delegs && s.delegs[d].phase != Granted && s.delegs[d].clientRef
    && (pc.Unlinking? || pc.Marking? || pc.Releasing? ==> !s.delegs[d].listed)
    && (pc.Releasing? ==> s.delegs[d].phase == Returned)
  }

  ghost predicate Returns(s: State) {
    forall t: ThreadId, d: DelegId :: Returner(PcOf(s, t), d) ==> ReturnOk(s, PcOf(s, t), d)
  }

  ghost predicate OneReturner(s: State) {
    forall t: ThreadId, u: ThreadId, d: DelegId :: Returner(PcOf(s, t), d) && Returner(PcOf(s, u), d) ==> t == u
  }

  ghost predicate ReturnRule(s: State, c: Change) {
    forall d: DelegId :: Returner(c.pc, d) ==>
        ReturnOk(Apply(s, c), c.pc, d) && (Returner(Before(s, c), d) || (d in s.delegs && s.delegs[d].phase == Granted))
  }

  lemma OneReturnerKept(s: State, c: Change)
    requires Returns(s) && OneReturner(s) && ReturnRule(s, c)
    ensures OneReturner(Apply(s, c))
  {
    hide ReturnOk, Returner;
    var s' := Apply(s, c);
    forall t: ThreadId, u: ThreadId, d: DelegId | Returner(PcOf(s', t), d) && Returner(PcOf(s', u), d) ensures t == u {
      StartsAlone(s, c, t, d);
      StartsAlone(s, c, u, d);
    }
  }

  lemma StartsAlone(s: State, c: Change, t: ThreadId, d: DelegId)
    requires Returns(s) && ReturnRule(s, c)
    requires Returner(PcOf(Apply(s, c), t), d)
    ensures Some(t) == c.t || Returner(PcOf(s, t), d)
    ensures Some(t) == c.t && !Returner(PcOf(s, t), d) ==> forall u: ThreadId :: !Returner(PcOf(s, u), d)
  {
  }

  lemma ReturnsKept(s: State, c: Change)
    requires Returns(s) && OneReturner(s) && LifeRule(s, c) && ReturnRule(s, c)
    ensures Returns(Apply(s, c))
  {
    var s' := Apply(s, c);
    forall t: ThreadId, d: DelegId | Returner(PcOf(s', t), d) ensures ReturnOk(s', PcOf(s', t), d) {
      if Some(t) != c.t {
        ReturnKept(s, c, t, d);
      }
    }
  }

  lemma ReturnKept(s: State, c: Change, t: ThreadId, d: DelegId)
    requires Returns(s) && OneReturner(s) && LifeRule(s, c)
    requires Some(t) != c.t && Returner(PcOf(s, t), d)
    ensures ReturnOk(Apply(s, c), PcOf(s, t), d)
  {
    var s' := Apply(s, c);
    assert ReturnOk(s, PcOf(s, t), d);
    assert !ReleasingOf(Before(s, c), d);
    assert At(s'.delegs, d) == if d == c.d then c.x else At(s.delegs, d);
  }

  // The opens that threads work on

  /** The thread is opening the file, and the open has nothing yet. */
  predicate BeingOpened(pc: Pc, o: OpenId) {
    match pc
    case Opening(p) => p == o
    case Found(_, OpenFile(p, _)) => p == o
    case Passed(_, p) => p == o
    case Registered(_, p) => p == o
    case Referenced(_, p) => p == o
    case _ => false
  }

  predicate Unopened(y: Open) {
    y.stage.Fresh? && y.deleg.None? && !y.doClose
  }

  predicate LoopsOn(pc: Pc) {
    pc.ToOpen? || pc.Reclaiming? || pc.Flushing? || pc.LockSent?
  }

  /** The open that the thread works on exists; while it is reclaimed it stays
      linked, it has an open stateid before its locks are sent, and the loop has
      not been through with it before. */
  ghost predicate WorkOk(s: State, pc: Pc) {
    && (forall o: OpenId :: WorksOn(pc, o) ==> o in s.opens)
    && (forall o: OpenId :: BeingOpened(pc, o) ==> o in s.opens && Unopened(s.opens[o]))
    && (pc.Listing? ==> pc.o in s.opens && s.opens[pc.o].stage.Fresh?)
    && (LoopsOn(pc) ==> pc.o in s.opens && s.opens[pc.o].deleg == Some(pc.d) && !s.opens[pc.o].stage.Fresh? && pc.o !in pc.done)
    && (pc.Flushing? || pc.LockSent? ==> pc.o in s.opens && s.opens[pc.o].doClose)
  }

  ghost predicate Works(s: State) {
    forall t: ThreadId :: WorkOk(s, PcOf(s, t))
  }

  /** A fresh open belongs to the thread that opens it. */
  ghost predicate OneWorker(s: State) {
    forall t: ThreadId, u: ThreadId, o: OpenId ::
      o in s.opens && s.opens[o].stage.Fresh? && WorksOn(PcOf(s, t), o) && WorksOn(PcOf(s, u), o) ==> t == u
  }

  /** An open in use is not freed, keeps its stateid, and is unlinked only by
      the thread that removes its delegation; a fresh one is left to its owner. */
  ghost predicate OpenRule(s: State, c: Change) {
    match At(s.opens, c.o)
    case None => c.y.Some? ==> c.y.value.stage.Fresh?
    case Some(y) =>
      && (c.y.None? ==> forall u: ThreadId :: Some(u) != c.t ==> !WorksOn(PcOf(s, u), c.o))
      && (c.y.Some? ==>
            && (y.doClose ==> c.y.value.doClose)
            && (y.deleg.Some? ==> c.y.value.deleg == y.deleg || (Before(s, c).Unlinking? && Before(s, c).d == y.deleg.value))
            && (y.stage.Fresh? ==> c.y.value == y || WorksOn(Before(s, c), c.o))
            && (!y.stage.Fresh? ==> !c.y.value.stage.Fresh?)
            && (y.stage.Closing? ==> c.y.value.stage.Closing?))
  }

  ghost predicate WorkRule(s: State, c: Change) {
    && WorkOk(Apply(s, c), c.pc)
    && forall o: OpenId :: WorksOn(c.pc, o) && !WorksOn(Before(s, c), o) && At(s.opens, o).Some? && At(s.opens, o).value.stage.Fresh? ==>
         forall u: ThreadId :: !WorksOn(PcOf(s, u), o)
  }

  lemma WorksKept(s: State, c: Change)
    requires Works(s) && OneReturner(s) && OneWorker(s) && OpenRule(s, c) && WorkRule(s, c)
    ensures Works(Apply(s, c))
  {
    var s' := Apply(s, c);
    forall t: ThreadId ensures WorkOk(s', PcOf(s', t)) {
      if Some(t) != c.t {
        WorkKept(s, c, t);
      }
    }
  }

  lemma WorkKept(s: State, c: Change, t: ThreadId)
    requires Works(s) && OneReturner(s) && OneWorker(s) && OpenRule(s, c) && Some(t) != c.t
    ensures WorkOk(Apply(s, c), PcOf(s, t))
  {
    var pc := PcOf(s, t);
    assert WorkOk(s, pc);
    if WorksOn(pc, c.o) && c.t.Some? && s.opens[c.o].stage.Fresh? {
      assert !WorksOn(PcOf(s, c.t.value), c.o);
    }
    if LoopsOn(pc) {
      assert Returner(pc, pc.d) && WorksOn(pc, pc.o);
      assert !Returner(Before(s, c), pc.d);
    }
  }

  lemma OneWorkerKept(s: State, c: Change)
    requires Works(s) && OneWorker(s) && OpenRule(s, c) && WorkRule(s, c)
    ensures OneWorker(Apply(s, c))
  {
    hide WorksOn, BeingOpened, LoopsOn;
    var s' := Apply(s, c);
    forall t: ThreadId, u: ThreadId, o: OpenId | o in s'.opens && s'.opens[o].stage.Fresh? && WorksOn(PcOf(s', t), o) && WorksOn(PcOf(s', u), o)
      ensures t == u
    {
      FreshBefore(s, c, o, t);
      FreshBefore(s, c, o, u);
    }
  }

  lemma FreshBefore(s: State, c: Change, o: OpenId, t: ThreadId)
    requires Works(s) && OpenRule(s, c) && WorkRule(s, c)
    requires o in Apply(s, c).opens && Apply(s, c).opens[o].stage.Fresh? && WorksOn(PcOf(Apply(s, c), t), o)
    ensures Some(t) != c.t ==> o in s.opens && s.opens[o].stage.Fresh? && WorksOn(PcOf(s, t), o)
    ensures Some(t) == c.t && !WorksOn(PcOf(s, t), o) ==> forall u: ThreadId :: !WorksOn(PcOf(s, u), o)
  {
    hide BeingOpened, LoopsOn;
    if Some(t) != c.t {
      assert WorkOk(s, PcOf(s, t));
    } else if o !in s.opens {
      forall u: ThreadId ensures !WorksOn(PcOf(s, u), o) {
        assert WorkOk(s, PcOf(s, u));
      }
    }
  }

  // Needing the delegation

  /** No return of the delegation has started. */
  predicate Unstarted(s: State, d: DelegId) {
    d in s.delegs ==> s.delegs[d].phase == Granted
  }

  /** Once a return has started, an open is linked only by a thread that has
      passed the check before, or with an open stateid of its own. */
  ghost predicate LinkRule(s: State, c: Change) {
    && (c.y.Some? && c.y.value.deleg.Some? ==>
          var d, y := c.y.value.deleg.value, At(s.opens, c.o);
          && ((y.Some? && y.value.deleg == Some(d)) || Unstarted(s, d) || (Before(s, c) == Passed(d, c.o) && c.y.value.locks == [])
              || (Before(s, c) == Referenced(d, c.o) && c.y.value.doClose && c.y.value.locks == []))
          && (Needs(c.y.value, d) ==> (y.Some? && Needs(y.value, d)) || Unstarted(s, d) || Before(s, c) == Passed(d, c.o)))
    && (c.pc.Passed? ==> Before(s, c) == c.pc || (c.pc.d in s.delegs && s.delegs[c.pc.d].phase == Granted))
  }

  /** The recovery loop of the thread, for delegation `d`, is through with the open. */
  predicate Handled(pc: Pc, d: DelegId, o: OpenId) {
    match pc
    case LoopHead(e, _, done) => e == d && o in done
    case ToOpen(e, _, done, _) => e == d && o in done
    case Reclaiming(e, _, done, _) => e == d && o in done
    case Flushing(e, _, done, _) => e == d && o in done
    case LockSent(e, _, done, _, _) => e == d && o in done
    case _ => false
  }

  ghost predicate Loops(s: State) {
    && (forall t: ThreadId, d: DelegId, o: OpenId :: Handled(PcOf(s, t), d, o) && o in s.opens ==> !Needs(s.opens[o], d))
    && (forall t: ThreadId, u: ThreadId, d: DelegId, o: OpenId :: Handled(PcOf(s, t), d, o) ==> PcOf(s, u) != Passed(d, o))
  }

  ghost predicate LoopRule(s: State, c: Change) {
    var opens := Put(s.opens, c.o, c.y);
    forall d: DelegId, o: OpenId :: Handled(c.pc, d, o) && !Handled(Before(s, c), d, o) ==>
        (o in opens ==> !Needs(opens[o], d)) && forall u: ThreadId :: PcOf(s, u) != Passed(d, o)
  }

  lemma LoopsKept(s: State, c: Change)
    requires Loops(s) && Returns(s) && LinkRule(s, c) && LoopRule(s, c)
    ensures Loops(Apply(s, c))
  {
    hide Needs;
    var s' := Apply(s, c);
    forall t: ThreadId, d: DelegId, o: OpenId | Handled(PcOf(s', t), d, o) && o in s'.opens ensures !Needs(s'.opens[o], d) {
      if Handled(PcOf(s, t), d, o) {
        assert Returner(PcOf(s, t), d);
        LoopKept(s, c, t, d, o);
      }
    }
    forall t: ThreadId, u: ThreadId, d: DelegId, o: OpenId | Handled(PcOf(s', t), d, o) ensures PcOf(s', u) != Passed(d, o) {
      NotPromised(s, c, t, u, d, o);
    }
  }

  lemma NotPromised(s: State, c: Change, t: ThreadId, u: ThreadId, d: DelegId, o: OpenId)
    requires Loops(s) && Returns(s) && LinkRule(s, c) && LoopRule(s, c) && Handled(PcOf(Apply(s, c), t), d, o)
    ensures PcOf(Apply(s, c), u) != Passed(d, o)
  {
    hide Needs;
    if Handled(PcOf(s, t), d, o) {
      assert Returner(PcOf(s, t), d);
      assert ReturnOk(s, PcOf(s, t), d);
      assert PcOf(s, u) != Passed(d, o);
    } else {
      assert PcOf(s, u) != Passed(d, o);
    }
  }

  lemma LoopKept(s: State, c: Change, t: ThreadId, d: DelegId, o: OpenId)
    requires Loops(s) && LinkRule(s, c) && Handled(PcOf(s, t), d, o) && !Unstarted(s, d) && o in Apply(s, c).opens
    ensures !Needs(Apply(s, c).opens[o], d)
  {
    if c.t.Some? {
      assert PcOf(s, c.t.value) != Passed(d, o);
    }
  }

  // Locks and reclaims

  /** Lock ids grow along the list and stay below the next id. */
  ghost predicate Increasing(locks: seq<Lock>, counter: nat) {
    && (forall i, j :: 0 <= i < j < |locks| ==> locks[i].id < locks[j].id)
    && (forall i :: 0 <= i < |locks| ==> locks[i].id < counter)
  }

  ghost predicate LocksOk(y: Open) {
    Increasing(y.locks, y.counter) && (y.stage.Fresh? ==> y.locks == [])
  }

  ghost predicate LocksOrdered(s: State) {
    forall o :: o in s.opens ==> LocksOk(s.opens[o])
  }

  ghost predicate LockRule(c: Change) {
    c.y.Some? ==> LocksOk(c.y.value)
  }

  predicate Reclaims(pc: Pc, o: OpenId) {
    match pc
    case Reclaiming(_, _, _, p) => p == o
    case UserReclaiming(p) => p == o
    case _ => false
  }

  /** An open is reclaimed by one thread at a time, the one that set its flag. */
  ghost predicate OneReclaimer(s: State) {
    && (forall t: ThreadId, o: OpenId :: Reclaims(PcOf(s, t), o) ==> o in s.opens && s.opens[o].reclaim)
    && (forall t: ThreadId, u: ThreadId, o: OpenId :: Reclaims(PcOf(s, t), o) && Reclaims(PcOf(s, u), o) ==> t == u)
  }

  ghost predicate Reclaimer(s: State, o: OpenId) {
    exists t: ThreadId :: Reclaims(PcOf(s, t), o)
  }

  ghost predicate FlagsOwned(s: State) {
    forall o :: o in s.opens && s.opens[o].reclaim ==> Reclaimer(s, o)
  }

  ghost predicate ReclaimRule(s: State, c: Change) {
    var y, pc := At(s.opens, c.o), Before(s, c);
    && (forall o: OpenId :: Reclaims(c.pc, o) ==>
          o == c.o && c.y.Some? && c.y.value.reclaim && (Reclaims(pc, o) || y.None? || !y.value.reclaim))
    && (y.Some? && y.value.reclaim ==> Reclaims(pc, c.o) || (c.y.Some? && c.y.value.reclaim)
                                       || forall u: ThreadId :: !Reclaims(PcOf(s, u), c.o))
    && (c.y.Some? && c.y.value.reclaim ==> Reclaims(c.pc, c.o) || (y.Some? && y.value.reclaim && !Reclaims(pc, c.o)))
    && (forall o: OpenId :: Reclaims(pc, o) ==> o == c.o)
  }

  lemma ReclaimKept(s: State, c: Change, t: ThreadId, o: OpenId)
    requires OneReclaimer(s) && ReclaimRule(s, c) && Some(t) != c.t && Reclaims(PcOf(s, t), o)
    ensures o in Apply(s, c).opens && Apply(s, c).opens[o].reclaim && !Reclaims(c.pc, o)
  {
    assert o in s.opens && s.opens[o].reclaim;
    assert !Reclaims(Before(s, c), o);
  }

  lemma OneReclaimerKept(s: State, c: Change)
    requires OneReclaimer(s) && ReclaimRule(s, c)
    ensures OneReclaimer(Apply(s, c))
  {
    hide Reclaims;
    var s' := Apply(s, c);
    forall t: ThreadId, o: OpenId | Reclaims(PcOf(s', t), o)
      ensures o in s'.opens && s'.opens[o].reclaim && (Some(t) == c.t || !Reclaims(c.pc, o))
    {
      if Some(t) != c.t {
        ReclaimKept(s, c, t, o);
      }
    }
    forall t: ThreadId, u: ThreadId, o: OpenId | Reclaims(PcOf(s', t), o) && Reclaims(PcOf(s', u), o) ensures t == u {
      assert PcOf(s', t) == if Some(t) == c.t then c.pc else PcOf(s, t);
      assert PcOf(s', u) == if Some(u) == c.t then c.pc else PcOf(s, u);
    }
  }

  lemma FlagsOwnedKept(s: State, c: Change)
    requires FlagsOwned(s) && Mover(c) && ReclaimRule(s, c)
    ensures FlagsOwned(Apply(s, c))
  {
    var s' := Apply(s, c);
    forall o | o in s'.opens && s'.opens[o].reclaim ensures Reclaimer(s', o) {
      if Reclaims(c.pc, o) && c.t.Some? {
        assert Reclaims(PcOf(s', c.t.value), o);
      } else {
        assert Reclaimer(s, o);
        assert !Reclaims(Before(s, c), o);
        var t: ThreadId :| Reclaims(PcOf(s, t), o);
        assert Some(t) != c.t;
        assert PcOf(s', t) == PcOf(s, t);
      }
    }
  }

  // The whole invariant

  ghost predicate Inv(s: State) {
    && RefsExact(s) && Lifecycles(s) && Named(s) && Returns(s) && OneReturner(s) && Works(s) && OneWorker(s) && Loops(s)
    && LocksOrdered(s) && OneReclaimer(s) && FlagsOwned(s)
  }

  ghost predicate Legal(s: State, c: Change) {
    && Mover(c) && RefsRule(s, c) && LifeRule(s, c) && NameRule(s, c) && ReturnRule(s, c) && LinkRule(s, c) && OpenRule(s, c)
    && WorkRule(s, c) && LoopRule(s, c) && LockRule(c) && ReclaimRule(s, c)
  }

  lemma LegalKeepsInv(s: State, c: Change)
    requires Inv(s) && Legal(s, c)
    ensures Inv(Apply(s, c))
  {
    hide RefsExact, Lifecycles, Named, Returns, OneReturner, Works, OneWorker, Loops, OneReclaimer, FlagsOwned, RefsRule, LifeRule, NameRule,
      ReturnRule, LinkRule, OpenRule, WorkRule, LoopRule, ReclaimRule;
    RefsKept(s, c);
    LifecyclesKept(s, c);
    NamedKept(s, c);
    ReturnsKept(s, c);
    OneReturnerKept(s, c);
    WorksKept(s, c);
    OneWorkerKept(s, c);
    LoopsKept(s, c);
    OneReclaimerKept(s, c);
    FlagsOwnedKept(s, c);
  }
}
