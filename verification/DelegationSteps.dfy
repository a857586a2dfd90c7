/** Every step of the delegation protocol meets the local rules, so the
    invariant is inductive. */
module DelegationSteps {
  import opened Lists
  import opened Delegations
  import opened DelegationSafety

  // The delegation that a step changes

  ghost predicate DelegRules(s: State, c: Change) {
    RefsRule(s, c) && LifeRule(s, c) && NameRule(s, c)
  }

  lemma SameDeleg(s: State, c: Change)
    requires Lifecycles(s) && Named(s) && c.x == At(s.delegs, c.d) && c.issued == s.issued && !c.pc.Registered?
    requires forall e: DelegId :: Link(c.y, e) == Link(At(s.opens, c.o), e) && Held(c.pc, e) == Held(Before(s, c), e)
    ensures DelegRules(s, c)
  {
  }

  lemma LockKeepsDeleg(s: State, a: Action)
    requires Inv(s) && LockEnabled(s, a)
    ensures DelegRules(s, LockChange(s, a))
  {
    hide DelegRules, RefsExact, Returns, OneReturner, Works, OneWorker, Loops, LocksOrdered, OneReclaimer, FlagsOwned, Lifecycles, Named;
    SameDeleg(s, LockChange(s, a));
  }

  lemma ReturnKeepsDeleg(s: State, a: Action)
    requires Inv(s) && ReturnEnabled(s, a) && !a.UnlinkOpen? && !a.Release? && !a.Unlist? && !a.Mark?
    ensures DelegRules(s, ReturnChange(s, a))
  {
    hide DelegRules, RefsExact, Returns, OneReturner, Works, OneWorker, Loops, LocksOrdered, OneReclaimer, FlagsOwned, Lifecycles, Named;
    SameDeleg(s, ReturnChange(s, a));
  }

  lemma RemoveDeleg(s: State, a: Action)
    requires Inv(s) && ReturnEnabled(s, a) && (a.Unlist? || a.Mark?)
    ensures DelegRules(s, ReturnChange(s, a))
  {
    hide RefsExact, OneReturner, Works, OneWorker, Loops, LocksOrdered, OneReclaimer, FlagsOwned;
    assert Returner(PcOf(s, a.t), PcOf(s, a.t).d);
  }

  lemma ReleaseDeleg(s: State, t: ThreadId)
    requires Inv(s) && ReturnEnabled(s, Release(t))
    ensures DelegRules(s, ReturnChange(s, Release(t)))
  {
    hide RefsExact, OneReturner, Works, OneWorker, Loops, LocksOrdered, OneReclaimer, FlagsOwned;
    assert Returner(PcOf(s, t), PcOf(s, t).d);
  }

  /** Giving up a counted reference frees the delegation only if the client
      has given up its own. */
  lemma DerefIsSafe(s: State, d: DelegId)
    requires RefsExact(s) && Lifecycles(s) && d in s.delegs && |Linked(s, d)| + |Holders(s, d)| >= 1
    ensures Forward(At(s.delegs, d), Deref(s.delegs[d]), false)
    ensures Refs(Deref(s.delegs[d])) == s.delegs[d].refCount - 1
    ensures ClientRef(Deref(s.delegs[d])) == ClientRef(At(s.delegs, d))
  {
    assert Refs(At(s.delegs, d)) == s.delegs[d].refCount;
  }

  lemma UnlinkDeleg(s: State, a: Action)
    requires Inv(s) && ReturnEnabled(s, a) && a.UnlinkOpen?
    ensures DelegRules(s, ReturnChange(s, a))
  {
    hide OneReturner, Works, OneWorker, Loops, LocksOrdered, OneReclaimer, FlagsOwned, Linked, Holders, Deref;
    var d := PcOf(s, a.t).d;
    LinkCounts(s, a.o, d);
    DerefIsSafe(s, d);
    assert Returner(PcOf(s, a.t), d);
  }

  lemma FreeDeleg(s: State, o: OpenId)
    requires Inv(s) && OpenEnabled(s, FreeOpen(o))
    ensures DelegRules(s, OpeningChange(s, FreeOpen(o)))
  {
    hide Returns, OneReturner, Works, OneWorker, Loops, LocksOrdered, OneReclaimer, FlagsOwned, Linked, Holders, Deref;
    var link := s.opens[o].deleg;
    if link.Some? {
      LinkCounts(s, o, link.value);
      assert Refs(At(s.delegs, link.value)) >= 1;
      DerefIsSafe(s, link.value);
    }
  }

  /** Linking hands the thread's reference over to the open. */
  lemma LinkDeleg(s: State, a: Action)
    requires Inv(s) && OpenEnabled(s, a) && (a.Adopt? || a.LinkOpen?)
    ensures DelegRules(s, OpeningChange(s, a))
  {
    hide RefsExact, Returns, OneReturner, OneWorker, Loops, LocksOrdered, OneReclaimer, FlagsOwned;
    assert WorkOk(s, PcOf(s, a.t));
    assert BeingOpened(PcOf(s, a.t), PcOf(s, a.t).o);
  }

  lemma RegisterDeleg(s: State, a: Action)
    requires Inv(s) && OpenEnabled(s, a) && (a.Register? || a.TakeRef?)
    ensures DelegRules(s, OpeningChange(s, a))
  {
    hide RefsExact, Returns, OneReturner, Works, OneWorker, Loops, LocksOrdered, OneReclaimer, FlagsOwned;
  }

  lemma OpeningKeepsDeleg(s: State, a: Action)
    requires Inv(s) && OpenEnabled(s, a) && !a.Register? && !a.TakeRef? && !a.Adopt? && !a.LinkOpen? && !a.FreeOpen?
    ensures DelegRules(s, OpeningChange(s, a))
  {
    hide DelegRules, RefsExact, Returns, OneReturner, OneWorker, Loops, LocksOrdered, OneReclaimer, FlagsOwned, Lifecycles, Named;
    if a.Fail? {
      assert WorkOk(s, PcOf(s, a.t));
      assert BeingOpened(PcOf(s, a.t), PcOf(s, a.t).o);
    }
    SameDeleg(s, OpeningChange(s, a));
  }

  lemma DropDeleg(s: State, t: ThreadId)
    requires Inv(s) && OuterEnabled(s, Drop(t))
    ensures DelegRules(s, OuterChange(s, Drop(t)))
  {
    hide Returns, OneReturner, Works, OneWorker, Loops, LocksOrdered, OneReclaimer, FlagsOwned, Linked, Holders, Deref;
    HolderCounts(s, t, PcOf(s, t).d);
    DerefIsSafe(s, PcOf(s, t).d);
  }

  lemma CheckOpenDeleg(s: State, a: Action)
    requires Inv(s) && OuterEnabled(s, a) && a.CheckOpen?
    ensures DelegRules(s, OuterChange(s, a))
  {
    hide RefsExact, Returns, OneReturner, Works, OneWorker, Loops, LocksOrdered, OneReclaimer, FlagsOwned;
  }

  lemma CheckDeleg(s: State, a: Action)
    requires Inv(s) && OuterEnabled(s, a) && (a.CheckReturn? || a.CheckRecall?)
    ensures DelegRules(s, OuterChange(s, a))
  {
    hide RefsExact, Returns, OneReturner, Works, OneWorker, Loops, LocksOrdered, OneReclaimer, FlagsOwned;
  }

  lemma OuterDeleg(s: State, a: Action)
    requires Inv(s) && OuterEnabled(s, a) && !a.Drop? && !a.CheckOpen? && !a.CheckReturn? && !a.CheckRecall?
    ensures DelegRules(s, OuterChange(s, a))
  {
    hide RefsExact, Returns, OneReturner, Works, OneWorker, Loops, LocksOrdered, OneReclaimer, FlagsOwned;
  }

  // The open that a step changes

  ghost predicate OpenRules(s: State, c: Change) {
    LinkRule(s, c) && OpenRule(s, c) && LockRule(c)
  }

  lemma SameOpen(s: State, c: Change)
    requires LocksOrdered(s) && c.y == At(s.opens, c.o) && (c.pc.Passed? ==> c.pc.d in s.delegs && s.delegs[c.pc.d].phase == Granted)
    ensures OpenRules(s, c)
  {
  }

  /** Settling changes no id, and only the lock with the given id. */
  lemma {:induction false} SettledShape(locks: seq<Lock>, id: nat)
    ensures |Settled(locks, id)| == |locks|
    ensures forall i :: 0 <= i < |locks| ==>
        Settled(locks, id)[i].id == locks[i].id && (Settled(locks, id)[i].delegated ==> locks[i].delegated)
  {
    if locks != [] && locks[0].id != id {
      SettledShape(locks[1..], id);
    }
  }

  lemma LockOpen(s: State, a: Action)
    requires Inv(s) && LockEnabled(s, a) && !a.Unlock? && !a.UserReclaimed?
    ensures OpenRules(s, LockChange(s, a))
  {
    hide RefsExact, Lifecycles, Named, Returns, OneReturner, Works, OneWorker, Loops, OneReclaimer, FlagsOwned;
  }

  lemma UnlockOpen(s: State, o: OpenId, i: nat)
    requires Inv(s) && LockEnabled(s, Unlock(o, i))
    ensures OpenRules(s, LockChange(s, Unlock(o, i)))
  {
    hide RefsExact, Lifecycles, Named, Returns, OneReturner, Works, OneWorker, Loops, OneReclaimer, FlagsOwned;
  }

  lemma ReclaimedOpen(s: State, a: Action)
    requires Inv(s) && LockEnabled(s, a) && a.UserReclaimed?
    ensures OpenRules(s, LockChange(s, a))
  {
    hide RefsExact, Lifecycles, Named, Returns, OneReturner, OneWorker, Loops, OneReclaimer, FlagsOwned;
  }

  lemma ReturnSameOpen(s: State, a: Action)
    requires Inv(s) && ReturnEnabled(s, a) && !a.StartReclaim? && !a.EndReclaim? && !a.LockReply? && !a.UnlinkOpen?
    ensures OpenRules(s, ReturnChange(s, a))
  {
    hide RefsExact, Lifecycles, Named, Returns, OneReturner, Works, OneWorker, Loops, OneReclaimer, FlagsOwned, LocksOrdered, OpenRules;
    SameOpen(s, ReturnChange(s, a));
  }

  lemma ReturnOpen(s: State, a: Action)
    requires Inv(s) && ReturnEnabled(s, a) && (a.StartReclaim? || a.EndReclaim? || a.UnlinkOpen?)
    ensures OpenRules(s, ReturnChange(s, a))
  {
    hide RefsExact, Lifecycles, Named, Returns, OneReturner, OneWorker, Loops, OneReclaimer, FlagsOwned;
    assert WorkOk(s, PcOf(s, a.t));
  }

  lemma SettleOpen(s: State, a: Action)
    requires Inv(s) && ReturnEnabled(s, a) && a.LockReply?
    ensures OpenRules(s, ReturnChange(s, a))
  {
    hide RefsExact, Lifecycles, Named, Returns, OneReturner, OneWorker, Loops, OneReclaimer, FlagsOwned, Settled;
    assert WorkOk(s, PcOf(s, a.t));
    SettledShape(s.opens[PcOf(s, a.t).o].locks, PcOf(s, a.t).id);
  }

  lemma OuterSameOpen(s: State, a: Action)
    requires Inv(s) && OuterEnabled(s, a)
    ensures OpenRules(s, OuterChange(s, a))
  {
    hide RefsExact, Lifecycles, Named, Returns, OneReturner, Works, OneWorker, Loops, OneReclaimer, FlagsOwned, LocksOrdered, OpenRules;
    SameOpen(s, OuterChange(s, a));
  }

  lemma OpeningOpen(s: State, a: Action)
    requires Inv(s) && OpenEnabled(s, a) && !a.Adopt? && !a.LinkOpen? && !a.AddOpen?
    ensures OpenRules(s, OpeningChange(s, a))
  {
    hide RefsExact, Lifecycles, Named, Returns, OneReturner, Works, Loops, OneReclaimer, FlagsOwned;
    if a.Fail? {
      FailAlone(s, a.t);
    }
  }

  lemma FailAlone(s: State, t: ThreadId)
    requires Inv(s) && PcOf(s, t).Opening?
    ensures forall u: ThreadId :: u != t ==> !WorksOn(PcOf(s, u), PcOf(s, t).o)
  {
    hide RefsExact, Lifecycles, Named, Returns, OneReturner, Loops, OneReclaimer, FlagsOwned, LocksOrdered;
    assert WorkOk(s, PcOf(s, t));
    assert BeingOpened(PcOf(s, t), PcOf(s, t).o) && WorksOn(PcOf(s, t), PcOf(s, t).o);
  }

  lemma AddedOpen(s: State, t: ThreadId)
    requires Inv(s) && OpenEnabled(s, AddOpen(t))
    ensures OpenRules(s, OpeningChange(s, AddOpen(t)))
  {
    hide RefsExact, Lifecycles, Named, Returns, OneReturner, OneWorker, Loops, OneReclaimer, FlagsOwned;
    assert WorkOk(s, PcOf(s, t));
  }

  lemma LinkedOpen(s: State, a: Action)
    requires Inv(s) && OpenEnabled(s, a) && (a.Adopt? || a.LinkOpen?)
    ensures OpenRules(s, OpeningChange(s, a))
  {
    hide RefsExact, Lifecycles, Named, Returns, OneReturner, OneWorker, Loops, OneReclaimer, FlagsOwned;
    assert WorkOk(s, PcOf(s, a.t));
    assert BeingOpened(PcOf(s, a.t), PcOf(s, a.t).o);
  }

  // The thread that a step moves

  ghost predicate ThreadRules(s: State, c: Change) {
    Mover(c) && ReturnRule(s, c) && WorkRule(s, c) && LoopRule(s, c)
  }

  lemma SamePut<V>(m: map<nat, V>, k: nat)
    ensures Put(m, k, At(m, k)) == m
  {
  }

  lemma LockThread(s: State, a: Action)
    requires Inv(s) && LockEnabled(s, a)
    ensures ThreadRules(s, LockChange(s, a))
  {
    hide RefsExact, Lifecycles, Named, OneReturner, OneWorker, LocksOrdered, OneReclaimer, FlagsOwned, Returns, Loops;
  }

  lemma GrantThread(s: State, a: Action)
    requires Inv(s) && OpenEnabled(s, a) && (a.Register? || a.TakeRef? || a.Adopt? || a.LinkOpen?)
    ensures ThreadRules(s, OpeningChange(s, a))
  {
    hide RefsExact, Lifecycles, Named, OneReturner, OneWorker, LocksOrdered, OneReclaimer, FlagsOwned, Returns, Loops;
    SamePut(s.opens, 0);
    assert WorkOk(s, PcOf(s, a.t));
  }

  lemma OpeningThread(s: State, a: Action)
    requires Inv(s) && OpenEnabled(s, a) && !a.Register? && !a.TakeRef? && !a.Adopt? && !a.LinkOpen?
    ensures ThreadRules(s, OpeningChange(s, a))
  {
    hide RefsExact, Lifecycles, Named, OneReturner, OneWorker, LocksOrdered, OneReclaimer, FlagsOwned, Returns, Loops;
    SamePut(s.opens, 0);
  }

  lemma ReturnThread(s: State, a: Action)
    requires Inv(s) && ReturnEnabled(s, a)
    ensures Mover(ReturnChange(s, a)) && ReturnRule(s, ReturnChange(s, a))
  {
    hide RefsExact, Lifecycles, Named, OneReturner, Works, OneWorker, LocksOrdered, OneReclaimer, FlagsOwned, Loops;
    var c := ReturnChange(s, a);
    SamePut(s.delegs, 0);
    if a.UnlinkOpen? {
      UnlinkDeleg(s, a);
    }
    forall d: DelegId | Returner(c.pc, d)
      ensures ReturnOk(Apply(s, c), c.pc, d) && Returner(Before(s, c), d)
    {
      assert ReturnOk(s, PcOf(s, a.t), d);
    }
  }

  /** The loop never takes up an open that it is through with. */
  lemma NextWork(s: State, a: Action)
    requires Inv(s) && ReturnEnabled(s, a) && a.NextOpen?
    ensures WorkRule(s, ReturnChange(s, a))
  {
    hide RefsExact, Lifecycles, Named, OneReturner, Works, OneWorker, LocksOrdered, OneReclaimer, FlagsOwned, Returns;
    SamePut(s.opens, 0);
    assert !Handled(PcOf(s, a.t), PcOf(s, a.t).d, a.o);
  }

  predicate IsReclaim(a: Action) {
    a.StartReclaim? || a.EndReclaim?
  }

  predicate IsFlush(a: Action) {
    a.NextLock? || a.LockReply?
  }

  lemma ReclaimWork(s: State, a: Action)
    requires Inv(s) && ReturnEnabled(s, a) && IsReclaim(a)
    ensures WorkRule(s, ReturnChange(s, a))
  {
    hide RefsExact, Lifecycles, Named, OneReturner, OneWorker, LocksOrdered, OneReclaimer, FlagsOwned, Returns, Loops;
    SamePut(s.opens, 0);
    assert WorkOk(s, PcOf(s, a.t));
  }

  lemma FlushWork(s: State, a: Action)
    requires Inv(s) && ReturnEnabled(s, a) && IsFlush(a)
    ensures WorkRule(s, ReturnChange(s, a))
  {
    hide RefsExact, Lifecycles, Named, OneReturner, OneWorker, LocksOrdered, OneReclaimer, FlagsOwned, Returns, Loops, Settled, FirstDelegated;
    SamePut(s.opens, 0);
    assert WorkOk(s, PcOf(s, a.t));
  }

  lemma ReturnWork(s: State, a: Action)
    requires Inv(s) && ReturnEnabled(s, a) && !a.NextOpen? && !IsReclaim(a) && !IsFlush(a)
    ensures WorkRule(s, ReturnChange(s, a))
  {
    hide Inv;
  }

  lemma {:induction false} NoneDelegated(locks: seq<Lock>)
    ensures FirstDelegated(locks).None? <==> forall i :: 0 <= i < |locks| ==> !locks[i].delegated
  {
    if locks != [] {
      NoneDelegated(locks[1..]);
      assert forall i :: 0 < i < |locks| ==> locks[i] == locks[1..][i - 1];
    }
  }

  lemma LastLock(s: State, t: ThreadId)
    requires Inv(s) && ReturnEnabled(s, NextLock(t))
    ensures LoopRule(s, ReturnChange(s, NextLock(t)))
  {
    hide RefsExact, Lifecycles, Named, OneReturner, OneWorker, LocksOrdered, OneReclaimer, FlagsOwned, Returns, Loops;
    var pc := PcOf(s, t);
    SamePut(s.opens, 0);
    NoneDelegated(s.opens[pc.o].locks);
    assert WorkOk(s, pc);
    forall u: ThreadId ensures PcOf(s, u) != Passed(pc.d, pc.o) {
      assert WorkOk(s, PcOf(s, u));
      assert BeingOpened(Passed(pc.d, pc.o), pc.o);
    }
  }

  lemma ReturnLoop(s: State, a: Action)
    requires Inv(s) && ReturnEnabled(s, a)
    ensures LoopRule(s, ReturnChange(s, a))
  {
    hide RefsExact, Lifecycles, Named, OneReturner, OneWorker, LocksOrdered, OneReclaimer, FlagsOwned, Returns, Loops, Works, Needs;
    if a.NextLock? {
      LastLock(s, a.t);
    } else {
      SamePut(s.opens, 0);
    }
  }

  predicate IsCheck(a: Action) {
    a.CheckOpen? || a.CheckReturn? || a.CheckRecall?
  }

  lemma CheckOpenThread(s: State, a: Action)
    requires Inv(s) && OuterEnabled(s, a) && a.CheckOpen?
    ensures ThreadRules(s, OuterChange(s, a))
  {
    hide RefsExact, Named, OneReturner, OneWorker, LocksOrdered, OneReclaimer, FlagsOwned, Loops, Returns;
    SamePut(s.opens, 0);
    assert WorkOk(s, PcOf(s, a.t));
  }

  lemma CheckThread(s: State, a: Action)
    requires Inv(s) && OuterEnabled(s, a) && (a.CheckReturn? || a.CheckRecall?)
    ensures ThreadRules(s, OuterChange(s, a))
  {
    hide RefsExact, Named, OneReturner, Works, OneWorker, LocksOrdered, OneReclaimer, FlagsOwned, Loops, Returns;
  }

  lemma FindThread(s: State, a: Action)
    requires Inv(s) && OuterEnabled(s, a) && a.Find?
    ensures ThreadRules(s, OuterChange(s, a))
  {
    hide RefsExact, Lifecycles, Named, OneReturner, OneWorker, LocksOrdered, OneReclaimer, FlagsOwned, Loops, Returns;
    SamePut(s.opens, 0);
    assert WorkOk(s, PcOf(s, a.t));
  }

  lemma PickThread(s: State, a: Action)
    requires Inv(s) && OuterEnabled(s, a) && (a.PickLru? || a.PickRecovery?)
    ensures ThreadRules(s, OuterChange(s, a))
  {
    hide RefsExact, Named, OneReturner, Works, OneWorker, LocksOrdered, OneReclaimer, FlagsOwned, Loops, Returns;
  }

  lemma OuterThread(s: State, a: Action)
    requires Inv(s) && OuterEnabled(s, a) && !IsCheck(a) && !a.Find? && !a.PickLru? && !a.PickRecovery?
    ensures ThreadRules(s, OuterChange(s, a))
  {
    hide RefsExact, Named, OneReturner, Works, OneWorker, LocksOrdered, OneReclaimer, FlagsOwned, Loops, Returns;
  }

  // The flag of the open

  lemma LockReclaim(s: State, a: Action)
    requires Inv(s) && LockEnabled(s, a)
    ensures ReclaimRule(s, LockChange(s, a))
  {
    hide RefsExact, Lifecycles, Named, Returns, OneReturner, Works, OneWorker, Loops, LocksOrdered, FlagsOwned;
  }

  lemma ReturnReclaim(s: State, a: Action)
    requires Inv(s) && ReturnEnabled(s, a)
    ensures ReclaimRule(s, ReturnChange(s, a))
  {
    hide RefsExact, Lifecycles, Named, Returns, OneReturner, OneWorker, Loops, LocksOrdered, FlagsOwned;
    assert WorkOk(s, PcOf(s, a.t));
  }

  lemma OuterReclaim(s: State, a: Action)
    requires Inv(s) && OuterEnabled(s, a)
    ensures ReclaimRule(s, OuterChange(s, a))
  {
    hide RefsExact, Lifecycles, Named, Returns, OneReturner, Works, OneWorker, Loops, LocksOrdered, FlagsOwned;
  }

  lemma FailReclaim(s: State, t: ThreadId)
    requires Inv(s) && OpenEnabled(s, Fail(t))
    ensures ReclaimRule(s, OpeningChange(s, Fail(t)))
  {
    FailAlone(s, t);
    hide Inv;
  }

  lemma OpeningReclaim(s: State, a: Action)
    requires Inv(s) && OpenEnabled(s, a) && !a.Fail?
    ensures ReclaimRule(s, OpeningChange(s, a))
  {
    hide RefsExact, Lifecycles, Named, Returns, OneReturner, Works, OneWorker, Loops, LocksOrdered, FlagsOwned;
  }

  // All steps

  lemma OpeningIsLegal(s: State, a: Action)
    requires Inv(s) && OpenEnabled(s, a)
    ensures Legal(s, OpeningChange(s, a))
  {
    hide Inv, OpenEnabled, OpeningChange, Mover, RefsRule, LifeRule, NameRule, ReturnRule, LinkRule, OpenRule, WorkRule, LoopRule, LockRule, ReclaimRule;
    if a.Register? || a.TakeRef? {
      RegisterDeleg(s, a);
    } else if a.Adopt? || a.LinkOpen? {
      LinkDeleg(s, a);
    } else if a.FreeOpen? {
      FreeDeleg(s, a.o);
    } else {
      OpeningKeepsDeleg(s, a);
    }
    if a.Adopt? || a.LinkOpen? {
      LinkedOpen(s, a);
    } else if a.AddOpen? {
      AddedOpen(s, a.t);
    } else {
      OpeningOpen(s, a);
    }
    if a.Register? || a.TakeRef? || a.Adopt? || a.LinkOpen? {
      GrantThread(s, a);
    } else {
      OpeningThread(s, a);
    }
    if a.Fail? {
      FailReclaim(s, a.t);
    } else {
      OpeningReclaim(s, a);
    }
  }

  lemma OuterIsLegal(s: State, a: Action)
    requires Inv(s) && OuterEnabled(s, a)
    ensures Legal(s, OuterChange(s, a))
  {
    hide Inv, OuterEnabled, OuterChange, Mover, RefsRule, LifeRule, NameRule, ReturnRule, LinkRule, OpenRule, WorkRule, LoopRule, LockRule, ReclaimRule;
    if a.Drop? {
      DropDeleg(s, a.t);
    } else if a.CheckOpen? {
      CheckOpenDeleg(s, a);
    } else if IsCheck(a) {
      CheckDeleg(s, a);
    } else {
      OuterDeleg(s, a);
    }
    OuterSameOpen(s, a);
    if a.CheckOpen? {
      CheckOpenThread(s, a);
    } else if IsCheck(a) {
      CheckThread(s, a);
    } else if a.Find? {
      FindThread(s, a);
    } else if a.PickLru? || a.PickRecovery? {
      PickThread(s, a);
    } else {
      OuterThread(s, a);
    }
    OuterReclaim(s, a);
  }

  lemma ReturnDelegPart(s: State, a: Action)
    requires Inv(s) && ReturnEnabled(s, a)
    ensures DelegRules(s, ReturnChange(s, a))
  {
    hide Inv, ReturnEnabled, ReturnChange, DelegRules;
    match a {
      case UnlinkOpen(_, _) => UnlinkDeleg(s, a);
      case Release(t) => ReleaseDeleg(s, t);
      case Unlist(_) => RemoveDeleg(s, a);
      case Mark(_) => RemoveDeleg(s, a);
      case _ => ReturnKeepsDeleg(s, a);
    }
  }

  lemma ReturnOpenPart(s: State, a: Action)
    requires Inv(s) && ReturnEnabled(s, a)
    ensures OpenRules(s, ReturnChange(s, a))
  {
    hide Inv, ReturnEnabled, ReturnChange, OpenRules;
    match a {
      case StartReclaim(_) => ReturnOpen(s, a);
      case EndReclaim(_, _) => ReturnOpen(s, a);
      case UnlinkOpen(_, _) => ReturnOpen(s, a);
      case LockReply(_, _) => SettleOpen(s, a);
      case _ => ReturnSameOpen(s, a);
    }
  }

  lemma ReturnIsLegal(s: State, a: Action)
    requires Inv(s) && ReturnEnabled(s, a)
    ensures Legal(s, ReturnChange(s, a))
  {
    hide Inv, ReturnEnabled, ReturnChange, Mover, RefsRule, LifeRule, NameRule, ReturnRule, LinkRule, OpenRule, WorkRule, LoopRule, LockRule, ReclaimRule;
    ReturnDelegPart(s, a);
    ReturnOpenPart(s, a);
    ReturnThread(s, a);
    if a.NextOpen? {
      NextWork(s, a);
    } else if IsReclaim(a) {
      ReclaimWork(s, a);
    } else if IsFlush(a) {
      FlushWork(s, a);
    } else {
      ReturnWork(s, a);
    }
    ReturnLoop(s, a);
    ReturnReclaim(s, a);
  }

  lemma LockIsLegal(s: State, a: Action)
    requires Inv(s) && LockEnabled(s, a)
    ensures Legal(s, LockChange(s, a))
  {
    hide Inv, LockEnabled, LockChange, Mover, RefsRule, LifeRule, NameRule, ReturnRule, LinkRule, OpenRule, WorkRule, LoopRule, LockRule, ReclaimRule;
    LockKeepsDeleg(s, a);
    match a {
      case Unlock(o, i) => UnlockOpen(s, o, i);
      case UserReclaimed(_, _) => ReclaimedOpen(s, a);
      case _ => LockOpen(s, a);
    }
    LockThread(s, a);
    LockReclaim(s, a);
  }

  /** Every step of every thread meets the rules. */
  lemma StepIsLegal(s: State, a: Action)
    requires Inv(s) && Enabled(s, a)
    ensures Legal(s, ChangeOf(s, a))
  {
    hide Inv, Legal, OpenEnabled, OuterEnabled, ReturnEnabled, LockEnabled, OpeningChange, OuterChange, ReturnChange, LockChange;
    if OpenEnabled(s, a) {
      OpeningIsLegal(s, a);
    } else if OuterEnabled(s, a) {
      OuterIsLegal(s, a);
    } else if ReturnEnabled(s, a) {
      ReturnIsLegal(s, a);
    } else {
      LockIsLegal(s, a);
    }
  }

  /** The invariant is inductive. */
  lemma StepKeepsInv(s: State, a: Action)
    requires Inv(s) && Enabled(s, a)
    ensures Inv(Exec(s, a))
  {
    hide Inv, Enabled, ChangeOf, Legal, Apply;
    StepIsLegal(s, a);
    LegalKeepsInv(s, ChangeOf(s, a));
  }
}
