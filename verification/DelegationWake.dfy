/** Lock requests that wait for another reclaim of their open. Before the wait
    nfs41_delegation_to_open tests that the open has a delegation, after it only
    whether the open has a stateid. In between the delegation can be unlinked. */
module DelegationWakes {
  import opened Lists
  import opened Delegations
  import opened DelegationSafety
  import opened DelegationSteps
  import opened DelegationRuns
  import opened DelegationReturns
  import opened DelegationRegistrations

  /** A lock request has read the stateid of a delegation that is not there. */
  ghost predicate HasFaulted(s: State) {
    exists t: ThreadId :: PcOf(s, t).Faulted?
  }

  /** A reclaim ends and leaves the open without a stateid. */
  predicate IsFailure(s: State, a: Action)
    requires Enabled(s, a)
  {
    (a.EndReclaim? || a.UserReclaimed?) && !a.outcome.Success? && !s.opens[PcOf(s, a.t).o].doClose
  }

  /** A delegation is unlinked from an open without a stateid. */
  predicate IsBareUnlink(s: State, a: Action)
    requires Enabled(s, a)
  {
    a.UnlinkOpen? && !s.opens[a.o].doClose
  }

  /** The step is neither of the two unless that is allowed. */
  predicate Tolerated(s: State, a: Action, failures: bool, bareUnlinks: bool)
    requires Enabled(s, a)
  {
    (IsFailure(s, a) ==> failures) && (IsBareUnlink(s, a) ==> bareUnlinks)
  }

  ghost predicate AllTolerated(s: State, run: seq<Action>, failures: bool, bareUnlinks: bool)
    requires Run(s, run)
    decreases |run|
  {
    run != [] ==> Tolerated(s, run[0], failures, bareUnlinks) && AllTolerated(Exec(s, run[0]), run[1..], failures, bareUnlinks)
  }

  // With at most one of the two

  /** A thread that waits for this open will not fault: there is a stateid, or
      the reclaim under way cannot fail, or the link cannot go. */
  predicate Ready(y: Open, failures: bool, bareUnlinks: bool) {
    y.doClose || (!failures && y.reclaim) || (!bareUnlinks && y.deleg.Some?)
  }

  ghost predicate AllReady(s: State, failures: bool, bareUnlinks: bool) {
    forall t: ThreadId :: !PcOf(s, t).Faulted? &&
      (PcOf(s, t).UserWaiting? ==> PcOf(s, t).o in s.opens && Ready(s.opens[PcOf(s, t).o], failures, bareUnlinks))
  }

  /** What a change does to the open and to the thread that moves. */
  ghost predicate KeepsReady(s: State, c: Change, failures: bool, bareUnlinks: bool) {
    && (c.o in s.opens && c.y.Some? && Ready(s.opens[c.o], failures, bareUnlinks) ==> Ready(c.y.value, failures, bareUnlinks))
    && (c.pc.UserWaiting? ==> c.pc.o in s.opens && Ready(s.opens[c.pc.o], failures, bareUnlinks))
    && !c.pc.Faulted?
  }

  lemma OpeningKeepsReady(s: State, a: Action, failures: bool, bareUnlinks: bool)
    requires OpenEnabled(s, a)
    ensures KeepsReady(s, OpeningChange(s, a), failures, bareUnlinks)
  {
  }

  lemma OuterKeepsReady(s: State, a: Action, failures: bool, bareUnlinks: bool)
    requires OuterEnabled(s, a)
    ensures KeepsReady(s, OuterChange(s, a), failures, bareUnlinks)
  {
  }

  lemma ReturnKeepsReady(s: State, a: Action, failures: bool, bareUnlinks: bool)
    requires ReturnEnabled(s, a) && Tolerated(s, a, failures, bareUnlinks)
    ensures KeepsReady(s, ReturnChange(s, a), failures, bareUnlinks)
  {
    hide HasDelegatedLocks, Settled, FirstDelegated;
  }

  lemma LockKeepsReady(s: State, a: Action, failures: bool, bareUnlinks: bool)
    requires LockEnabled(s, a) && Tolerated(s, a, failures, bareUnlinks) && AllReady(s, failures, bareUnlinks) && !(failures && bareUnlinks)
    ensures KeepsReady(s, LockChange(s, a), failures, bareUnlinks)
  {
  }

  lemma StepKeepsReady(s: State, a: Action, failures: bool, bareUnlinks: bool)
    requires Enabled(s, a) && Tolerated(s, a, failures, bareUnlinks) && AllReady(s, failures, bareUnlinks)
    requires !(failures && bareUnlinks)
    ensures KeepsReady(s, ChangeOf(s, a), failures, bareUnlinks)
  {
    hide OpenEnabled, OuterEnabled, ReturnEnabled, LockEnabled, OpeningChange, OuterChange, ReturnChange, LockChange, AllReady, Tolerated, KeepsReady;
    if OpenEnabled(s, a) {
      OpeningKeepsReady(s, a, failures, bareUnlinks);
    } else if OuterEnabled(s, a) {
      OuterKeepsReady(s, a, failures, bareUnlinks);
    } else if ReturnEnabled(s, a) {
      ReturnKeepsReady(s, a, failures, bareUnlinks);
    } else {
      LockKeepsReady(s, a, failures, bareUnlinks);
    }
  }

  lemma StaysReady(s: State, a: Action, failures: bool, bareUnlinks: bool)
    requires Inv(s) && Enabled(s, a) && Tolerated(s, a, failures, bareUnlinks) && AllReady(s, failures, bareUnlinks)
    requires !(failures && bareUnlinks)
    ensures AllReady(Exec(s, a), failures, bareUnlinks)
  {
    hide ChangeOf, Enabled, RefsExact, Lifecycles, Named, Returns, OneReturner, OneWorker, Loops, LocksOrdered, OneReclaimer, FlagsOwned, Exec,
      Tolerated, Ready;
    var c, s' := ChangeOf(s, a), Exec(s, a);
    StepKeepsReady(s, a, failures, bareUnlinks);
    StepKeepsInv(s, a);
    ExecAt(s, a, 0);
    forall t: ThreadId ensures !PcOf(s', t).Faulted? &&
      (PcOf(s', t).UserWaiting? ==> PcOf(s', t).o in s'.opens && Ready(s'.opens[PcOf(s', t).o], failures, bareUnlinks))
    {
      assert PcOf(s', t) == if c.t == Some(t) then c.pc else PcOf(s, t);
      assert WorkOk(s', PcOf(s', t));
    }
  }

  lemma {:induction false} NeverFaults(s: State, run: seq<Action>, failures: bool, bareUnlinks: bool)
    requires Inv(s) && AllReady(s, failures, bareUnlinks) && Run(s, run) && AllTolerated(s, run, failures, bareUnlinks)
    requires !(failures && bareUnlinks)
    ensures !HasFaulted(After(s, run))
    decreases |run|
  {
    hide Inv, Enabled, Exec, Tolerated;
    if run != [] {
      StepKeepsInv(s, run[0]);
      StaysReady(s, run[0], failures, bareUnlinks);
      NeverFaults(Exec(s, run[0]), run[1..], failures, bareUnlinks);
    }
  }

  // With both

  lemma NextOpenTo(s: State, t: ThreadId, o: OpenId)
    requires PcOf(s, t).LoopHead? && IsListed(s, o) && Needs(s.opens[o], PcOf(s, t).d)
    ensures var pc := PcOf(s, t);
      Enabled(s, NextOpen(t, o)) && Exec(s, NextOpen(t, o)) == s.(threads := s.threads[t := ToOpen(pc.d, pc.held, pc.done, o)])
  {
    hide HasDelegatedLocks;
    SamePut(s.opens, 0);
    SamePut(s.delegs, 0);
  }

  lemma StartReclaimTo(s: State, t: ThreadId)
    requires PcOf(s, t).ToOpen? && PcOf(s, t).o in s.opens
    requires var y := s.opens[PcOf(s, t).o]; y.deleg.Some? && !y.doClose && !y.reclaim
    ensures var pc := PcOf(s, t);
      && Enabled(s, StartReclaim(t))
      && Exec(s, StartReclaim(t)) ==
           s.(opens := s.opens[pc.o := s.opens[pc.o].(reclaim := true)], threads := s.threads[t := Reclaiming(pc.d, pc.held, pc.done, pc.o)])
  {
    SamePut(s.delegs, 0);
  }

  lemma FailureTo(s: State, t: ThreadId)
    requires PcOf(s, t).Reclaiming? && PcOf(s, t).o in s.opens
    ensures var pc := PcOf(s, t);
      && Enabled(s, EndReclaim(t, Failure))
      && Exec(s, EndReclaim(t, Failure)) ==
           s.(opens := s.opens[pc.o := s.opens[pc.o].(reclaim := false)], threads := s.threads[t := Sending(pc.d, pc.held, false)])
  {
    SamePut(s.delegs, 0);
  }

  lemma UnlinkTo(s: State, t: ThreadId, o: OpenId)
    requires PcOf(s, t).Unlinking? && PcOf(s, t).d in s.delegs && IsListed(s, o) && s.opens[o].deleg == Some(PcOf(s, t).d)
    ensures var d := PcOf(s, t).d;
      && Enabled(s, UnlinkOpen(t, o))
      && Exec(s, UnlinkOpen(t, o)) ==
           s.(delegs := Put(s.delegs, d, Deref(s.delegs[d])), opens := s.opens[o := s.opens[o].(deleg := None)], threads := s.threads[t := PcOf(s, t)])
  {
  }

  lemma WaitTo(s: State, t: ThreadId, o: OpenId)
    requires PcOf(s, t).Idle? && IsListed(s, o) && s.opens[o].deleg.Some? && !s.opens[o].doClose && s.opens[o].reclaim
    ensures Enabled(s, UserWait(t, o)) && Exec(s, UserWait(t, o)) == s.(threads := s.threads[t := UserWaiting(o)])
  {
    SamePut(s.opens, 0);
    SamePut(s.delegs, 0);
  }

  lemma WakeTo(s: State, t: ThreadId)
    requires PcOf(s, t).UserWaiting? && PcOf(s, t).o in s.opens
    requires var y := s.opens[PcOf(s, t).o]; !y.reclaim && !y.doClose && y.deleg.None?
    ensures Enabled(s, UserWake(t)) && PcOf(Exec(s, UserWake(t)), t).Faulted?
  {
  }

  /** The open is on the client's list and depends on the delegation alone. */
  predicate Depends(s: State, o: OpenId, d: DelegId) {
    IsListed(s, o) && s.opens[o].deleg == Some(d) && !s.opens[o].doClose
  }

  /** A return reclaims the open, and a lock request waits for it. */
  lemma CanWait(s0: State, run0: seq<Action>, s: State, d: DelegId, o: OpenId, t: ThreadId, u: ThreadId) returns (run: seq<Action>, s': State)
    requires Leads(s0, run0, s) && IsGranted(s, d) && s.delegs[d].listed && Depends(s, o, d) && !s.opens[o].reclaim
    requires t != u && PcOf(s, t).Idle? && PcOf(s, u).Idle?
    ensures Leads(s0, run, s') && d in s'.delegs && Depends(s', o, d)
    ensures PcOf(s', t) == UserWaiting(o) && PcOf(s', u) == Reclaiming(d, true, {}, o)
  {
    hide Run, After, Enabled, Exec, HasDelegatedLocks, Leads;
    var why := SyncReturn(false);
    FindTo(s, u, d, why);
    LeadsOn(s0, run0, s, Find(u, d, why));
    var s1, run1 := Exec(s, Find(u, d, why)), run0 + [Find(u, d, why)];
    CheckReturnTo(s1, u, d);
    LeadsOn(s0, run1, s1, CheckReturn(u));
    var s2, run2 := Exec(s1, CheckReturn(u)), run1 + [CheckReturn(u)];
    NextOpenTo(s2, u, o);
    LeadsOn(s0, run2, s2, NextOpen(u, o));
    var s3, run3 := Exec(s2, NextOpen(u, o)), run2 + [NextOpen(u, o)];
    StartReclaimTo(s3, u);
    LeadsOn(s0, run3, s3, StartReclaim(u));
    var s4, run4 := Exec(s3, StartReclaim(u)), run3 + [StartReclaim(u)];
    WaitTo(s4, t, o);
    LeadsOn(s0, run4, s4, UserWait(t, o));
    s', run := Exec(s4, UserWait(t, o)), run4 + [UserWait(t, o)];
  }

  /** The reclaim fails, the delegation is removed, and then the request wakes. */
  lemma CanWake(s0: State, run0: seq<Action>, s: State, d: DelegId, o: OpenId, t: ThreadId, u: ThreadId) returns (run: seq<Action>)
    requires Leads(s0, run0, s) && d in s.delegs && Depends(s, o, d)
    requires t != u && PcOf(s, t) == UserWaiting(o) && PcOf(s, u) == Reclaiming(d, true, {}, o)
    ensures Run(s0, run) && HasFaulted(After(s0, run))
  {
    hide Run, After, Enabled, Exec;
    FailureTo(s, u);
    LeadsOn(s0, run0, s, EndReclaim(u, Failure));
    var s1, run1 := Exec(s, EndReclaim(u, Failure)), run0 + [EndReclaim(u, Failure)];
    ReplyTo(s1, u);
    LeadsOn(s0, run1, s1, DelegReturnReply(u, false));
    var s2, run2 := Exec(s1, DelegReturnReply(u, false)), run1 + [DelegReturnReply(u, false)];
    UnlistTo(s2, u);
    LeadsOn(s0, run2, s2, Unlist(u));
    var s3, run3 := Exec(s2, Unlist(u)), run2 + [Unlist(u)];
    UnlinkTo(s3, u, o);
    LeadsOn(s0, run3, s3, UnlinkOpen(u, o));
    var s4, run4 := Exec(s3, UnlinkOpen(u, o)), run3 + [UnlinkOpen(u, o)];
    WakeTo(s4, t);
    LeadsOn(s0, run4, s4, UserWake(t));
    run := run4 + [UserWake(t)];
  }

  /** Whatever else is going on, a lock request on an open that depends on a
      granted delegation can fault. */
  lemma RequestCanFault(s: State, d: DelegId, o: OpenId, t: ThreadId, u: ThreadId) returns (run: seq<Action>)
    requires Inv(s) && IsGranted(s, d) && Depends(s, o, d) && !s.opens[o].reclaim
    requires t != u && PcOf(s, t).Idle? && PcOf(s, u).Idle?
    ensures Run(s, run) && HasFaulted(After(s, run))
  {
    hide HasFaulted, RefsExact, Named, Returns, OneReturner, Works, OneWorker, Loops, LocksOrdered, OneReclaimer, FlagsOwned;
    assert Lifecycle(s.delegs[d]);
    assert Leads(s, [], s);
    var run0, s0 := CanWait(s, [], s, d, o, t, u);
    run := CanWake(s, run0, s0, d, o, t, u);
  }

  lemma TakeRefTo(s: State, t: ThreadId)
    requires PcOf(s, t).Registered? && PcOf(s, t).d in s.delegs
    ensures var pc := PcOf(s, t);
      && Enabled(s, TakeRef(t))
      && Exec(s, TakeRef(t)) ==
           s.(delegs := s.delegs[pc.d := s.delegs[pc.d].(refCount := s.delegs[pc.d].refCount + 1)], threads := s.threads[t := Referenced(pc.d, pc.o)])
  {
    SamePut(s.opens, 0);
  }

  lemma AddOpenTo(s: State, t: ThreadId)
    requires PcOf(s, t).Listing? && PcOf(s, t).o in s.opens
    ensures var o := PcOf(s, t).o;
      && Enabled(s, AddOpen(t))
      && Exec(s, AddOpen(t)) == s.(opens := s.opens[o := s.opens[o].(stage := Listed)], threads := s.threads[t := Idle])
  {
    SamePut(s.delegs, 0);
  }

  /** A delegation is granted to one open, and another is linked to it. */
  lemma CanDepend() returns (run: seq<Action>, s: State)
    ensures Leads(START, run, s) && IsGranted(s, 0) && Depends(s, 1, 0) && !s.opens[1].reclaim && PcOf(s, 2).Idle? && PcOf(s, 3).Idle?
  {
    hide Run, After, Enabled, Exec, AllPermitted;
    var run0, s0 := CanRegister({});
    TakeRefTo(s0, 0);
    LeadsOn(START, run0, s0, TakeRef(0));
    var s1, run1 := Exec(s0, TakeRef(0)), run0 + [TakeRef(0)];
    var more := CanPass(s1, 1, 0, 1);
    RunOn(START, run1, more);
    var s2, run2 := After(s1, more), run1 + more;
    LinkTo(s2, 1);
    LeadsOn(START, run2, s2, LinkOpen(1, true));
    var s3, run3 := Exec(s2, LinkOpen(1, true)), run2 + [LinkOpen(1, true)];
    AddOpenTo(s3, 1);
    LeadsOn(START, run3, s3, AddOpen(1));
    s, run := Exec(s3, AddOpen(1)), run3 + [AddOpen(1)];
  }

  lemma {:induction false} EverythingTolerated(s: State, run: seq<Action>)
    requires Run(s, run)
    ensures AllTolerated(s, run, true, true)
    decreases |run|
  {
    hide Enabled, Exec;
    if run != [] {
      EverythingTolerated(Exec(s, run[0]), run[1..]);
    }
  }

  lemma StartIsReady(failures: bool, bareUnlinks: bool)
    ensures AllReady(START, failures, bareUnlinks)
  {
  }

  /** A lock request that has waited finds the delegation of its open, or a
      stateid, in every run if and only if reclaims do not fail or delegations
      are not unlinked from opens without a stateid: it takes both to fault. */
  lemma WakeSafeIff(failures: bool, bareUnlinks: bool)
    ensures (forall run :: Run(START, run) && AllTolerated(START, run, failures, bareUnlinks) ==> !HasFaulted(After(START, run)))
            <==> !(failures && bareUnlinks)
  {
    hide Run, After, AllTolerated, Inv, HasFaulted, AllReady;
    StartIsSafe();
    if failures && bareUnlinks {
      var run0, s := CanDepend();
      RunKeepsInv(START, run0);
      var more := RequestCanFault(s, 0, 1, 2, 3);
      RunOn(START, run0, more);
      EverythingTolerated(START, run0 + more);
    } else {
      StartIsReady(failures, bareUnlinks);
      forall run | Run(START, run) && AllTolerated(START, run, failures, bareUnlinks) ensures !HasFaulted(After(START, run)) {
        NeverFaults(START, run, failures, bareUnlinks);
      }
    }
  }
}
