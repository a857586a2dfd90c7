/** What the checks of the delegation protocol decide: when an open is handled
    under a delegation, when a return starts, and what a return may remove. */
module DelegationChecks {
  import opened Lists
  import opened Delegations
  import opened DelegationSafety
  import opened DelegationSteps
  import opened DelegationRuns
  import opened DelegationLoops
  import opened DelegationRegistrations

  // Starting a return

  /** Under a granted delegation the client handles an open on its own if and only
      if the delegation is for writing or the open is compatible; otherwise the
      return starts. If a return is under way the open waits for its end. */
  lemma OpenCheckIff(s: State, t: ThreadId)
    requires OuterEnabled(s, CheckOpen(t))
    ensures var pc, s' := PcOf(s, t), Exec(s, CheckOpen(t));
      && s'.opens == s.opens
      && (!IsGranted(s, pc.d) ==> s.delegs[pc.d].phase == Returned && s'.delegs == s.delegs && PcOf(s', t) == Dropping(pc.d))
      && (IsGranted(s, pc.d) ==>
            && (PcOf(s', t) == Passed(pc.d, pc.why.open) <==> s.delegs[pc.d].kind == WriteDelegation || pc.why.compatible)
            && (PcOf(s', t) == Passed(pc.d, pc.why.open) ==> s'.delegs == s.delegs)
            && (PcOf(s', t) != Passed(pc.d, pc.why.open) ==>
                  PcOf(s', t) == LoopHead(pc.d, true, {}) && s'.delegs == s.delegs[pc.d := s.delegs[pc.d].(phase := Returning)]))
  {
    SamePut(s.opens, 0);
    SamePut(s.delegs, 0);
  }

  /** An operation on the file starts the return of a granted delegation, unless
      it only reads and the delegation is for writing. */
  lemma ReturnCheckIff(s: State, t: ThreadId)
    requires OuterEnabled(s, CheckReturn(t))
    ensures var pc, s' := PcOf(s, t), Exec(s, CheckReturn(t));
      && s'.opens == s.opens
      && (PcOf(s', t) == LoopHead(pc.d, true, {}) <==>
            IsGranted(s, pc.d) && !(s.delegs[pc.d].kind == WriteDelegation && pc.why.readOnly))
      && (PcOf(s', t) == LoopHead(pc.d, true, {}) ==> s'.delegs == s.delegs[pc.d := s.delegs[pc.d].(phase := Returning)])
      && (PcOf(s', t) != LoopHead(pc.d, true, {}) ==>
            s.delegs[pc.d].phase != Returning && s'.delegs == s.delegs && PcOf(s', t) == Dropping(pc.d))
  {
    SamePut(s.opens, 0);
    SamePut(s.delegs, 0);
  }

  /** CB_RECALL is remembered, and the first one starts the return of a granted
      delegation, which goes ahead if a thread can be had for it. */
  lemma RecallCheckIff(s: State, t: ThreadId, spawned: bool)
    requires OuterEnabled(s, CheckRecall(t, spawned))
    ensures var pc, s' := PcOf(s, t), Exec(s, CheckRecall(t, spawned));
      && s'.opens == s.opens && pc.d in s'.delegs && s'.delegs[pc.d].recalled
      && (s'.delegs[pc.d].phase != s.delegs[pc.d].phase <==> IsGranted(s, pc.d) && !s.delegs[pc.d].recalled)
      && (s'.delegs[pc.d].phase != s.delegs[pc.d].phase ==> s'.delegs[pc.d].phase == Returning)
      && (PcOf(s', t) == LoopHead(pc.d, true, {}) <==> s'.delegs[pc.d].phase != s.delegs[pc.d].phase && spawned)
      && (PcOf(s', t) != LoopHead(pc.d, true, {}) ==> PcOf(s', t) == Dropping(pc.d))
  {
    SamePut(s.opens, 0);
  }

  /** Only a delegation that no open and no thread uses is returned to make room. */
  lemma UnneededIsUnused(s: State, t: ThreadId, d: DelegId)
    requires Inv(s) && OuterEnabled(s, PickLru(t, d))
    ensures Linked(s, d) == {} && Holders(s, d) == {} && IsGranted(s, d)
  {
    hide Linked, Holders, Named, Returns, OneReturner, Works, OneWorker, Loops, LocksOrdered, OneReclaimer, FlagsOwned;
    assert Lifecycle(s.delegs[d]);
    assert Refs(At(s.delegs, d)) == ClientRef(At(s.delegs, d)) + |Linked(s, d)| + |Holders(s, d)|;
  }

  /** After a restart of the server, a granted delegation that could not be
      reclaimed is forgotten without DELEGRETURN, and one that was recalled is
      returned; others are not touched. */
  lemma RecoveryPickIff(s: State, t: ThreadId, d: DelegId)
    requires PcOf(s, t).Idle? && d in s.delegs && s.delegs[d].listed
    ensures OuterEnabled(s, PickRecovery(t, d)) <==> IsGranted(s, d) && (s.delegs[d].revoked || s.delegs[d].recalled)
    ensures OuterEnabled(s, PickRecovery(t, d)) ==>
        var s' := Exec(s, PickRecovery(t, d));
        if s.delegs[d].revoked then PcOf(s', t) == Removing(d, false) && s'.delegs[d].phase == Returned
        else PcOf(s', t) == LoopHead(d, false, {}) && s'.delegs[d].phase == Returning
  {
  }

  /** An open cannot take a write delegation away. */
  lemma WriteStays(s: State, a: Action, d: DelegId)
    requires Inv(s) && Enabled(s, a) && IsGranted(s, d) && s.delegs[d].kind == WriteDelegation
    requires StarterOf(a) == None || StarterOf(a) == Some(Conflict)
    ensures IsGranted(Exec(s, a), d) && Exec(s, a).delegs[d].kind == WriteDelegation
  {
    hide Inv, Exec, Enabled;
    if a.CheckOpen? {
      CheckIsOuter(s, a);
      OpenCheckIff(s, a.t);
    } else {
      OnlyStarters(s, a, d);
    }
    StepForward(s, a, d);
  }

  lemma CheckIsOuter(s: State, a: Action)
    requires Enabled(s, a) && a.CheckOpen?
    ensures OuterEnabled(s, a)
  {
  }

  /** Over every run, whatever files are opened for whatever access, a write
      delegation stays granted until it is recalled, returned for an operation
      on the file, to make room, or in recovery. */
  lemma {:induction false} WriteOutlivesOpens(s: State, run: seq<Action>, d: DelegId)
    requires Inv(s) && Run(s, run) && IsGranted(s, d) && s.delegs[d].kind == WriteDelegation
    requires forall i :: 0 <= i < |run| ==> StarterOf(run[i]) == None || StarterOf(run[i]) == Some(Conflict)
    ensures IsGranted(After(s, run), d) && After(s, run).delegs[d].kind == WriteDelegation
    decreases |run|
  {
    hide Inv, Enabled, Exec, StarterOf;
    if run != [] {
      WriteStays(s, run[0], d);
      StepKeepsInv(s, run[0]);
      WriteOutlivesOpens(Exec(s, run[0]), run[1..], d);
    }
  }

  // During a return

  /** The loop goes on to the locks of an open if and only if the reclaim has left
      it with a stateid and was not refused for good. */
  lemma ReclaimIff(s: State, t: ThreadId, outcome: Outcome)
    requires ReturnEnabled(s, EndReclaim(t, outcome))
    ensures var pc, s' := PcOf(s, t), Exec(s, EndReclaim(t, outcome));
      && s'.delegs == s.delegs && pc.o in s'.opens && !s'.opens[pc.o].reclaim
      && (s'.opens[pc.o].doClose <==> s.opens[pc.o].doClose || outcome == Success)
      && (PcOf(s', t) == Flushing(pc.d, pc.held, pc.done, pc.o) <==> s'.opens[pc.o].doClose && outcome != Failure)
      && (!PcOf(s', t).Flushing? ==> PcOf(s', t) == Sending(pc.d, pc.held, false))
  {
    SamePut(s.delegs, 0);
  }

  lemma OthersDoNotRemove(s: State, a: Action)
    ensures OpenEnabled(s, a) ==> !OpeningChange(s, a).pc.Removing?
    ensures LockEnabled(s, a) ==> !LockChange(s, a).pc.Removing?
  {
  }

  lemma OuterRemoves(s: State, a: Action)
    requires OuterEnabled(s, a) && OuterChange(s, a).pc.Removing?
    ensures var c := OuterChange(s, a); a.PickRecovery? && c.pc.d == a.d && s.delegs[a.d].revoked && c.t == Some(a.t)
  {
  }

  lemma ReturnRemoves(s: State, a: Action)
    requires ReturnEnabled(s, a) && ReturnChange(s, a).pc.Removing?
    ensures var c := ReturnChange(s, a); a == DelegReturnReply(a.t, false) && PcOf(s, a.t).Sending? && c.pc.d == PcOf(s, a.t).d && c.t == Some(a.t)
  {
    hide HasDelegatedLocks, Settled, FirstDelegated;
  }

  /** A delegation is removed only after DELEGRETURN has been answered, or if the
      server had revoked it: a bad session leaves it in place. */
  lemma RemovedWhen(s: State, a: Action, t: ThreadId)
    requires Enabled(s, a) && PcOf(Exec(s, a), t).Removing? && !PcOf(s, t).Removing?
    ensures var d := PcOf(Exec(s, a), t).d;
      || (a == DelegReturnReply(t, false) && PcOf(s, t).Sending? && PcOf(s, t).d == d)
      || (a == PickRecovery(t, d) && d in s.delegs && s.delegs[d].revoked)
  {
    hide OpenEnabled, ReturnEnabled, LockEnabled, OpeningChange, OuterChange, ReturnChange, LockChange;
    assert ChangeOf(s, a).t == Some(t);
    OthersDoNotRemove(s, a);
    if !OpenEnabled(s, a) && OuterEnabled(s, a) {
      OuterRemoves(s, a);
    } else if !OpenEnabled(s, a) && ReturnEnabled(s, a) {
      ReturnRemoves(s, a);
    }
  }

  /** The return passes on only when no open on the client's list is linked to
      the delegation any more. */
  lemma NoneLinkedThen(s: State, t: ThreadId, d: DelegId)
    requires ReturnEnabled(s, UnlinkedAll(t)) && PcOf(s, t).d == d
    ensures PcOf(Exec(s, UnlinkedAll(t)), t) == Marking(d, PcOf(s, t).held)
    ensures forall o :: o in Linked(s, d) ==> !IsListed(s, o)
  {
  }

  lemma OthersKeepListed(s: State, a: Action)
    ensures OpenEnabled(s, a) ==> var c := OpeningChange(s, a); c.d in s.delegs && c.x.Some? ==> c.x.value.listed == s.delegs[c.d].listed || a.Register?
    ensures LockEnabled(s, a) ==> var c := LockChange(s, a); c.x == At(s.delegs, c.d)
  {
  }

  lemma OuterKeepsListed(s: State, a: Action)
    requires OuterEnabled(s, a)
    ensures var c := OuterChange(s, a); c.d in s.delegs && c.x.Some? ==> c.x.value.listed == s.delegs[c.d].listed
  {
  }

  lemma ReturnKeepsListed(s: State, a: Action)
    requires ReturnEnabled(s, a)
    ensures var c := ReturnChange(s, a);
      c.d in s.delegs && c.x.Some? && c.x.value.listed != s.delegs[c.d].listed ==> a.Unlist? && PcOf(s, a.t) == Removing(c.d, PcOf(s, a.t).held)
  {
    hide HasDelegatedLocks, Settled, FirstDelegated;
  }

  /** A delegation leaves the client's list only by the thread that removes it. */
  lemma UnlistedBy(s: State, a: Action, d: DelegId)
    requires Inv(s) && Enabled(s, a) && d in s.delegs && s.delegs[d].listed
    requires !(d in Exec(s, a).delegs && Exec(s, a).delegs[d].listed)
    ensures a.Unlist? && PcOf(s, a.t).Removing? && PcOf(s, a.t).d == d
  {
    hide OpenEnabled, OuterEnabled, ReturnEnabled, LockEnabled, OpeningChange, OuterChange, ReturnChange, LockChange,
      RefsExact, OneReturner, Works, OneWorker, Loops, LocksOrdered, OneReclaimer, FlagsOwned,
      RefsRule, ReturnRule, LinkRule, OpenRule, WorkRule, LoopRule, LockRule, ReclaimRule;
    StepIsLegal(s, a);
    ExecAt(s, a, d);
    assert Lifecycle(s.delegs[d]);
    var c := ChangeOf(s, a);
    assert c.t.Some? ==> !ReleasingOf(PcOf(s, c.t.value), d) by {
      if c.t.Some? && Returner(PcOf(s, c.t.value), d) {
        assert ReturnOk(s, PcOf(s, c.t.value), d);
      }
    }
    OthersKeepListed(s, a);
    if OpenEnabled(s, a) {
      if a.Register? {
        RegisterIsNew(s, a);
      }
    } else if OuterEnabled(s, a) {
      OuterKeepsListed(s, a);
    } else if ReturnEnabled(s, a) {
      ReturnKeepsListed(s, a);
    }
  }

  lemma RegisterIsNew(s: State, a: Action)
    requires Named(s) && OpenEnabled(s, a) && a.Register?
    ensures OpeningChange(s, a).d !in s.delegs
  {
  }

  lemma OpeningHolds(s: State, a: Action, d: DelegId)
    requires OpenEnabled(s, a)
    ensures var c := OpeningChange(s, a);
      Holds(c.pc, d) && !Holds(Before(s, c), d) ==> c.t == Some(a.t) && PcOf(s, a.t).Registered? && PcOf(s, a.t).d == d
  {
  }

  lemma OuterHolds(s: State, a: Action, d: DelegId)
    requires OuterEnabled(s, a)
    ensures var c := OuterChange(s, a); Holds(c.pc, d) && !Holds(Before(s, c), d) ==> d in s.delegs && s.delegs[d].listed
  {
  }

  lemma ReturnHolds(s: State, a: Action, d: DelegId)
    requires ReturnEnabled(s, a)
    ensures var c := ReturnChange(s, a); Holds(c.pc, d) ==> Holds(Before(s, c), d)
  {
    hide HasDelegatedLocks, Settled, FirstDelegated;
  }

  lemma LockHolds(s: State, a: Action, d: DelegId)
    requires LockEnabled(s, a)
    ensures !Holds(LockChange(s, a).pc, d)
  {
  }

  /** A delegation that is off the client's list is found by nobody: only the
      thread that is registering it can still take a reference. */
  lemma UnlistedIsNotFound(s: State, a: Action, t: ThreadId, d: DelegId)
    requires Enabled(s, a) && !(d in s.delegs && s.delegs[d].listed)
    requires Holds(PcOf(Exec(s, a), t), d) && !Holds(PcOf(s, t), d)
    ensures PcOf(s, t).Registered? && PcOf(s, t).d == d
  {
    hide OpenEnabled, OuterEnabled, ReturnEnabled, LockEnabled, OpeningChange, OuterChange, ReturnChange, LockChange, Holds;
    assert ChangeOf(s, a).t == Some(t);
    if OpenEnabled(s, a) {
      OpeningHolds(s, a, d);
    } else if OuterEnabled(s, a) {
      OuterHolds(s, a, d);
    } else if ReturnEnabled(s, a) {
      ReturnHolds(s, a, d);
    } else {
      LockHolds(s, a, d);
    }
  }

  // What opens have

  predicate HasState(y: Open) {
    y.doClose || y.deleg.Some?
  }

  /** An open that is about to be listed has its own stateid or a delegation. */
  ghost predicate Covered(s: State) {
    forall t: ThreadId :: PcOf(s, t).Listing? ==> PcOf(s, t).o in s.opens && HasState(s.opens[PcOf(s, t).o])
  }

  lemma OpeningCovers(s: State, a: Action)
    requires OpenEnabled(s, a) && OpeningChange(s, a).pc.Listing?
    ensures var c := OpeningChange(s, a); c.o == c.pc.o && c.y.Some? && HasState(c.y.value)
  {
  }

  lemma OuterLists(s: State, a: Action)
    requires OuterEnabled(s, a)
    ensures !OuterChange(s, a).pc.Listing?
  {
  }

  lemma ReturnLists(s: State, a: Action)
    requires ReturnEnabled(s, a)
    ensures !ReturnChange(s, a).pc.Listing?
  {
    hide HasDelegatedLocks, Settled, FirstDelegated;
  }

  lemma LockLists(s: State, a: Action)
    requires LockEnabled(s, a)
    ensures !LockChange(s, a).pc.Listing?
  {
  }

  lemma StepCovers(s: State, a: Action)
    requires Enabled(s, a)
    ensures var c := ChangeOf(s, a); c.pc.Listing? ==> c.o == c.pc.o && c.y.Some? && HasState(c.y.value)
  {
    hide OpenEnabled, OuterEnabled, ReturnEnabled, LockEnabled, OpeningChange, OuterChange, ReturnChange, LockChange, HasState;
    if OpenEnabled(s, a) {
      if OpeningChange(s, a).pc.Listing? {
        OpeningCovers(s, a);
      }
    } else if OuterEnabled(s, a) {
      OuterLists(s, a);
    } else if ReturnEnabled(s, a) {
      ReturnLists(s, a);
    } else {
      LockLists(s, a);
    }
  }

  lemma StaysCovered(s: State, a: Action)
    requires Inv(s) && Enabled(s, a) && Covered(s)
    ensures Covered(Exec(s, a))
  {
    hide ChangeOf, Enabled, RefsExact, Lifecycles, Named, Returns, OneReturner, Loops, LocksOrdered, OneReclaimer, FlagsOwned, Exec,
      RefsRule, LifeRule, NameRule, ReturnRule, LinkRule, WorkRule, LoopRule, LockRule, ReclaimRule;
    var c, s' := ChangeOf(s, a), Exec(s, a);
    StepIsLegal(s, a);
    StepCovers(s, a);
    ExecAt(s, a, 0);
    forall t: ThreadId | PcOf(s', t).Listing? ensures PcOf(s', t).o in s'.opens && HasState(s'.opens[PcOf(s', t).o]) {
      if c.t != Some(t) {
        var o := PcOf(s, t).o;
        assert WorkOk(s, PcOf(s, t)) && WorksOn(PcOf(s, t), o);
        assert c.t.Some? ==> !WorksOn(PcOf(s, c.t.value), o);
      }
    }
  }

  lemma {:induction false} RunCovers(s: State, run: seq<Action>)
    requires Inv(s) && Covered(s) && Run(s, run)
    ensures Covered(After(s, run))
    decreases |run|
  {
    hide Inv, Enabled, Exec, Covered;
    if run != [] {
      StaysCovered(s, run[0]);
      StepKeepsInv(s, run[0]);
      RunCovers(Exec(s, run[0]), run[1..]);
    }
  }

  /** In every run an open that is put on the client's list has an open stateid of
      its own or is linked to a delegation. */
  lemma ListedWithState(run: seq<Action>, t: ThreadId)
    requires Run(START, run) && OpenEnabled(After(START, run), AddOpen(t))
    ensures HasState(After(START, run).opens[PcOf(After(START, run), t).o])
  {
    hide Run, After, Inv;
    StartIsSafe();
    assert Covered(START);
    RunCovers(START, run);
  }

  /** Locks that only the client knows are under write delegations. */
  ghost predicate UnderWrite(s: State) {
    forall o :: o in s.opens && HasDelegatedLocks(s.opens[o]) && s.opens[o].deleg.Some? && s.opens[o].deleg.value in s.delegs ==>
      s.delegs[s.opens[o].deleg.value].kind == WriteDelegation
  }

  /** An open that has been linked, or that has locks, is not linked anew. */
  lemma OpeningRelinks(s: State, a: Action)
    requires Works(s) && OpenEnabled(s, a)
    ensures var c := OpeningChange(s, a);
      c.y.Some? && c.y.value.deleg.Some? ==> c.o in s.opens && (s.opens[c.o].stage.Fresh? || s.opens[c.o].deleg == c.y.value.deleg)
  {
    if a.LinkOpen? || a.Adopt? {
      assert WorkOk(s, PcOf(s, a.t)) && BeingOpened(PcOf(s, a.t), PcOf(s, a.t).o);
    }
  }

  lemma OuterRelinks(s: State, a: Action)
    requires OuterEnabled(s, a)
    ensures var c := OuterChange(s, a); c.y == At(s.opens, c.o)
  {
  }

  lemma ReturnRelinks(s: State, a: Action)
    requires ReturnEnabled(s, a)
    ensures var c := ReturnChange(s, a); c.y.Some? && c.y.value.deleg.Some? ==> c.o in s.opens && s.opens[c.o].deleg == c.y.value.deleg
  {
    hide HasDelegatedLocks, Settled, FirstDelegated;
  }

  lemma LockRelinks(s: State, a: Action)
    requires LockEnabled(s, a)
    ensures var c := LockChange(s, a); c.y.Some? && c.y.value.deleg.Some? ==> c.o in s.opens && s.opens[c.o].deleg == c.y.value.deleg
  {
  }

  lemma StepRelinks(s: State, a: Action)
    requires Works(s) && Enabled(s, a)
    ensures var c := ChangeOf(s, a);
      c.y.Some? && c.y.value.deleg.Some? ==> c.o in s.opens && (s.opens[c.o].stage.Fresh? || s.opens[c.o].deleg == c.y.value.deleg)
  {
    hide OpenEnabled, OuterEnabled, ReturnEnabled, LockEnabled, OpeningChange, OuterChange, ReturnChange, LockChange, Works;
    if OpenEnabled(s, a) {
      OpeningRelinks(s, a);
    } else if OuterEnabled(s, a) {
      OuterRelinks(s, a);
    } else if ReturnEnabled(s, a) {
      ReturnRelinks(s, a);
    } else {
      LockRelinks(s, a);
    }
  }

  /** A delegated lock is there already, or is granted under a write delegation. */
  lemma StepLocks(s: State, a: Action)
    requires Inv(s) && Enabled(s, a)
    ensures var c := ChangeOf(s, a);
      c.y.Some? && HasDelegatedLocks(c.y.value) ==>
        && c.o in s.opens
        && (HasDelegatedLocks(s.opens[c.o])
            || (c.y.value.deleg.Some? && c.y.value.deleg.value in s.delegs && s.delegs[c.y.value.deleg.value].kind == WriteDelegation))
  {
    hide Inv;
    var c := ChangeOf(s, a);
    if a.LockLocally? {
      LocallyUnderWrite(s, a);
    } else {
      StepAddsNone(s, a);
      hide Enabled, ChangeOf;
      if c.y.Some? && HasDelegatedLocks(c.y.value) {
        var i :| 0 <= i < |c.y.value.locks| && c.y.value.locks[i].delegated;
        assert c.y.value.locks[i].id in DelegatedIds(c.y.value);
      }
    }
  }

  lemma LocallyUnderWrite(s: State, a: Action)
    requires Enabled(s, a) && a.LockLocally?
    ensures var c := ChangeOf(s, a); c.y.Some? && c.o in s.opens && c.y.value.deleg.Some? && c.y.value.deleg.value in s.delegs
                                     && s.delegs[c.y.value.deleg.value].kind == WriteDelegation
  {
    hide HasDelegatedLocks;
  }

  lemma StaysUnderWrite(s: State, a: Action)
    requires Inv(s) && Enabled(s, a) && UnderWrite(s)
    ensures UnderWrite(Exec(s, a))
  {
    hide ChangeOf, Enabled, Lifecycles, Named, Returns, OneReturner, Works, OneWorker, Loops, OneReclaimer, FlagsOwned, Exec, HasDelegatedLocks;
    var c, s' := ChangeOf(s, a), Exec(s, a);
    StepRelinks(s, a);
    StepLocks(s, a);
    ExecAt(s, a, 0);
    forall o | o in s'.opens && HasDelegatedLocks(s'.opens[o]) && s'.opens[o].deleg.Some? && s'.opens[o].deleg.value in s'.delegs
      ensures s'.delegs[s'.opens[o].deleg.value].kind == WriteDelegation
    {
      var d := s'.opens[o].deleg.value;
      StepForward(s, a, d);
      if o in s.opens && HasDelegatedLocks(s.opens[o]) {
        FreshHasNone(s, o);
        LinkedExists(s, o);
      }
    }
  }

  lemma FreshHasNone(s: State, o: OpenId)
    requires LocksOrdered(s) && o in s.opens && HasDelegatedLocks(s.opens[o])
    ensures !s.opens[o].stage.Fresh?
  {
    assert LocksOk(s.opens[o]);
  }

  lemma LinkedExists(s: State, o: OpenId)
    requires RefsExact(s) && o in s.opens
    ensures s.opens[o].deleg.Some? ==> s.opens[o].deleg.value in s.delegs
  {
    if s.opens[o].deleg.Some? {
      var d := s.opens[o].deleg.value;
      LinkCounts(s, o, d);
      assert Refs(At(s.delegs, d)) == ClientRef(At(s.delegs, d)) + |Linked(s, d)| + |Holders(s, d)|;
    }
  }

  lemma {:induction false} RunUnderWrite(s: State, run: seq<Action>)
    requires Inv(s) && UnderWrite(s) && Run(s, run)
    ensures UnderWrite(After(s, run))
    decreases |run|
  {
    hide Inv, Enabled, Exec, UnderWrite;
    if run != [] {
      StaysUnderWrite(s, run[0]);
      StepKeepsInv(s, run[0]);
      RunUnderWrite(Exec(s, run[0]), run[1..]);
    }
  }

  /** In every run, an open with a lock that only the client knows is linked to a
      write delegation, unless its delegation has been taken away. */
  lemma LocalLocksUnderWrite(run: seq<Action>, o: OpenId)
    requires Run(START, run)
    ensures var s := After(START, run);
      o in s.opens && HasDelegatedLocks(s.opens[o]) && s.opens[o].deleg.Some? ==>
        s.opens[o].deleg.value in s.delegs && s.delegs[s.opens[o].deleg.value].kind == WriteDelegation
  {
    hide Run, After, Lifecycles, Named, Returns, OneReturner, Works, OneWorker, Loops, LocksOrdered, OneReclaimer, FlagsOwned, HasDelegatedLocks, RefsExact;
    StartIsSafe();
    assert UnderWrite(START);
    RunUnderWrite(START, run);
    RunKeepsInv(START, run);
    if o in After(START, run).opens {
      LinkedExists(After(START, run), o);
    }
  }

  // Locks and recovery

  /** A granted lock is the one asked for and the latest of its open, delegated if
      and only if it was granted locally. */
  lemma LockIsAdded(s: State, a: Action)
    requires LockEnabled(s, a) && (a.LockLocally? || a.LockAtServer?)
    ensures var s' := Exec(s, a);
      && s'.delegs == s.delegs && s'.threads == s.threads && s'.opens.Keys == s.opens.Keys
      && (forall o :: o in s.opens && o != a.o ==> s'.opens[o] == s.opens[o])
      && s'.opens[a.o].deleg == s.opens[a.o].deleg && s'.opens[a.o].doClose == s.opens[a.o].doClose
      && s'.opens[a.o].locks == s.opens[a.o].locks + [Lock(s.opens[a.o].counter, a.offset, a.length, a.exclusive, a.LockLocally?)]
  {
    SamePut(s.delegs, 0);
  }

  /** An unlock takes off the one lock. */
  lemma UnlockTakesOne(s: State, o: OpenId, i: nat)
    requires LockEnabled(s, Unlock(o, i))
    ensures var s' := Exec(s, Unlock(o, i));
      && s'.delegs == s.delegs && s'.threads == s.threads && s'.opens.Keys == s.opens.Keys
      && (forall p :: p in s.opens && p != o ==> s'.opens[p] == s.opens[p])
      && multiset(s'.opens[o].locks) + multiset{s.opens[o].locks[i]} == multiset(s.opens[o].locks)
  {
    SamePut(s.delegs, 0);
    var locks := s.opens[o].locks;
    assert locks == locks[..i] + [locks[i]] + locks[i + 1..];
  }

  /** Recovery gives an open its stateid back, and marks the delegations that it
      could not reclaim, and changes nothing else. */
  lemma RecoverySteps(s: State, o: OpenId, d: DelegId)
    ensures OpenEnabled(s, RecoverOpen(o)) ==> Exec(s, RecoverOpen(o)) == s.(opens := s.opens[o := s.opens[o].(doClose := true)])
    ensures OuterEnabled(s, Revoke(d)) ==> Exec(s, Revoke(d)) == s.(delegs := s.delegs[d := s.delegs[d].(revoked := true)])
    ensures OuterEnabled(s, Reclaim(d)) ==> Exec(s, Reclaim(d)) == s.(delegs := s.delegs[d := s.delegs[d].(revoked := false)])
  {
    SamePut(s.delegs, 0);
    SamePut(s.opens, 0);
  }
}
