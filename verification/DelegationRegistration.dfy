/** The registration of a new delegation. nfs41_delegation_granted puts it on
    the client's list in one region and takes the caller's reference in the
    next. In between the delegation can be returned and freed. */
module DelegationRegistrations {
  import opened Lists
  import opened Delegations
  import opened DelegationSafety
  import opened DelegationSteps
  import opened DelegationRuns
  import opened DelegationReturns

  /** What can take a delegation away from GRANTED: a conflicting open, an
      operation on the file, CB_RECALL, the return of unused delegations, and
      client state recovery. */
  datatype Starter = Conflict | Synchronous | Callback | Unneeded | Recovery

  function StarterOf(a: Action): Option<Starter> {
    match a
    case CheckOpen(_) => Some(Conflict)
    case CheckReturn(_) => Some(Synchronous)
    case CheckRecall(_, _) => Some(Callback)
    case PickLru(_, _) => Some(Unneeded)
    case PickRecovery(_, _) => Some(Recovery)
    case _ => None
  }

  predicate IsGranted(s: State, d: DelegId) {
    d in s.delegs && s.delegs[d].phase.Granted?
  }

  predicate Registers(s: State, t: ThreadId, d: DelegId) {
    PcOf(s, t).Registered? && PcOf(s, t).d == d
  }

  /** A thread has listed the delegation and not yet taken its reference. */
  ghost predicate InWindow(s: State, d: DelegId) {
    exists t: ThreadId :: Registers(s, t, d)
  }

  /** A thread is about to take a reference on a delegation that has been freed. */
  ghost predicate Dangling(s: State) {
    exists t: ThreadId, d: DelegId :: Registers(s, t, d) && d !in s.delegs
  }

  /** A starter that is not allowed to leaves delegations alone while they are registered. */
  ghost predicate Permitted(s: State, a: Action, allowed: set<Starter>)
    requires Enabled(s, a)
  {
    StarterOf(a).Some? && StarterOf(a).value !in allowed ==>
      forall d: DelegId :: InWindow(s, d) && IsGranted(s, d) ==> IsGranted(Exec(s, a), d)
  }

  ghost predicate AllPermitted(s: State, run: seq<Action>, allowed: set<Starter>)
    requires Run(s, run)
    decreases |run|
  {
    run != [] ==> Permitted(s, run[0], allowed) && AllPermitted(Exec(s, run[0]), run[1..], allowed)
  }

  // Without a starter in the window

  lemma OpeningKeepsGranted(s: State, a: Action)
    requires OpenEnabled(s, a)
    ensures var c := OpeningChange(s, a); IsGranted(s, c.d) && c.x.Some? ==> c.x.value.phase.Granted?
  {
  }

  lemma RegistersGranted(s: State, a: Action)
    requires OpenEnabled(s, a)
    ensures var c := OpeningChange(s, a); c.pc.Registered? ==> c.d == c.pc.d && c.x.Some? && c.x.value.phase.Granted?
  {
  }

  lemma OuterKeepsGranted(s: State, a: Action)
    requires OuterEnabled(s, a)
    ensures var c := OuterChange(s, a); IsGranted(s, c.d) && c.x.Some? && StarterOf(a).None? ==> c.x.value.phase.Granted?
    ensures !OuterChange(s, a).pc.Registered?
  {
  }

  lemma ReturnKeepsGranted(s: State, a: Action)
    requires Returns(s) && ReturnEnabled(s, a)
    ensures var c := ReturnChange(s, a); IsGranted(s, c.d) && c.x.Some? ==> c.x.value.phase.Granted?
    ensures !ReturnChange(s, a).pc.Registered?
  {
    hide HasDelegatedLocks, Settled, FirstDelegated;
    if a.Mark? {
      assert Returner(PcOf(s, a.t), PcOf(s, a.t).d);
    }
  }

  lemma LockKeepsGranted(s: State, a: Action)
    requires LockEnabled(s, a)
    ensures var c := LockChange(s, a); IsGranted(s, c.d) && c.x.Some? ==> c.x.value.phase.Granted?
    ensures !LockChange(s, a).pc.Registered?
  {
  }

  lemma StepKeepsGranted(s: State, a: Action)
    requires Returns(s) && Enabled(s, a)
    ensures var c := ChangeOf(s, a); IsGranted(s, c.d) && c.x.Some? && StarterOf(a).None? ==> c.x.value.phase.Granted?
    ensures var c := ChangeOf(s, a); c.pc.Registered? ==> c.d == c.pc.d && c.x.Some? && c.x.value.phase.Granted?
  {
    hide OpenEnabled, OuterEnabled, ReturnEnabled, LockEnabled, OpeningChange, OuterChange, ReturnChange, LockChange, Returns;
    if OpenEnabled(s, a) {
      OpeningKeepsGranted(s, a);
      RegistersGranted(s, a);
    } else if OuterEnabled(s, a) {
      OuterKeepsGranted(s, a);
    } else if ReturnEnabled(s, a) {
      ReturnKeepsGranted(s, a);
    } else {
      LockKeepsGranted(s, a);
    }
  }

  /** Only a starter takes a delegation away from GRANTED. */
  lemma OnlyStarters(s: State, a: Action, d: DelegId)
    requires Inv(s) && Enabled(s, a) && IsGranted(s, d) && StarterOf(a).None?
    ensures IsGranted(Exec(s, a), d)
  {
    hide ChangeOf, Enabled, RefsExact, Named, OneReturner, Works, OneWorker, Loops, LocksOrdered, OneReclaimer, FlagsOwned,
      RefsRule, NameRule, ReturnRule, LinkRule, OpenRule, WorkRule, LoopRule, LockRule, ReclaimRule, Exec, StarterOf;
    StepIsLegal(s, a);
    StepKeepsGranted(s, a);
    ExecAt(s, a, d);
    assert Lifecycle(s.delegs[d]);
    assert forall t: ThreadId :: !Returner(PcOf(s, t), d);
    assert !ReleasingOf(Before(s, ChangeOf(s, a)), d);
  }

  /** Every delegation that is being registered is granted. */
  ghost predicate WindowsGranted(s: State) {
    forall t: ThreadId, d: DelegId :: Registers(s, t, d) ==> IsGranted(s, d)
  }

  lemma WindowsStayGranted(s: State, a: Action)
    requires Inv(s) && Enabled(s, a) && WindowsGranted(s) && Permitted(s, a, {})
    ensures WindowsGranted(Exec(s, a))
  {
    hide ChangeOf, Enabled, RefsExact, Lifecycles, Named, OneReturner, Works, OneWorker, Loops, LocksOrdered, OneReclaimer, FlagsOwned, Exec, StarterOf;
    var s' := Exec(s, a);
    forall t: ThreadId, d: DelegId | Registers(s', t, d) ensures IsGranted(s', d) {
      ExecAt(s, a, d);
      StepKeepsGranted(s, a);
      if ChangeOf(s, a).t != Some(t) {
        assert Registers(s, t, d);
        if StarterOf(a).None? {
          OnlyStarters(s, a, d);
        }
      }
    }
  }

  lemma {:induction false} WindowsSafe(s: State, run: seq<Action>)
    requires Inv(s) && WindowsGranted(s) && Run(s, run) && AllPermitted(s, run, {})
    ensures !Dangling(After(s, run))
    decreases |run|
  {
    hide Inv, Enabled, Exec, Permitted;
    if run != [] {
      StepKeepsInv(s, run[0]);
      WindowsStayGranted(s, run[0]);
      WindowsSafe(Exec(s, run[0]), run[1..]);
    }
  }

  // With a starter in the window

  /** From `s` a permitted run leads to `s'`. */
  ghost predicate Allows(s: State, run: seq<Action>, s': State, allowed: set<Starter>) {
    Leads(s, run, s') && AllPermitted(s, run, allowed)
  }

  lemma {:induction false} PermittedOn(s: State, run: seq<Action>, a: Action, allowed: set<Starter>)
    requires Run(s, run + [a]) && Run(s, run) && Enabled(After(s, run), a)
    requires AllPermitted(s, run, allowed) && Permitted(After(s, run), a, allowed)
    ensures AllPermitted(s, run + [a], allowed)
    decreases |run|
  {
    hide Enabled, Exec, Permitted;
    if run == [] {
      assert run + [a] == [a];
    } else {
      assert (run + [a])[1..] == run[1..] + [a];
      PermittedOn(Exec(s, run[0]), run[1..], a, allowed);
    }
  }

  lemma AllowsOn(s: State, run: seq<Action>, s': State, a: Action, allowed: set<Starter>)
    requires Allows(s, run, s', allowed) && Enabled(s', a) && (StarterOf(a).Some? ==> StarterOf(a).value in allowed)
    ensures Allows(s, run + [a], Exec(s', a), allowed)
  {
    hide Run, After, Enabled, Exec, AllPermitted, StarterOf;
    LeadsOn(s, run, s', a);
    PermittedOn(s, run, a, allowed);
  }

  lemma RegisterTo(s: State, t: ThreadId, kind: Kind)
    requires PcOf(s, t).Opening?
    ensures Enabled(s, Register(t, kind))
    ensures Exec(s, Register(t, kind)) ==
      State(s.delegs[s.issued := Deleg(kind, Granted, false, false, 1, true, true)], s.opens,
            s.threads[t := Registered(s.issued, PcOf(s, t).o)], s.issued + 1)
  {
    SamePut(s.opens, 0);
  }

  lemma CheckRecallTo(s: State, t: ThreadId, d: DelegId)
    requires d in s.delegs && s.delegs[d].phase.Granted? && !s.delegs[d].recalled && PcOf(s, t) == Found(d, Recall)
    ensures Enabled(s, CheckRecall(t, true))
    ensures Exec(s, CheckRecall(t, true)) ==
      s.(delegs := s.delegs[d := s.delegs[d].(recalled := true, phase := Returning)], threads := s.threads[t := LoopHead(d, true, {})])
  {
    SamePut(s.opens, 0);
  }

  lemma PickLruTo(s: State, t: ThreadId, d: DelegId)
    requires d in s.delegs && s.delegs[d].phase.Granted? && s.delegs[d].listed && s.delegs[d].refCount == 1 && PcOf(s, t).Idle?
    ensures Enabled(s, PickLru(t, d))
    ensures Exec(s, PickLru(t, d)) ==
      s.(delegs := s.delegs[d := s.delegs[d].(phase := Returning)], threads := s.threads[t := LoopHead(d, false, {})])
  {
    SamePut(s.opens, 0);
  }

  lemma RevokeTo(s: State, d: DelegId)
    requires d in s.delegs
    ensures Enabled(s, Revoke(d)) && Exec(s, Revoke(d)) == s.(delegs := s.delegs[d := s.delegs[d].(revoked := true)])
  {
    SamePut(s.opens, 0);
  }

  lemma PickRecoveryTo(s: State, t: ThreadId, d: DelegId)
    requires d in s.delegs && s.delegs[d].phase.Granted? && s.delegs[d].listed && s.delegs[d].revoked && PcOf(s, t).Idle?
    ensures Enabled(s, PickRecovery(t, d))
    ensures Exec(s, PickRecovery(t, d)) ==
      s.(delegs := s.delegs[d := s.delegs[d].(phase := Returned)], threads := s.threads[t := Removing(d, false)])
  {
    SamePut(s.opens, 0);
  }

  lemma ReplyTo(s: State, t: ThreadId)
    requires PcOf(s, t).Sending?
    ensures var pc := PcOf(s, t);
      && Enabled(s, DelegReturnReply(t, false))
      && Exec(s, DelegReturnReply(t, false)) == s.(threads := s.threads[t := Removing(pc.d, pc.held)])
  {
    SamePut(s.opens, 0);
    SamePut(s.delegs, 0);
  }

  lemma UnlistTo(s: State, t: ThreadId)
    requires PcOf(s, t).Removing? && PcOf(s, t).d in s.delegs
    ensures var pc := PcOf(s, t);
      && Enabled(s, Unlist(t))
      && Exec(s, Unlist(t)) ==
           s.(delegs := s.delegs[pc.d := s.delegs[pc.d].(listed := false)], threads := s.threads[t := Unlinking(pc.d, pc.held)])
  {
    SamePut(s.opens, 0);
  }

  lemma UnlinkedTo(s: State, t: ThreadId)
    requires PcOf(s, t).Unlinking? && forall o :: IsListed(s, o) ==> s.opens[o].deleg != Some(PcOf(s, t).d)
    ensures var pc := PcOf(s, t);
      Enabled(s, UnlinkedAll(t)) && Exec(s, UnlinkedAll(t)) == s.(threads := s.threads[t := Marking(pc.d, pc.held)])
  {
    SamePut(s.opens, 0);
    SamePut(s.delegs, 0);
  }

  lemma MarkTo(s: State, t: ThreadId)
    requires PcOf(s, t).Marking? && PcOf(s, t).d in s.delegs
    ensures var pc := PcOf(s, t);
      && Enabled(s, Mark(t))
      && Exec(s, Mark(t)) ==
           s.(delegs := s.delegs[pc.d := s.delegs[pc.d].(phase := Returned)], threads := s.threads[t := Releasing(pc.d, pc.held)])
  {
    SamePut(s.opens, 0);
  }

  lemma ReleaseTo(s: State, t: ThreadId)
    requires PcOf(s, t).Releasing? && PcOf(s, t).d in s.delegs
    ensures var pc := PcOf(s, t);
      var x := s.delegs[pc.d].(clientRef := false);
      && Enabled(s, Release(t))
      && Exec(s, Release(t)) == s.(delegs := Put(s.delegs, pc.d, Deref(x)), threads := s.threads[t := AfterReturn(pc.d, pc.held)])
  {
    SamePut(s.opens, 0);
  }

  lemma DropTo(s: State, t: ThreadId)
    requires PcOf(s, t).Dropping? && PcOf(s, t).d in s.delegs
    ensures var d := PcOf(s, t).d;
      Enabled(s, Drop(t)) && Exec(s, Drop(t)) == s.(delegs := Put(s.delegs, d, Deref(s.delegs[d])), threads := s.threads[t := Idle])
  {
    SamePut(s.opens, 0);
  }

  /** No open on the client's list is linked to the delegation, and only the
      client and the thread that returns it own references. */
  ghost predicate Bare(s: State, d: DelegId, held: bool) {
    && d in s.delegs && s.delegs[d].refCount == (if held then 2 else 1)
    && forall o :: IsListed(s, o) ==> s.opens[o].deleg != Some(d)
  }

  ghost predicate SameButFor(s: State, s': State, u: ThreadId) {
    forall t: ThreadId :: t != u ==> PcOf(s', t) == PcOf(s, t)
  }

  lemma CanUnlist(s0: State, run: seq<Action>, s: State, u: ThreadId, d: DelegId, allowed: set<Starter>) returns (more: seq<Action>, s': State)
    requires Allows(s0, run, s, allowed) && PcOf(s, u).Removing? && PcOf(s, u).d == d && Bare(s, d, PcOf(s, u).held)
    ensures Allows(s0, more, s', allowed) && SameButFor(s, s', u)
    ensures PcOf(s', u) == Releasing(d, PcOf(s, u).held) && Bare(s', d, PcOf(s, u).held)
  {
    hide Run, After, Enabled, Exec, Allows;
    UnlistTo(s, u);
    AllowsOn(s0, run, s, Unlist(u), allowed);
    var s1 := Exec(s, Unlist(u));
    UnlinkedTo(s1, u);
    AllowsOn(s0, run + [Unlist(u)], s1, UnlinkedAll(u), allowed);
    var s2 := Exec(s1, UnlinkedAll(u));
    MarkTo(s2, u);
    AllowsOn(s0, run + [Unlist(u)] + [UnlinkedAll(u)], s2, Mark(u), allowed);
    s' := Exec(s2, Mark(u));
    more := run + [Unlist(u)] + [UnlinkedAll(u)] + [Mark(u)];
  }

  lemma CanRemove(s0: State, run: seq<Action>, s: State, u: ThreadId, d: DelegId, allowed: set<Starter>) returns (more: seq<Action>, s': State)
    requires Allows(s0, run, s, allowed) && PcOf(s, u).Removing? && PcOf(s, u).d == d && Bare(s, d, PcOf(s, u).held)
    ensures Allows(s0, more, s', allowed) && SameButFor(s, s', u) && d !in s'.delegs
  {
    hide Run, After, Enabled, Exec, Allows;
    var run1, s1 := CanUnlist(s0, run, s, u, d, allowed);
    ReleaseTo(s1, u);
    AllowsOn(s0, run1, s1, Release(u), allowed);
    s' := Exec(s1, Release(u));
    more := run1 + [Release(u)];
    if PcOf(s, u).held {
      DropTo(s', u);
      AllowsOn(s0, more, s', Drop(u), allowed);
      s' := Exec(s', Drop(u));
      more := more + [Drop(u)];
    }
  }

  lemma CanReturn(s0: State, run: seq<Action>, s: State, u: ThreadId, d: DelegId, allowed: set<Starter>) returns (more: seq<Action>, s': State)
    requires Allows(s0, run, s, allowed) && PcOf(s, u).LoopHead? && PcOf(s, u).d == d && Bare(s, d, PcOf(s, u).held)
    ensures Allows(s0, more, s', allowed) && SameButFor(s, s', u) && d !in s'.delegs
  {
    hide Run, After, Enabled, Exec, Allows, HasDelegatedLocks;
    NoMoreOpensTo(s, u);
    AllowsOn(s0, run, s, NoMoreOpens(u), allowed);
    var s1 := Exec(s, NoMoreOpens(u));
    ReplyTo(s1, u);
    AllowsOn(s0, run + [NoMoreOpens(u)], s1, DelegReturnReply(u, false), allowed);
    var s2 := Exec(s1, DelegReturnReply(u, false));
    more, s' := CanRemove(s0, run + [NoMoreOpens(u)] + [DelegReturnReply(u, false)], s2, u, d, allowed);
  }

  /** Thread 0 has listed delegation 0, and nothing else has happened. */
  ghost predicate JustRegistered(s: State) {
    && s.threads == map[0 := Registered(0, 0)] && 1 !in s.opens
    && s.delegs == map[0 := Deleg(ReadDelegation, Granted, false, false, 1, true, true)]
    && forall o :: o in s.opens ==> s.opens[o].stage.Fresh?
  }

  lemma CanRegister(allowed: set<Starter>) returns (run: seq<Action>, s: State)
    ensures Allows(START, run, s, allowed) && JustRegistered(s)
  {
    hide Enabled, Exec;
    assert Allows(START, [], START, allowed);
    BeginTo(START, 0, 0);
    AllowsOn(START, [], START, Begin(0, 0), allowed);
    var s1 := Exec(START, Begin(0, 0));
    RegisterTo(s1, 0, ReadDelegation);
    AllowsOn(START, [] + [Begin(0, 0)], s1, Register(0, ReadDelegation), allowed);
    s := Exec(s1, Register(0, ReadDelegation));
    run := [] + [Begin(0, 0)] + [Register(0, ReadDelegation)];
  }

  lemma ByConflict(run0: seq<Action>, s0: State, allowed: set<Starter>) returns (run: seq<Action>, s: State)
    requires Allows(START, run0, s0, allowed) && JustRegistered(s0) && Conflict in allowed
    ensures Allows(START, run, s, allowed) && Registers(s, 0, 0) && 0 !in s.delegs
  {
    hide Run, After, Enabled, Exec, Allows;
    BeginTo(s0, 1, 1);
    AllowsOn(START, run0, s0, Begin(1, 1), allowed);
    var s1 := Exec(s0, Begin(1, 1));
    FindTo(s1, 1, 0, OpenFile(1, false));
    AllowsOn(START, run0 + [Begin(1, 1)], s1, Find(1, 0, OpenFile(1, false)), allowed);
    var s2 := Exec(s1, Find(1, 0, OpenFile(1, false)));
    CheckOpenTo(s2, 1, 0, 1, false);
    AllowsOn(START, run0 + [Begin(1, 1)] + [Find(1, 0, OpenFile(1, false))], s2, CheckOpen(1), allowed);
    run, s := CanReturn(START, run0 + [Begin(1, 1)] + [Find(1, 0, OpenFile(1, false))] + [CheckOpen(1)], Exec(s2, CheckOpen(1)), 1, 0, allowed);
  }

  lemma BySynchronous(run0: seq<Action>, s0: State, allowed: set<Starter>) returns (run: seq<Action>, s: State)
    requires Allows(START, run0, s0, allowed) && JustRegistered(s0) && Synchronous in allowed
    ensures Allows(START, run, s, allowed) && Registers(s, 0, 0) && 0 !in s.delegs
  {
    hide Run, After, Enabled, Exec, Allows;
    FindTo(s0, 1, 0, SyncReturn(false));
    AllowsOn(START, run0, s0, Find(1, 0, SyncReturn(false)), allowed);
    var s1 := Exec(s0, Find(1, 0, SyncReturn(false)));
    CheckReturnTo(s1, 1, 0);
    AllowsOn(START, run0 + [Find(1, 0, SyncReturn(false))], s1, CheckReturn(1), allowed);
    run, s := CanReturn(START, run0 + [Find(1, 0, SyncReturn(false))] + [CheckReturn(1)], Exec(s1, CheckReturn(1)), 1, 0, allowed);
  }

  lemma ByCallback(run0: seq<Action>, s0: State, allowed: set<Starter>) returns (run: seq<Action>, s: State)
    requires Allows(START, run0, s0, allowed) && JustRegistered(s0) && Callback in allowed
    ensures Allows(START, run, s, allowed) && Registers(s, 0, 0) && 0 !in s.delegs
  {
    hide Run, After, Enabled, Exec, Allows;
    FindTo(s0, 1, 0, Recall);
    AllowsOn(START, run0, s0, Find(1, 0, Recall), allowed);
    var s1 := Exec(s0, Find(1, 0, Recall));
    CheckRecallTo(s1, 1, 0);
    AllowsOn(START, run0 + [Find(1, 0, Recall)], s1, CheckRecall(1, true), allowed);
    run, s := CanReturn(START, run0 + [Find(1, 0, Recall)] + [CheckRecall(1, true)], Exec(s1, CheckRecall(1, true)), 1, 0, allowed);
  }

  lemma ByUnneeded(run0: seq<Action>, s0: State, allowed: set<Starter>) returns (run: seq<Action>, s: State)
    requires Allows(START, run0, s0, allowed) && JustRegistered(s0) && Unneeded in allowed
    ensures Allows(START, run, s, allowed) && Registers(s, 0, 0) && 0 !in s.delegs
  {
    hide Run, After, Enabled, Exec, Allows;
    PickLruTo(s0, 1, 0);
    AllowsOn(START, run0, s0, PickLru(1, 0), allowed);
    run, s := CanReturn(START, run0 + [PickLru(1, 0)], Exec(s0, PickLru(1, 0)), 1, 0, allowed);
  }

  lemma ByRecovery(run0: seq<Action>, s0: State, allowed: set<Starter>) returns (run: seq<Action>, s: State)
    requires Allows(START, run0, s0, allowed) && JustRegistered(s0) && Recovery in allowed
    ensures Allows(START, run, s, allowed) && Registers(s, 0, 0) && 0 !in s.delegs
  {
    hide Run, After, Enabled, Exec, Allows;
    RevokeTo(s0, 0);
    AllowsOn(START, run0, s0, Revoke(0), allowed);
    var s1 := Exec(s0, Revoke(0));
    PickRecoveryTo(s1, 1, 0);
    AllowsOn(START, run0 + [Revoke(0)], s1, PickRecovery(1, 0), allowed);
    run, s := CanRemove(START, run0 + [Revoke(0)] + [PickRecovery(1, 0)], Exec(s1, PickRecovery(1, 0)), 1, 0, allowed);
  }

  lemma CanFree(allowed: set<Starter>, starter: Starter) returns (run: seq<Action>, s: State)
    requires starter in allowed
    ensures Allows(START, run, s, allowed) && Registers(s, 0, 0) && 0 !in s.delegs
  {
    hide Run, After, Allows;
    run, s := CanRegister(allowed);
    match starter
    case Conflict => run, s := ByConflict(run, s, allowed);
    case Synchronous => run, s := BySynchronous(run, s, allowed);
    case Callback => run, s := ByCallback(run, s, allowed);
    case Unneeded => run, s := ByUnneeded(run, s, allowed);
    case Recovery => run, s := ByRecovery(run, s, allowed);
  }

  /** Registration is safe in every run if and only if none of the five starters
      is let at a delegation between its listing and the caller's reference:
      each of them alone is enough to have it freed under the caller. */
  lemma RegistrationSafeIff(allowed: set<Starter>)
    ensures (forall run :: Run(START, run) && AllPermitted(START, run, allowed) ==> !Dangling(After(START, run))) <==> allowed == {}
  {
    hide Run, After, AllPermitted, Inv;
    if allowed == {} {
      StartIsSafe();
      assert WindowsGranted(START);
      forall run | Run(START, run) && AllPermitted(START, run, allowed) ensures !Dangling(After(START, run)) {
        WindowsSafe(START, run);
      }
    } else {
      var starter :| starter in allowed;
      var run, s := CanFree(allowed, starter);
      assert Dangling(After(START, run));
    }
  }
}
