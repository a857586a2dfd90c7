/** What a clean DELEGRETURN leaves behind. An open is put on the client's list
    only after it has been linked, and the recovery loop looks at that list, so
    a return can miss an open. */
module DelegationReturns {
  import opened Lists
  import opened Delegations
  import opened DelegationSafety
  import opened DelegationSteps
  import opened DelegationRuns
  import opened DelegationLoops

  // A return that finds all opens

  /** Every open that needs the delegation is on the client's list. */
  ghost predicate Tidy(s: State, d: DelegId) {
    forall o :: o in Needy(s, d) ==> IsListed(s, o)
  }

  /** Every open of the delegation that is not being closed has an open stateid
      of its own and no lock that only the client knows. */
  ghost predicate NothingLost(s: State, d: DelegId) {
    forall o :: o in s.opens && s.opens[o].deleg == Some(d) && !s.opens[o].stage.Closing? ==>
      s.opens[o].doClose && forall i :: 0 <= i < |s.opens[o].locks| ==> !s.opens[o].locks[i].delegated
  }

  /** DELEGRETURN goes out after a loop without an error. */
  predicate CleanlySending(pc: Pc, d: DelegId) {
    pc.Sending? && pc.d == d && pc.clean
  }

  lemma NotPromisedWhenListed(s: State, d: DelegId, o: OpenId)
    requires Works(s) && IsListed(s, o)
    ensures !Promised(s, d, o)
  {
    forall t: ThreadId ensures PcOf(s, t) != Passed(d, o) {
      assert WorkOk(s, PcOf(s, t));
      assert BeingOpened(Passed(d, o), o);
    }
  }

  lemma TidyChange(s: State, c: Change, d: DelegId)
    requires Works(s) && LinkRule(s, c) && OpenRule(s, c) && !Unstarted(s, d) && Tidy(s, d)
    ensures Tidy(Apply(s, c), d)
  {
    var s' := Apply(s, c);
    LegalShrinks(s, c, d);
    forall o | o in Needy(s', d) ensures IsListed(s', o) {
      NotPromisedWhenListed(s, d, o);
      if Promised(s', d, o) {
        PromisedBefore(s, c, d, o);
      }
    }
  }

  lemma TidyStays(s: State, a: Action, d: DelegId)
    requires Inv(s) && Enabled(s, a) && Started(s, d) && Tidy(s, d)
    ensures Tidy(Exec(s, a), d)
  {
    hide ChangeOf, Enabled, RefsExact, Lifecycles, Named, Returns, OneReturner, Works, OneWorker, Loops, LocksOrdered, OneReclaimer, FlagsOwned,
      RefsRule, LifeRule, NameRule, ReturnRule, LinkRule, OpenRule, WorkRule, LoopRule, LockRule, ReclaimRule, Exec, Needy;
    if d in s.delegs {
      StepIsLegal(s, a);
      TidyChange(s, ChangeOf(s, a), d);
      ExecAt(s, a, d);
    } else {
      StillAbsent(s, a, d);
    }
  }

  lemma ReturnSends(s: State, a: Action, d: DelegId)
    requires ReturnEnabled(s, a) && CleanlySending(ReturnChange(s, a).pc, d)
    ensures forall o :: IsListed(s, o) ==> !Needs(s.opens[o], d)
  {
    hide HasDelegatedLocks, Settled, FirstDelegated;
  }

  lemma OpeningSendsNothing(s: State, a: Action, d: DelegId)
    requires OpenEnabled(s, a)
    ensures !CleanlySending(OpeningChange(s, a).pc, d)
  {
  }

  lemma OuterSendsNothing(s: State, a: Action, d: DelegId)
    requires OuterEnabled(s, a)
    ensures !CleanlySending(OuterChange(s, a).pc, d)
  {
  }

  lemma LockSendsNothing(s: State, a: Action, d: DelegId)
    requires LockEnabled(s, a)
    ensures !CleanlySending(LockChange(s, a).pc, d)
  {
  }

  /** DELEGRETURN goes out cleanly only when no listed open needs the delegation. */
  lemma SendingSeesNone(s: State, a: Action, t: ThreadId, d: DelegId)
    requires Enabled(s, a) && CleanlySending(PcOf(Exec(s, a), t), d) && !CleanlySending(PcOf(s, t), d)
    ensures forall o :: IsListed(s, o) ==> !Needs(s.opens[o], d)
  {
    hide OpenEnabled, OuterEnabled, ReturnEnabled, LockEnabled, OpeningChange, ReturnChange, LockChange, OuterChange, HasDelegatedLocks;
    assert ChangeOf(s, a).t == Some(t);
    if OpenEnabled(s, a) {
      OpeningSendsNothing(s, a, d);
    } else if OuterEnabled(s, a) {
      OuterSendsNothing(s, a, d);
    } else if ReturnEnabled(s, a) {
      ReturnSends(s, a, d);
    } else {
      LockSendsNothing(s, a, d);
    }
  }

  lemma {:induction false} TidyRun(s: State, run: seq<Action>, t: ThreadId, d: DelegId)
    requires Inv(s) && Run(s, run) && Started(s, d) && Tidy(s, d) && (CleanlySending(PcOf(s, t), d) ==> Needy(s, d) == {})
    ensures CleanlySending(PcOf(After(s, run), t), d) ==> Needy(After(s, run), d) == {}
    decreases |run|
  {
    hide Inv, Enabled, Exec, Needy, Started, CleanlySending;
    if run != [] {
      var s' := Exec(s, run[0]);
      StepKeepsInv(s, run[0]);
      StartedStays(s, run[0], d);
      TidyStays(s, run[0], d);
      NothingNew(s, run[0], d);
      if CleanlySending(PcOf(s', t), d) && !CleanlySending(PcOf(s, t), d) {
        SendingSeesNone(s, run[0], t, d);
        NoneNeedy(s, d);
      }
      TidyRun(s', run[1..], t, d);
    }
  }

  lemma NoneNeedy(s: State, d: DelegId)
    requires Inv(s) && Tidy(s, d) && forall o :: IsListed(s, o) ==> !Needs(s.opens[o], d)
    ensures Needy(s, d) == {}
  {
    hide RefsExact, Lifecycles, Named, Returns, OneReturner, Works, OneWorker, Loops, LocksOrdered, OneReclaimer, FlagsOwned, Needs;
    forall o | o in s.opens ensures o !in Needy(s, d) {
      if IsListed(s, o) {
        NotPromisedWhenListed(s, d, o);
      }
    }
  }

  // A return that misses an open

  ghost predicate Leads(s: State, run: seq<Action>, s': State) {
    Run(s, run) && After(s, run) == s'
  }

  lemma LeadsOn(s: State, run: seq<Action>, s': State, a: Action)
    requires Leads(s, run, s') && Enabled(s', a)
    ensures Leads(s, run + [a], Exec(s', a))
  {
    hide Run, After, Enabled, Exec;
    RunOne(s', a);
    RunOn(s, run, [a]);
  }

  lemma CloseTo(s: State, o: OpenId)
    requires IsListed(s, o)
    ensures Enabled(s, CloseOpen(o)) && Exec(s, CloseOpen(o)) == s.(opens := s.opens[o := s.opens[o].(stage := Closing)])
  {
    SamePut(s.delegs, 0);
  }

  lemma NoMoreOpensTo(s: State, t: ThreadId)
    requires PcOf(s, t).LoopHead? && forall o :: IsListed(s, o) ==> !Needs(s.opens[o], PcOf(s, t).d)
    ensures var pc := PcOf(s, t);
      Enabled(s, NoMoreOpens(t)) && Exec(s, NoMoreOpens(t)) == s.(threads := s.threads[t := Sending(pc.d, pc.held, true)])
  {
    hide HasDelegatedLocks;
    SamePut(s.opens, 0);
    SamePut(s.delegs, 0);
  }

  lemma LinkTo(s: State, t: ThreadId)
    requires PcOf(s, t).Passed? && PcOf(s, t).o in s.opens
    ensures var pc := PcOf(s, t);
      && Enabled(s, LinkOpen(t, true))
      && Exec(s, LinkOpen(t, true)) ==
           s.(opens := s.opens[pc.o := s.opens[pc.o].(deleg := Some(pc.d))], threads := s.threads[t := Listing(pc.o)])
  {
    SamePut(s.delegs, PcOf(s, t).d);
  }

  /** The opens that the recovery loop can see and has to deal with. */
  ghost function Visible(s: State, d: DelegId): set<OpenId> {
    set o | o in s.opens && s.opens[o].stage.Listed? && Needs(s.opens[o], d)
  }

  /** When the files that the loop can see are closed meanwhile, it ends. */
  lemma {:induction false} CanSend(s: State, t: ThreadId, d: DelegId, o: OpenId) returns (run: seq<Action>)
    requires PcOf(s, t).LoopHead? && PcOf(s, t).d == d && o in s.opens && s.opens[o].stage.Fresh?
    ensures Run(s, run) && CleanlySending(PcOf(After(s, run), t), d) && At(After(s, run).opens, o) == At(s.opens, o)
    decreases Visible(s, d)
  {
    hide Enabled, Exec, Needs;
    if Visible(s, d) == {} {
      assert forall p :: IsListed(s, p) ==> p !in Visible(s, d);
      NoMoreOpensTo(s, t);
      RunOne(s, NoMoreOpens(t));
      run := [NoMoreOpens(t)];
    } else {
      var p :| p in Visible(s, d);
      CloseTo(s, p);
      var s' := Exec(s, CloseOpen(p));
      assert Visible(s', d) == Visible(s, d) - {p};
      var rest := CanSend(s', t, d, o);
      run := [CloseOpen(p)] + rest;
      assert run[1..] == rest;
    }
  }

  /** An open that is owed or promised, and not yet listed, can be missed. */
  lemma CanMiss(s: State, t: ThreadId, d: DelegId, o: OpenId) returns (run: seq<Action>)
    requires Works(s) && PcOf(s, t).LoopHead? && PcOf(s, t).d == d && o in Needy(s, d) && !IsListed(s, o)
    ensures Run(s, run) && CleanlySending(PcOf(After(s, run), t), d) && !NothingLost(After(s, run), d)
  {
    hide Enabled, Exec, Run, After;
    if Promised(s, d, o) {
      var u: ThreadId :| PcOf(s, u) == Passed(d, o);
      assert WorkOk(s, PcOf(s, u)) && BeingOpened(PcOf(s, u), o);
      LinkTo(s, u);
      var s' := Exec(s, LinkOpen(u, true));
      RunOne(s, LinkOpen(u, true));
      var rest := CanSend(s', t, d, o);
      RunOn(s, [LinkOpen(u, true)], rest);
      run := [LinkOpen(u, true)] + rest;
    } else {
      run := CanSend(s, t, d, o);
    }
    assert At(After(s, run).opens, o).Some? && Owes(After(s, run).opens[o], d);
  }

  /** A return that ends cleanly is certain to leave no open that depends on the
      delegation if and only if, when the loop begins, every open that depends
      on it, or is about to, is on the client's list. */
  lemma CleanReturnIff(s: State, t: ThreadId, d: DelegId)
    requires Inv(s) && PcOf(s, t).LoopHead? && PcOf(s, t).d == d
    ensures (forall run :: Run(s, run) && CleanlySending(PcOf(After(s, run), t), d) ==> NothingLost(After(s, run), d)) <==> Tidy(s, d)
  {
    hide Run, After, RefsExact, Lifecycles, OneReturner, OneWorker, Loops, LocksOrdered, OneReclaimer, FlagsOwned, Needy;
    assert Returner(PcOf(s, t), d);
    assert ReturnOk(s, PcOf(s, t), d);
    if Tidy(s, d) {
      forall run | Run(s, run) && CleanlySending(PcOf(After(s, run), t), d) ensures NothingLost(After(s, run), d) {
        TidyRun(s, run, t, d);
        NoneOwed(After(s, run), d);
      }
    } else {
      var o :| o in Needy(s, d) && !IsListed(s, o);
      var run := CanMiss(s, t, d, o);
    }
  }

  lemma NoneOwed(s: State, d: DelegId)
    requires Needy(s, d) == {}
    ensures NothingLost(s, d)
  {
    assert forall o :: o in s.opens ==> o !in Needy(s, d);
  }

  // The miss is within reach of every granted delegation

  lemma BeginTo(s: State, t: ThreadId, o: OpenId)
    requires PcOf(s, t).Idle? && o !in s.opens
    ensures Enabled(s, Begin(t, o))
    ensures Exec(s, Begin(t, o)) ==
      s.(opens := s.opens[o := Open(None, false, false, Fresh, [], 0)], threads := s.threads[t := Opening(o)])
  {
    SamePut(s.delegs, 0);
  }

  lemma FindTo(s: State, t: ThreadId, d: DelegId, why: Purpose)
    requires d in s.delegs && s.delegs[d].listed && PcOf(s, t) == if why.OpenFile? then Opening(why.open) else Idle
    ensures Enabled(s, Find(t, d, why))
    ensures Exec(s, Find(t, d, why)) ==
      s.(delegs := s.delegs[d := s.delegs[d].(refCount := s.delegs[d].refCount + 1)], threads := s.threads[t := Found(d, why)])
  {
    SamePut(s.opens, 0);
  }

  lemma CheckOpenTo(s: State, t: ThreadId, d: DelegId, o: OpenId, compatible: bool)
    requires d in s.delegs && s.delegs[d].phase.Granted? && PcOf(s, t) == Found(d, OpenFile(o, compatible))
    requires compatible || s.delegs[d].kind.ReadDelegation?
    ensures Enabled(s, CheckOpen(t))
    ensures Exec(s, CheckOpen(t)) ==
      if compatible then s.(threads := s.threads[t := Passed(d, o)])
      else s.(delegs := s.delegs[d := s.delegs[d].(phase := Returning)], threads := s.threads[t := LoopHead(d, true, {})])
  {
    SamePut(s.opens, 0);
    SamePut(s.delegs, 0);
  }

  lemma CheckReturnTo(s: State, t: ThreadId, d: DelegId)
    requires d in s.delegs && s.delegs[d].phase.Granted? && PcOf(s, t) == Found(d, SyncReturn(false))
    ensures Enabled(s, CheckReturn(t))
    ensures Exec(s, CheckReturn(t)) ==
      s.(delegs := s.delegs[d := s.delegs[d].(phase := Returning)], threads := s.threads[t := LoopHead(d, true, {})])
  {
    SamePut(s.opens, 0);
  }

  /** A thread opens a file under the delegation and has passed the check. */
  lemma CanPass(s: State, t: ThreadId, d: DelegId, o: OpenId) returns (run: seq<Action>)
    requires d in s.delegs && s.delegs[d].phase.Granted? && s.delegs[d].listed && PcOf(s, t).Idle? && o !in s.opens
    ensures Run(s, run)
    ensures var s' := After(s, run);
      && d in s'.delegs && s'.delegs[d].phase.Granted? && s'.delegs[d].listed
      && s'.opens == s.opens[o := Open(None, false, false, Fresh, [], 0)] && s'.threads == s.threads[t := Passed(d, o)]
  {
    hide Run, After, Enabled, Exec;
    BeginTo(s, t, o);
    var s1 := Exec(s, Begin(t, o));
    FindTo(s1, t, d, OpenFile(o, true));
    var s2 := Exec(s1, Find(t, d, OpenFile(o, true)));
    CheckOpenTo(s2, t, d, o, true);
    RunOne(s, Begin(t, o));
    LeadsOn(s, [Begin(t, o)], s1, Find(t, d, OpenFile(o, true)));
    LeadsOn(s, [Begin(t, o)] + [Find(t, d, OpenFile(o, true))], s2, CheckOpen(t));
    run := [Begin(t, o)] + [Find(t, d, OpenFile(o, true))] + [CheckOpen(t)];
  }

  /** Whatever else is going on, every granted delegation can be returned cleanly
      with an open left behind that depends on it. */
  lemma GrantCanLose(s: State, d: DelegId, t: ThreadId, u: ThreadId, o: OpenId) returns (run: seq<Action>)
    requires Inv(s) && d in s.delegs && s.delegs[d].phase.Granted?
    requires t != u && PcOf(s, t).Idle? && PcOf(s, u).Idle? && o !in s.opens
    ensures Run(s, run) && CleanlySending(PcOf(After(s, run), u), d) && !NothingLost(After(s, run), d)
  {
    hide Run, After, Enabled, Exec, RefsExact, Named, Returns, OneReturner, OneWorker, Loops, LocksOrdered, OneReclaimer, FlagsOwned, NothingLost;
    var run0 := CanPass(s, t, d, o);
    var s0 := After(s, run0);
    RunKeepsInv(s, run0);
    FindTo(s0, u, d, SyncReturn(false));
    var s1 := Exec(s0, Find(u, d, SyncReturn(false)));
    LeadsOn(s, run0, s0, Find(u, d, SyncReturn(false)));
    CheckReturnTo(s1, u, d);
    var s2 := Exec(s1, CheckReturn(u));
    var run2 := run0 + [Find(u, d, SyncReturn(false))] + [CheckReturn(u)];
    LeadsOn(s, run0 + [Find(u, d, SyncReturn(false))], s1, CheckReturn(u));
    RunKeepsInv(s, run2);
    StillMissed(s2, t, d, o);
    var rest := CanMiss(s2, u, d, o);
    RunOn(s, run2, rest);
    run := run2 + rest;
  }

  lemma StillMissed(s: State, t: ThreadId, d: DelegId, o: OpenId)
    requires Works(s) && PcOf(s, t) == Passed(d, o)
    ensures o in Needy(s, d) && !IsListed(s, o)
  {
    assert WorkOk(s, PcOf(s, t)) && BeingOpened(PcOf(s, t), o);
  }
}
