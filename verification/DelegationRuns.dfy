/** Safety of the delegation protocol over whole runs: every interleaving of
    opens, conflicts, recalls, LRU returns, recovery, locks and closes. */
module DelegationRuns {
  import opened Lists
  import opened Delegations
  import opened DelegationSafety
  import opened DelegationSteps

  const START := State(map[], map[], map[], 0)

  ghost predicate Run(s: State, run: seq<Action>)
    decreases |run|
  {
    run != [] ==> Enabled(s, run[0]) && Run(Exec(s, run[0]), run[1..])
  }

  ghost function After(s: State, run: seq<Action>): State
    requires Run(s, run)
    decreases |run|
  {
    if run == [] then s else After(Exec(s, run[0]), run[1..])
  }

  lemma StartIsSafe()
    ensures Inv(START)
  {
    forall d: DelegId ensures |Linked(START, d)| == 0 && |Holders(START, d)| == 0 {
      assert Linked(START, d) == {} && Holders(START, d) == {};
    }
  }

  lemma {:induction false} RunKeepsInv(s: State, run: seq<Action>)
    requires Inv(s) && Run(s, run)
    ensures Inv(After(s, run))
    decreases |run|
  {
    hide Inv, Enabled, Exec;
    if run != [] {
      StepKeepsInv(s, run[0]);
      RunKeepsInv(Exec(s, run[0]), run[1..]);
    }
  }

  lemma {:induction false} RunOn(s: State, a: seq<Action>, b: seq<Action>)
    requires Run(s, a) && Run(After(s, a), b)
    ensures Run(s, a + b) && After(s, a + b) == After(After(s, a), b)
    decreases |a|
  {
    hide Enabled, Exec;
    if a == [] {
      assert a + b == b;
    } else {
      RunOn(Exec(s, a[0]), a[1..], b);
      assert (a + b)[1..] == a[1..] + b;
    }
  }

  lemma RunOne(s: State, a: Action)
    requires Enabled(s, a)
    ensures Run(s, [a]) && After(s, [a]) == Exec(s, a)
  {
    hide Enabled, Exec;
    assert [a][1..] == [];
  }

  /** In every run ref_count is the client's reference plus the linked opens plus
      the threads that own one, and a delegation that has been freed is linked,
      held and returned by nobody: only the thread that has listed it and not
      yet taken its reference can still name it. */
  lemma ReferencesAreCounted(run: seq<Action>, d: DelegId)
    requires Run(START, run)
    ensures var s := After(START, run);
      && (d in s.delegs ==> 0 < s.delegs[d].refCount == ClientRef(Some(s.delegs[d])) + |Linked(s, d)| + |Holders(s, d)|)
      && (d !in s.delegs ==> Linked(s, d) == {} && Holders(s, d) == {} && forall t: ThreadId :: !Returner(PcOf(s, t), d))
  {
    hide Run, After, OneReturner, Works, OneWorker, Loops, LocksOrdered, OneReclaimer, FlagsOwned, Named;
    StartIsSafe();
    RunKeepsInv(START, run);
    var s := After(START, run);
    assert Refs(At(s.delegs, d)) == ClientRef(At(s.delegs, d)) + |Linked(s, d)| + |Holders(s, d)|;
  }

  /** At most one thread returns a delegation, its status has left GRANTED, and
      the client's reference is still there. */
  lemma OneThreadReturns(run: seq<Action>, t: ThreadId, u: ThreadId, d: DelegId)
    requires Run(START, run) && Returner(PcOf(After(START, run), t), d) && Returner(PcOf(After(START, run), u), d)
    ensures t == u
    ensures var s := After(START, run); d in s.delegs && s.delegs[d].phase != Granted && s.delegs[d].clientRef
  {
    hide Run, After, RefsExact, Lifecycles, Named, Works, OneWorker, Loops, LocksOrdered, OneReclaimer, FlagsOwned;
    StartIsSafe();
    RunKeepsInv(START, run);
  }

  /** Lock ids grow along the list of every open. */
  lemma LockIdsIncrease(run: seq<Action>, o: OpenId)
    requires Run(START, run) && o in After(START, run).opens
    ensures var y := After(START, run).opens[o]; Increasing(y.locks, y.counter)
  {
    hide Run, After, RefsExact, Lifecycles, Named, Returns, OneReturner, Works, OneWorker, Loops, OneReclaimer, FlagsOwned;
    StartIsSafe();
    RunKeepsInv(START, run);
  }

  // What one step does to one delegation

  lemma ExecAt(s: State, a: Action, d: DelegId)
    requires Enabled(s, a)
    ensures At(Exec(s, a).delegs, d) == if d == ChangeOf(s, a).d then ChangeOf(s, a).x else At(s.delegs, d)
    ensures Exec(s, a).issued == ChangeOf(s, a).issued
    ensures Exec(s, a) == Apply(s, ChangeOf(s, a))
  {
    hide ChangeOf, Enabled;
  }

  /** A thread begins to return the delegation. */
  predicate IsStart(s: State, a: Action, d: DelegId)
    requires Enabled(s, a)
  {
    Returner(ChangeOf(s, a).pc, d) && !Returner(Before(s, ChangeOf(s, a)), d)
  }

  /** The client's reference is given up. */
  predicate IsGiveUp(s: State, a: Action, d: DelegId)
    requires Enabled(s, a)
  {
    ClientRef(At(s.delegs, d)) == 1 && ClientRef(At(Exec(s, a).delegs, d)) == 0
  }

  /** The delegation is granted, or has not been issued yet. */
  function Unreturned(s: State, d: DelegId): nat {
    if s.issued <= d || (d in s.delegs && s.delegs[d].phase == Granted) then 1 else 0
  }

  function Owned(s: State, d: DelegId): nat {
    if s.issued <= d then 1 else ClientRef(At(s.delegs, d))
  }

  /** The status only moves forward, and a name is not used again. */
  lemma StepForward(s: State, a: Action, d: DelegId)
    requires Inv(s) && Enabled(s, a)
    ensures d in s.delegs && d in Exec(s, a).delegs ==>
        Rank(s.delegs[d].phase) <= Rank(Exec(s, a).delegs[d].phase) && Exec(s, a).delegs[d].kind == s.delegs[d].kind
    ensures d !in s.delegs && d < s.issued ==> d !in Exec(s, a).delegs
    ensures s.issued <= Exec(s, a).issued
    ensures Unreturned(Exec(s, a), d) <= Unreturned(s, d)
  {
    hide ChangeOf, Enabled, RefsExact, Lifecycles, Returns, OneReturner, Works, OneWorker, Loops, LocksOrdered, OneReclaimer, FlagsOwned,
      RefsRule, ReturnRule, LinkRule, OpenRule, WorkRule, LoopRule, LockRule, ReclaimRule, Exec;
    StepIsLegal(s, a);
    ExecAt(s, a, d);
  }

  /** A return starts from GRANTED and leaves it. */
  lemma StartLeavesGranted(s: State, a: Action, d: DelegId)
    requires Inv(s) && Enabled(s, a) && IsStart(s, a, d)
    ensures Unreturned(s, d) == 1 && Unreturned(Exec(s, a), d) == 0
  {
    hide ChangeOf, Enabled, RefsExact, Lifecycles, Returns, OneReturner, Works, OneWorker, Loops, LocksOrdered, OneReclaimer, FlagsOwned,
      RefsRule, LifeRule, LinkRule, OpenRule, WorkRule, LoopRule, LockRule, ReclaimRule;
    StepIsLegal(s, a);
  }

  /** Only the thread that returns the delegation gives up the client's reference. */
  lemma GiveUpByReturner(s: State, a: Action, d: DelegId)
    requires Inv(s) && Enabled(s, a) && IsGiveUp(s, a, d)
    ensures ReleasingOf(Before(s, ChangeOf(s, a)), d)
  {
    hide ChangeOf, Enabled, Inv, RefsRule, NameRule, ReturnRule, LinkRule, OpenRule, WorkRule, LoopRule, LockRule, ReclaimRule, Exec;
    StepIsLegal(s, a);
    ExecAt(s, a, d);
  }

  lemma StepOwned(s: State, a: Action, d: DelegId)
    requires Inv(s) && Enabled(s, a)
    ensures (if IsGiveUp(s, a, d) then 1 else 0) + Owned(Exec(s, a), d) <= Owned(s, d)
  {
    hide ChangeOf, Enabled, RefsExact, Lifecycles, Returns, OneReturner, Works, OneWorker, Loops, LocksOrdered, OneReclaimer, FlagsOwned,
      RefsRule, ReturnRule, LinkRule, OpenRule, WorkRule, LoopRule, LockRule, ReclaimRule, Exec;
    StepIsLegal(s, a);
    ExecAt(s, a, d);
  }

  // Counting over a run

  ghost function Starts(s: State, run: seq<Action>, d: DelegId): nat
    requires Run(s, run)
    decreases |run|
  {
    if run == [] then 0 else (if IsStart(s, run[0], d) then 1 else 0) + Starts(Exec(s, run[0]), run[1..], d)
  }

  ghost function GiveUps(s: State, run: seq<Action>, d: DelegId): nat
    requires Run(s, run)
    decreases |run|
  {
    if run == [] then 0 else (if IsGiveUp(s, run[0], d) then 1 else 0) + GiveUps(Exec(s, run[0]), run[1..], d)
  }

  lemma {:induction false} RunCounts(s: State, run: seq<Action>, d: DelegId)
    requires Inv(s) && Run(s, run)
    ensures Starts(s, run, d) <= Unreturned(s, d)
    ensures GiveUps(s, run, d) <= Owned(s, d)
    decreases |run|
  {
    hide Inv, Enabled, Exec, IsStart, IsGiveUp, Unreturned, Owned;
    if run != [] {
      StepForward(s, run[0], d);
      StepOwned(s, run[0], d);
      if IsStart(s, run[0], d) {
        StartLeavesGranted(s, run[0], d);
      }
      StepKeepsInv(s, run[0]);
      RunCounts(Exec(s, run[0]), run[1..], d);
    }
  }

  /** However conflicts, recalls, LRU returns and recovery race, a delegation is
      returned by at most one thread, once, and loses the client's reference
      at most once. */
  lemma ReturnedAtMostOnce(run: seq<Action>, d: DelegId)
    requires Run(START, run)
    ensures Starts(START, run, d) <= 1 && GiveUps(START, run, d) <= 1
  {
    hide Run, After, Inv;
    StartIsSafe();
    RunCounts(START, run, d);
  }
}
