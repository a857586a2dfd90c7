/** The recovery loop of delegation_return under every interleaving: what can
    still come to need the delegation, how often the loop goes round, and how
    often it sends a lock. */
module DelegationLoops {
  import opened Lists
  import opened Delegations
  import opened DelegationSafety
  import opened DelegationSteps
  import opened DelegationRuns

  // What needs the delegation once its return has started

  predicate Started(s: State, d: DelegId) {
    d < s.issued && (d in s.delegs ==> s.delegs[d].phase != Granted)
  }

  /** A thread has passed the check of the delegation and will link the open. */
  ghost predicate Promised(s: State, d: DelegId, o: OpenId) {
    exists t: ThreadId :: PcOf(s, t) == Passed(d, o)
  }

  /** The open has state that only the delegation stands for, and is not being closed. */
  predicate Owes(y: Open, d: DelegId) {
    Needs(y, d) && !y.stage.Closing?
  }

  ghost function Needy(s: State, d: DelegId): set<OpenId> {
    set o | o in s.opens && (Owes(s.opens[o], d) || Promised(s, d, o))
  }

  lemma StartedStays(s: State, a: Action, d: DelegId)
    requires Inv(s) && Enabled(s, a) && Started(s, d)
    ensures Started(Exec(s, a), d)
  {
    hide Enabled, Inv, Exec, Unreturned;
    StepForward(s, a, d);
  }

  lemma PromisedBefore(s: State, c: Change, d: DelegId, o: OpenId)
    requires Works(s) && LinkRule(s, c) && !Unstarted(s, d) && Promised(Apply(s, c), d, o)
    ensures Promised(s, d, o) && o in s.opens
  {
    hide Needs;
    var t: ThreadId :| PcOf(Apply(s, c), t) == Passed(d, o);
    assert PcOf(s, t) == Passed(d, o);
    assert WorkOk(s, PcOf(s, t));
    assert WorksOn(PcOf(s, t), o);
  }

  lemma LegalShrinks(s: State, c: Change, d: DelegId)
    requires Works(s) && LinkRule(s, c) && OpenRule(s, c) && !Unstarted(s, d)
    ensures Needy(Apply(s, c), d) <= Needy(s, d)
  {
    var s' := Apply(s, c);
    forall o | o in Needy(s', d) ensures o in Needy(s, d) {
      if Promised(s', d, o) {
        PromisedBefore(s, c, d, o);
      } else {
        OwedBefore(s, c, d, o);
      }
    }
  }

  lemma OwedBefore(s: State, c: Change, d: DelegId, o: OpenId)
    requires Works(s) && LinkRule(s, c) && OpenRule(s, c) && !Unstarted(s, d) && o in Apply(s, c).opens && Owes(Apply(s, c).opens[o], d)
    ensures o in s.opens && (Owes(s.opens[o], d) || Promised(s, d, o))
  {
    hide HasDelegatedLocks;
    if o == c.o && Before(s, c) == Passed(d, o) {
      var t := c.t.value;
      assert PcOf(s, t) == Passed(d, o);
      assert WorkOk(s, PcOf(s, t));
      assert WorksOn(PcOf(s, t), o);
    }
  }

  lemma StillAbsent(s: State, a: Action, d: DelegId)
    requires Inv(s) && Enabled(s, a) && d !in s.delegs && d < s.issued
    ensures Linked(Exec(s, a), d) == {} && Needy(Exec(s, a), d) == {}
  {
    hide Enabled, Exec, Lifecycles, Named, Returns, OneReturner, Works, OneWorker, Loops, LocksOrdered, OneReclaimer, FlagsOwned, HasDelegatedLocks;
    StepForward(s, a, d);
    StepKeepsInv(s, a);
    var s' := Exec(s, a);
    assert Refs(At(s'.delegs, d)) == ClientRef(At(s'.delegs, d)) + |Linked(s', d)| + |Holders(s', d)|;
    assert Linked(s', d) == {} && Holders(s', d) == {};
    forall o | o in s'.opens ensures !Owes(s'.opens[o], d) && !Promised(s', d, o) {
      assert o !in Linked(s', d);
      forall t: ThreadId ensures PcOf(s', t) != Passed(d, o) {
        assert t !in Holders(s', d);
      }
    }
  }

  /** Once the return has started, no open comes to need the delegation except
      one whose thread had passed the check before. */
  lemma NothingNew(s: State, a: Action, d: DelegId)
    requires Inv(s) && Enabled(s, a) && Started(s, d)
    ensures Needy(Exec(s, a), d) <= Needy(s, d)
  {
    hide ChangeOf, Enabled, RefsExact, Lifecycles, Named, Returns, OneReturner, Works, OneWorker, Loops, LocksOrdered, OneReclaimer, FlagsOwned,
      RefsRule, LifeRule, NameRule, ReturnRule, LinkRule, OpenRule, WorkRule, LoopRule, LockRule, ReclaimRule, Exec, Needy;
    if d in s.delegs {
      StepIsLegal(s, a);
      LegalShrinks(s, ChangeOf(s, a), d);
      ExecAt(s, a, d);
    } else {
      StillAbsent(s, a, d);
    }
  }

  /** An open that is linked after the start has an open stateid of its own and
      no lock, or belongs to a thread that had passed the check before. */
  lemma LateLinks(s: State, a: Action, d: DelegId, o: OpenId)
    requires Inv(s) && Enabled(s, a) && Started(s, d) && o in Linked(Exec(s, a), d) && o !in Linked(s, d)
    ensures Promised(s, d, o) || (Exec(s, a).opens[o].doClose && Exec(s, a).opens[o].locks == [])
  {
    hide ChangeOf, Enabled, RefsExact, Lifecycles, Named, Returns, OneReturner, Works, OneWorker, Loops, LocksOrdered, OneReclaimer, FlagsOwned,
      RefsRule, LifeRule, NameRule, ReturnRule, OpenRule, WorkRule, LoopRule, LockRule, ReclaimRule, Exec, HasDelegatedLocks;
    if d in s.delegs {
      StepIsLegal(s, a);
      ExecAt(s, a, d);
      var c := ChangeOf(s, a);
      if Before(s, c) == Passed(d, o) {
        assert PcOf(s, c.t.value) == Passed(d, o);
      }
    } else {
      StillAbsent(s, a, d);
    }
  }

  // Rounds of the loop

  predicate InLoop(pc: Pc, d: DelegId) {
    (pc.LoopHead? || LoopsOn(pc)) && pc.d == d
  }

  function Done(pc: Pc): set<OpenId> {
    match pc
    case LoopHead(_, _, done) => done
    case ToOpen(_, _, done, _) => done
    case Reclaiming(_, _, done, _) => done
    case Flushing(_, _, done, _) => done
    case LockSent(_, _, done, _, _) => done
    case _ => {}
  }

  /** The opens that the loop has dealt with or is dealing with. */
  function Touched(pc: Pc): set<OpenId> {
    Done(pc) + if LoopsOn(pc) then {pc.o} else {}
  }

  /** The thread has finished an open and goes round. */
  predicate IsRound(s: State, a: Action, t: ThreadId, d: DelegId) {
    a == NextLock(t) && InLoop(PcOf(s, t), d) && PcOf(s, t).Flushing? && PcOf(s, t).o in s.opens && FirstDelegated(s.opens[PcOf(s, t).o].locks).None?
  }

  /** The thread sends a delegated lock to the server. */
  predicate IsSend(s: State, a: Action, t: ThreadId, d: DelegId) {
    a == NextLock(t) && InLoop(PcOf(s, t), d) && PcOf(s, t).Flushing? && PcOf(s, t).o in s.opens && FirstDelegated(s.opens[PcOf(s, t).o].locks).Some?
  }

  lemma OuterStaysOut(s: State, a: Action, d: DelegId)
    requires OuterEnabled(s, a) && InLoop(OuterChange(s, a).pc, d)
    ensures d in s.delegs && s.delegs[d].phase == Granted
  {
  }

  lemma OpeningStaysOut(s: State, a: Action, d: DelegId)
    requires OpenEnabled(s, a)
    ensures !InLoop(OpeningChange(s, a).pc, d)
  {
  }

  lemma LockStaysOut(s: State, a: Action, d: DelegId)
    requires LockEnabled(s, a)
    ensures !InLoop(LockChange(s, a).pc, d)
  {
  }

  lemma ReturnTouches(s: State, a: Action, d: DelegId)
    requires ReturnEnabled(s, a) && InLoop(ReturnChange(s, a).pc, d)
    ensures var c := ReturnChange(s, a);
      && InLoop(Before(s, c), d) && c.t == Some(a.t)
      && Touched(c.pc) <= Touched(Before(s, c)) + Needy(s, d)
      && Done(c.pc) == if IsRound(s, a, a.t, d) then Done(Before(s, c)) + {Before(s, c).o} else Done(Before(s, c))
  {
    hide HasDelegatedLocks;
  }

  /** While the thread is in its loop, it takes up only opens that need the
      delegation, and each round adds the open it took up. */
  lemma StepTouches(s: State, a: Action, t: ThreadId, d: DelegId)
    requires Enabled(s, a) && Started(s, d) && InLoop(PcOf(Exec(s, a), t), d)
    ensures InLoop(PcOf(s, t), d) && Touched(PcOf(Exec(s, a), t)) <= Touched(PcOf(s, t)) + Needy(s, d)
    ensures Done(PcOf(Exec(s, a), t)) == if IsRound(s, a, t, d) then Done(PcOf(s, t)) + {PcOf(s, t).o} else Done(PcOf(s, t))
  {
    hide OpenEnabled, OuterEnabled, ReturnEnabled, LockEnabled, OpeningChange, ReturnChange, LockChange, OuterChange, Needy, InLoop, Touched, Done, IsRound;
    var c := ChangeOf(s, a);
    if c.t == Some(t) {
      if OpenEnabled(s, a) {
        OpeningStaysOut(s, a, d);
      } else if OuterEnabled(s, a) {
        OuterStaysOut(s, a, d);
      } else if ReturnEnabled(s, a) {
        ReturnTouches(s, a, d);
      } else {
        LockStaysOut(s, a, d);
      }
    } else {
      NotMine(s, a, t, d);
    }
  }

  lemma NotMine(s: State, a: Action, t: ThreadId, d: DelegId)
    requires Enabled(s, a) && ChangeOf(s, a).t != Some(t)
    ensures !IsRound(s, a, t, d) && !IsSend(s, a, t, d)
  {
  }

  ghost function Rounds(s: State, run: seq<Action>, t: ThreadId, d: DelegId): nat
    requires Run(s, run)
    decreases |run|
  {
    if run == [] then 0 else (if IsRound(s, run[0], t, d) then 1 else 0) + Rounds(Exec(s, run[0]), run[1..], t, d)
  }

  lemma SubsetSize<T>(a: set<T>, b: set<T>)
    requires a <= b
    ensures |a| <= |b|
  {
    assert b == a + (b - a);
  }

  /** A round adds an open that the loop was not through with. */
  lemma RoundGrows(s: State, a: Action, t: ThreadId, d: DelegId)
    requires Inv(s) && Enabled(s, a) && IsRound(s, a, t, d)
    ensures InLoop(PcOf(Exec(s, a), t), d)
    ensures |Done(PcOf(Exec(s, a), t))| == |Done(PcOf(s, t))| + 1
  {
    hide RefsExact, Lifecycles, Named, Returns, OneReturner, OneWorker, Loops, LocksOrdered, OneReclaimer, FlagsOwned, FirstDelegated;
    assert WorkOk(s, PcOf(s, t));
    RoundTo(s, t);
  }

  lemma RoundTo(s: State, t: ThreadId)
    requires Enabled(s, NextLock(t)) && FirstDelegated(s.opens[PcOf(s, t).o].locks).None?
    ensures var pc := PcOf(s, t); PcOf(Exec(s, NextLock(t)), t) == LoopHead(pc.d, pc.held, pc.done + {pc.o})
  {
    hide FirstDelegated;
  }

  /** `bound` holds all opens that needed the delegation at some earlier time. */
  lemma {:induction false} RoundsBounded(s: State, run: seq<Action>, t: ThreadId, d: DelegId, bound: set<OpenId>)
    requires Inv(s) && Run(s, run) && Started(s, d) && Needy(s, d) <= bound
    requires InLoop(PcOf(s, t), d) ==> Touched(PcOf(s, t)) <= bound
    ensures InLoop(PcOf(s, t), d) ==> |Done(PcOf(s, t))| + Rounds(s, run, t, d) <= |bound|
    ensures !InLoop(PcOf(s, t), d) ==> Rounds(s, run, t, d) == 0
    decreases |run|
  {
    hide Inv, Enabled, Exec, Needy, InLoop, Started, IsRound, LoopsOn, Done;
    if run == [] {
      if InLoop(PcOf(s, t), d) {
        SubsetSize(Done(PcOf(s, t)), bound);
      }
    } else {
      var s' := Exec(s, run[0]);
      StepKeepsInv(s, run[0]);
      StartedStays(s, run[0], d);
      NothingNew(s, run[0], d);
      if InLoop(PcOf(s', t), d) {
        StepTouches(s, run[0], t, d);
      }
      if IsRound(s, run[0], t, d) {
        RoundInLoop(s, run[0], t, d);
        RoundGrows(s, run[0], t, d);
      }
      RoundsBounded(s', run[1..], t, d, bound);
      if InLoop(PcOf(s, t), d) {
        SubsetSize(Done(PcOf(s, t)), bound);
      }
    }
  }

  lemma RoundInLoop(s: State, a: Action, t: ThreadId, d: DelegId)
    requires IsRound(s, a, t, d)
    ensures InLoop(PcOf(s, t), d)
  {
  }

  /** The recovery loop goes round at most once for each open that needed the
      delegation when it began, whatever other threads do meanwhile. */
  lemma LoopIsBounded(s: State, run: seq<Action>, t: ThreadId, d: DelegId)
    requires Inv(s) && Run(s, run)
    requires PcOf(s, t).LoopHead? && PcOf(s, t).d == d && PcOf(s, t).done == {}
    ensures Rounds(s, run, t, d) <= |Needy(s, d)|
  {
    hide Run, Rounds, RefsExact, Lifecycles, OneReturner, Works, OneWorker, Loops, LocksOrdered, OneReclaimer, FlagsOwned, Needy;
    assert Returner(PcOf(s, t), d);
    assert ReturnOk(s, PcOf(s, t), d);
    RoundsBounded(s, run, t, d, Needy(s, d));
  }

  // Sends of delegated locks

  function DelegatedIds(y: Open): set<nat> {
    set i | 0 <= i < |y.locks| && y.locks[i].delegated :: y.locks[i].id
  }

  /** The locks that only the client knows, as open and id. */
  ghost function LocalLocks(s: State, d: DelegId): set<(OpenId, nat)> {
    set o, id | o in s.opens && s.opens[o].deleg == Some(d) && id in DelegatedIds(s.opens[o]) :: (o, id)
  }

  /** Every delegated lock of the open was there before. */
  ghost predicate NoneAdded(y: Option<Open>, y': Open) {
    y.Some? && DelegatedIds(y') <= DelegatedIds(y.value)
  }

  lemma {:induction false} SettledIds(y: Open, id: nat)
    ensures DelegatedIds(y.(locks := Settled(y.locks, id))) <= DelegatedIds(y)
  {
    SettledShape(y.locks, id);
  }

  lemma ReturnAddsNone(s: State, a: Action)
    requires ReturnEnabled(s, a)
    ensures var c := ReturnChange(s, a); c.y.Some? ==> NoneAdded(At(s.opens, c.o), c.y.value)
  {
    hide Settled, FirstDelegated, HasDelegatedLocks;
    if a.LockReply? {
      SettledIds(s.opens[PcOf(s, a.t).o], PcOf(s, a.t).id);
    }
  }

  lemma OuterAddsNone(s: State, a: Action)
    requires OuterEnabled(s, a)
    ensures var c := OuterChange(s, a); c.y.Some? ==> NoneAdded(At(s.opens, c.o), c.y.value)
  {
  }

  lemma OpeningAddsNone(s: State, a: Action)
    requires OpenEnabled(s, a)
    ensures var c := OpeningChange(s, a); c.y.Some? ==> c.y.value.locks == [] || NoneAdded(At(s.opens, c.o), c.y.value)
  {
  }

  lemma LockAddsNone(s: State, a: Action)
    requires LockEnabled(s, a) && !a.LockLocally?
    ensures var c := LockChange(s, a); c.y.Some? ==> NoneAdded(At(s.opens, c.o), c.y.value)
  {
  }

  lemma StepAddsNone(s: State, a: Action)
    requires Enabled(s, a) && !a.LockLocally?
    ensures var c := ChangeOf(s, a); c.y.Some? ==> c.y.value.locks == [] || NoneAdded(At(s.opens, c.o), c.y.value)
  {
    hide OpenEnabled, OuterEnabled, ReturnEnabled, LockEnabled, OpeningChange, OuterChange, ReturnChange, LockChange, NoneAdded;
    if OpenEnabled(s, a) {
      OpeningAddsNone(s, a);
    } else if OuterEnabled(s, a) {
      OuterAddsNone(s, a);
    } else if ReturnEnabled(s, a) {
      ReturnAddsNone(s, a);
    } else {
      LockAddsNone(s, a);
    }
  }

  lemma NoLocks(y: Open)
    requires y.locks == []
    ensures DelegatedIds(y) == {}
  {
  }

  /** A change that adds no delegated lock to an open of the delegation adds none at all. */
  lemma LocalLocksShrink(s: State, c: Change, d: DelegId)
    requires LinkRule(s, c) && !Unstarted(s, d)
    requires c.y.Some? && c.y.value.deleg == Some(d) ==> c.y.value.locks == [] || NoneAdded(At(s.opens, c.o), c.y.value)
    ensures LocalLocks(Apply(s, c), d) <= LocalLocks(s, d)
  {
    hide HasDelegatedLocks, DelegatedIds;
    var s' := Apply(s, c);
    forall p | p in LocalLocks(s', d) ensures p in LocalLocks(s, d) {
      var (o, id) := p;
      if o == c.o && c.y.value.locks == [] {
        NoLocks(c.y.value);
      }
    }
  }

  /** Once the return has started, no lock is granted locally under it. */
  lemma NoNewLocalLock(s: State, a: Action, d: DelegId)
    requires Inv(s) && Enabled(s, a) && Started(s, d) && d in s.delegs
    ensures LocalLocks(Exec(s, a), d) <= LocalLocks(s, d)
  {
    hide Inv, Enabled, ChangeOf, Exec, RefsRule, LifeRule, NameRule, ReturnRule, LinkRule, OpenRule, WorkRule, LoopRule, LockRule, ReclaimRule,
      NoneAdded, LocalLocks;
    StepIsLegal(s, a);
    ExecAt(s, a, d);
    if a.LockLocally? {
      LockedElsewhere(s, a, d);
    } else {
      StepAddsNone(s, a);
    }
    LocalLocksShrink(s, ChangeOf(s, a), d);
  }

  lemma LockedElsewhere(s: State, a: Action, d: DelegId)
    requires Enabled(s, a) && a.LockLocally? && Started(s, d) && d in s.delegs
    ensures ChangeOf(s, a).y.Some? && ChangeOf(s, a).y.value.deleg != Some(d)
  {
  }

  ghost function Sends(s: State, run: seq<Action>, t: ThreadId, d: DelegId): nat
    requires Run(s, run)
    decreases |run|
  {
    if run == [] then 0 else (if IsSend(s, run[0], t, d) then 1 else 0) + Sends(Exec(s, run[0]), run[1..], t, d)
  }

  /** The lock that the thread has sent and not yet heard of. */
  function InFlight(pc: Pc): set<(OpenId, nat)> {
    if pc.LockSent? then {(pc.o, pc.id)} else {}
  }

  lemma {:induction false} FirstIsLocal(y: Open)
    requires FirstDelegated(y.locks).Some?
    ensures FirstDelegated(y.locks).value in DelegatedIds(y)
  {
    FirstAt(y.locks);
    assert y.locks[FirstIndex(y.locks)].id in DelegatedIds(y);
  }

  function FirstIndex(locks: seq<Lock>): nat {
    if locks == [] || locks[0].delegated then 0 else 1 + FirstIndex(locks[1..])
  }

  lemma {:induction false} FirstAt(locks: seq<Lock>)
    requires FirstDelegated(locks).Some?
    ensures var i := FirstIndex(locks); i < |locks| && locks[i].delegated && FirstDelegated(locks) == Some(locks[i].id)
  {
    if !locks[0].delegated {
      FirstAt(locks[1..]);
    }
  }

  /** Settling takes the id off the delegated ones, since no other lock has it. */
  lemma {:induction false} SettledGone(y: Open, id: nat)
    requires Increasing(y.locks, y.counter)
    ensures id !in DelegatedIds(y.(locks := Settled(y.locks, id)))
  {
    SettledAway(y.locks, id);
  }

  lemma {:induction false} SettledAway(locks: seq<Lock>, id: nat)
    requires forall i, j :: 0 <= i < j < |locks| ==> locks[i].id < locks[j].id
    ensures |Settled(locks, id)| == |locks|
    ensures forall i :: 0 <= i < |locks| && Settled(locks, id)[i].id == id ==> !Settled(locks, id)[i].delegated
  {
    if locks != [] {
      if locks[0].id != id {
        SettledAway(locks[1..], id);
      }
    }
  }

  lemma SendTo(s: State, t: ThreadId)
    requires Enabled(s, NextLock(t)) && FirstDelegated(s.opens[PcOf(s, t).o].locks).Some?
    ensures var pc := PcOf(s, t);
      PcOf(Exec(s, NextLock(t)), t) == LockSent(pc.d, pc.held, pc.done, pc.o, FirstDelegated(s.opens[pc.o].locks).value)
  {
    hide FirstDelegated;
  }

  /** A send takes a lock that only the client knew out of those not yet sent. */
  lemma SendTakes(s: State, a: Action, t: ThreadId, d: DelegId)
    requires Inv(s) && Enabled(s, a) && Started(s, d) && d in s.delegs && IsSend(s, a, t, d)
    ensures var s' := Exec(s, a);
      && InLoop(PcOf(s', t), d)
      && |LocalLocks(s', d) - InFlight(PcOf(s', t))| + 1 <= |LocalLocks(s, d) - InFlight(PcOf(s, t))|
  {
    hide RefsExact, Lifecycles, Named, Returns, OneReturner, OneWorker, Loops, LocksOrdered, OneReclaimer, FlagsOwned, FirstDelegated, DelegatedIds;
    var pc, s' := PcOf(s, t), Exec(s, a);
    assert WorkOk(s, pc);
    var id := FirstDelegated(s.opens[pc.o].locks).value;
    SendTo(s, t);
    FirstIsLocal(s.opens[pc.o]);
    NoNewLocalLock(s, a, d);
    hide Exec, Enabled;
    assert (pc.o, id) in LocalLocks(s, d);
    SubsetSize(LocalLocks(s', d) - {(pc.o, id)}, LocalLocks(s, d) - {(pc.o, id)});
    assert LocalLocks(s, d) - {} == LocalLocks(s, d);
  }

  /** How a thread in its loop gets to, and away from, a lock that is in flight. */
  lemma ReturnSent(s: State, a: Action, d: DelegId)
    requires ReturnEnabled(s, a) && InLoop(ReturnChange(s, a).pc, d)
    ensures var c := ReturnChange(s, a);
      && (c.pc.LockSent? && c.pc != Before(s, c) ==> IsSend(s, a, a.t, d))
      && (Before(s, c).LockSent? ==> a == LockReply(a.t, true) && !c.pc.LockSent?)
      && c.t == Some(a.t)
  {
    hide HasDelegatedLocks, Settled;
  }

  lemma StepSent(s: State, a: Action, t: ThreadId, d: DelegId)
    requires Enabled(s, a) && Started(s, d) && InLoop(PcOf(Exec(s, a), t), d)
    ensures var pc, pc' := PcOf(s, t), PcOf(Exec(s, a), t);
      && (pc'.LockSent? && pc' != pc ==> IsSend(s, a, t, d))
      && (pc.LockSent? && pc' != pc ==> a == LockReply(t, true) && ReturnEnabled(s, a) && !pc'.LockSent?)
  {
    hide OpenEnabled, OuterEnabled, ReturnEnabled, LockEnabled, OpeningChange, ReturnChange, LockChange, OuterChange, InLoop, IsSend;
    var c := ChangeOf(s, a);
    if c.t == Some(t) {
      if OpenEnabled(s, a) {
        OpeningStaysOut(s, a, d);
      } else if OuterEnabled(s, a) {
        OuterStaysOut(s, a, d);
      } else if ReturnEnabled(s, a) {
        ReturnSent(s, a, d);
      } else {
        LockStaysOut(s, a, d);
      }
    }
  }

  /** The answer to a sent lock makes the server know it. */
  lemma ReplySettles(s: State, t: ThreadId, d: DelegId)
    requires Inv(s) && ReturnEnabled(s, LockReply(t, true))
    ensures var pc := PcOf(s, t); (pc.o, pc.id) !in LocalLocks(Exec(s, LockReply(t, true)), d)
  {
    hide RefsExact, Lifecycles, Named, Returns, OneReturner, Works, OneWorker, Loops, OneReclaimer, FlagsOwned, Settled, DelegatedIds;
    var pc := PcOf(s, t);
    SettledGone(s.opens[pc.o], pc.id);
  }

  lemma StillUnsent(s: State, a: Action, t: ThreadId, d: DelegId)
    requires Inv(s) && Enabled(s, a) && Started(s, d) && d in s.delegs && !IsSend(s, a, t, d) && InLoop(PcOf(Exec(s, a), t), d)
    ensures var s' := Exec(s, a); LocalLocks(s', d) - InFlight(PcOf(s', t)) <= LocalLocks(s, d) - InFlight(PcOf(s, t))
  {
    hide Inv, Enabled, Exec, IsSend, InLoop, LocalLocks, Started, ReturnEnabled;
    NoNewLocalLock(s, a, d);
    StepSent(s, a, t, d);
    var pc, pc' := PcOf(s, t), PcOf(Exec(s, a), t);
    if pc.LockSent? && pc' != pc {
      ReplySettles(s, t, d);
    }
  }

  lemma {:induction false} SendsBounded(s: State, run: seq<Action>, t: ThreadId, d: DelegId)
    requires Inv(s) && Run(s, run) && Started(s, d)
    ensures InLoop(PcOf(s, t), d) ==> Sends(s, run, t, d) <= |LocalLocks(s, d) - InFlight(PcOf(s, t))|
    ensures !InLoop(PcOf(s, t), d) ==> Sends(s, run, t, d) == 0
    decreases |run|
  {
    hide Inv, Enabled, Exec, InLoop, Started, IsSend, LoopsOn, LocalLocks, InFlight;
    if run != [] {
      var s' := Exec(s, run[0]);
      StepKeepsInv(s, run[0]);
      StartedStays(s, run[0], d);
      SendsBounded(s', run[1..], t, d);
      if InLoop(PcOf(s, t), d) {
        LoopOwned(s, t, d);
        if IsSend(s, run[0], t, d) {
          SendTakes(s, run[0], t, d);
        } else if InLoop(PcOf(s', t), d) {
          StillUnsent(s, run[0], t, d);
          SubsetSize(LocalLocks(s', d) - InFlight(PcOf(s', t)), LocalLocks(s, d) - InFlight(PcOf(s, t)));
        }
      } else {
        if IsSend(s, run[0], t, d) {
          SendInLoop(s, run[0], t, d);
        }
        if InLoop(PcOf(s', t), d) {
          StepTouches(s, run[0], t, d);
        }
      }
    }
  }

  lemma SendInLoop(s: State, a: Action, t: ThreadId, d: DelegId)
    requires IsSend(s, a, t, d)
    ensures InLoop(PcOf(s, t), d)
  {
  }

  lemma LoopOwned(s: State, t: ThreadId, d: DelegId)
    requires Inv(s) && InLoop(PcOf(s, t), d)
    ensures d in s.delegs
  {
    hide RefsExact, Lifecycles, Named, OneReturner, Works, OneWorker, Loops, LocksOrdered, OneReclaimer, FlagsOwned;
    assert Returner(PcOf(s, t), d);
  }

  /** Whatever other threads do meanwhile, the loop sends each lock that only the
      client knew when it began at most once, and no other lock. */
  lemma SendsAreBounded(s: State, run: seq<Action>, t: ThreadId, d: DelegId)
    requires Inv(s) && Run(s, run)
    requires PcOf(s, t).LoopHead? && PcOf(s, t).d == d
    ensures Sends(s, run, t, d) <= |LocalLocks(s, d)|
  {
    hide Run, Sends, RefsExact, Lifecycles, OneReturner, Works, OneWorker, Loops, LocksOrdered, OneReclaimer, FlagsOwned, LocalLocks;
    assert Returner(PcOf(s, t), d);
    assert ReturnOk(s, PcOf(s, t), d);
    SendsBounded(s, run, t, d);
    assert LocalLocks(s, d) - {} == LocalLocks(s, d);
  }
}
