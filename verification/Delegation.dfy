/** The delegation protocol of daemon/delegation.c and the delegated byte-range
    locks of daemon/lock.c, as a state machine. A step is one region that the
    code runs under the client, open or delegation lock, or one RPC result. */
module Delegations {
  import opened Lists

  type DelegId = nat
  type OpenId = nat
  type ThreadId = nat

  datatype Kind = ReadDelegation | WriteDelegation
  datatype Phase = Granted | Returning | Returned

  /** nfs41_delegation_state. `listed` is membership in the client's list and
      `clientRef` whether the client still owns the reference it was created with. */
  datatype Deleg = Deleg(kind: Kind, phase: Phase, recalled: bool, revoked: bool, refCount: nat, listed: bool, clientRef: bool)

  datatype Lock = Lock(id: nat, offset: nat, length: nat, exclusive: bool, delegated: bool)

  /** An open is put on the client's list when opening it is done, and taken off
      when closing it begins. */
  datatype Stage = Fresh | Listed | Closing

  /** nfs41_open_state. `doClose` says that the open has its own open stateid. */
  datatype Open = Open(deleg: Option<DelegId>, doClose: bool, reclaim: bool, stage: Stage, locks: seq<Lock>, counter: nat)

  /** What a thread wants with the delegation it has looked up. An open is
      `compatible` with a read delegation if it only reads and denies no reads. */
  datatype Purpose =
    | OpenFile(open: OpenId, compatible: bool)
    | SyncReturn(readOnly: bool)
    | Recall
    | Peek

  /** Where a thread is. `held` says that it owns a reference of its own, and
      `done` collects the opens that its recovery loop has dealt with. A thread
      that opens a file has passed the check of a delegation (Passed), or has
      listed a new one without (Registered) or with (Referenced) a reference of
      its own, and puts the open on the client's list last (Listing). A lock
      request reclaims the open, waiting for another reclaim if need be, and
      faults if it then finds no delegation to read the stateid of. */
  datatype Pc =
    | Idle
    | Opening(o: OpenId)
    | Passed(d: DelegId, o: OpenId)
    | Registered(d: DelegId, o: OpenId)
    | Referenced(d: DelegId, o: OpenId)
    | Listing(o: OpenId)
    | Found(d: DelegId, why: Purpose)
    | Dropping(d: DelegId)
    | LoopHead(d: DelegId, held: bool, done: set<OpenId>)
    | ToOpen(d: DelegId, held: bool, done: set<OpenId>, o: OpenId)
    | Reclaiming(d: DelegId, held: bool, done: set<OpenId>, o: OpenId)
    | Flushing(d: DelegId, held: bool, done: set<OpenId>, o: OpenId)
    | LockSent(d: DelegId, held: bool, done: set<OpenId>, o: OpenId, id: nat)
    | Sending(d: DelegId, held: bool, clean: bool)
    | Removing(d: DelegId, held: bool)
    | Unlinking(d: DelegId, held: bool)
    | Marking(d: DelegId, held: bool)
    | Releasing(d: DelegId, held: bool)
    | UserReclaiming(o: OpenId)
    | UserWaiting(o: OpenId)
    | Faulted(o: OpenId)

  /** Delegations are named in the order of their grants: `issued` is the next name. */
  datatype State = State(delegs: map<DelegId, Deleg>, opens: map<OpenId, Open>, threads: map<ThreadId, Pc>, issued: DelegId)

  function PcOf(s: State, t: ThreadId): Pc {
    if t in s.threads then s.threads[t] else Idle
  }

  /** The thread is carrying out delegation_return or delegation_remove. */
  predicate Returner(pc: Pc, d: DelegId) {
    match pc
    case LoopHead(e, _, _) => e == d
    case ToOpen(e, _, _, _) => e == d
    case Reclaiming(e, _, _, _) => e == d
    case Flushing(e, _, _, _) => e == d
    case LockSent(e, _, _, _, _) => e == d
    case Sending(e, _, _) => e == d
    case Removing(e, _) => e == d
    case Unlinking(e, _) => e == d
    case Marking(e, _) => e == d
    case Releasing(e, _) => e == d
    case _ => false
  }

  /** The thread owns a reference on the delegation. */
  predicate Holds(pc: Pc, d: DelegId) {
    match pc
    case Found(e, _) => e == d
    case Dropping(e) => e == d
    case Passed(e, _) => e == d
    case Referenced(e, _) => e == d
    case Idle => false
    case Opening(_) => false
    case Registered(_, _) => false
    case Listing(_) => false
    case UserReclaiming(_) => false
    case UserWaiting(_) => false
    case Faulted(_) => false
    case _ => Returner(pc, d) && pc.held
  }

  /** The thread works on the open, and so keeps it alive. */
  predicate WorksOn(pc: Pc, o: OpenId) {
    match pc
    case Opening(p) => p == o
    case Found(_, OpenFile(p, _)) => p == o
    case Passed(_, p) => p == o
    case Registered(_, p) => p == o
    case Referenced(_, p) => p == o
    case Listing(p) => p == o
    case ToOpen(_, _, _, p) => p == o
    case Reclaiming(_, _, _, p) => p == o
    case Flushing(_, _, _, p) => p == o
    case LockSent(_, _, _, p, _) => p == o
    case UserReclaiming(p) => p == o
    case UserWaiting(p) => p == o
    case Faulted(p) => p == o
    case _ => false
  }

  predicate HasDelegatedLocks(x: Open) {
    exists i :: 0 <= i < |x.locks| && x.locks[i].delegated
  }

  /** open_deleg_cmp: the open still has state to reclaim from the server. */
  predicate Needs(x: Open, d: DelegId) {
    x.deleg == Some(d) && (!x.doClose || HasDelegatedLocks(x))
  }

  function FirstDelegated(locks: seq<Lock>): Option<nat> {
    if locks == [] then None
    else if locks[0].delegated then Some(locks[0].id)
    else FirstDelegated(locks[1..])
  }

  /** deleg_lock_update: the first lock with this id is now known to the server. */
  function Settled(locks: seq<Lock>, id: nat): seq<Lock> {
    if locks == [] then []
    else if locks[0].id == id then [locks[0].(delegated := false)] + locks[1..]
    else [locks[0]] + Settled(locks[1..], id)
  }

  datatype Outcome = Success | StateLost | Failure

  datatype Action =
    | Begin(t: ThreadId, o: OpenId)
    | Resume(t: ThreadId, o: OpenId)
    | Fail(t: ThreadId)
    | Plain(t: ThreadId)
    | Register(t: ThreadId, kind: Kind)
    | TakeRef(t: ThreadId)
    | Adopt(t: ThreadId)
    | LinkOpen(t: ThreadId, truncated: bool)
    | AddOpen(t: ThreadId)
    | CloseOpen(o: OpenId)
    | FreeOpen(o: OpenId)
    | RecoverOpen(o: OpenId)
    | Revoke(d: DelegId)
    | Reclaim(d: DelegId)
    | Find(t: ThreadId, d: DelegId, why: Purpose)
    | CheckOpen(t: ThreadId)
    | CheckReturn(t: ThreadId)
    | CheckRecall(t: ThreadId, spawned: bool)
    | CheckPeek(t: ThreadId)
    | Drop(t: ThreadId)
    | PickLru(t: ThreadId, d: DelegId)
    | PickRecovery(t: ThreadId, d: DelegId)
    | NextOpen(t: ThreadId, o: OpenId)
    | NoMoreOpens(t: ThreadId)
    | StartReclaim(t: ThreadId)
    | EndReclaim(t: ThreadId, outcome: Outcome)
    | NextLock(t: ThreadId)
    | LockReply(t: ThreadId, ok: bool)
    | DelegReturnReply(t: ThreadId, badSession: bool)
    | Unlist(t: ThreadId)
    | UnlinkOpen(t: ThreadId, o: OpenId)
    | UnlinkedAll(t: ThreadId)
    | Mark(t: ThreadId)
    | Release(t: ThreadId)
    | LockLocally(o: OpenId, offset: nat, length: nat, exclusive: bool)
    | LockAtServer(o: OpenId, offset: nat, length: nat, exclusive: bool)
    | Unlock(o: OpenId, i: nat)
    | UserReclaim(t: ThreadId, o: OpenId)
    | UserReclaimed(t: ThreadId, outcome: Outcome)
    | UserWait(t: ThreadId, o: OpenId)
    | UserWake(t: ThreadId)

  predicate Unused(s: State, o: OpenId) {
    forall t :: t in s.threads ==> !WorksOn(s.threads[t], o)
  }

  predicate IsListed(s: State, o: OpenId) {
    o in s.opens && s.opens[o].stage.Listed?
  }

  /** Opening and closing files. */
  predicate OpenEnabled(s: State, a: Action) {
    match a
    case Begin(t, o) => PcOf(s, t).Idle? && o !in s.opens
    case Resume(t, o) => PcOf(s, t).Idle? && o in s.opens && s.opens[o].stage.Fresh? && s.opens[o].deleg.None? && !s.opens[o].doClose && Unused(s, o)
    case Fail(t) => PcOf(s, t).Opening?
    case Plain(t) => PcOf(s, t).Opening? && PcOf(s, t).o in s.opens
    case Register(t, _) => PcOf(s, t).Opening?
    case TakeRef(t) => PcOf(s, t).Registered? && PcOf(s, t).d in s.delegs
    case Adopt(t) => PcOf(s, t).Referenced? && PcOf(s, t).o in s.opens
    case LinkOpen(t, _) => PcOf(s, t).Passed? && PcOf(s, t).o in s.opens
    case AddOpen(t) => PcOf(s, t).Listing? && PcOf(s, t).o in s.opens
    case CloseOpen(o) => IsListed(s, o)
    case FreeOpen(o) => o in s.opens && s.opens[o].stage.Closing? && Unused(s, o)
    case RecoverOpen(o) => IsListed(s, o)
    case _ => false
  }

  /** Looking up, checking and releasing delegations. */
  predicate OuterEnabled(s: State, a: Action) {
    match a
    case Revoke(d) => d in s.delegs
    case Reclaim(d) => d in s.delegs
    case Find(t, d, why) =>
      d in s.delegs && s.delegs[d].listed && PcOf(s, t) == if why.OpenFile? then Opening(why.open) else Idle
    case CheckOpen(t) =>
      var pc := PcOf(s, t);
      pc.Found? && pc.why.OpenFile? && pc.d in s.delegs && s.delegs[pc.d].phase != Returning
    case CheckReturn(t) =>
      var pc := PcOf(s, t);
      pc.Found? && pc.why.SyncReturn? && pc.d in s.delegs && s.delegs[pc.d].phase != Returning
    case CheckRecall(t, _) => var pc := PcOf(s, t); pc.Found? && pc.why.Recall? && pc.d in s.delegs
    case CheckPeek(t) => var pc := PcOf(s, t); pc.Found? && pc.why.Peek?
    case Drop(t) => PcOf(s, t).Dropping? && PcOf(s, t).d in s.delegs
    case PickLru(t, d) =>
      PcOf(s, t).Idle? && d in s.delegs && s.delegs[d].listed && s.delegs[d].refCount <= 1 && s.delegs[d].phase == Granted
    case PickRecovery(t, d) =>
      && PcOf(s, t).Idle? && d in s.delegs && s.delegs[d].listed && s.delegs[d].phase == Granted
      && (s.delegs[d].revoked || s.delegs[d].recalled)
    case _ => false
  }

  /** delegation_return and delegation_remove, which see the opens on the client's list. */
  predicate ReturnEnabled(s: State, a: Action) {
    match a
    case NextOpen(t, o) => PcOf(s, t).LoopHead? && IsListed(s, o) && Needs(s.opens[o], PcOf(s, t).d)
    case NoMoreOpens(t) => PcOf(s, t).LoopHead? && forall o :: o in s.opens && s.opens[o].stage.Listed? ==> !Needs(s.opens[o], PcOf(s, t).d)
    case StartReclaim(t) =>
      var pc := PcOf(s, t);
      pc.ToOpen? && pc.o in s.opens && (s.opens[pc.o].deleg.None? || s.opens[pc.o].doClose || !s.opens[pc.o].reclaim)
    case EndReclaim(t, _) => PcOf(s, t).Reclaiming? && PcOf(s, t).o in s.opens
    case NextLock(t) => PcOf(s, t).Flushing? && PcOf(s, t).o in s.opens
    case LockReply(t, _) => PcOf(s, t).LockSent? && PcOf(s, t).o in s.opens
    case DelegReturnReply(t, _) => PcOf(s, t).Sending?
    case Unlist(t) => PcOf(s, t).Removing? && PcOf(s, t).d in s.delegs
    case UnlinkOpen(t, o) =>
      PcOf(s, t).Unlinking? && PcOf(s, t).d in s.delegs && IsListed(s, o) && s.opens[o].deleg == Some(PcOf(s, t).d)
    case UnlinkedAll(t) => PcOf(s, t).Unlinking? && forall o :: o in s.opens && s.opens[o].stage.Listed? ==> s.opens[o].deleg != Some(PcOf(s, t).d)
    case Mark(t) => PcOf(s, t).Marking? && PcOf(s, t).d in s.delegs
    case Release(t) => PcOf(s, t).Releasing? && PcOf(s, t).d in s.delegs
    case _ => false
  }

  predicate LockEnabled(s: State, a: Action) {
    match a
    case LockLocally(o, _, _, _) =>
      && IsListed(s, o) && s.opens[o].deleg.Some? && s.opens[o].deleg.value in s.delegs
      && s.delegs[s.opens[o].deleg.value].kind.WriteDelegation? && s.delegs[s.opens[o].deleg.value].phase.Granted?
    case LockAtServer(o, _, _, _) => IsListed(s, o) && s.opens[o].doClose
    case Unlock(o, i) => IsListed(s, o) && i < |s.opens[o].locks|
    case UserReclaim(t, o) =>
      PcOf(s, t).Idle? && IsListed(s, o) && s.opens[o].deleg.Some? && !s.opens[o].doClose && !s.opens[o].reclaim
    case UserReclaimed(t, _) => PcOf(s, t).UserReclaiming? && PcOf(s, t).o in s.opens
    case UserWait(t, o) =>
      PcOf(s, t).Idle? && IsListed(s, o) && s.opens[o].deleg.Some? && !s.opens[o].doClose && s.opens[o].reclaim
    case UserWake(t) => PcOf(s, t).UserWaiting? && PcOf(s, t).o in s.opens && !s.opens[PcOf(s, t).o].reclaim
    case _ => false
  }

  /** When a step can happen. Waiting on a condition variable is a step that
      is not enabled yet; where the code does not test again all that it has
      tested before the wait, the wait has a program point of its own. */
  predicate Enabled(s: State, a: Action) {
    OpenEnabled(s, a) || OuterEnabled(s, a) || ReturnEnabled(s, a) || LockEnabled(s, a)
  }

  // The effect of a step: at most one delegation, one open and one thread change.

  datatype Change = Change(d: DelegId, x: Option<Deleg>, o: OpenId, y: Option<Open>, t: Option<ThreadId>, pc: Pc, issued: DelegId)

  function At<V>(m: map<nat, V>, k: nat): Option<V> {
    if k in m then Some(m[k]) else None
  }

  function Put<V>(m: map<nat, V>, k: nat, v: Option<V>): map<nat, V> {
    if v.Some? then m[k := v.value] else m - {k}
  }

  function Apply(s: State, c: Change): State {
    State(Put(s.delegs, c.d, c.x), Put(s.opens, c.o, c.y), if c.t.Some? then s.threads[c.t.value := c.pc] else s.threads, c.issued)
  }

  function Keep(s: State): Change {
    Change(0, At(s.delegs, 0), 0, At(s.opens, 0), None, Idle, s.issued)
  }

  function Thread(s: State, t: ThreadId, pc: Pc): Change {
    Keep(s).(t := Some(t), pc := pc)
  }

  function OpenChange(s: State, o: OpenId, y: Open): Change {
    Keep(s).(o := o, y := Some(y))
  }

  function DelegChange(s: State, d: DelegId, x: Deleg): Change {
    Keep(s).(d := d, x := Some(x))
  }

  /** nfs41_delegation_deref: the last reference frees the delegation. */
  function Deref(x: Deleg): Option<Deleg> {
    if x.refCount <= 1 then None else Some(x.(refCount := x.refCount - 1))
  }

  function AfterReturn(d: DelegId, held: bool): Pc {
    if held then Dropping(d) else Idle
  }

  function Reclaimed(y: Open, outcome: Outcome): Open {
    if outcome.Success? then y.(doClose := true, reclaim := false) else y.(reclaim := false)
  }

  /** nfs41_delegation_to_open: a lost stateid is no error once the open has
      been recovered otherwise. */
  predicate ReclaimOk(y: Open, outcome: Outcome) {
    outcome.Success? || (outcome.StateLost? && y.doClose)
  }

  function AddLock(y: Open, offset: nat, length: nat, exclusive: bool, delegated: bool): Open {
    y.(locks := y.locks + [Lock(y.counter, offset, length, exclusive, delegated)], counter := y.counter + 1)
  }

  /** nfs41_delegate_open, under the delegation's lock */
  function CheckOpenChange(s: State, t: ThreadId): Change
    requires OuterEnabled(s, CheckOpen(t))
  {
    var pc := PcOf(s, t);
    var x := s.delegs[pc.d];
    if x.phase != Granted then Thread(s, t, Dropping(pc.d))
    else if !pc.why.compatible && x.kind.ReadDelegation? then DelegChange(s, pc.d, x.(phase := Returning)).(t := Some(t), pc := LoopHead(pc.d, true, {}))
    else Thread(s, t, Passed(pc.d, pc.why.open))
  }

  /** nfs41_delegation_return, under the delegation's lock */
  function CheckReturnChange(s: State, t: ThreadId): Change
    requires OuterEnabled(s, CheckReturn(t))
  {
    var pc := PcOf(s, t);
    var x := s.delegs[pc.d];
    if x.phase == Granted && (x.kind.ReadDelegation? || !pc.why.readOnly)
    then DelegChange(s, pc.d, x.(phase := Returning)).(t := Some(t), pc := LoopHead(pc.d, true, {}))
    else Thread(s, t, Dropping(pc.d))
  }

  /** nfs41_delegation_recall, under the delegation's lock */
  function CheckRecallChange(s: State, t: ThreadId, spawned: bool): Change
    requires OuterEnabled(s, CheckRecall(t, spawned))
  {
    var pc := PcOf(s, t);
    var x := s.delegs[pc.d];
    if x.recalled || x.phase != Granted then DelegChange(s, pc.d, x.(recalled := true)).(t := Some(t), pc := Dropping(pc.d))
    else DelegChange(s, pc.d, x.(recalled := true, phase := Returning))
         .(t := Some(t), pc := if spawned then LoopHead(pc.d, true, {}) else Dropping(pc.d))
  }

  /** open_or_delegate with do_open and nfs41_delegation_granted, and the end of
      handle_close. A new delegation is listed, referenced and linked in three
      regions, and an open is on the client's list only after all of them. */
  function OpeningChange(s: State, a: Action): Change
    requires OpenEnabled(s, a)
  {
    match a
    case Begin(t, o) => OpenChange(s, o, Open(None, false, false, Fresh, [], 0)).(t := Some(t), pc := Opening(o))
    case Resume(t, o) => Thread(s, t, Opening(o))
    case Fail(t) => Thread(s, t, Idle).(o := PcOf(s, t).o, y := None)
    case Plain(t) =>
      var o := PcOf(s, t).o;
      OpenChange(s, o, s.opens[o].(doClose := true)).(t := Some(t), pc := Listing(o))
    case Register(t, kind) =>
      DelegChange(s, s.issued, Deleg(kind, Granted, false, false, 1, true, true))
      .(t := Some(t), pc := Registered(s.issued, PcOf(s, t).o), issued := s.issued + 1)
    case TakeRef(t) =>
      var pc := PcOf(s, t);
      DelegChange(s, pc.d, s.delegs[pc.d].(refCount := s.delegs[pc.d].refCount + 1)).(t := Some(t), pc := Referenced(pc.d, pc.o))
    case Adopt(t) =>
      var pc := PcOf(s, t);
      OpenChange(s, pc.o, s.opens[pc.o].(deleg := Some(pc.d), doClose := true)).(t := Some(t), pc := Listing(pc.o), d := pc.d, x := At(s.delegs, pc.d))
    case LinkOpen(t, truncated) =>
      var pc := PcOf(s, t);
      if !truncated then Thread(s, t, Dropping(pc.d))
      else OpenChange(s, pc.o, s.opens[pc.o].(deleg := Some(pc.d))).(t := Some(t), pc := Listing(pc.o), d := pc.d, x := At(s.delegs, pc.d))
    case AddOpen(t) =>
      var o := PcOf(s, t).o;
      OpenChange(s, o, s.opens[o].(stage := Listed)).(t := Some(t), pc := Idle)
    case CloseOpen(o) => OpenChange(s, o, s.opens[o].(stage := Closing))
    case FreeOpen(o) =>
      var link := s.opens[o].deleg;
      if link.Some? && link.value in s.delegs then Keep(s).(o := o, y := None, d := link.value, x := Deref(s.delegs[link.value]))
      else Keep(s).(o := o, y := None)
    case RecoverOpen(o) => OpenChange(s, o, s.opens[o].(doClose := true))
  }

  /** Looking up, checking and releasing delegations. */
  function OuterChange(s: State, a: Action): Change
    requires OuterEnabled(s, a)
  {
    match a
    case Revoke(d) => DelegChange(s, d, s.delegs[d].(revoked := true))
    case Reclaim(d) => DelegChange(s, d, s.delegs[d].(revoked := false))
    case Find(t, d, why) => DelegChange(s, d, s.delegs[d].(refCount := s.delegs[d].refCount + 1)).(t := Some(t), pc := Found(d, why))
    case CheckOpen(t) => CheckOpenChange(s, t)
    case CheckReturn(t) => CheckReturnChange(s, t)
    case CheckRecall(t, spawned) => CheckRecallChange(s, t, spawned)
    case CheckPeek(t) => Thread(s, t, Dropping(PcOf(s, t).d))
    case Drop(t) => var d := PcOf(s, t).d; Thread(s, t, Idle).(d := d, x := Deref(s.delegs[d]))
    case PickLru(t, d) => DelegChange(s, d, s.delegs[d].(phase := Returning)).(t := Some(t), pc := LoopHead(d, false, {}))
    case PickRecovery(t, d) =>
      if s.delegs[d].revoked then DelegChange(s, d, s.delegs[d].(phase := Returned)).(t := Some(t), pc := Removing(d, false))
      else DelegChange(s, d, s.delegs[d].(phase := Returning)).(t := Some(t), pc := LoopHead(d, false, {}))
  }

  /** delegation_return and delegation_remove */
  function ReturnChange(s: State, a: Action): Change
    requires ReturnEnabled(s, a)
  {
    match a
    case NextOpen(t, o) => var pc := PcOf(s, t); Thread(s, t, ToOpen(pc.d, pc.held, pc.done, o))
    case NoMoreOpens(t) => var pc := PcOf(s, t); Thread(s, t, Sending(pc.d, pc.held, true))
    case StartReclaim(t) =>
      var pc := PcOf(s, t);
      var y := s.opens[pc.o];
      if y.deleg.None? || y.doClose then Thread(s, t, Flushing(pc.d, pc.held, pc.done, pc.o))
      else OpenChange(s, pc.o, y.(reclaim := true)).(t := Some(t), pc := Reclaiming(pc.d, pc.held, pc.done, pc.o))
    case EndReclaim(t, outcome) =>
      var pc := PcOf(s, t);
      var y := s.opens[pc.o];
      OpenChange(s, pc.o, Reclaimed(y, outcome))
      .(t := Some(t), pc := if ReclaimOk(y, outcome) then Flushing(pc.d, pc.held, pc.done, pc.o) else Sending(pc.d, pc.held, false))
    case NextLock(t) =>
      var pc := PcOf(s, t);
      var id := FirstDelegated(s.opens[pc.o].locks);
      Thread(s, t, if id.Some? then LockSent(pc.d, pc.held, pc.done, pc.o, id.value) else LoopHead(pc.d, pc.held, pc.done + {pc.o}))
    case LockReply(t, ok) =>
      var pc := PcOf(s, t);
      var y := s.opens[pc.o];
      if !ok then Thread(s, t, Sending(pc.d, pc.held, false))
      else OpenChange(s, pc.o, y.(locks := Settled(y.locks, pc.id))).(t := Some(t), pc := Flushing(pc.d, pc.held, pc.done, pc.o))
    case DelegReturnReply(t, badSession) =>
      var pc := PcOf(s, t);
      Thread(s, t, if badSession then AfterReturn(pc.d, pc.held) else Removing(pc.d, pc.held))
    case Unlist(t) =>
      var pc := PcOf(s, t);
      DelegChange(s, pc.d, s.delegs[pc.d].(listed := false)).(t := Some(t), pc := Unlinking(pc.d, pc.held))
    case UnlinkOpen(t, o) =>
      var pc := PcOf(s, t);
      OpenChange(s, o, s.opens[o].(deleg := None)).(d := pc.d, x := Deref(s.delegs[pc.d]), t := Some(t), pc := pc)
    case UnlinkedAll(t) => var pc := PcOf(s, t); Thread(s, t, Marking(pc.d, pc.held))
    case Mark(t) =>
      var pc := PcOf(s, t);
      DelegChange(s, pc.d, s.delegs[pc.d].(phase := Returned)).(t := Some(t), pc := Releasing(pc.d, pc.held))
    case Release(t) =>
      var pc := PcOf(s, t);
      Thread(s, t, AfterReturn(pc.d, pc.held)).(d := pc.d, x := Deref(s.delegs[pc.d].(clientRef := false)))
  }

  /** nfs41_delegation_to_open after the wait: only do_close is tested again. */
  function WakeChange(s: State, t: ThreadId): Change
    requires LockEnabled(s, UserWake(t))
  {
    var o := PcOf(s, t).o;
    var y := s.opens[o];
    if y.doClose then Thread(s, t, Idle)
    else if y.deleg.None? then Thread(s, t, Faulted(o))
    else OpenChange(s, o, y.(reclaim := true)).(t := Some(t), pc := UserReclaiming(o))
  }

  /** Locks, and the reclaim that a lock request triggers. */
  function LockChange(s: State, a: Action): Change
    requires LockEnabled(s, a)
  {
    match a
    case LockLocally(o, offset, length, exclusive) => OpenChange(s, o, AddLock(s.opens[o], offset, length, exclusive, true))
    case LockAtServer(o, offset, length, exclusive) => OpenChange(s, o, AddLock(s.opens[o], offset, length, exclusive, false))
    case Unlock(o, i) => OpenChange(s, o, s.opens[o].(locks := s.opens[o].locks[..i] + s.opens[o].locks[i + 1..]))
    case UserReclaim(t, o) => OpenChange(s, o, s.opens[o].(reclaim := true)).(t := Some(t), pc := UserReclaiming(o))
    case UserReclaimed(t, outcome) =>
      var pc := PcOf(s, t);
      OpenChange(s, pc.o, Reclaimed(s.opens[pc.o], outcome)).(t := Some(t), pc := Idle)
    case UserWait(t, o) => Thread(s, t, UserWaiting(o))
    case UserWake(t) => WakeChange(s, t)
  }

  function ChangeOf(s: State, a: Action): Change
    requires Enabled(s, a)
  {
    if OpenEnabled(s, a) then OpeningChange(s, a)
    else if OuterEnabled(s, a) then OuterChange(s, a)
    else if ReturnEnabled(s, a) then ReturnChange(s, a)
    else LockChange(s, a)
  }

  function Exec(s: State, a: Action): State
    requires Enabled(s, a)
  {
    Apply(s, ChangeOf(s, a))
  }
}
