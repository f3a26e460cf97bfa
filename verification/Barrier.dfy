/**
 The reusable barrier of common/misc/barrier.cc over the condition variable of
 common/misc/cond.cc, as a transition system with one step per lock operation,
 shared write or futex call.  `FUTEX_WAIT` compares and sleeps atomically and
 returns only when woken; `FUTEX_WAKE` wakes every sleeper.

 `m_leaving` is read by spinning threads without the lock, and the broadcast
 happens after the lock is released: both are separate steps here.
 */
module Barrier {

  import opened Basics

  /** Where a thread stands in `Barrier::wait`; threads call it over and over. */
  datatype PC =
    | Spin          // before reading m_leaving
    | Lock          // before m_lock.acquire()
    | Arrive        // before ++m_arrived
    | Test          // before comparing m_arrived with m_count
    // the last thread to arrive
    | ClearArrived  // before m_arrived = 0
    | SetLeaving    // before m_leaving = m_count - 1
    | LastUnlock    // before m_lock.release()
    | CastLock      // broadcast: before acquiring the condition variable's lock
    | CastSet       // broadcast: before m_futx = 1
    | CastWake      // broadcast: before FUTEX_WAKE
    | CastUnlock    // broadcast: before releasing the condition variable's lock
    // the other threads
    | CondLock      // wait: before acquiring the condition variable's lock
    | CondClear     // wait: before m_futx = 0
    | CondUnlock    // wait: before releasing the condition variable's lock
    | WaitUnlock    // wait: before lock.release()
    | Sleep         // wait: before FUTEX_WAIT
    | Asleep        // inside FUTEX_WAIT
    | Relock        // wait: before lock.acquire()
    | Leave         // before --m_leaving
    | LeaveUnlock   // before m_lock.release()

  /** A thread: its place, and how often it has arrived at and returned from the barrier. */
  datatype Thread = Thread(pc: PC, arrivals: nat, returned: nat)

  /**
   The shared words and the threads; `epoch` counts the rounds completed by a
   last arrival and `last` is the thread that completed the latest.
   */
  datatype State = State(
    count: nat, threads: map<Tid, Thread>,
    arrived: int, leaving: int, lock: Owner, condLock: Owner, futx: int,
    epoch: nat, last: Tid)

  ghost predicate Init(s: State) {
    && s.count == |s.threads| > 0
    && (forall t :: t in s.threads ==> s.threads[t] == Thread(Spin, 0, 0))
    && s.arrived == 0 && s.leaving == 0 && s.lock == Nobody && s.condLock == Nobody && s.futx == 0 && s.epoch == 0
  }

  // ---------------------------------------------------------------------------
  // Steps

  predicate Enabled(s: State, t: Tid)
    requires t in s.threads
  {
    match s.threads[t].pc
    case Spin => s.leaving <= 0
    case Lock => s.lock == Nobody
    case Relock => s.lock == Nobody
    case CastLock => s.condLock == Nobody
    case CondLock => s.condLock == Nobody
    case Asleep => false
    case _ => true
  }

  function At(s: State, t: Tid, p: PC): State
    requires t in s.threads
  {
    s.(threads := s.threads[t := s.threads[t].(pc := p)])
  }

  function Returned(s: State, t: Tid): State
    requires t in s.threads
  {
    s.(threads := s.threads[t := s.threads[t].(pc := Spin, returned := s.threads[t].returned + 1)])
  }

  function Woken(threads: map<Tid, Thread>): map<Tid, Thread> {
    map t | t in threads :: if threads[t].pc.Asleep? then threads[t].(pc := Relock) else threads[t]
  }

  function Exec(s: State, t: Tid): State
    requires t in s.threads && Enabled(s, t)
  {
    match s.threads[t].pc
    case Spin => At(s, t, Lock)
    case Lock => At(s, t, Arrive).(lock := By(t))
    case Arrive =>
      var s' := s.(threads := s.threads[t := s.threads[t].(pc := Test, arrivals := s.threads[t].arrivals + 1)],
                   arrived := s.arrived + 1);
      if s'.arrived == s.count then s'.(epoch := s.epoch + 1, last := t) else s'
    case Test => At(s, t, if s.arrived == s.count then ClearArrived else CondLock)
    case ClearArrived => At(s, t, SetLeaving).(arrived := 0)
    case SetLeaving => At(s, t, LastUnlock).(leaving := s.count - 1)
    case LastUnlock => At(s, t, CastLock).(lock := Nobody)
    case CastLock => At(s, t, CastSet).(condLock := By(t))
    case CastSet => At(s, t, CastWake).(futx := 1)
    case CastWake => At(s.(threads := Woken(s.threads)), t, CastUnlock)
    case CastUnlock => Returned(s, t).(condLock := Nobody)
    case CondLock => At(s, t, CondClear).(condLock := By(t))
    case CondClear => At(s, t, CondUnlock).(futx := 0)
    case CondUnlock => At(s, t, WaitUnlock).(condLock := Nobody)
    case WaitUnlock => At(s, t, Sleep).(lock := Nobody)
    case Sleep => At(s, t, if s.futx == 0 then Asleep else Relock)
    case Relock => At(s, t, Leave).(lock := By(t))
    case Leave => At(s, t, LeaveUnlock).(leaving := s.leaving - 1)
    case LeaveUnlock => Returned(s, t).(lock := Nobody)
  }

  ghost predicate Next(s: State, s': State) {
    exists t :: t in s.threads && Enabled(s, t) && s' == Exec(s, t)
  }

  ghost predicate Run(r: seq<State>) {
    |r| > 0 && Init(r[0]) && forall i :: 0 <= i < |r| - 1 ==> Next(r[i], r[i + 1])
  }

  // ---------------------------------------------------------------------------
  // The invariant

  predicate HoldsLock(p: PC) {
    || p.Arrive? || p.Test? || p.ClearArrived? || p.SetLeaving? || p.LastUnlock?
    || p.CondLock? || p.CondClear? || p.CondUnlock? || p.WaitUnlock? || p.Leave? || p.LeaveUnlock?
  }

  predicate HoldsCond(p: PC) { p.CastSet? || p.CastWake? || p.CastUnlock? || p.CondClear? || p.CondUnlock? }

  /** Not yet arrived in the current round. */
  predicate Outside(p: PC) { p.Spin? || p.Lock? || p.Arrive? }

  /** On the way into the condition variable, before `m_futx = 0`, or after it. */
  predicate Entering(p: PC) { p.Test? || p.CondLock? || p.CondClear? }
  predicate Cleared(p: PC) { p.CondUnlock? || p.WaitUnlock? || p.Sleep? || p.Asleep? }

  /** Still counted in `m_leaving`. */
  predicate Waits(p: PC) { p.Sleep? || p.Asleep? || p.Relock? || p.Leave? }

  /** The last arriver before `m_arrived = 0`, before `m_leaving` is set, and before the broadcast sets the futex word. */
  predicate Full(p: PC) { p.Test? || p.ClearArrived? }
  predicate Unset(p: PC) { Full(p) || p.SetLeaving? }
  predicate Early(p: PC) { Unset(p) || p.LastUnlock? || p.CastLock? || p.CastSet? }
  predicate Casting(p: PC) { Early(p) || p.CastWake? || p.CastUnlock? }

  /** The two parts of `Barrier::wait` before the condition variable is reached. */
  predicate Gathering(p: PC) { p.Spin? || p.Lock? || p.Arrive? || p.Test? }
  predicate Broadcasting(p: PC) {
    p.ClearArrived? || p.SetLeaving? || p.LastUnlock? || p.CastLock? || p.CastSet? || p.CastWake? || p.CastUnlock?
  }

  /** The thread belongs to a completed round it has not returned from. */
  predicate IsOld(s: State, t: Tid)
    requires t in s.threads
  {
    s.threads[t].returned < s.epoch
  }

  /** The thread has arrived in the round that is gathering. */
  predicate IsNew(s: State, t: Tid)
    requires t in s.threads
  {
    s.threads[t].arrivals > s.epoch
  }

  /** What the place of a thread says about its rounds. */
  ghost predicate Local(s: State, t: Tid)
    requires t in s.threads
  {
    var Thread(p, arrivals, returned) := s.threads[t];
    if Outside(p) then arrivals == returned == s.epoch
    else if IsNew(s, t) then
      && arrivals == s.epoch + 1 && returned == s.epoch
      && (Entering(p) || Cleared(p))
      && (Cleared(p) ==> s.futx == 0)
      && (p.Test? ==> s.arrived < s.count)
    else
      && arrivals == s.epoch && returned + 1 == s.epoch
      && (if Casting(p) then t == s.last else Waits(p) || p.LeaveUnlock?)
      && (p.Test? ==> s.arrived == s.count)
  }

  /** The last arriver has not returned yet. */
  predicate CastPending(s: State) {
    s.last in s.threads && Casting(s.threads[s.last].pc) && IsOld(s, s.last)
  }

  predicate PendingEarly(s: State) { CastPending(s) && Early(s.threads[s.last].pc) }
  predicate PendingUnset(s: State) { CastPending(s) && Unset(s.threads[s.last].pc) }
  predicate PendingFull(s: State) { CastPending(s) && Full(s.threads[s.last].pc) }

  /** The locks are held by the threads whose place says so. */
  ghost predicate Locked(s: State, u: Tid)
    requires u in s.threads
  {
    && (HoldsLock(s.threads[u].pc) <==> s.lock == By(u))
    && (HoldsCond(s.threads[u].pc) <==> s.condLock == By(u))
  }

  /** Until the futex word is set everybody else waits, and until the broadcast is over no newcomer clears it. */
  ghost predicate CastOrder(s: State, u: Tid)
    requires u in s.threads
  {
    && (PendingEarly(s) && u != s.last ==>
          IsOld(s, u) && (s.threads[u].pc.Sleep? || s.threads[u].pc.Asleep?) && s.futx == 0)
    && (CastPending(s) && !PendingEarly(s) && IsNew(s, u) ==> s.threads[u].pc.Test? || s.threads[u].pc.CondLock?)
  }

  /** A waiter of a completed round still has its wake-up coming. */
  ghost predicate WakeComing(s: State, u: Tid)
    requires u in s.threads
  {
    IsOld(s, u) ==>
      && (s.threads[u].pc.Asleep? ==> CastPending(s) && !s.threads[s.last].pc.CastUnlock?)
      && (s.threads[u].pc.Sleep? && s.futx == 0 ==> PendingEarly(s))
  }

  ghost predicate ThreadInv(s: State, u: Tid)
    requires u in s.threads
  {
    Locked(s, u) && Local(s, u) && CastOrder(s, u) && WakeComing(s, u)
  }

  predicate Waiting(s: State, u: Tid)
    requires u in s.threads
  {
    IsOld(s, u) && Waits(s.threads[u].pc)
  }

  /** A waiter of a completed round keeps newcomers out. */
  ghost predicate Apart(s: State, u: Tid, v: Tid)
    requires u in s.threads && v in s.threads
  {
    Waiting(s, u) ==> !s.threads[v].pc.Lock? && !s.threads[v].pc.Arrive? && !IsNew(s, v)
  }

  function NewThreads(s: State): set<Tid> {
    set t | t in s.threads && IsNew(s, t)
  }

  function Waiters(s: State): set<Tid> {
    set t | t in s.threads && Waiting(s, t)
  }

  ghost predicate Counts(s: State) {
    && s.count == |s.threads| > 0
    && |NewThreads(s)| < s.count
    && s.arrived == (if PendingFull(s) then s.count else |NewThreads(s)|)
    && s.leaving == (if PendingUnset(s) then 0 else |Waiters(s)|)
  }

  ghost predicate AllThreads(s: State) { forall u :: u in s.threads ==> ThreadInv(s, u) }
  ghost predicate AllApart(s: State) { forall u, v :: u in s.threads && v in s.threads ==> Apart(s, u, v) }

  ghost predicate Owners(s: State) {
    (s.lock.By? ==> s.lock.tid in s.threads) && (s.condLock.By? ==> s.condLock.tid in s.threads)
  }

  ghost predicate Inv(s: State) {
    AllThreads(s) && AllApart(s) && Counts(s) && Owners(s)
  }

  lemma InitInv(s: State)
    requires Init(s)
    ensures Inv(s)
  {
    assert NewThreads(s) == {};
    assert Waiters(s) == {};
  }

  // ---------------------------------------------------------------------------
  // Every step keeps it

  /** What the counters say when a thread passes the spin loop or completes a round. */
  ghost predicate CountFacts(s: State, t: Tid, u: Tid)
    requires t in s.threads && u in s.threads
  {
    && (s.arrived < s.count || PendingFull(s))
    && (s.leaving <= 0 && !PendingUnset(s) ==> !Waiting(s, u))
    && (s.threads[t].pc.Arrive? && s.arrived + 1 == s.count && u != t ==> IsNew(s, u))
  }

  /** The invariant at thread `t` and at the last arriver, which every argument needs. */
  ghost predicate Around(s: State, t: Tid, u: Tid)
    requires t in s.threads && u in s.threads
  {
    && ThreadInv(s, t) && ThreadInv(s, u) && (s.last in s.threads ==> ThreadInv(s, s.last))
    && Apart(s, t, u) && Apart(s, u, t)
    && CountFacts(s, t, u)
  }

  lemma StepLockedGather(s: State, t: Tid, u: Tid)
    requires t in s.threads && u in s.threads && Enabled(s, t)
    requires Around(s, t, u)
    requires Gathering(s.threads[t].pc)
    ensures Locked(Exec(s, t), u)
  {
    hide Local, CastOrder;
  }

  lemma StepLockedCast(s: State, t: Tid, u: Tid)
    requires t in s.threads && u in s.threads && Enabled(s, t)
    requires Around(s, t, u)
    requires Broadcasting(s.threads[t].pc)
    ensures Locked(Exec(s, t), u)
  {
    hide Local, CastOrder;
  }

  lemma StepLockedWait(s: State, t: Tid, u: Tid)
    requires t in s.threads && u in s.threads && Enabled(s, t)
    requires Around(s, t, u)
    requires !Gathering(s.threads[t].pc) && !Broadcasting(s.threads[t].pc)
    ensures Locked(Exec(s, t), u)
  {
    hide Local, CastOrder;
  }

  lemma StepLocked(s: State, t: Tid, u: Tid)
    requires t in s.threads && u in s.threads && Enabled(s, t)
    requires Around(s, t, u)
    ensures Locked(Exec(s, t), u)
  {
    hide Exec, Enabled, Around, Locked, Local;
    if Gathering(s.threads[t].pc) { StepLockedGather(s, t, u); }
    else if Broadcasting(s.threads[t].pc) { StepLockedCast(s, t, u); }
    else { StepLockedWait(s, t, u); }
  }

  lemma StepLocalSelfGather(s: State, t: Tid)
    requires t in s.threads && Enabled(s, t) && Around(s, t, t)
    requires Gathering(s.threads[t].pc)
    ensures Local(Exec(s, t), t)
  {
    hide Locked, WakeComing, Apart;
  }

  lemma StepLocalSelfCast(s: State, t: Tid)
    requires t in s.threads && Enabled(s, t) && Around(s, t, t)
    requires Broadcasting(s.threads[t].pc)
    ensures Local(Exec(s, t), t)
  {
    hide Locked, WakeComing, Apart;
  }

  lemma StepLocalSelfWait(s: State, t: Tid)
    requires t in s.threads && Enabled(s, t) && Around(s, t, t)
    requires !Gathering(s.threads[t].pc) && !Broadcasting(s.threads[t].pc)
    ensures Local(Exec(s, t), t)
  {
    hide Locked, WakeComing, Apart;
  }

  lemma StepLocalSelf(s: State, t: Tid)
    requires t in s.threads && Enabled(s, t) && Around(s, t, t)
    ensures Local(Exec(s, t), t)
  {
    hide Exec, Enabled, Around, Locked, Local;
    if Gathering(s.threads[t].pc) { StepLocalSelfGather(s, t); }
    else if Broadcasting(s.threads[t].pc) { StepLocalSelfCast(s, t); }
    else { StepLocalSelfWait(s, t); }
  }

  lemma StepLocalOtherGather(s: State, t: Tid, u: Tid)
    requires t in s.threads && u in s.threads && Enabled(s, t) && u != t
    requires Around(s, t, u)
    requires Gathering(s.threads[t].pc)
    ensures Local(Exec(s, t), u)
  {
    hide WakeComing, Apart;
  }

  lemma StepLocalOtherCast(s: State, t: Tid, u: Tid)
    requires t in s.threads && u in s.threads && Enabled(s, t) && u != t
    requires Around(s, t, u)
    requires Broadcasting(s.threads[t].pc)
    ensures Local(Exec(s, t), u)
  {
    hide WakeComing, Apart;
  }

  lemma StepLocalOtherWait(s: State, t: Tid, u: Tid)
    requires t in s.threads && u in s.threads && Enabled(s, t) && u != t
    requires Around(s, t, u)
    requires !Gathering(s.threads[t].pc) && !Broadcasting(s.threads[t].pc)
    ensures Local(Exec(s, t), u)
  {
    hide WakeComing, Apart;
  }

  lemma StepLocalOther(s: State, t: Tid, u: Tid)
    requires t in s.threads && u in s.threads && Enabled(s, t) && u != t
    requires Around(s, t, u)
    ensures Local(Exec(s, t), u)
  {
    hide Exec, Enabled, Around, Locked, Local;
    if Gathering(s.threads[t].pc) { StepLocalOtherGather(s, t, u); }
    else if Broadcasting(s.threads[t].pc) { StepLocalOtherCast(s, t, u); }
    else { StepLocalOtherWait(s, t, u); }
  }

  lemma StepCastOrderGather(s: State, t: Tid, u: Tid)
    requires t in s.threads && u in s.threads && Enabled(s, t)
    requires Around(s, t, u)
    requires Gathering(s.threads[t].pc)
    ensures CastOrder(Exec(s, t), u)
  {
  }

  lemma StepCastOrderCast(s: State, t: Tid, u: Tid)
    requires t in s.threads && u in s.threads && Enabled(s, t)
    requires Around(s, t, u)
    requires Broadcasting(s.threads[t].pc)
    ensures CastOrder(Exec(s, t), u)
  {
  }

  lemma StepCastOrderWait(s: State, t: Tid, u: Tid)
    requires t in s.threads && u in s.threads && Enabled(s, t)
    requires Around(s, t, u)
    requires !Gathering(s.threads[t].pc) && !Broadcasting(s.threads[t].pc)
    ensures CastOrder(Exec(s, t), u)
  {
  }

  lemma StepCastOrder(s: State, t: Tid, u: Tid)
    requires t in s.threads && u in s.threads && Enabled(s, t)
    requires Around(s, t, u)
    ensures CastOrder(Exec(s, t), u)
  {
    hide Exec, Enabled, Around, CastOrder, WakeComing, Apart;
    if Gathering(s.threads[t].pc) { StepCastOrderGather(s, t, u); }
    else if Broadcasting(s.threads[t].pc) { StepCastOrderCast(s, t, u); }
    else { StepCastOrderWait(s, t, u); }
  }

  lemma StepWakeComingGather(s: State, t: Tid, u: Tid)
    requires t in s.threads && u in s.threads && Enabled(s, t)
    requires Around(s, t, u)
    requires Gathering(s.threads[t].pc)
    ensures WakeComing(Exec(s, t), u)
  {
  }

  lemma StepWakeComingCast(s: State, t: Tid, u: Tid)
    requires t in s.threads && u in s.threads && Enabled(s, t)
    requires Around(s, t, u)
    requires Broadcasting(s.threads[t].pc)
    ensures WakeComing(Exec(s, t), u)
  {
  }

  lemma StepWakeComingWait(s: State, t: Tid, u: Tid)
    requires t in s.threads && u in s.threads && Enabled(s, t)
    requires Around(s, t, u)
    requires !Gathering(s.threads[t].pc) && !Broadcasting(s.threads[t].pc)
    ensures WakeComing(Exec(s, t), u)
  {
  }

  lemma StepWakeComing(s: State, t: Tid, u: Tid)
    requires t in s.threads && u in s.threads && Enabled(s, t)
    requires Around(s, t, u)
    ensures WakeComing(Exec(s, t), u)
  {
    hide Exec, Enabled, Around, CastOrder, WakeComing, Apart;
    if Gathering(s.threads[t].pc) { StepWakeComingGather(s, t, u); }
    else if Broadcasting(s.threads[t].pc) { StepWakeComingCast(s, t, u); }
    else { StepWakeComingWait(s, t, u); }
  }

  lemma StepApartGather(s: State, t: Tid, u: Tid, v: Tid)
    requires t in s.threads && u in s.threads && v in s.threads && Enabled(s, t)
    requires Around(s, t, u) && Around(s, t, v) && Apart(s, u, v)
    requires Gathering(s.threads[t].pc)
    ensures Apart(Exec(s, t), u, v)
  {
  }

  lemma StepApartCast(s: State, t: Tid, u: Tid, v: Tid)
    requires t in s.threads && u in s.threads && v in s.threads && Enabled(s, t)
    requires Around(s, t, u) && Around(s, t, v) && Apart(s, u, v)
    requires Broadcasting(s.threads[t].pc)
    ensures Apart(Exec(s, t), u, v)
  {
  }

  lemma StepApartWait(s: State, t: Tid, u: Tid, v: Tid)
    requires t in s.threads && u in s.threads && v in s.threads && Enabled(s, t)
    requires Around(s, t, u) && Around(s, t, v) && Apart(s, u, v)
    requires !Gathering(s.threads[t].pc) && !Broadcasting(s.threads[t].pc)
    ensures Apart(Exec(s, t), u, v)
  {
  }

  lemma StepApart(s: State, t: Tid, u: Tid, v: Tid)
    requires t in s.threads && u in s.threads && v in s.threads && Enabled(s, t)
    requires Around(s, t, u) && Around(s, t, v) && Apart(s, u, v)
    ensures Apart(Exec(s, t), u, v)
  {
    hide Exec, Enabled, Around, CastOrder, WakeComing, Apart;
    if Gathering(s.threads[t].pc) { StepApartGather(s, t, u, v); }
    else if Broadcasting(s.threads[t].pc) { StepApartCast(s, t, u, v); }
    else { StepApartWait(s, t, u, v); }
  }

  lemma InvAround(s: State, t: Tid, u: Tid)
    requires Inv(s) && t in s.threads && u in s.threads
    ensures Around(s, t, u)
  {
    assert Waiting(s, u) ==> u in Waiters(s);
    if s.threads[t].pc.Arrive? && s.arrived + 1 == s.count && u != t && !IsNew(s, u) {
      var rest := s.threads.Keys - {t} - {u};
      assert NewThreads(s) <= rest;
      SubsetSize(NewThreads(s), rest);
    }
  }

  /** Does this step complete the round? */
  predicate Completes(s: State, t: Tid)
    requires t in s.threads
  {
    s.threads[t].pc.Arrive? && s.arrived + 1 == s.count
  }

  lemma StepNew(s: State, t: Tid, u: Tid)
    requires t in s.threads && u in s.threads && Enabled(s, t) && Around(s, t, u)
    ensures u in Exec(s, t).threads
    ensures IsNew(Exec(s, t), u) <==>
              !Completes(s, t) && (IsNew(s, u) || (u == t && s.threads[t].pc.Arrive?))
    ensures s.threads[t].pc.Arrive? ==> !IsNew(s, t)
  {
  }

  lemma StepWaiting(s: State, t: Tid, u: Tid)
    requires t in s.threads && u in s.threads && Enabled(s, t) && Around(s, t, u)
    ensures u in Exec(s, t).threads
    ensures Waiting(Exec(s, t), u) <==>
              if u == t then !s.threads[t].pc.Leave? && Waiting(s, t) else Completes(s, t) || Waiting(s, u)
    ensures s.threads[t].pc.Leave? ==> Waiting(s, t)
    ensures s.threads[t].pc.Arrive? ==> !Waiting(s, u)
  {
  }

  lemma StepKeys(s: State, t: Tid)
    requires t in s.threads && Enabled(s, t)
    ensures Exec(s, t).threads.Keys == s.threads.Keys && Exec(s, t).count == s.count
    ensures Owners(s) ==> Owners(Exec(s, t))
  {
  }

  /** How a step changes the two sets that the counters count. */
  lemma StepSets(s: State, t: Tid)
    requires Inv(s) && t in s.threads && Enabled(s, t)
    ensures NewThreads(Exec(s, t)) ==
              if Completes(s, t) then {} else if s.threads[t].pc.Arrive? then NewThreads(s) + {t} else NewThreads(s)
    ensures Waiters(Exec(s, t)) ==
              if Completes(s, t) then s.threads.Keys - {t} else if s.threads[t].pc.Leave? then Waiters(s) - {t} else Waiters(s)
    ensures s.threads[t].pc.Arrive? ==> t !in NewThreads(s) && Waiters(s) == {}
    ensures s.threads[t].pc.Leave? ==> t in Waiters(s)
  {
    hide Inv, Around, Exec, IsNew, Waiting;
    var s' := Exec(s, t);
    StepKeys(s, t);
    forall u | u in s.threads
      ensures u in s'.threads
      ensures IsNew(s', u) <==> !Completes(s, t) && (IsNew(s, u) || (u == t && s.threads[t].pc.Arrive?))
      ensures Waiting(s', u) <==>
                if u == t then !s.threads[t].pc.Leave? && Waiting(s, t) else Completes(s, t) || Waiting(s, u)
      ensures s.threads[t].pc.Arrive? ==> !IsNew(s, t) && !Waiting(s, u)
      ensures s.threads[t].pc.Leave? ==> Waiting(s, t)
    {
      InvAround(s, t, u);
      StepNew(s, t, u);
      StepWaiting(s, t, u);
    }
  }

  /** The counters follow the sizes `n` and `w` of the two sets. */
  lemma CountArithmeticGather(s: State, t: Tid, n: nat, w: nat, n': nat, w': int)
    requires t in s.threads && Enabled(s, t) && Around(s, t, t)
    requires n < s.count && s.arrived == (if PendingFull(s) then s.count else n) && s.leaving == (if PendingUnset(s) then 0 else w)
    requires PendingUnset(s) ==> w == s.count - 1 && n == 0
    requires s.threads[t].pc.Arrive? ==> w == 0
    requires n' == if Completes(s, t) then 0 else if s.threads[t].pc.Arrive? then n + 1 else n
    requires w' == if Completes(s, t) then s.count - 1 else if s.threads[t].pc.Leave? then w - 1 else w
    requires Gathering(s.threads[t].pc)
    ensures var s' := Exec(s, t);
            && n' < s.count
            && s'.arrived == (if PendingFull(s') then s.count else n')
            && s'.leaving == (if PendingUnset(s') then 0 else w')
  {
  }

  lemma CountArithmeticCast(s: State, t: Tid, n: nat, w: nat, n': nat, w': int)
    requires t in s.threads && Enabled(s, t) && Around(s, t, t)
    requires n < s.count && s.arrived == (if PendingFull(s) then s.count else n) && s.leaving == (if PendingUnset(s) then 0 else w)
    requires PendingUnset(s) ==> w == s.count - 1 && n == 0
    requires s.threads[t].pc.Arrive? ==> w == 0
    requires n' == if Completes(s, t) then 0 else if s.threads[t].pc.Arrive? then n + 1 else n
    requires w' == if Completes(s, t) then s.count - 1 else if s.threads[t].pc.Leave? then w - 1 else w
    requires Broadcasting(s.threads[t].pc)
    ensures var s' := Exec(s, t);
            && n' < s.count
            && s'.arrived == (if PendingFull(s') then s.count else n')
            && s'.leaving == (if PendingUnset(s') then 0 else w')
  {
  }

  lemma CountArithmeticWait(s: State, t: Tid, n: nat, w: nat, n': nat, w': int)
    requires t in s.threads && Enabled(s, t) && Around(s, t, t)
    requires n < s.count && s.arrived == (if PendingFull(s) then s.count else n) && s.leaving == (if PendingUnset(s) then 0 else w)
    requires PendingUnset(s) ==> w == s.count - 1 && n == 0
    requires s.threads[t].pc.Arrive? ==> w == 0
    requires n' == if Completes(s, t) then 0 else if s.threads[t].pc.Arrive? then n + 1 else n
    requires w' == if Completes(s, t) then s.count - 1 else if s.threads[t].pc.Leave? then w - 1 else w
    requires !Gathering(s.threads[t].pc) && !Broadcasting(s.threads[t].pc)
    ensures var s' := Exec(s, t);
            && n' < s.count
            && s'.arrived == (if PendingFull(s') then s.count else n')
            && s'.leaving == (if PendingUnset(s') then 0 else w')
  {
  }

  lemma CountArithmetic(s: State, t: Tid, n: nat, w: nat, n': nat, w': int)
    requires t in s.threads && Enabled(s, t) && Around(s, t, t)
    requires n < s.count && s.arrived == (if PendingFull(s) then s.count else n) && s.leaving == (if PendingUnset(s) then 0 else w)
    requires PendingUnset(s) ==> w == s.count - 1 && n == 0
    requires s.threads[t].pc.Arrive? ==> w == 0
    requires n' == if Completes(s, t) then 0 else if s.threads[t].pc.Arrive? then n + 1 else n
    requires w' == if Completes(s, t) then s.count - 1 else if s.threads[t].pc.Leave? then w - 1 else w
    ensures var s' := Exec(s, t);
            && n' < s.count
            && s'.arrived == (if PendingFull(s') then s.count else n')
            && s'.leaving == (if PendingUnset(s') then 0 else w')
  {
    hide Exec, Enabled, Around, Locked, Local;
    if Gathering(s.threads[t].pc) { CountArithmeticGather(s, t, n, w, n', w'); }
    else if Broadcasting(s.threads[t].pc) { CountArithmeticCast(s, t, n, w, n', w'); }
    else { CountArithmeticWait(s, t, n, w, n', w'); }
  }

  lemma StepCounts(s: State, t: Tid)
    requires Inv(s) && t in s.threads && Enabled(s, t)
    ensures Counts(Exec(s, t))
  {
    hide Exec, Around, AllThreads, AllApart, NewThreads, Waiters, Completes, Enabled;
    var s' := Exec(s, t);
    StepSets(s, t);
    StepKeys(s, t);
    InvAround(s, t, t);
    OthersWait(s, t);
    CountArithmetic(s, t, |NewThreads(s)|, |Waiters(s)|, |NewThreads(s')|, |Waiters(s')|);
  }

  /** While `m_leaving` is not set, everybody but the last arriver waits. */
  lemma OthersWait(s: State, t: Tid)
    requires Inv(s) && t in s.threads
    ensures PendingUnset(s) ==> |Waiters(s)| == s.count - 1 && NewThreads(s) == {}
  {
    if PendingUnset(s) {
      forall u | u in s.threads ensures u != s.last <==> Waiting(s, u) {
        InvAround(s, s.last, u);
      }
      assert Waiters(s) == s.threads.Keys - {s.last};
      forall u | u in s.threads ensures !IsNew(s, u) {
        InvAround(s, s.last, u);
      }
    }
  }

  /** Every step keeps the invariant. */
  lemma StepInv(s: State, t: Tid)
    requires Inv(s) && t in s.threads && Enabled(s, t)
    ensures Inv(Exec(s, t))
  {
    hide Exec, Around, Enabled, Counts, Local, Locked, CastOrder, WakeComing, Apart;
    var s' := Exec(s, t);
    StepKeys(s, t);
    StepCounts(s, t);
    forall u | u in s'.threads ensures ThreadInv(s', u) {
      InvAround(s, t, u);
      InvAround(s, t, t);
      if u == t { StepLocalSelf(s, t); } else { StepLocalOther(s, t, u); }
      StepLocked(s, t, u);
      StepCastOrder(s, t, u);
      StepWakeComing(s, t, u);
    }
    forall u, v | u in s'.threads && v in s'.threads ensures Apart(s', u, v) {
      InvAround(s, t, u);
      InvAround(s, t, v);
      StepApart(s, t, u, v);
    }
  }

  lemma {:induction false} RunInv(r: seq<State>, i: nat)
    requires Run(r) && i < |r|
    ensures Inv(r[i])
  {
    if i == 0 {
      InitInv(r[0]);
    } else {
      RunInv(r, i - 1);
      assert Next(r[i - 1], r[i]);
      var t :| t in r[i - 1].threads && Enabled(r[i - 1], t) && r[i] == Exec(r[i - 1], t);
      StepInv(r[i - 1], t);
    }
  }

  // ---------------------------------------------------------------------------
  // What the barrier guarantees

  /**
   In every reachable state: a thread that has returned from its n-th call has
   seen every thread arrive n times, no thread is more than one round ahead of
   another, and a thread has at most one arrival outstanding.
   */
  lemma RoundsSeparated(r: seq<State>, i: nat, t: Tid, u: Tid)
    requires Run(r) && i < |r| && t in r[i].threads && u in r[i].threads
    ensures var a, b := r[i].threads[t], r[i].threads[u];
            && a.returned <= b.arrivals
            && a.returned <= b.returned + 1
            && a.returned <= a.arrivals <= a.returned + 1
  {
    RunInv(r, i);
    InvAround(r[i], t, u);
  }

  /** No waiter of a completed round sleeps without a broadcast still to come. */
  lemma NoLostWakeup(r: seq<State>, i: nat, u: Tid)
    requires Run(r) && i < |r| && u in r[i].threads
    requires r[i].threads[u].pc.Asleep? && r[i].threads[u].arrivals == r[i].epoch
    ensures r[i].last in r[i].threads
    ensures var p := r[i].threads[r[i].last].pc; Early(p) || p.CastWake?
  {
    RunInv(r, i);
    InvAround(r[i], u, u);
  }

  /** Some thread can always take a step. */
  lemma NoDeadlock(r: seq<State>, i: nat)
    requires Run(r) && i < |r|
    ensures exists t :: t in r[i].threads && Enabled(r[i], t)
  {
    RunInv(r, i);
    InvProgress(r[i]);
  }

  lemma InvProgress(s: State)
    requires Inv(s)
    ensures exists t :: t in s.threads && Enabled(s, t)
  {
    if s.lock.By? {
      InvAround(s, s.lock.tid, s.lock.tid);
      if !Enabled(s, s.lock.tid) {
        InvAround(s, s.condLock.tid, s.condLock.tid);
        assert Enabled(s, s.condLock.tid);
      }
    } else if s.condLock.By? {
      InvAround(s, s.condLock.tid, s.condLock.tid);
      assert Enabled(s, s.condLock.tid);
    } else if u :| u in s.threads && !s.threads[u].pc.Spin? && !s.threads[u].pc.Asleep? {
      assert Enabled(s, u);
    } else {
      // Nobody is broadcasting, so nobody waits for a completed round.
      forall u | u in s.threads ensures !Waiting(s, u) {
        InvAround(s, u, u);
      }
      assert Waiters(s) == {};
      // Not everybody has arrived in the round that is gathering.
      assert NewThreads(s) != s.threads.Keys;
      var t :| t in s.threads && t !in NewThreads(s);
      InvAround(s, t, t);
      assert Enabled(s, t);
    }
  }

  // ---------------------------------------------------------------------------
  // What the callers see: how often each has entered and left

  /** How often thread `t` has started a call, and how often it has returned from one, by state `i`. */
  ghost function Entries(r: seq<State>, t: Tid, i: nat): nat
    requires i < |r| && forall k :: 0 <= k <= i ==> t in r[k].threads
  {
    if i == 0 then 0
    else Entries(r, t, i - 1) + if r[i - 1].threads[t].pc.Spin? && !r[i].threads[t].pc.Spin? then 1 else 0
  }

  ghost function Exits(r: seq<State>, t: Tid, i: nat): nat
    requires i < |r| && forall k :: 0 <= k <= i ==> t in r[k].threads
  {
    if i == 0 then 0
    else Exits(r, t, i - 1) + if !r[i - 1].threads[t].pc.Spin? && r[i].threads[t].pc.Spin? then 1 else 0
  }

  lemma StepThread(s: State, t: Tid, u: Tid)
    requires t in s.threads && u in s.threads && Enabled(s, t)
    ensures u in Exec(s, t).threads
    ensures var a, b := s.threads[u], Exec(s, t).threads[u];
            && b.returned == a.returned + (if !a.pc.Spin? && b.pc.Spin? then 1 else 0)
            && b.arrivals == a.arrivals + (if u == t && a.pc.Arrive? then 1 else 0)
            && (a.pc.Arrive? && u == t ==> b.pc.Test?)
            && (a.pc.Spin? && !b.pc.Spin? ==> b.pc.Lock?)
            && (u != t ==> b.pc == a.pc || (a.pc.Asleep? && b.pc.Relock?))
            && (u == t && a.pc.Lock? ==> b.pc.Arrive?)
  {
  }

  lemma StepEntry(s: State, t: Tid, u: Tid)
    requires t in s.threads && u in s.threads && Enabled(s, t)
    ensures u in Exec(s, t).threads
    ensures var a, b := s.threads[u], Exec(s, t).threads[u];
            (if b.pc.Lock? || b.pc.Arrive? then 1 else 0) - (if a.pc.Lock? || a.pc.Arrive? then 1 else 0)
              == (if a.pc.Spin? && !b.pc.Spin? then 1 else 0) - (b.arrivals - a.arrivals)
  {
  }

  lemma {:induction false} Present(r: seq<State>, t: Tid, i: nat)
    requires Run(r) && i < |r| && t in r[i].threads
    ensures forall k :: 0 <= k <= i ==> t in r[k].threads
  {
    if i > 0 {
      SameThreads(r, i - 1);
      Present(r, t, i - 1);
    }
  }

  lemma SameThreads(r: seq<State>, k: nat)
    requires Run(r) && k + 1 < |r|
    ensures r[k + 1].threads.Keys == r[k].threads.Keys
  {
    hide Exec, Enabled;
    assert Next(r[k], r[k + 1]);
    var t :| t in r[k].threads && Enabled(r[k], t) && r[k + 1] == Exec(r[k], t);
    StepKeys(r[k], t);
  }

  /** The counters of a thread are what its calls amount to. */
  lemma {:induction false} CountersAreCalls(r: seq<State>, t: Tid, i: nat)
    requires Run(r) && i < |r| && t in r[i].threads && forall k :: 0 <= k <= i ==> t in r[k].threads
    ensures Exits(r, t, i) == r[i].threads[t].returned
    ensures Entries(r, t, i) == r[i].threads[t].arrivals + if r[i].threads[t].pc.Lock? || r[i].threads[t].pc.Arrive? then 1 else 0
  {
    hide Exec, Enabled;
    if i > 0 {
      CountersAreCalls(r, t, i - 1);
      assert Next(r[i - 1], r[i]);
      var u :| u in r[i - 1].threads && Enabled(r[i - 1], u) && r[i] == Exec(r[i - 1], u);
      StepThread(r[i - 1], u, t);
      StepEntry(r[i - 1], u, t);
    }
  }

  /**
   Rounds, in terms of calls: nobody has returned from its n-th call before everybody
   has started an n-th call, and no thread is more than one return ahead of another.
   */
  lemma CallsSeparated(r: seq<State>, i: nat, t: Tid, u: Tid)
    requires Run(r) && i < |r| && t in r[i].threads && u in r[i].threads
    ensures forall k :: 0 <= k <= i ==> t in r[k].threads && u in r[k].threads
    ensures Exits(r, t, i) <= Entries(r, u, i) && Exits(r, t, i) <= Exits(r, u, i) + 1
  {
    hide Run, Exits, Entries;
    Present(r, t, i);
    Present(r, u, i);
    CountersAreCalls(r, t, i);
    CountersAreCalls(r, u, i);
    RoundsSeparated(r, i, t, u);
  }

  // ---------------------------------------------------------------------------
  // Progress: no step is wasted

  /** How far a thread is in its call; no way through it has more than `LENGTH` steps. */
  function Place(p: PC): nat {
    match p
    case Spin => 0
    case Lock => 1
    case Arrive => 2
    case Test => 3
    case ClearArrived => 4
    case SetLeaving => 5
    case LastUnlock => 6
    case CastLock => 7
    case CastSet => 8
    case CastWake => 9
    case CastUnlock => 10
    case CondLock => 4
    case CondClear => 5
    case CondUnlock => 6
    case WaitUnlock => 7
    case Sleep => 8
    case Asleep => 9
    case Relock => 10
    case Leave => 11
    case LeaveUnlock => 12
  }

  const LENGTH: nat := 13

  function Work(t: Thread): nat { LENGTH * t.returned + Place(t.pc) }

  /** The work of the threads in `ts`. */
  ghost function TotalWork(threads: map<Tid, Thread>, ts: set<Tid>): nat
    requires ts <= threads.Keys
  {
    if ts == {} then 0
    else
      var t :| t in ts;
      TotalWork(threads, ts - {t}) + Work(threads[t])
  }

  lemma {:induction false} WorkTake(threads: map<Tid, Thread>, ts: set<Tid>, t: Tid)
    requires ts <= threads.Keys && t in ts
    ensures TotalWork(threads, ts) == TotalWork(threads, ts - {t}) + Work(threads[t])
    decreases |ts|
  {
    hide Work;
    var u :| u in ts && TotalWork(threads, ts) == TotalWork(threads, ts - {u}) + Work(threads[u]);
    if u != t {
      WorkTake(threads, ts - {u}, t);
      WorkTake(threads, ts - {t}, u);
      assert ts - {u} - {t} == ts - {t} - {u};
    }
  }

  lemma {:induction false} WorkGrows(a: map<Tid, Thread>, b: map<Tid, Thread>, ts: set<Tid>)
    requires ts <= a.Keys && ts <= b.Keys && forall u :: u in ts ==> Work(a[u]) <= Work(b[u])
    ensures TotalWork(a, ts) <= TotalWork(b, ts)
    decreases |ts|
  {
    hide Work;
    if ts != {} {
      var t :| t in ts;
      WorkTake(a, ts, t);
      WorkTake(b, ts, t);
      WorkGrows(a, b, ts - {t});
    }
  }

  lemma {:induction false} WorkBounded(a: map<Tid, Thread>, ts: set<Tid>, bound: nat)
    requires ts <= a.Keys && forall u :: u in ts ==> Work(a[u]) <= bound
    ensures TotalWork(a, ts) <= |ts| * bound
    decreases |ts|
  {
    hide Work;
    if ts != {} {
      var t :| t in ts;
      WorkTake(a, ts, t);
      WorkBounded(a, ts - {t}, bound);
      OneMore(|ts| - 1, bound);
    }
  }

  lemma OneMore(n: nat, bound: nat)
    ensures (n + 1) * bound == n * bound + bound
  {
  }

  /** A step works for the thread that takes it, and against nobody. */
  lemma StepWorks(s: State, t: Tid, u: Tid)
    requires t in s.threads && u in s.threads && Enabled(s, t)
    ensures u in Exec(s, t).threads
    ensures Work(Exec(s, t).threads[u]) >= Work(s.threads[u]) + if u == t then 1 else 0
  {
  }

  lemma StepTotal(s: State, t: Tid)
    requires t in s.threads && Enabled(s, t)
    ensures var s' := Exec(s, t); s'.threads.Keys == s.threads.Keys && TotalWork(s'.threads, s.threads.Keys) >= TotalWork(s.threads, s.threads.Keys) + 1
  {
    hide Exec, Enabled, Work;
    StepKeys(s, t);
    var s', ts := Exec(s, t), s.threads.Keys;
    forall u | u in ts ensures Work(s'.threads[u]) >= Work(s.threads[u]) + if u == t then 1 else 0 { StepWorks(s, t, u); }
    WorkTake(s.threads, ts, t);
    WorkTake(s'.threads, ts, t);
    WorkGrows(s.threads, s'.threads, ts - {t});
  }

  lemma {:induction false} RunWorks(r: seq<State>, i: nat)
    requires Run(r) && i < |r|
    ensures TotalWork(r[i].threads, r[i].threads.Keys) >= i && |r[i].threads| == r[0].count && r[i].count == r[0].count
  {
    hide Exec, Enabled, Work, TotalWork;
    if i > 0 {
      RunWorks(r, i - 1);
      assert Next(r[i - 1], r[i]);
      var t :| t in r[i - 1].threads && Enabled(r[i - 1], t) && r[i] == Exec(r[i - 1], t);
      StepTotal(r[i - 1], t);
      StepKeys(r[i - 1], t);
      assert |r[i].threads| == |r[i].threads.Keys|;
      assert |r[i - 1].threads| == |r[i - 1].threads.Keys|;
    }
  }

  /**
   Progress: after `i` steps of any schedule, every thread has returned from all but
   two of the calls that `i` steps make for each thread. With `NoDeadlock`, every
   run goes on, so every call returns.
   */
  lemma EveryCallReturns(r: seq<State>, i: nat, t: Tid)
    requires Run(r) && i < |r| && t in r[i].threads
    ensures i <= r[0].count * (LENGTH * (r[i].threads[t].returned + 2))
  {
    hide Run, TotalWork, Work;
    RunWorks(r, i);
    var ts, bound := r[i].threads.Keys, LENGTH * (r[i].threads[t].returned + 2);
    forall u | u in ts ensures Work(r[i].threads[u]) <= bound {
      RoundsSeparated(r, i, u, t);
      WorkAtMost(r[i].threads[u], r[i].threads[t].returned + 1);
    }
    WorkBounded(r[i].threads, ts, bound);
    assert |ts| == r[0].count;
  }

  lemma WorkAtMost(t: Thread, n: nat)
    requires t.returned <= n
    ensures Work(t) <= LENGTH * (n + 1)
  {
  }
}
