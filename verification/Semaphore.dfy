/**
 The counting semaphore of common/misc/semaphore.cc over a futex word, as a
 transition system with one step per lock operation, shared write or futex call
 and any number of threads.  `FUTEX_WAIT` compares and sleeps atomically;
 `FUTEX_WAKE` with count one wakes an arbitrary sleeper.
 */
module Semaphore {

  import opened Basics

  /** Where a thread stands; `all` tells `broadcast` from `signal`. */
  datatype PC =
    | Idle
    // wait()
    | WaitLock      // before _lock.acquire()
    | WaitTest      // before testing _count <= 0
    | Register      // before _numWaiting++
    | ClearWord     // before _futx = 0
    | WaitUnlock    // before _lock.release()
    | Sleep         // before FUTEX_WAIT
    | Asleep        // inside FUTEX_WAIT
    | Relock        // before _lock.acquire()
    | Deregister    // before _numWaiting--
    | Take          // before _count--
    | TakeUnlock    // before _lock.release()
    // signal() and broadcast()
    | PostLock(all: bool)    // before _lock.acquire()
    | PostCount(all: bool)   // before _count++
    | PostTest(all: bool)    // before testing _numWaiting > 0
    | PostSet(all: bool)     // before _futx = 1
    | PostWake(all: bool)    // before FUTEX_WAKE
    | PostUnlock(all: bool)  // before _lock.release()

  /** `posts` and `takes` count the returned signals and broadcasts, and the returned waits. */
  datatype State = State(
    threads: map<Tid, PC>, count: int, numWaiting: int, futx: int, lock: Owner,
    initial: int, posts: nat, takes: nat)

  ghost predicate Init(s: State) {
    && (forall t :: t in s.threads ==> s.threads[t] == Idle)
    && s.count == s.initial && s.numWaiting == 0 && s.futx == 0 && s.lock == Nobody
    && s.posts == 0 && s.takes == 0
  }

  // ---------------------------------------------------------------------------
  // Steps

  /** What the program or the kernel chooses: the operation an idle thread calls, and the sleeper that is woken. */
  datatype Choice = Choice(call: PC, woken: Tid)

  ghost predicate Sleeping(s: State, t: Tid) { t in s.threads && s.threads[t].Asleep? }

  ghost predicate NoSleeper(s: State) { forall u :: u in s.threads ==> !s.threads[u].Asleep? }

  ghost predicate Enabled(s: State, t: Tid, c: Choice)
    requires t in s.threads
  {
    match s.threads[t]
    case Idle => c.call.WaitLock? || c.call.PostLock?
    case WaitLock => s.lock == Nobody
    case Relock => s.lock == Nobody
    case PostLock(_) => s.lock == Nobody
    case Asleep => false
    case PostWake(all) => all || Sleeping(s, c.woken) || NoSleeper(s)
    case _ => true
  }

  function At(s: State, t: Tid, p: PC): State { s.(threads := s.threads[t := p]) }

  function Woken(threads: map<Tid, PC>, all: bool, w: Tid): map<Tid, PC> {
    map u | u in threads :: if threads[u].Asleep? && (all || u == w) then Relock else threads[u]
  }

  function Exec(s: State, t: Tid, c: Choice): State
    requires t in s.threads
  {
    match s.threads[t]
    case Idle => At(s, t, c.call)
    case WaitLock => At(s, t, WaitTest).(lock := By(t))
    case WaitTest => At(s, t, if s.count <= 0 then Register else Take)
    case Register => At(s, t, ClearWord).(numWaiting := s.numWaiting + 1)
    case ClearWord => At(s, t, WaitUnlock).(futx := 0)
    case WaitUnlock => At(s, t, Sleep).(lock := Nobody)
    case Sleep => At(s, t, if s.futx == 0 then Asleep else Relock)
    case Asleep => s
    case Relock => At(s, t, Deregister).(lock := By(t))
    case Deregister => At(s, t, WaitTest).(numWaiting := s.numWaiting - 1)
    case Take => At(s, t, TakeUnlock).(count := s.count - 1)
    case TakeUnlock => At(s, t, Idle).(lock := Nobody, takes := s.takes + 1)
    case PostLock(all) => At(s, t, PostCount(all)).(lock := By(t))
    case PostCount(all) => At(s, t, PostTest(all)).(count := s.count + 1)
    case PostTest(all) => At(s, t, if s.numWaiting > 0 then PostSet(all) else PostUnlock(all))
    case PostSet(all) => At(s, t, PostWake(all)).(futx := 1)
    case PostWake(all) => At(s.(threads := Woken(s.threads, all, c.woken)), t, PostUnlock(all))
    case PostUnlock(_) => At(s, t, Idle).(lock := Nobody, posts := s.posts + 1)
  }

  ghost predicate Next(s: State, s': State) {
    exists t, c :: t in s.threads && Enabled(s, t, c) && s' == Exec(s, t, c)
  }

  ghost predicate Run(r: seq<State>) {
    |r| > 0 && Init(r[0]) && forall i :: 0 <= i < |r| - 1 ==> Next(r[i], r[i + 1])
  }

  // ---------------------------------------------------------------------------
  // The invariant

  predicate Holds(p: PC) {
    || p.WaitTest? || p.Register? || p.ClearWord? || p.WaitUnlock? || p.Deregister? || p.Take? || p.TakeUnlock?
    || p.PostCount? || p.PostTest? || p.PostSet? || p.PostWake? || p.PostUnlock?
  }

  /** Counted in `_numWaiting`. */
  predicate Counted(p: PC) {
    p.ClearWord? || p.WaitUnlock? || p.Sleep? || p.Asleep? || p.Relock? || p.Deregister?
  }

  /** Raised the count but has not woken anybody for it yet. */
  predicate Posting(p: PC) { p.PostTest? || p.PostSet? || p.PostWake? }

  /** About to take from the count if there is anything to take. */
  predicate Taking(p: PC) { p.WaitTest? || p.Take? }

  /** A waiter that is awake, or will not fall asleep because the word is set. */
  predicate Alert(p: PC, futx: int) { p.Relock? || p.Deregister? || (p.Sleep? && futx != 0) }

  predicate ByOwner(s: State) { s.lock.By? && s.lock.tid in s.threads }

  /** The part of the count that the lock holder answers for. */
  function Spoken(s: State): nat {
    if ByOwner(s) && (Posting(s.threads[s.lock.tid]) || (Taking(s.threads[s.lock.tid]) && s.count > 0)) then 1 else 0
  }

  function Credit(s: State): int { s.count - Spoken(s) }

  ghost predicate ThreadInv(s: State, u: Tid)
    requires u in s.threads
  {
    var p := s.threads[u];
    && (Holds(p) <==> s.lock == By(u))
    && (p.Register? || p.ClearWord? || p.WaitUnlock? ==> s.count <= 0)
    && (p.Take? ==> s.count > 0)
    && (p.PostWake? ==> s.futx != 0)
    && (Counted(p) && s.futx == 0 ==> Credit(s) <= 0)
  }

  function CountedSet(s: State): set<Tid> { set t | t in s.threads && Counted(s.threads[t]) }

  function AlertSet(s: State): set<Tid> { set t | t in s.threads && Alert(s.threads[t], s.futx) }

  /** While somebody sleeps, there are alert waiters for the whole credit. */
  ghost predicate Alerted(s: State) { NoSleeper(s) || Credit(s) <= |AlertSet(s)| }

  /** Where the lock holder is in the middle of moving the count. */
  function Drift(s: State): int {
    if !ByOwner(s) then 0
    else
      var p := s.threads[s.lock.tid];
      if Posting(p) || p.PostUnlock? then 1 else if p.TakeUnlock? then -1 else 0
  }

  ghost predicate Balanced(s: State) { s.count == s.initial + s.posts - s.takes + Drift(s) }

  ghost predicate Inv(s: State) {
    && (s.lock.By? ==> s.lock.tid in s.threads)
    && (forall u :: u in s.threads ==> ThreadInv(s, u))
    && s.numWaiting == |CountedSet(s)|
    && Alerted(s)
    && Balanced(s)
    && (s.initial >= 0 ==> s.count >= 0)
  }

  lemma InitInv(s: State)
    requires Init(s)
    ensures Inv(s)
  {
    assert CountedSet(s) == {};
  }

  // ---------------------------------------------------------------------------
  // Every step keeps it

  /** The facts about the threads that every argument needs. */
  ghost predicate Around(s: State, t: Tid, u: Tid)
    requires t in s.threads && u in s.threads
  {
    && ThreadInv(s, t) && ThreadInv(s, u)
    && (s.lock.By? ==> s.lock.tid in s.threads && ThreadInv(s, s.lock.tid))
    && (s.numWaiting <= 0 ==> !Counted(s.threads[u]))
  }

  lemma InvAround(s: State, t: Tid, u: Tid)
    requires Inv(s) && t in s.threads && u in s.threads
    ensures Around(s, t, u)
  {
    assert Counted(s.threads[u]) ==> u in CountedSet(s);
  }

  lemma StepThread(s: State, t: Tid, c: Choice, u: Tid)
    requires t in s.threads && u in s.threads && Enabled(s, t, c) && Around(s, t, u)
    ensures u in Exec(s, t, c).threads && ThreadInv(Exec(s, t, c), u)
  {
  }

  lemma StepKeys(s: State, t: Tid, c: Choice)
    requires t in s.threads && Enabled(s, t, c)
    ensures Exec(s, t, c).threads.Keys == s.threads.Keys
    ensures (s.lock.By? ==> s.lock.tid in s.threads) ==>
              (Exec(s, t, c).lock.By? ==> Exec(s, t, c).lock.tid in s.threads)
  {
  }

  lemma StepBalance(s: State, t: Tid, c: Choice)
    requires t in s.threads && Enabled(s, t, c) && Around(s, t, t) && Balanced(s)
    ensures Balanced(Exec(s, t, c))
    ensures (s.initial >= 0 ==> s.count >= 0) ==> (Exec(s, t, c).initial >= 0 ==> Exec(s, t, c).count >= 0)
  {
  }

  lemma StepCountedOne(s: State, t: Tid, c: Choice, u: Tid)
    requires t in s.threads && u in s.threads && Enabled(s, t, c) && u in Exec(s, t, c).threads
    ensures Counted(Exec(s, t, c).threads[u]) <==>
              (Counted(s.threads[u]) || (u == t && s.threads[t].Register?)) && !(u == t && s.threads[t].Deregister?)
  {
  }

  lemma StepNumber(s: State, t: Tid, c: Choice)
    requires t in s.threads && Enabled(s, t, c)
    ensures Exec(s, t, c).numWaiting ==
              if s.threads[t].Register? then s.numWaiting + 1 else if s.threads[t].Deregister? then s.numWaiting - 1 else s.numWaiting
    ensures s.threads[t].Register? ==> !Counted(s.threads[t])
    ensures s.threads[t].Deregister? ==> Counted(s.threads[t])
  {
  }

  lemma StepCounted(s: State, t: Tid, c: Choice)
    requires t in s.threads && Enabled(s, t, c)
    requires s.numWaiting == |CountedSet(s)|
    ensures Exec(s, t, c).numWaiting == |CountedSet(Exec(s, t, c))|
  {
    hide Exec, Enabled, Counted;
    var s' := Exec(s, t, c);
    StepKeys(s, t, c);
    StepNumber(s, t, c);
    forall u | u in s.threads
      ensures Counted(s'.threads[u]) <==>
                (Counted(s.threads[u]) || (u == t && s.threads[t].Register?)) && !(u == t && s.threads[t].Deregister?)
    {
      StepCountedOne(s, t, c, u);
    }
    if s.threads[t].Register? {
      assert CountedSet(s') == CountedSet(s) + {t};
    } else if s.threads[t].Deregister? {
      assert CountedSet(s') == CountedSet(s) - {t};
    } else {
      assert CountedSet(s') == CountedSet(s);
    }
  }

  /** An alert waiter stays alert unless it steps on itself or the word is cleared. */
  lemma StepAlert(s: State, t: Tid, c: Choice, u: Tid)
    requires t in s.threads && u in s.threads && Enabled(s, t, c)
    requires Alert(s.threads[u], s.futx) && !s.threads[t].ClearWord?
    requires !(u == t && s.threads[t].Deregister?)
    ensures u in Exec(s, t, c).threads && Alert(Exec(s, t, c).threads[u], Exec(s, t, c).futx)
  {
  }

  /** How far the credit can rise in a step. */
  lemma StepCredit(s: State, t: Tid, c: Choice)
    requires t in s.threads && Enabled(s, t, c) && Around(s, t, t)
    ensures var k := Credit(Exec(s, t, c));
            match s.threads[t]
            case ClearWord => k <= 0
            case Deregister => k <= Credit(s) - 1 || k <= 0
            case PostTest(_) => k <= Credit(s) || (k <= Credit(s) + 1 && s.numWaiting <= 0)
            case PostWake(_) => k <= Credit(s) + 1
            case _ => k <= Credit(s)
  {
  }

  /** The alert waiters lost in a step, at most the one that steps. */
  lemma StepAlertSet(s: State, t: Tid, c: Choice)
    requires Inv(s) && t in s.threads && Enabled(s, t, c) && !s.threads[t].ClearWord?
    ensures var lost := if s.threads[t].Deregister? then 1 else 0;
            |AlertSet(Exec(s, t, c))| >= |AlertSet(s)| - lost
    ensures s.threads[t].PostWake? && !NoSleeper(Exec(s, t, c)) ==> |AlertSet(Exec(s, t, c))| >= |AlertSet(s)| + 1
  {
    hide Inv, Exec, Enabled, Alert;
    var s' := Exec(s, t, c);
    StepKeys(s, t, c);
    var kept := if s.threads[t].Deregister? then AlertSet(s) - {t} else AlertSet(s);
    forall u | u in kept ensures u in AlertSet(s') {
      StepAlert(s, t, c, u);
    }
    SubsetSize(kept, AlertSet(s'));
    if s.threads[t].PostWake? && !NoSleeper(s') {
      SignalWakes(s, t, c);
      SubsetSize(AlertSet(s) + {c.woken}, AlertSet(s'));
    }
  }

  /** A signal that leaves a sleeper behind has woken another one. */
  lemma SignalWakes(s: State, t: Tid, c: Choice)
    requires t in s.threads && Enabled(s, t, c) && s.threads[t].PostWake?
    requires !NoSleeper(Exec(s, t, c))
    ensures c.woken in s.threads && c.woken !in AlertSet(s) && c.woken in AlertSet(Exec(s, t, c))
  {
  }

  /** Falling asleep happens only when there is no credit. */
  lemma StepAlerted(s: State, t: Tid, c: Choice)
    requires Inv(s) && t in s.threads && Enabled(s, t, c)
    ensures Alerted(Exec(s, t, c))
  {
    var s' := Exec(s, t, c);
    InvAround(s, t, t);
    StepCredit(s, t, c);
    if s.threads[t].ClearWord? {
      assert Credit(s') <= 0;
    } else {
      StepAlertSet(s, t, c);
      SleepersBefore(s, t, c);
    }
  }

  /** If somebody sleeps after a step that did not fall asleep itself, somebody slept before. */
  lemma SleepersBefore(s: State, t: Tid, c: Choice)
    requires Inv(s) && t in s.threads && Enabled(s, t, c)
    ensures NoSleeper(s) && !(s.threads[t].Sleep? && s.futx == 0) ==> NoSleeper(Exec(s, t, c))
    ensures s.threads[t].Sleep? && s.futx == 0 ==> Credit(Exec(s, t, c)) <= 0
    ensures s.numWaiting <= 0 ==> NoSleeper(s)
  {
    InvAround(s, t, t);
    StepKeys(s, t, c);
    StepCredit(s, t, c);
    forall u | u in s.threads ensures s.numWaiting <= 0 ==> !s.threads[u].Asleep? {
      InvAround(s, t, u);
    }
  }

  /** Every step keeps the invariant. */
  lemma StepInv(s: State, t: Tid, c: Choice)
    requires Inv(s) && t in s.threads && Enabled(s, t, c)
    ensures Inv(Exec(s, t, c))
  {
    hide Exec, Enabled, Around, ThreadInv, Alerted, Balanced;
    var s' := Exec(s, t, c);
    StepKeys(s, t, c);
    forall u | u in s'.threads ensures ThreadInv(s', u) {
      InvAround(s, t, u);
      StepThread(s, t, c, u);
    }
    StepCounted(s, t, c);
    StepAlerted(s, t, c);
    InvAround(s, t, t);
    StepBalance(s, t, c);
  }

  lemma {:induction false} RunInv(r: seq<State>, i: nat)
    requires Run(r) && i < |r|
    ensures Inv(r[i])
  {
    hide Inv, Exec, Enabled;
    if i == 0 {
      InitInv(r[0]);
    } else {
      RunInv(r, i - 1);
      assert Next(r[i - 1], r[i]);
      var t, c :| t in r[i - 1].threads && Enabled(r[i - 1], t, c) && r[i] == Exec(r[i - 1], t, c);
      StepInv(r[i - 1], t, c);
    }
  }

  // ---------------------------------------------------------------------------
  // What the semaphore guarantees

  /**
   Conservation: whenever the lock is free, the count is the initial count plus
   the returned signals and broadcasts minus the returned waits, and a semaphore
   that starts non-negative stays so.
   */
  lemma Conservation(r: seq<State>, i: nat)
    requires Run(r) && i < |r|
    ensures r[i].lock == Nobody ==> r[i].count == r[i].initial + r[i].posts - r[i].takes
    ensures r[i].initial >= 0 ==> r[i].count >= 0
  {
    RunInv(r, i);
  }

  /**
   No wake-up is lost: while a thread sleeps, there are other waiters, awake or
   about to find the futex word set, for every unit of the count but at most the
   one the lock holder is just moving.
   */
  lemma NoLostWakeup(r: seq<State>, i: nat, u: Tid)
    requires Run(r) && i < |r| && Sleeping(r[i], u)
    ensures u !in AlertSet(r[i])
    ensures r[i].count <= |AlertSet(r[i])| + 1
    ensures r[i].lock == Nobody ==> r[i].count <= |AlertSet(r[i])|
  {
    RunInv(r, i);
  }

  /** So with the lock free and something to take, some waiter can proceed whatever else happens. */
  lemma SleeperHasHelper(r: seq<State>, i: nat, u: Tid, c: Choice)
    requires Run(r) && i < |r| && Sleeping(r[i], u) && r[i].lock == Nobody && r[i].count > 0
    ensures exists v :: v in r[i].threads && v != u && Alert(r[i].threads[v], r[i].futx) && Enabled(r[i], v, c)
  {
    NoLostWakeup(r, i, u);
    RunInv(r, i);
    assert AlertSet(r[i]) != {};
    var v :| v in AlertSet(r[i]);
    InvAround(r[i], v, v);
    assert Enabled(r[i], v, c);
  }

  // ---------------------------------------------------------------------------
  // What the callers see: calls that begin and return

  predicate InWait(p: PC) {
    || p.WaitLock? || p.WaitTest? || p.Register? || p.ClearWord? || p.WaitUnlock? || p.Sleep? || p.Asleep?
    || p.Relock? || p.Deregister? || p.Take? || p.TakeUnlock?
  }

  predicate InPost(p: PC) { p.PostLock? || p.PostCount? || p.PostTest? || p.PostSet? || p.PostWake? || p.PostUnlock? }

  /** Some thread returns from `wait`, or from `signal` or `broadcast`, between the two states. */
  ghost predicate WaitReturns(s: State, s': State) {
    exists t :: t in s.threads && InWait(s.threads[t]) && t in s'.threads && s'.threads[t].Idle?
  }

  ghost predicate PostReturns(s: State, s': State) {
    exists t :: t in s.threads && InPost(s.threads[t]) && t in s'.threads && s'.threads[t].Idle?
  }

  /** How many calls have returned by state `i`. */
  ghost function WaitsReturned(r: seq<State>, i: nat): nat
    requires i < |r|
  {
    if i == 0 then 0 else WaitsReturned(r, i - 1) + if WaitReturns(r[i - 1], r[i]) then 1 else 0
  }

  ghost function PostsReturned(r: seq<State>, i: nat): nat
    requires i < |r|
  {
    if i == 0 then 0 else PostsReturned(r, i - 1) + if PostReturns(r[i - 1], r[i]) then 1 else 0
  }

  /** A call stays the call it is until it returns, and only the thread that steps can return. */
  lemma StepCall(s: State, t: Tid, c: Choice, u: Tid)
    requires t in s.threads && u in s.threads && Enabled(s, t, c)
    ensures var s' := Exec(s, t, c);
            && u in s'.threads
            && (InWait(s.threads[u]) ==> InWait(s'.threads[u]) || s'.threads[u].Idle?)
            && (InPost(s.threads[u]) ==> InPost(s'.threads[u]) || s'.threads[u].Idle?)
            && (!s.threads[u].Idle? && s'.threads[u].Idle? ==> u == t)
  {
  }

  lemma StepCounters(s: State, t: Tid, c: Choice)
    requires t in s.threads && Enabled(s, t, c)
    ensures var s' := Exec(s, t, c);
            && t in s'.threads && s'.initial == s.initial
            && s'.takes == s.takes + (if InWait(s.threads[t]) && s'.threads[t].Idle? then 1 else 0)
            && s'.posts == s.posts + (if InPost(s.threads[t]) && s'.threads[t].Idle? then 1 else 0)
  {
  }

  lemma StepReturns(s: State, s': State)
    requires Next(s, s')
    ensures s'.initial == s.initial
    ensures s'.takes == s.takes + if WaitReturns(s, s') then 1 else 0
    ensures s'.posts == s.posts + if PostReturns(s, s') then 1 else 0
  {
    hide Exec, Enabled, InWait, InPost;
    var t, c :| t in s.threads && Enabled(s, t, c) && s' == Exec(s, t, c);
    StepCounters(s, t, c);
    NotIdle(s.threads[t]);
    if u :| u in s.threads && InWait(s.threads[u]) && u in s'.threads && s'.threads[u].Idle? {
      NotIdle(s.threads[u]);
      StepCall(s, t, c, u);
    }
    if u :| u in s.threads && InPost(s.threads[u]) && u in s'.threads && s'.threads[u].Idle? {
      NotIdle(s.threads[u]);
      StepCall(s, t, c, u);
    }
  }

  lemma NotIdle(p: PC)
    ensures InWait(p) || InPost(p) ==> !p.Idle?
  {
  }

  lemma {:induction false} CountersAreCalls(r: seq<State>, i: nat)
    requires Run(r) && i < |r|
    ensures r[i].initial == r[0].count && r[i].takes == WaitsReturned(r, i) && r[i].posts == PostsReturned(r, i)
  {
    hide WaitReturns, PostReturns, Next;
    if i > 0 {
      CountersAreCalls(r, i - 1);
      StepReturns(r[i - 1], r[i]);
    }
  }

  /**
   Conservation, in terms of calls: whenever the lock is free, the count is what it
   was at the start, plus the signals and broadcasts that have returned, minus the
   waits that have.
   */
  lemma CallsConserved(r: seq<State>, i: nat)
    requires Run(r) && i < |r|
    ensures r[i].lock == Nobody ==> r[i].count == r[0].count + PostsReturned(r, i) - WaitsReturned(r, i)
    ensures r[0].count >= 0 ==> r[i].count >= 0
  {
    hide Run;
    Conservation(r, i);
    CountersAreCalls(r, i);
  }

  // A broadcast that returns leaves nobody asleep.

  ghost predicate AllAwake(s: State) {
    forall u :: u in s.threads ==> !s.threads[u].Asleep? && (s.threads[u].Sleep? ==> s.futx != 0)
  }

  ghost predicate Broadcasted(s: State) {
    forall t :: t in s.threads && s.threads[t] == PostUnlock(true) ==> AllAwake(s)
  }

  lemma StepAwake(s: State, t: Tid, c: Choice, u: Tid)
    requires t in s.threads && u in s.threads && Enabled(s, t, c) && Around(s, t, u)
    requires s.threads[t] == PostTest(true) || s.threads[t] == PostWake(true)
    ensures u in Exec(s, t, c).threads
    ensures var s' := Exec(s, t, c);
            s'.threads[t] == PostUnlock(true) ==> !s'.threads[u].Asleep? && (s'.threads[u].Sleep? ==> s'.futx != 0)
  {
  }

  lemma StepStaysAwake(s: State, t: Tid, c: Choice, b: Tid, u: Tid)
    requires t in s.threads && u in s.threads && b in s.threads && Enabled(s, t, c) && ThreadInv(s, t) && ThreadInv(s, b)
    requires s.threads[b] == PostUnlock(true) && b != t
    requires !s.threads[u].Asleep? && (s.threads[u].Sleep? ==> s.futx != 0)
    ensures u in Exec(s, t, c).threads
    ensures !Exec(s, t, c).threads[u].Asleep? && (Exec(s, t, c).threads[u].Sleep? ==> Exec(s, t, c).futx != 0)
  {
  }

  lemma BroadcastFrom(s: State, t: Tid, c: Choice, b: Tid)
    requires t in s.threads && b in s.threads && Enabled(s, t, c)
    ensures b in Exec(s, t, c).threads
    ensures Exec(s, t, c).threads[b] == PostUnlock(true) ==>
              if b == t then s.threads[t] == PostTest(true) || s.threads[t] == PostWake(true) else s.threads[b] == PostUnlock(true)
  {
  }

  lemma StepBroadcasted(s: State, s': State)
    requires Inv(s) && Broadcasted(s) && Next(s, s')
    ensures Broadcasted(s')
  {
    hide Exec, Enabled, Inv, ThreadInv, Around;
    var t, c :| t in s.threads && Enabled(s, t, c) && s' == Exec(s, t, c);
    StepKeys(s, t, c);
    forall b, u | b in s'.threads && s'.threads[b] == PostUnlock(true) && u in s'.threads
      ensures !s'.threads[u].Asleep? && (s'.threads[u].Sleep? ==> s'.futx != 0)
    {
      BroadcastFrom(s, t, c, b);
      InvAround(s, t, u);
      AroundMeans(s, t, b);
      if b == t { StepAwake(s, t, c, u); } else { StepStaysAwake(s, t, c, b, u); }
    }
  }

  lemma AroundMeans(s: State, t: Tid, b: Tid)
    requires Inv(s) && t in s.threads && b in s.threads
    ensures ThreadInv(s, t) && ThreadInv(s, b)
  {
  }

  lemma {:induction false} RunBroadcasted(r: seq<State>, i: nat)
    requires Run(r) && i < |r|
    ensures Broadcasted(r[i])
  {
    hide Inv, Next;
    if i > 0 {
      RunBroadcasted(r, i - 1);
      RunInv(r, i - 1);
      StepBroadcasted(r[i - 1], r[i]);
    }
  }

  /** The last step of a broadcast. */
  lemma BroadcastReturn(s: State, s': State, t: Tid)
    requires Next(s, s') && Broadcasted(s) && t in s.threads && InPost(s.threads[t]) && s.threads[t].all && t in s'.threads && s'.threads[t].Idle?
    ensures NoSleeper(s')
  {
    hide Enabled;
    var u, c :| u in s.threads && Enabled(s, u, c) && s' == Exec(s, u, c);
    StepCall(s, u, c, t);
    assert s.threads[t] == PostUnlock(true);
  }

  lemma BroadcastWakesAll(r: seq<State>, i: nat, t: Tid)
    requires Run(r) && i + 1 < |r| && t in r[i].threads && InPost(r[i].threads[t]) && r[i].threads[t].all
    requires t in r[i + 1].threads && r[i + 1].threads[t].Idle?
    ensures NoSleeper(r[i + 1])
  {
    hide Next, InPost, Broadcasted;
    RunBroadcasted(r, i);
    BroadcastReturn(r[i], r[i + 1], t);
  }

  // A caller that is let alone, with the lock free, returns.

  function Last(r: seq<State>): State
    requires |r| > 0
  {
    r[|r| - 1]
  }

  lemma Extend(r: seq<State>, t: Tid, c: Choice) returns (r': seq<State>)
    requires |r| > 0 && Run(r) && t in Last(r).threads && Enabled(Last(r), t, c)
    ensures |r'| == |r| + 1 && r <= r' && Run(r') && Last(r') == Exec(Last(r), t, c)
  {
    hide Exec, Enabled;
    r' := r + [Exec(Last(r), t, c)];
    forall i | 0 <= i < |r'| - 1 ensures Next(r'[i], r'[i + 1]) {
      if i < |r| - 1 { assert Next(r[i], r[i + 1]); } else { assert Next(Last(r), Exec(Last(r), t, c)); }
    }
  }

  /** From the test to the return, with something to take. */
  lemma TakeAndReturn(r: seq<State>, t: Tid) returns (r': seq<State>)
    requires |r| > 0 && Run(r) && t in Last(r).threads && Last(r).threads[t] == WaitTest && Last(r).count > 0
    ensures |r'| == |r| + 3 && r <= r' && Run(r')
    ensures var s := Last(r); Last(r') == At(s, t, Idle).(count := s.count - 1, lock := Nobody, takes := s.takes + 1)
  {
    hide Run, Last;
    var c := Choice(Idle, t);
    r' := Extend(r, t, c);
    r' := Extend(r', t, c);
    r' := Extend(r', t, c);
    assert Last(r').threads == Last(r).threads[t := Idle];
  }

  /**
   With the lock free and something to take, a waiter that is awake and let alone
   returns within five steps, having taken one.
   */
  lemma WaitCompletes(r: seq<State>, t: Tid) returns (r': seq<State>)
    requires |r| > 0 && Run(r) && t in Last(r).threads && Last(r).lock == Nobody && Last(r).count > 0
    requires Last(r).threads[t] == WaitLock || Last(r).threads[t] == Relock
    ensures |r| < |r'| <= |r| + 5 && r <= r' && Run(r')
    ensures var s, s' := Last(r), Last(r'); s'.threads == s.threads[t := Idle] && s'.count == s.count - 1 && s'.lock == Nobody
  {
    hide Run, Last;
    var c := Choice(Idle, t);
    r' := Extend(r, t, c);
    if Last(r).threads[t] == Relock {
      r' := Extend(r', t, c);
    }
    r' := TakeAndReturn(r', t);
    assert Last(r').threads == Last(r).threads[t := Idle];
  }

  /** Some thread to be woken, if any sleeps. */
  lemma Wakeable(s: State, t: Tid) returns (c: Choice)
    ensures Sleeping(s, c.woken) || NoSleeper(s)
  {
    c := Choice(Idle, t);
    if !NoSleeper(s) {
      var u :| u in s.threads && s.threads[u].Asleep?;
      c := Choice(Idle, u);
    }
  }

  /** A signal or broadcast that is let alone returns within six steps, having added one, and wakes one sleeper, or all. */
  lemma PostCompletes(r: seq<State>, t: Tid) returns (r': seq<State>, c: Choice)
    requires |r| > 0 && Run(r) && t in Last(r).threads && Last(r).lock == Nobody && Last(r).threads[t].PostLock?
    ensures |r| < |r'| <= |r| + 6 && r <= r' && Run(r')
    ensures var s, s' := Last(r), Last(r');
            && t in s'.threads && s'.threads[t] == Idle && s'.count == s.count + 1 && s'.lock == Nobody
            && (s.numWaiting > 0 ==>
                 s'.threads == Woken(s.threads, s.threads[t].all, c.woken)[t := Idle] && (Sleeping(s, c.woken) || NoSleeper(s)))
  {
    hide Run, Last, Sleeping, NoSleeper;
    c := Wakeable(Last(r), t);
    var n := Choice(Idle, t);
    r' := Extend(r, t, n);
    r' := Extend(r', t, n);
    r' := Extend(r', t, n);
    if Last(r').threads[t].PostSet? {
      r' := WakeAndReturn(r', t, c, Last(r));
    } else {
      r' := Extend(r', t, n);
    }
  }

  lemma Overwritten(m: map<Tid, PC>, t: Tid, p: PC)
    ensures m[t := p][t := Idle] == m[t := Idle]
  {
  }

  lemma SleepersSame(s: State, s': State, t: Tid)
    requires t in s.threads && !s.threads[t].Asleep? && s'.threads == s.threads[t := PostWake(s.threads[t].PostLock? && s.threads[t].all)]
    ensures forall u :: Sleeping(s, u) <==> Sleeping(s', u)
    ensures NoSleeper(s) <==> NoSleeper(s')
  {
    if NoSleeper(s') {
      forall u | u in s.threads ensures !s.threads[u].Asleep? { assert u in s'.threads; }
    }
  }

  lemma WokenBehind(b: map<Tid, PC>, t: Tid, p: PC, all: bool, w: Tid)
    requires t in b
    ensures Woken(b[t := p], all, w)[t := Idle] == Woken(b, all, w)[t := Idle]
  {
  }

  lemma WakeStep(s: State, t: Tid, c: Choice)
    requires t in s.threads && s.threads[t].PostWake?
    ensures Exec(s, t, c) == s.(threads := Woken(s.threads, s.threads[t].all, c.woken)[t := PostUnlock(s.threads[t].all)])
  {
  }

  /** The second half, where somebody is registered as waiting; `before` is the state in which the call began. */
  lemma WakeAndReturn(r: seq<State>, t: Tid, c: Choice, before: State) returns (r': seq<State>)
    requires |r| > 0 && Run(r) && t in Last(r).threads && Last(r).threads[t].PostSet?
    requires t in before.threads && before.threads[t] == PostLock(Last(r).threads[t].all)
    requires Last(r).threads == before.threads[t := PostSet(Last(r).threads[t].all)] && (Sleeping(before, c.woken) || NoSleeper(before))
    ensures |r'| == |r| + 3 && r <= r' && Run(r')
    ensures var s, s' := Last(r), Last(r');
            s'.threads == Woken(before.threads, s.threads[t].all, c.woken)[t := Idle] && s'.count == s.count && s'.lock == Nobody
  {
    hide Run, Last, Woken;
    var all := Last(r).threads[t].all;
    r' := Extend(r, t, c);
    assert Last(r').threads == before.threads[t := PostWake(all)];
    SleepersSame(before, Last(r'), t);
    WakeStep(Last(r'), t, c);
    r' := Extend(r', t, c);
    r' := Extend(r', t, c);
    WokenBehind(before.threads, t, PostWake(all), all, c.woken);
    Overwritten(Woken(before.threads[t := PostWake(all)], all, c.woken), t, PostUnlock(all));
  }
}
