/**
 The blocking queue of common/misc/mt_circular_queue.h with one producer calling
 `push_wait` and one consumer calling `pop_wait`, over the condition variables
 of common/misc/cond.cc.  One step per lock operation, shared write or futex
 call; the ring buffer itself is only touched under the queue's lock and appears
 as the sequence it refines.

 The source signals only when the queue stops being empty, or stops being full.
 */
module MTQueue {

  type Item = nat

  datatype Role = Producer | Consumer

  function Other(r: Role): Role { if r.Producer? then Consumer else Producer }

  datatype Owner = Nobody | By(role: Role)

  datatype Both<T> = Both(producer: T, consumer: T) {
    function Get(r: Role): T { if r.Producer? then producer else consumer }
    function Set(r: Role, x: T): Both<T> { if r.Producer? then this.(producer := x) else this.(consumer := x) }
  }

  datatype PC =
    | Idle
    | Lock        // before m_lock.acquire()
    | Test        // before testing full() or empty()
    // wait on the own condition variable
    | CondLock    // before acquiring its lock
    | CondClear   // before m_futx = 0
    | CondUnlock  // before releasing its lock
    | WaitUnlock  // before m_lock.release()
    | Sleep       // before FUTEX_WAIT
    | Asleep      // inside FUTEX_WAIT
    | Relock      // before m_lock.acquire()
    // push or pop
    | Act
    // signal the other side's condition variable
    | SigLock     // before acquiring its lock
    | SigSet      // before m_futx = 1
    | SigWake     // before FUTEX_WAKE
    | SigUnlock   // before releasing its lock
    | Unlock      // before m_lock.release()

  /**
   `cond` and `word` are the lock and the futex word of the condition variable
   the role waits on: `m_full` for the producer, `m_empty` for the consumer.
   `arg` is the argument of the producer's call and `got` the local variable that
   `pop_locked` returns; `pushed` and `popped` are the history of the queue.
   */
  datatype State = State(
    capacity: nat, items: seq<Item>, lock: Owner,
    pc: Both<PC>, cond: Both<Owner>, word: Both<int>,
    arg: Item, got: Item, pushed: seq<Item>, popped: seq<Item>)

  predicate Init(s: State) {
    && s.items == [] && s.lock == Nobody && s.pushed == [] && s.popped == []
    && s.pc == Both(Idle, Idle) && s.cond == Both(Nobody, Nobody) && s.word == Both(0, 0)
  }

  /** What `r` waits for has not happened: the queue is full, or empty. */
  predicate Blocked(s: State, r: Role) {
    if r.Producer? then |s.items| == s.capacity else s.items == []
  }

  predicate Enabled(s: State, r: Role) {
    match s.pc.Get(r)
    case Lock => s.lock == Nobody
    case Relock => s.lock == Nobody
    case CondLock => s.cond.Get(r) == Nobody
    case SigLock => s.cond.Get(Other(r)) == Nobody
    case Asleep => false
    case _ => true
  }

  function At(s: State, r: Role, p: PC): State { s.(pc := s.pc.Set(r, p)) }

  /** `push_locked` or `pop_locked` up to the decision to signal. */
  function Acted(s: State, r: Role): State {
    var s' := At(s, r, if Blocked(s, Other(r)) then SigLock else Unlock);
    if r.Producer? then s'.(items := s.items + [s.arg], pushed := s.pushed + [s.arg])
    else if s.items == [] then s'
    else s'.(items := s.items[1..], got := s.items[0], popped := s.popped + [s.items[0]])
  }

  /** The start of a call; `x` is the argument if the caller is the producer. */
  function Called(s: State, r: Role, x: Item): State {
    if r.Producer? then At(s, r, Lock).(arg := x) else At(s, r, Lock)
  }

  function Exec(s: State, r: Role, x: Item): State
    requires Enabled(s, r)
  {
    var q := Other(r);
    match s.pc.Get(r)
    case Idle => Called(s, r, x)
    case Lock => At(s, r, Test).(lock := By(r))
    case Test => At(s, r, if Blocked(s, r) then CondLock else Act)
    case CondLock => At(s, r, CondClear).(cond := s.cond.Set(r, By(r)))
    case CondClear => At(s, r, CondUnlock).(word := s.word.Set(r, 0))
    case CondUnlock => At(s, r, WaitUnlock).(cond := s.cond.Set(r, Nobody))
    case WaitUnlock => At(s, r, Sleep).(lock := Nobody)
    case Sleep => At(s, r, if s.word.Get(r) == 0 then Asleep else Relock)
    case Relock => At(s, r, Test).(lock := By(r))
    case Act => Acted(s, r)
    case SigLock => At(s, r, SigSet).(cond := s.cond.Set(q, By(r)))
    case SigSet => At(s, r, SigWake).(word := s.word.Set(q, 1))
    case SigWake => At(if s.pc.Get(q).Asleep? then At(s, q, Relock) else s, r, SigUnlock)
    case SigUnlock => At(s, r, Unlock).(cond := s.cond.Set(q, Nobody))
    case Unlock => At(s, r, Idle).(lock := Nobody)
  }

  ghost predicate Next(s: State, s': State) {
    exists r, x :: Enabled(s, r) && s' == Exec(s, r, x)
  }

  ghost predicate Run(t: seq<State>) {
    |t| > 0 && Init(t[0]) && forall i :: 0 <= i < |t| - 1 ==> Next(t[i], t[i + 1])
  }

  // ---------------------------------------------------------------------------
  // The invariant

  predicate Holds(p: PC) {
    || p.Test? || p.CondLock? || p.CondClear? || p.CondUnlock? || p.WaitUnlock?
    || p.Act? || p.SigLock? || p.SigSet? || p.SigWake? || p.SigUnlock? || p.Unlock?
  }

  /** Asleep, or certain to fall asleep at the next step. */
  predicate Stuck(s: State, r: Role) {
    s.pc.Get(r).Asleep? || (s.pc.Get(r).Sleep? && s.word.Get(r) == 0)
  }

  /** The other side has still to set the word, or to wake. */
  predicate SetComing(p: PC) { p.SigLock? || p.SigSet? }
  predicate WakeComing(p: PC) { SetComing(p) || p.SigWake? }

  predicate RoleInv(s: State, r: Role) {
    var p, q := s.pc.Get(r), s.pc.Get(Other(r));
    && (Holds(p) <==> s.lock == By(r))
    && ((p.CondClear? || p.CondUnlock?) <==> s.cond.Get(r) == By(r))
    && ((p.SigSet? || p.SigWake? || p.SigUnlock?) <==> s.cond.Get(Other(r)) == By(r))
    && (p.Act? ==> !Blocked(s, r))
    && (p.CondLock? || p.CondClear? || p.CondUnlock? || p.WaitUnlock? ==> Blocked(s, r))
    && (p.CondUnlock? || p.WaitUnlock? ==> s.word.Get(r) == 0)
    && (p.SigWake? ==> s.word.Get(Other(r)) != 0)
    && (WakeComing(p) ==> !Blocked(s, Other(r)))
    && (p.Asleep? ==> Blocked(s, r) || WakeComing(q))
    && (p.Sleep? && s.word.Get(r) == 0 ==> Blocked(s, r) || SetComing(q))
  }

  predicate Inv(s: State) {
    && RoleInv(s, Producer) && RoleInv(s, Consumer)
    && |s.items| <= s.capacity
    && s.pushed == s.popped + s.items
  }

  /** The step that pushes or pops. */
  lemma StepAct(s: State, r: Role, x: Item)
    requires RoleInv(s, r) && RoleInv(s, Other(r)) && |s.items| <= s.capacity && s.pc.Get(r).Act?
    ensures RoleInv(Exec(s, r, x), r)
  {
  }

  predicate Signalling(p: PC) { p.SigLock? || p.SigSet? || p.SigWake? || p.SigUnlock? || p.Unlock? }

  lemma StepSignal(s: State, r: Role, x: Item)
    requires RoleInv(s, r) && RoleInv(s, Other(r)) && Enabled(s, r) && Signalling(s.pc.Get(r))
    ensures RoleInv(Exec(s, r, x), r)
  {
  }

  predicate Starting(p: PC) { p.Idle? || p.Lock? || p.Test? || p.Relock? }

  predicate Waiting(p: PC) { p.CondLock? || p.CondClear? || p.CondUnlock? || p.WaitUnlock? || p.Sleep? }

  lemma StepStart(s: State, r: Role, x: Item)
    requires RoleInv(s, r) && RoleInv(s, Other(r)) && Enabled(s, r) && Starting(s.pc.Get(r))
    ensures RoleInv(Exec(s, r, x), r)
  {
  }

  lemma StepWait(s: State, r: Role, x: Item)
    requires RoleInv(s, r) && RoleInv(s, Other(r)) && Enabled(s, r) && Waiting(s.pc.Get(r))
    ensures RoleInv(Exec(s, r, x), r)
  {
  }

  lemma EnabledPlaces(s: State, r: Role)
    requires Enabled(s, r)
    ensures var p := s.pc.Get(r); p.Act? || Signalling(p) || Waiting(p) || Starting(p)
  {
  }

  lemma StepSelf(s: State, r: Role, x: Item)
    requires Inv(s) && Enabled(s, r)
    ensures RoleInv(Exec(s, r, x), r)
  {
    hide RoleInv, Exec, Enabled;
    assert RoleInv(s, r) && RoleInv(s, Other(r));
    EnabledPlaces(s, r);
    if s.pc.Get(r).Act? { StepAct(s, r, x); }
    else if Signalling(s.pc.Get(r)) { StepSignal(s, r, x); }
    else if Waiting(s.pc.Get(r)) { StepWait(s, r, x); }
    else { StepStart(s, r, x); }
  }

  lemma OtherAct(s: State, r: Role, x: Item)
    requires RoleInv(s, r) && RoleInv(s, Other(r)) && |s.items| <= s.capacity && s.pc.Get(r).Act?
    ensures RoleInv(Exec(s, r, x), Other(r))
  {
  }

  lemma OtherSignal(s: State, r: Role, x: Item)
    requires RoleInv(s, r) && RoleInv(s, Other(r)) && Enabled(s, r) && Signalling(s.pc.Get(r))
    ensures RoleInv(Exec(s, r, x), Other(r))
  {
  }

  lemma OtherWait(s: State, r: Role, x: Item)
    requires RoleInv(s, r) && RoleInv(s, Other(r)) && Enabled(s, r) && Waiting(s.pc.Get(r))
    ensures RoleInv(Exec(s, r, x), Other(r))
  {
  }

  lemma OtherStart(s: State, r: Role, x: Item)
    requires RoleInv(s, r) && RoleInv(s, Other(r)) && Enabled(s, r) && Starting(s.pc.Get(r))
    ensures RoleInv(Exec(s, r, x), Other(r))
  {
  }

  lemma StepOther(s: State, r: Role, x: Item)
    requires Inv(s) && Enabled(s, r)
    ensures RoleInv(Exec(s, r, x), Other(r))
  {
    hide RoleInv, Exec, Enabled;
    assert RoleInv(s, r) && RoleInv(s, Other(r));
    EnabledPlaces(s, r);
    if s.pc.Get(r).Act? { OtherAct(s, r, x); }
    else if Signalling(s.pc.Get(r)) { OtherSignal(s, r, x); }
    else if Waiting(s.pc.Get(r)) { OtherWait(s, r, x); }
    else { OtherStart(s, r, x); }
  }

  lemma StepItems(s: State, r: Role, x: Item)
    requires RoleInv(s, r) && Enabled(s, r)
    requires |s.items| <= s.capacity && s.pushed == s.popped + s.items
    ensures var s' := Exec(s, r, x);
            s'.capacity == s.capacity && |s'.items| <= s'.capacity && s'.pushed == s'.popped + s'.items
    ensures !s.pc.Get(r).Act? ==> Exec(s, r, x).pushed == s.pushed && Exec(s, r, x).popped == s.popped
  {
    if s.pc.Get(r).Act? && r.Consumer? {
      assert s.items == [s.items[0]] + s.items[1..];
    }
  }

  lemma StepInv(s: State, r: Role, x: Item)
    requires Inv(s) && Enabled(s, r)
    ensures Inv(Exec(s, r, x))
  {
    hide RoleInv, Exec, Enabled;
    StepSelf(s, r, x);
    StepOther(s, r, x);
    StepItems(s, r, x);
  }

  lemma {:induction false} RunInv(t: seq<State>, i: nat)
    requires Run(t) && i < |t|
    ensures Inv(t[i])
  {
    if i > 0 {
      RunInv(t, i - 1);
      assert Next(t[i - 1], t[i]);
      var r, x :| Enabled(t[i - 1], r) && t[i] == Exec(t[i - 1], r, x);
      StepInv(t[i - 1], r, x);
    }
  }

  // ---------------------------------------------------------------------------
  // What the queue guarantees

  /** First in, first out, nothing lost, nothing invented, never over capacity. */
  lemma Fifo(t: seq<State>, i: nat)
    requires Run(t) && i < |t|
    ensures t[i].popped <= t[i].pushed
    ensures |t[i].pushed| - |t[i].popped| == |t[i].items| <= t[i].capacity
  {
    RunInv(t, i);
  }

  /**
   A consumer that sleeps faces an empty queue, a producer a full one, exactly as
   long as no wake-up is on its way; and none is while the queue's lock is free.
   */
  lemma SleepIsJustified(t: seq<State>, i: nat, r: Role)
    requires Run(t) && i < |t| && Stuck(t[i], r)
    ensures Blocked(t[i], r) <==> !WakeComing(t[i].pc.Get(Other(r)))
    ensures t[i].lock == Nobody ==> Blocked(t[i], r)
  {
    RunInv(t, i);
  }

  /** With room for one element the two sides are never both stuck, and one of them can always step. */
  lemma NeverBothBlocked(t: seq<State>, i: nat)
    requires Run(t) && i < |t| && t[i].capacity > 0
    ensures !(Stuck(t[i], Producer) && Stuck(t[i], Consumer))
    ensures Enabled(t[i], Producer) || Enabled(t[i], Consumer)
  {
    RunInv(t, i);
  }

  lemma StepNoRoom(s: State, r: Role, x: Item)
    requires Inv(s) && Enabled(s, r) && s.capacity == 0
    requires !s.pc.producer.Act? && !s.pc.consumer.Act?
    ensures !Exec(s, r, x).pc.producer.Act? && !Exec(s, r, x).pc.consumer.Act?
  {
    hide RoleInv;
    assert s.items == [];
  }

  /** Nothing has been pushed or popped, and nobody is about to. */
  predicate Untouched(s: State) {
    s.capacity == 0 && s.pushed == [] && s.popped == [] && !s.pc.producer.Act? && !s.pc.consumer.Act?
  }

  lemma NoRoomStep(s: State, s': State)
    requires Inv(s) && Untouched(s) && Next(s, s')
    ensures Untouched(s')
  {
    var r, x :| Enabled(s, r) && s' == Exec(s, r, x);
    hide Exec, RoleInv, Enabled;
    assert RoleInv(s, r) && !s.pc.Get(r).Act?;
    StepNoRoom(s, r, x);
    StepItems(s, r, x);
  }

  /** Capacity zero is the exception: then no element is ever pushed or popped. */
  lemma {:induction false} NoRoomNoProgress(t: seq<State>, i: nat)
    requires Run(t) && i < |t| && t[0].capacity == 0
    ensures t[i].capacity == 0 && t[i].pushed == [] && t[i].popped == []
    ensures Untouched(t[i])
  {
    hide Inv, Next;
    if i > 0 {
      NoRoomNoProgress(t, i - 1);
      RunInv(t, i - 1);
      NoRoomStep(t[i - 1], t[i]);
    }
  }

  function Last(t: seq<State>): State
    requires |t| > 0
  {
    t[|t| - 1]
  }

  lemma Extend(t: seq<State>, r: Role, x: Item) returns (t': seq<State>)
    requires |t| > 0 && Run(t) && Enabled(Last(t), r)
    ensures Run(t') && |t'| > 0 && Last(t') == Exec(Last(t), r, x)
  {
    t' := t + [Exec(Last(t), r, x)];
    hide Exec, Enabled;
    forall i | 0 <= i < |t'| - 1 ensures Next(t'[i], t'[i + 1]) {
      if i < |t| - 1 { assert Next(t[i], t[i + 1]); } else { assert Next(Last(t), Exec(Last(t), r, x)); }
    }
  }

  /** The first half of the way: lock, test, and clear the own futex word. */
  lemma StartWaiting(t: seq<State>, r: Role) returns (t': seq<State>)
    requires |t| > 0 && Run(t)
    requires var s := Last(t); s.pc.Get(r) == Idle && s.lock == Nobody && s.cond.Get(r) == Nobody && Blocked(s, r)
    ensures |t'| > 0 && Run(t')
    ensures var s := Called(Last(t), r, 0);
            Last(t') == At(s, r, CondUnlock).(lock := By(r), cond := s.cond.Set(r, By(r)), word := s.word.Set(r, 0))
  {
    hide Run, Last;
    t' := Extend(t, r, 0);
    t' := Extend(t', r, 0);
    t' := Extend(t', r, 0);
    t' := Extend(t', r, 0);
    t' := Extend(t', r, 0);
  }

  /** A side that finds what it waits for not done, with the lock free, can go all the way to sleep. */
  lemma FallAsleep(t: seq<State>, r: Role) returns (t': seq<State>)
    requires |t| > 0 && Run(t)
    requires var s := Last(t); s.pc.Get(r) == Idle && s.lock == Nobody && s.cond.Get(r) == Nobody && Blocked(s, r)
    ensures |t'| > 0 && Run(t')
    ensures var s := Called(Last(t), r, 0); Last(t') == At(s, r, Asleep).(word := s.word.Set(r, 0))
  {
    hide Run, Last;
    t' := StartWaiting(t, r);
    t' := Extend(t', r, 0);
    t' := Extend(t', r, 0);
    t' := Extend(t', r, 0);
  }

  /** The two sides can both get stuck exactly when the capacity is zero. */
  lemma BothStuckExactly(capacity: nat)
    ensures (exists t: seq<State>, i: nat :: Run(t) && i < |t| && t[i].capacity == capacity && Stuck(t[i], Producer) && Stuck(t[i], Consumer))
            <==> capacity == 0
  {
    if capacity == 0 {
      var s := State(0, [], Nobody, Both(Idle, Idle), Both(Nobody, Nobody), Both(0, 0), 0, 0, [], []);
      assert Run([s]);
      var t := FallAsleep([s], Consumer);
      t := FallAsleep(t, Producer);
      assert t[|t| - 1] == Last(t);
    } else {
      forall t: seq<State>, i: nat | Run(t) && i < |t| && t[i].capacity == capacity
        ensures !(Stuck(t[i], Producer) && Stuck(t[i], Consumer))
      {
        NeverBothBlocked(t, i);
      }
    }
  }

  // ---------------------------------------------------------------------------
  // What the callers see: the arguments of the pushes and the results of the pops

  /** One step of a run: who takes it, and the argument if it begins a call. */
  datatype Step = Step(role: Role, x: Item)

  ghost predicate Trace(t: seq<State>, l: seq<Step>) {
    && |t| == |l| + 1 && Init(t[0])
    && forall i :: 0 <= i < |l| ==> Enabled(t[i], l[i].role) && t[i + 1] == Exec(t[i], l[i].role, l[i].x)
  }

  lemma TraceIsRun(t: seq<State>, l: seq<Step>)
    requires Trace(t, l)
    ensures Run(t)
  {
    hide Exec, Enabled;
    forall i | 0 <= i < |t| - 1 ensures Next(t[i], t[i + 1]) {
      assert Enabled(t[i], l[i].role) && t[i + 1] == Exec(t[i], l[i].role, l[i].x);
    }
  }

  /** The arguments of the calls of `push_wait` begun by state `i`. */
  ghost function Arguments(t: seq<State>, l: seq<Step>, i: nat): seq<Item>
    requires |t| == |l| + 1 && i <= |l|
  {
    if i == 0 then []
    else Arguments(t, l, i - 1) + if l[i - 1].role.Producer? && t[i - 1].pc.producer.Idle? then [l[i - 1].x] else []
  }

  /** The values returned by the calls of `pop_wait` that are over by state `i`. */
  ghost function Results(t: seq<State>, l: seq<Step>, i: nat): seq<Item>
    requires |t| == |l| + 1 && i <= |l|
  {
    if i == 0 then []
    else
      Results(t, l, i - 1) +
      if l[i - 1].role.Consumer? && !t[i - 1].pc.consumer.Idle? && t[i].pc.consumer.Idle? then [t[i - 1].got] else []
  }

  /** After the push or pop, before the return. */
  predicate Returning(p: PC) { p.SigLock? || p.SigSet? || p.SigWake? || p.SigUnlock? || p.Unlock? }

  /** A push that is not in the queue yet, and a pop that has taken its value but not returned it. */
  function OnTheWayIn(s: State): seq<Item> { if s.pc.producer.Idle? || Returning(s.pc.producer) then [] else [s.arg] }
  function OnTheWayOut(s: State): seq<Item> { if Returning(s.pc.consumer) then [s.got] else [] }

  /** This step begins a push, or returns from a pop. */
  predicate Begins(s: State, r: Role) { r.Producer? && s.pc.producer.Idle? }
  predicate Ends(s: State, r: Role) { r.Consumer? && s.pc.consumer.Unlock? }

  lemma OtherPlaceSignal(s: State, r: Role, x: Item)
    requires Enabled(s, r) && Signalling(s.pc.Get(r))
    ensures var p, p' := s.pc.Get(Other(r)), Exec(s, r, x).pc.Get(Other(r)); p' == p || (p.Asleep? && p'.Relock?)
  {
    match r
    case Producer =>
    case Consumer =>
  }

  lemma OtherPlaceWait(s: State, r: Role, x: Item)
    requires Enabled(s, r) && Waiting(s.pc.Get(r))
    ensures var p, p' := s.pc.Get(Other(r)), Exec(s, r, x).pc.Get(Other(r)); p' == p || (p.Asleep? && p'.Relock?)
  {
  }

  lemma OtherPlaceStart(s: State, r: Role, x: Item)
    requires Enabled(s, r) && (Starting(s.pc.Get(r)) || s.pc.Get(r).Act?)
    ensures var p, p' := s.pc.Get(Other(r)), Exec(s, r, x).pc.Get(Other(r)); p' == p || (p.Asleep? && p'.Relock?)
  {
    hide Blocked;
  }

  lemma OtherPlace(s: State, r: Role, x: Item)
    requires Enabled(s, r)
    ensures var p, p' := s.pc.Get(Other(r)), Exec(s, r, x).pc.Get(Other(r)); p' == p || (p.Asleep? && p'.Relock?)
  {
    hide Exec, Enabled;
    EnabledPlaces(s, r);
    if Signalling(s.pc.Get(r)) { OtherPlaceSignal(s, r, x); }
    else if Waiting(s.pc.Get(r)) { OtherPlaceWait(s, r, x); }
    else { OtherPlaceStart(s, r, x); }
  }

  lemma OtherLocals(s: State, r: Role, x: Item)
    requires Enabled(s, r)
    ensures if r.Producer? then Exec(s, r, x).got == s.got else Exec(s, r, x).arg == s.arg
  {
    hide Blocked;
  }

  /** A step leaves the other side where it is, or wakes it. */
  lemma OtherSide(s: State, r: Role, x: Item)
    requires Enabled(s, r)
    ensures var p, p' := s.pc.Get(Other(r)), Exec(s, r, x).pc.Get(Other(r)); p' == p || (p.Asleep? && p'.Relock?)
    ensures if r.Producer? then Exec(s, r, x).got == s.got else Exec(s, r, x).arg == s.arg
  {
    hide Exec, Enabled;
    OtherPlace(s, r, x);
    OtherLocals(s, r, x);
  }

  lemma FlowInProducer(s: State, r: Role, x: Item)
    requires r.Producer? && Enabled(s, r)
    ensures OnTheWayIn(Exec(s, r, x)) ==
              if Begins(s, r) then [x] else if r.Producer? && s.pc.producer.Act? then [] else OnTheWayIn(s)
    ensures Begins(s, r) ==> OnTheWayIn(s) == []
    ensures r.Producer? && s.pc.producer.Act? ==> OnTheWayIn(s) == [s.arg]
  {
  }

  lemma FlowInConsumer(s: State, r: Role, x: Item)
    requires r.Consumer? && Enabled(s, r)
    ensures OnTheWayIn(Exec(s, r, x)) == OnTheWayIn(s)
  {
    hide Exec, Enabled;
    OtherSide(s, r, x);
  }

  lemma FlowIn(s: State, r: Role, x: Item)
    requires Enabled(s, r)
    ensures OnTheWayIn(Exec(s, r, x)) ==
              if Begins(s, r) then [x] else if r.Producer? && s.pc.producer.Act? then [] else OnTheWayIn(s)
    ensures Begins(s, r) ==> OnTheWayIn(s) == []
    ensures r.Producer? && s.pc.producer.Act? ==> OnTheWayIn(s) == [s.arg]
  {
    hide Exec, Enabled, OnTheWayIn, OnTheWayOut;
    if r.Producer? { FlowInProducer(s, r, x); } else { FlowInConsumer(s, r, x); }
  }

  lemma FlowOutProducer(s: State, r: Role, x: Item)
    requires r.Producer? && Enabled(s, r)
    ensures OnTheWayOut(Exec(s, r, x)) == OnTheWayOut(s)
  {
    hide Exec, Enabled;
    OtherSide(s, r, x);
  }

  lemma FlowOutConsumer(s: State, r: Role, x: Item)
    requires r.Consumer? && Enabled(s, r) && (s.pc.Get(r).Act? ==> !Blocked(s, r))
    ensures OnTheWayOut(Exec(s, r, x)) ==
              if Ends(s, r) then [] else if r.Consumer? && s.pc.consumer.Act? then [s.items[0]] else OnTheWayOut(s)
    ensures Ends(s, r) ==> OnTheWayOut(s) == [s.got]
    ensures r.Consumer? && s.pc.consumer.Act? ==> OnTheWayOut(s) == []
    ensures r.Consumer? ==> (!s.pc.consumer.Idle? && Exec(s, r, x).pc.consumer.Idle? <==> Ends(s, r))
  {
  }

  lemma FlowOut(s: State, r: Role, x: Item)
    requires Enabled(s, r) && (s.pc.Get(r).Act? ==> !Blocked(s, r))
    ensures OnTheWayOut(Exec(s, r, x)) ==
              if Ends(s, r) then [] else if r.Consumer? && s.pc.consumer.Act? then [s.items[0]] else OnTheWayOut(s)
    ensures Ends(s, r) ==> OnTheWayOut(s) == [s.got]
    ensures r.Consumer? && s.pc.consumer.Act? ==> OnTheWayOut(s) == []
    ensures r.Consumer? ==> (!s.pc.consumer.Idle? && Exec(s, r, x).pc.consumer.Idle? <==> Ends(s, r))
  {
    hide Exec, Enabled, OnTheWayIn, OnTheWayOut;
    if r.Producer? { FlowOutProducer(s, r, x); } else { FlowOutConsumer(s, r, x); }
  }

  lemma FlowItems(s: State, r: Role, x: Item)
    requires Enabled(s, r) && (s.pc.Get(r).Act? ==> !Blocked(s, r))
    ensures Exec(s, r, x).items ==
              if !s.pc.Get(r).Act? then s.items else if r.Producer? then s.items + [s.arg] else s.items[1..]
    ensures s.pc.Get(r).Act? && r.Consumer? ==> s.items != [] && s.items == [s.items[0]] + s.items[1..]
  {
  }

  lemma StepFlow(s: State, r: Role, x: Item)
    requires Enabled(s, r) && (s.pc.Get(r).Act? ==> !Blocked(s, r))
    ensures var s' := Exec(s, r, x);
            var begun := if r.Producer? && s.pc.producer.Idle? then [x] else [];
            var ended := if r.Consumer? && !s.pc.consumer.Idle? && s'.pc.consumer.Idle? then [s.got] else [];
            OnTheWayOut(s) + s.items + OnTheWayIn(s) + begun == ended + OnTheWayOut(s') + s'.items + OnTheWayIn(s')
  {
    hide Exec, Enabled, OnTheWayIn, OnTheWayOut, Blocked;
    FlowIn(s, r, x);
    FlowOut(s, r, x);
    FlowItems(s, r, x);
  }

  lemma InvAct(s: State, r: Role)
    requires Inv(s)
    ensures s.pc.Get(r).Act? ==> !Blocked(s, r)
  {
    assert RoleInv(s, r);
  }

  /**
   End to end: the arguments of all pushes are, in order, the results of all
   finished pops, what a pop is about to return, the queue, and what a push is
   about to enter.
   */
  lemma {:induction false} EndToEnd(t: seq<State>, l: seq<Step>, i: nat)
    requires Trace(t, l) && i <= |l|
    ensures Arguments(t, l, i) == Results(t, l, i) + OnTheWayOut(t[i]) + t[i].items + OnTheWayIn(t[i])
    ensures Results(t, l, i) <= Arguments(t, l, i)
  {
    hide Exec, Enabled, Inv, Run, OnTheWayIn, OnTheWayOut;
    if i == 0 {
      NothingYet(t[0]);
    } else {
      EndToEnd(t, l, i - 1);
      TraceIsRun(t, l);
      RunInv(t, i - 1);
      InvAct(t[i - 1], l[i - 1].role);
      StepFlow(t[i - 1], l[i - 1].role, l[i - 1].x);
      var s, s' := t[i - 1], t[i];
      var begun := if l[i - 1].role.Producer? && s.pc.producer.Idle? then [l[i - 1].x] else [];
      var ended := if l[i - 1].role.Consumer? && !s.pc.consumer.Idle? && s'.pc.consumer.Idle? then [s.got] else [];
      Regroup(Results(t, l, i - 1), OnTheWayOut(s), s.items, OnTheWayIn(s), begun);
      Regroup(Results(t, l, i - 1), ended, OnTheWayOut(s'), s'.items, OnTheWayIn(s'));
    }
  }

  lemma NothingYet(s: State)
    requires Init(s)
    ensures OnTheWayIn(s) == [] && OnTheWayOut(s) == [] && s.items == []
  {
  }

  lemma Regroup(a: seq<Item>, b: seq<Item>, c: seq<Item>, d: seq<Item>, e: seq<Item>)
    ensures a + b + c + d + e == a + (b + c + d + e)
  {
  }

  // A caller that is let alone, with room or something to take, finishes.

  lemma FreeConditions(t: seq<State>)
    requires |t| > 0 && Run(t) && Last(t).lock == Nobody
    ensures Last(t).cond == Both(Nobody, Nobody) && |Last(t).items| <= Last(t).capacity
  {
    RunInv(t, |t| - 1);
    var s := Last(t);
    assert RoleInv(s, Producer) && RoleInv(s, Consumer);
  }

  /** Up to the push or pop. */
  lemma UpToAct(t: seq<State>, r: Role, x: Item) returns (t': seq<State>)
    requires |t| > 0 && Run(t)
    requires var s := Last(t); s.pc.Get(r) == Idle && s.lock == Nobody && !Blocked(s, r)
    ensures |t'| > 0 && Run(t')
    ensures Last(t') == At(Called(Last(t), r, x), r, Act).(lock := By(r))
  {
    hide Run, Last;
    t' := Extend(t, r, x);
    t' := Extend(t', r, x);
    t' := Extend(t', r, x);
  }

  /** The signal, up to the wake-up. */
  lemma Signal(t: seq<State>, r: Role) returns (t': seq<State>)
    requires |t| > 0 && Run(t) && Last(t).pc.Get(r) == SigLock && Last(t).cond.Get(Other(r)) == Nobody
    ensures |t'| > 0 && Run(t')
    ensures var s, q := Last(t), Other(r);
            Last(t') == At(s, r, SigWake).(word := s.word.Set(q, 1), cond := s.cond.Set(q, By(r)))
  {
    hide Run, Last;
    t' := Extend(t, r, 0);
    t' := Extend(t', r, 0);
  }

  /** The signal, from after the push or pop to the release of the lock. */
  lemma SignalAndReturn(t: seq<State>, r: Role) returns (t': seq<State>)
    requires |t| > 0 && Run(t) && Last(t).pc.Get(r) == SigLock && Last(t).cond.Get(Other(r)) == Nobody
    ensures |t'| > 0 && Run(t')
    ensures var s, q := Last(t), Other(r);
            Last(t') == At(if s.pc.Get(q).Asleep? then At(s, q, Relock) else s, r, Idle).(lock := Nobody, word := s.word.Set(q, 1))
  {
    hide Run, Last;
    t' := Signal(t, r);
    t' := Extend(t', r, 0);
    t' := Extend(t', r, 0);
    t' := Extend(t', r, 0);
  }

  /**
   A call that is let alone, with the lock free and room (or something to take),
   finishes: the argument is in the queue (or the oldest element is returned), and
   the other side is awake if it slept over an empty (a full) queue.
   */
  lemma CallCompletes(t: seq<State>, r: Role, x: Item) returns (t': seq<State>)
    requires |t| > 0 && Run(t)
    requires var s := Last(t); s.pc.Get(r) == Idle && s.lock == Nobody && !Blocked(s, r)
    ensures |t'| > 0 && Run(t')
    ensures var s, s' := Last(t), Last(t');
            && s'.pc.Get(r) == Idle && s'.lock == Nobody
            && (if r.Producer? then s'.items == s.items + [x] else [s'.got] + s'.items == s.items)
            && s'.pc.Get(Other(r)) == (if s.pc.Get(Other(r)).Asleep? && Blocked(s, Other(r)) then Relock else s.pc.Get(Other(r)))
  {
    hide Run, Last;
    FreeConditions(t);
    t' := UpToAct(t, r, x);
    t' := Extend(t', r, x);
    if Last(t').pc.Get(r) == SigLock {
      t' := SignalAndReturn(t', r);
    } else {
      t' := Extend(t', r, x);
    }
  }
}
