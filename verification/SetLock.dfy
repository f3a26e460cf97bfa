/**
 The cache-set lock of common/misc/setlock.cc: one mutex per sharer.  Shared
 access takes the caller's own mutex, exclusive access takes all of them in
 order.  Any number of threads; one step per mutex operation.  A sharer is named
 by its index `core_id - m_core_offset`.
 */
module SetLock {

  import opened Basics

  datatype PC =
    | Idle
    | AcquireShared(c: nat)
    | Shared(c: nat)
    | ReleaseShared(c: nat)
    | Upgrade(c: nat)             // before releasing the own mutex
    | AcquireExclusive(i: nat)    // mutexes below i are taken
    | Exclusive
    | ReleaseExclusive(i: nat)    // mutexes below i are released
    | Downgrade(c: nat, i: nat)   // mutexes below i are released, c excepted

  datatype State = State(locks: seq<Owner>, threads: map<Tid, PC>)

  ghost predicate Init(s: State) {
    && (forall j :: 0 <= j < |s.locks| ==> s.locks[j] == Nobody)
    && (forall t :: t in s.threads ==> s.threads[t] == Idle)
  }

  // ---------------------------------------------------------------------------
  // Steps

  /** The operations a thread may call from where it is. */
  predicate MayCall(n: nat, from: PC, to: PC) {
    match from
    case Idle => (to.AcquireShared? && to.c < n) || to == AcquireExclusive(0)
    case Shared(c) => to == ReleaseShared(c) || to == Upgrade(c)
    case Exclusive => to == ReleaseExclusive(0) || (to.Downgrade? && to.c < n && to.i == 0)
    case _ => false
  }

  predicate Enabled(s: State, t: Tid, call: PC)
    requires t in s.threads
  {
    match s.threads[t]
    case AcquireShared(c) => c < |s.locks| && s.locks[c] == Nobody
    case AcquireExclusive(i) => i < |s.locks| ==> s.locks[i] == Nobody
    case ReleaseShared(_) => true
    case Upgrade(_) => true
    case ReleaseExclusive(_) => true
    case Downgrade(_, _) => true
    case p => MayCall(|s.locks|, p, call)
  }

  function Put(locks: seq<Owner>, j: nat, o: Owner): seq<Owner> {
    if j < |locks| then locks[j := o] else locks
  }

  function Moved(s: State, t: Tid, p: PC): State { s.(threads := s.threads[t := p]) }

  function Exec(s: State, t: Tid, call: PC): State
    requires t in s.threads && Enabled(s, t, call)
  {
    var n := |s.locks|;
    match s.threads[t]
    case AcquireShared(c) => State(Put(s.locks, c, By(t)), s.threads[t := Shared(c)])
    case ReleaseShared(c) => State(Put(s.locks, c, Nobody), s.threads[t := Idle])
    case Upgrade(c) => State(Put(s.locks, c, Nobody), s.threads[t := AcquireExclusive(0)])
    case AcquireExclusive(i) =>
      if i < n then State(Put(s.locks, i, By(t)), s.threads[t := AcquireExclusive(i + 1)]) else Moved(s, t, Exclusive)
    case ReleaseExclusive(i) =>
      if i < n then State(Put(s.locks, i, Nobody), s.threads[t := ReleaseExclusive(i + 1)]) else Moved(s, t, Idle)
    case Downgrade(c, i) =>
      if i == c && i < n then Moved(s, t, Downgrade(c, i + 1))
      else if i < n then State(Put(s.locks, i, Nobody), s.threads[t := Downgrade(c, i + 1)])
      else Moved(s, t, Shared(c))
    case _ => Moved(s, t, call)
  }

  ghost predicate Next(s: State, s': State) {
    exists t, call :: t in s.threads && Enabled(s, t, call) && s' == Exec(s, t, call)
  }

  ghost predicate Run(r: seq<State>) {
    |r| > 0 && Init(r[0]) && forall i :: 0 <= i < |r| - 1 ==> Next(r[i], r[i + 1])
  }

  // ---------------------------------------------------------------------------
  // The invariant

  /** The place of a thread says which mutexes it holds. */
  predicate Holds(p: PC, j: nat) {
    match p
    case Idle => false
    case AcquireShared(_) => false
    case Shared(c) => j == c
    case ReleaseShared(c) => j == c
    case Upgrade(c) => j == c
    case AcquireExclusive(i) => j < i
    case Exclusive => true
    case ReleaseExclusive(i) => i <= j
    case Downgrade(c, i) => i <= j || j == c
  }

  predicate InRange(p: PC, n: nat) {
    match p
    case Idle => true
    case Exclusive => true
    case AcquireExclusive(i) => i <= n
    case ReleaseExclusive(i) => i <= n
    case Downgrade(c, i) => c < n && i <= n
    case p => p.c < n
  }

  ghost predicate Owned(s: State, t: Tid, j: nat)
    requires t in s.threads && j < |s.locks|
  {
    s.locks[j] == By(t) <==> Holds(s.threads[t], j)
  }

  ghost predicate Inv(s: State) {
    && (forall t :: t in s.threads ==> InRange(s.threads[t], |s.locks|))
    && (forall t, j :: t in s.threads && 0 <= j < |s.locks| ==> Owned(s, t, j))
    && (forall j :: 0 <= j < |s.locks| && s.locks[j].By? ==> s.locks[j].tid in s.threads)
  }

  lemma StepOwnedSelf(s: State, t: Tid, call: PC, j: nat)
    requires t in s.threads && Enabled(s, t, call) && j < |s.locks|
    requires Owned(s, t, j) && InRange(s.threads[t], |s.locks|)
    ensures var s' := Exec(s, t, call);
            |s'.locks| == |s.locks| && t in s'.threads && Owned(s', t, j)
  {
  }

  lemma StepOwnedOther(s: State, t: Tid, call: PC, u: Tid, j: nat)
    requires t in s.threads && u in s.threads && u != t && Enabled(s, t, call) && j < |s.locks|
    requires Owned(s, t, j) && Owned(s, u, j) && InRange(s.threads[t], |s.locks|)
    ensures var s' := Exec(s, t, call);
            |s'.locks| == |s.locks| && u in s'.threads && Owned(s', u, j)
  {
  }

  lemma StepPlace(s: State, t: Tid, call: PC)
    requires t in s.threads && Enabled(s, t, call) && InRange(s.threads[t], |s.locks|)
    ensures var s' := Exec(s, t, call); t in s'.threads && |s'.locks| == |s.locks| && InRange(s'.threads[t], |s.locks|)
  {
  }

  lemma StepThreads(s: State, t: Tid, call: PC)
    requires t in s.threads && Enabled(s, t, call)
    ensures Exec(s, t, call).threads.Keys == s.threads.Keys
    ensures forall u :: u in s.threads && u != t ==> Exec(s, t, call).threads[u] == s.threads[u]
  {
  }

  lemma StepLock(s: State, t: Tid, call: PC, j: nat)
    requires t in s.threads && Enabled(s, t, call) && j < |s.locks| && |Exec(s, t, call).locks| == |s.locks|
    ensures var o := Exec(s, t, call).locks[j]; o == s.locks[j] || o == Nobody || o == By(t)
  {
  }

  lemma StepShape(s: State, t: Tid, call: PC)
    requires t in s.threads && Enabled(s, t, call) && InRange(s.threads[t], |s.locks|)
    ensures var s' := Exec(s, t, call);
            |s'.locks| == |s.locks| && s'.threads.Keys == s.threads.Keys && InRange(s'.threads[t], |s.locks|)
    ensures forall u :: u in s.threads && u != t ==> Exec(s, t, call).threads[u] == s.threads[u]
    ensures forall j :: 0 <= j < |s.locks| ==>
              var o := Exec(s, t, call).locks[j]; o == s.locks[j] || o == Nobody || o == By(t)
  {
    hide Exec, Enabled, InRange;
    StepPlace(s, t, call);
    StepThreads(s, t, call);
    forall j | 0 <= j < |s.locks| ensures var o := Exec(s, t, call).locks[j]; o == s.locks[j] || o == Nobody || o == By(t) {
      StepLock(s, t, call, j);
    }
  }

  lemma StepInv(s: State, t: Tid, call: PC)
    requires Inv(s) && t in s.threads && Enabled(s, t, call)
    ensures Inv(Exec(s, t, call))
  {
    hide Exec, Enabled, Holds, InRange, Owned;
    var s' := Exec(s, t, call);
    StepShape(s, t, call);
    forall u, j | u in s'.threads && 0 <= j < |s'.locks|
      ensures Owned(s', u, j)
    {
      if u == t { StepOwnedSelf(s, t, call, j); } else { StepOwnedOther(s, t, call, u, j); }
    }
  }

  lemma {:induction false} RunInv(r: seq<State>, i: nat)
    requires Run(r) && i < |r|
    ensures Inv(r[i])
  {
    if i > 0 {
      hide Exec, Enabled;
      RunInv(r, i - 1);
      assert Next(r[i - 1], r[i]);
      var t, call :| t in r[i - 1].threads && Enabled(r[i - 1], t, call) && r[i] == Exec(r[i - 1], t, call);
      StepInv(r[i - 1], t, call);
    }
  }

  // ---------------------------------------------------------------------------
  // What the lock guarantees

  /** Inside the shared or the exclusive section; a downgrading thread keeps its share throughout. */
  predicate Sharing(p: PC) { p.Shared? || p.Downgrade? }

  /**
   A thread inside the exclusive section owns every mutex, so no other thread is
   inside a section, on its way out of one, or part of the way into one.
   */
  lemma Exclusion(r: seq<State>, i: nat, t: Tid, u: Tid)
    requires Run(r) && i < |r| && t in r[i].threads && u in r[i].threads && t != u
    requires r[i].threads[t].Exclusive?
    ensures forall j :: 0 <= j < |r[i].locks| ==> r[i].locks[j] == By(t) && !Holds(r[i].threads[u], j)
    ensures !Sharing(r[i].threads[u])
    ensures |r[i].locks| > 0 ==> !r[i].threads[u].Exclusive?
  {
    RunInv(r, i);
    var s := r[i];
    var p := s.threads[u];
    assert InRange(p, |s.locks|);
    assert Sharing(p) ==> p.c < |s.locks| && Holds(p, p.c);
    forall j | 0 <= j < |s.locks| ensures s.locks[j] == By(t) && !Holds(s.threads[u], j) {
      assert Owned(s, t, j) && Owned(s, u, j);
    }
    assert |s.locks| > 0 ==> !Holds(s.threads[u], 0);
  }

  /** From the exclusive section through a downgrade to shared access, the caller's own mutex is never given up. */
  lemma DowngradeKeepsShare(r: seq<State>, i: nat, t: Tid)
    requires Run(r) && i < |r| && t in r[i].threads && Sharing(r[i].threads[t])
    ensures r[i].threads[t].c < |r[i].locks| && r[i].locks[r[i].threads[t].c] == By(t)
  {
    RunInv(r, i);
    assert InRange(r[i].threads[t], |r[i].locks|);
    assert Owned(r[i], t, r[i].threads[t].c);
  }

  /** What a thread that is not waiting for a mutex can do next. */
  function Onward(p: PC): PC {
    match p
    case Shared(c) => ReleaseShared(c)
    case Exclusive => ReleaseExclusive(0)
    case _ => Idle
  }

  /** The mutex a thread is waiting for, if any. */
  function Wanted(p: PC, n: nat): (j: nat)
    ensures j <= n
  {
    match p
    case AcquireShared(c) => if c < n then c else n
    case AcquireExclusive(i) => if i < n then i else n
    case _ => n
  }

  lemma FreeToStep(s: State, t: Tid)
    requires t in s.threads && !s.threads[t].Idle? && InRange(s.threads[t], |s.locks|)
    requires var j := Wanted(s.threads[t], |s.locks|); j < |s.locks| ==> s.locks[j] == Nobody
    ensures Enabled(s, t, Onward(s.threads[t]))
  {
  }

  /** Following the holders of ever higher mutexes ends at a thread that can step. */
  lemma {:induction false} SomeoneSteps(s: State, t: Tid)
    requires Inv(s) && t in s.threads && !s.threads[t].Idle?
    ensures exists u, call :: u in s.threads && !s.threads[u].Idle? && Enabled(s, u, call)
    decreases |s.locks| - Wanted(s.threads[t], |s.locks|)
  {
    var n := |s.locks|;
    var j := Wanted(s.threads[t], n);
    if j < n && s.locks[j].By? {
      var h := s.locks[j].tid;
      assert Owned(s, h, j);
      assert Wanted(s.threads[h], n) > j;
      SomeoneSteps(s, h);
    } else {
      assert InRange(s.threads[t], n);
      FreeToStep(s, t);
    }
  }

  /** No deadlock: while anybody is inside an operation, somebody inside one can step. */
  lemma NoDeadlock(r: seq<State>, i: nat, t: Tid)
    requires Run(r) && i < |r| && t in r[i].threads && !r[i].threads[t].Idle?
    ensures exists u, call :: u in r[i].threads && !r[i].threads[u].Idle? && Enabled(r[i], u, call)
  {
    RunInv(r, i);
    SomeoneSteps(r[i], t);
  }

  // ---------------------------------------------------------------------------
  // What a call leaves behind, from its first step to its return

  /** Not inside any operation. */
  predicate Outside(p: PC) { p.Idle? || p.Shared? || p.Exclusive? }

  /** Where the operation a thread is inside of will end. */
  function Goal(p: PC): PC {
    match p
    case AcquireShared(c) => Shared(c)
    case ReleaseShared(_) => Idle
    case Upgrade(_) => Exclusive
    case AcquireExclusive(_) => Exclusive
    case ReleaseExclusive(_) => Idle
    case Downgrade(c, _) => Shared(c)
    case p => p
  }

  /** How many steps of its own the operation still takes, with `n` mutexes. */
  function Remaining(p: PC, n: nat): int {
    match p
    case AcquireShared(_) => 1
    case ReleaseShared(_) => 1
    case Upgrade(_) => n + 2
    case AcquireExclusive(i) => n - i + 1
    case ReleaseExclusive(i) => n - i + 1
    case Downgrade(_, i) => n - i + 1
    case _ => 0
  }

  lemma StepTowards(s: State, t: Tid, call: PC, u: Tid)
    requires t in s.threads && u in s.threads && Enabled(s, t, call) && InRange(s.threads[u], |s.locks|) && !Outside(s.threads[u])
    ensures var s' := Exec(s, t, call);
            && u in s'.threads && |s'.locks| == |s.locks|
            && Goal(s'.threads[u]) == Goal(s.threads[u])
            && (if s'.threads[u] == s.threads[u] then u != t else Remaining(s'.threads[u], |s.locks|) == Remaining(s.threads[u], |s.locks|) - 1)
  {
  }

  /** The steps of its own that `t` takes between two states of a run: each one moves it. */
  ghost function OwnSteps(r: seq<State>, t: Tid, i: nat, j: nat): nat
    requires i <= j < |r| && forall k :: i <= k <= j ==> t in r[k].threads
    decreases j - i
  {
    if i == j then 0 else OwnSteps(r, t, i, j - 1) + if r[j - 1].threads[t] != r[j].threads[t] then 1 else 0
  }

  /** From state `i` to state `j`, thread `t` is inside one operation. */
  ghost predicate During(r: seq<State>, t: Tid, i: nat, j: nat) {
    && Run(r) && i <= j < |r|
    && (forall k :: i <= k <= j ==> t in r[k].threads)
    && (forall k :: i <= k < j ==> !Outside(r[k].threads[t]))
  }

  lemma NextTowards(s: State, s': State, t: Tid)
    requires Inv(s) && Next(s, s') && t in s.threads && !Outside(s.threads[t])
    ensures t in s'.threads && |s'.locks| == |s.locks| && Goal(s'.threads[t]) == Goal(s.threads[t])
    ensures s'.threads[t] != s.threads[t] ==> Remaining(s'.threads[t], |s.locks|) == Remaining(s.threads[t], |s.locks|) - 1
  {
    hide Goal, Remaining, Exec, Enabled, InRange, Inv, Outside;
    InvRange(s, t);
    var u, call :| u in s.threads && Enabled(s, u, call) && s' == Exec(s, u, call);
    StepTowards(s, u, call, t);
  }

  lemma {:induction false} GoalKept(r: seq<State>, t: Tid, i: nat, j: nat)
    requires During(r, t, i, j)
    ensures |r[j].locks| == |r[i].locks| && Goal(r[j].threads[t]) == Goal(r[i].threads[t])
    ensures OwnSteps(r, t, i, j) == Remaining(r[i].threads[t], |r[i].locks|) - Remaining(r[j].threads[t], |r[i].locks|)
    decreases j - i
  {
    hide Goal, Remaining, Inv, Next, Outside;
    if i < j {
      assert During(r, t, i, j - 1);
      GoalKept(r, t, i, j - 1);
      RunInv(r, j - 1);
      NextTowards(r[j - 1], r[j], t);
    }
  }

  lemma InvRange(s: State, t: Tid)
    requires Inv(s) && t in s.threads
    ensures InRange(s.threads[t], |s.locks|)
  {
  }

  /** The mutexes of `t`. */
  ghost predicate OwnsAll(s: State, t: Tid) { forall m :: 0 <= m < |s.locks| ==> s.locks[m] == By(t) }
  ghost predicate OwnsOnly(s: State, t: Tid, c: nat) { c < |s.locks| && forall m :: 0 <= m < |s.locks| ==> (s.locks[m] == By(t) <==> m == c) }
  ghost predicate OwnsNone(s: State, t: Tid) { forall m :: 0 <= m < |s.locks| ==> s.locks[m] != By(t) }

  /**
   A call that was inside its operation in state `i` and has returned in state `j`:
   an upgrade or exclusive acquisition owns every mutex, a shared acquisition or
   downgrade exactly the caller's own, a release none.
   */
  lemma CallEnds(r: seq<State>, t: Tid, i: nat, j: nat)
    requires During(r, t, i, j) && i < j && Outside(r[j].threads[t])
    ensures r[i].threads[t].Upgrade? || r[i].threads[t].AcquireExclusive? ==> r[j].threads[t] == Exclusive && OwnsAll(r[j], t)
    ensures r[i].threads[t].AcquireShared? || r[i].threads[t].Downgrade? ==>
              r[j].threads[t] == Shared(r[i].threads[t].c) && OwnsOnly(r[j], t, r[i].threads[t].c)
    ensures r[i].threads[t].ReleaseShared? || r[i].threads[t].ReleaseExclusive? ==> r[j].threads[t] == Idle && OwnsNone(r[j], t)
  {
    GoalKept(r, t, i, j);
    RunInv(r, j);
    hide Run, OwnSteps, Remaining;
    assert InRange(r[j].threads[t], |r[j].locks|);
    forall m | 0 <= m < |r[j].locks| ensures r[j].locks[m] == By(t) <==> Holds(r[j].threads[t], m) {
      assert Owned(r[j], t, m);
    }
  }

  /** And it has taken one step per mutex operation: none is retried and none is skipped. */
  lemma CallLength(r: seq<State>, t: Tid, i: nat, j: nat)
    requires During(r, t, i, j) && i < j && Outside(r[j].threads[t])
    ensures var n := |r[i].locks|;
            OwnSteps(r, t, i, j) ==
              match r[i].threads[t]
              case Upgrade(_) => n + 2
              case AcquireExclusive(k) => n + 1 - k
              case ReleaseExclusive(k) => n + 1 - k
              case Downgrade(_, k) => n + 1 - k
              case _ => 1
  {
    GoalKept(r, t, i, j);
    hide Run, OwnSteps;
  }
}
