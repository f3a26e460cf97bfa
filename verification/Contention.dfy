/**
 A resource with `k` identical units, as kept by `ContentionModel`
 (common/performance_model/contention_model.cc).  The units live in an unsorted
 slot vector holding the time at which each becomes free.

 The operations are first given as functions on the value `State`; the class
 `ContentionModel` runs the source's loops in place and is proved to compute
 exactly those functions.  Time is counted in femtoseconds, without wrap-around.
 */
module Contention {

  datatype Slot = Slot(free: nat, tag: nat)

  datatype State = State(
    slots: seq<Slot>, last: nat,
    requests: nat, barriers: nat, outOfOrder: nat, simultaneous: nat, freeFailures: nat,
    totalDelay: nat, totalBarrierDelay: nat)

  function Init(k: nat): State {
    State(seq(k, _ => Slot(0, 0)), 0, 0, 0, 0, 0, 0, 0, 0)
  }

  // ---------------------------------------------------------------------------
  // Choosing a unit

  /** The search of `getCompletionTime`, resumed at slot `i` with candidate `unit`. */
  function PickFrom(slots: seq<Slot>, t: nat, i: nat, unit: nat): (u: nat)
    requires i <= |slots| && unit < |slots|
    requires unit <= i
    requires forall j :: 0 <= j < i ==> slots[j].free > t && slots[unit].free <= slots[j].free
    ensures u < |slots|
    ensures slots[u].free > t ==> forall j :: 0 <= j < |slots| ==> slots[u].free <= slots[j].free
    decreases |slots| - i
  {
    if i == |slots| then unit
    else if slots[i].free <= t then i
    else if slots[i].free < slots[unit].free then PickFrom(slots, t, i + 1, i)
    else PickFrom(slots, t, i + 1, unit)
  }

  function Pick(slots: seq<Slot>, t: nat): (u: nat)
    requires |slots| > 0
    ensures u < |slots|
    ensures slots[u].free > t ==> forall j :: 0 <= j < |slots| ==> slots[u].free <= slots[j].free
  {
    PickFrom(slots, t, 0, 0)
  }

  function Max(a: nat, b: nat): nat { if a < b then b else a }

  /** When a request arriving at `t` would be taken into service (`getStartTime`). */
  function StartTime(s: State, t: nat): (b: nat)
    ensures t <= b
  {
    if |s.slots| == 0 || t < s.last then t
    else Max(t, s.slots[Pick(s.slots, t)].free)
  }

  /** `getCompletionTime`: the new state and the completion time. */
  function Complete(s: State, t: nat, d: nat, tag: nat): (State, nat) {
    if |s.slots| == 0 then (s, t + d)
    else if t == 0 then (s.(requests := s.requests + 1), d)
    else if t < s.last then (s.(requests := s.requests + 1, outOfOrder := s.outOfOrder + 1), t + d)
    else
      var u := Pick(s.slots, t);
      var begin := Max(t, s.slots[u].free);
      (s.(slots := s.slots[u := Slot(begin + d, tag)],
          last := t,
          requests := s.requests + 1,
          simultaneous := if t == s.last then s.simultaneous + 1 else s.simultaneous,
          totalDelay := s.totalDelay + (begin - t)),
       begin + d)
  }

  /** The latest of `t` and the free times of the first `n` slots. */
  function Latest(slots: seq<Slot>, t: nat, n: nat): (m: nat)
    requires n <= |slots|
    ensures t <= m && forall j :: 0 <= j < n ==> slots[j].free <= m
  {
    if n == 0 then t else Max(Latest(slots, t, n - 1), slots[n - 1].free)
  }

  /** `getBarrierCompletionTime`: wait for every unit and occupy all of them. */
  function BarrierAt(s: State, t: nat, d: nat, tag: nat): (State, nat) {
    if |s.slots| == 0 then (s, t + d)
    else
      var m := Latest(s.slots, t, |s.slots|);
      (s.(slots := seq(|s.slots|, _ => Slot(m + d, tag)),
          barriers := s.barriers + 1,
          totalBarrierDelay := s.totalBarrierDelay + (m - t)),
       m + d)
  }

  /** How many of the first `n` slots are still busy at `t`. */
  function UsedUpTo(slots: seq<Slot>, t: nat, n: nat): (u: nat)
    requires n <= |slots|
    ensures u <= n
    ensures u < n <==> exists j :: 0 <= j < n && slots[j].free <= t
  {
    if n == 0 then 0
    else UsedUpTo(slots, t, n - 1) + (if slots[n - 1].free > t then 1 else 0)
  }

  function NumUsed(s: State, t: nat): nat { UsedUpTo(s.slots, t, |s.slots|) }

  predicate FreeSlot(s: State, t: nat, tag: nat) {
    exists j :: 0 <= j < |s.slots| && (s.slots[j].free <= t || s.slots[j].tag == tag)
  }

  predicate HasTag(s: State, tag: nat) {
    exists j :: 0 <= j < |s.slots| && s.slots[j].tag == tag
  }

  // ---------------------------------------------------------------------------
  // The peek operations agree with the committing one

  /**
   `getStartTime` foretells `getCompletionTime` exactly when the request is not
   the special time-zero request finding every unit busy in a model that has
   not yet seen a later request.
   */
  lemma PeekMatchesCommit(s: State, t: nat, d: nat, tag: nat)
    ensures Complete(s, t, d, tag).1 == StartTime(s, t) + d
       <==> (|s.slots| == 0 || t > 0 || s.last > 0 || NumUsed(s, 0) < |s.slots|)
  {
    if |s.slots| > 0 {
      var u := Pick(s.slots, t);
      if t == 0 && s.last == 0 && NumUsed(s, 0) < |s.slots| {
        var j :| 0 <= j < |s.slots| && s.slots[j].free <= 0;
        assert s.slots[u].free <= s.slots[j].free || s.slots[u].free <= t;
      }
      if t == 0 && s.last == 0 && NumUsed(s, 0) == |s.slots| {
        assert s.slots[u].free > 0;
      }
    }
  }

  /**
   The three availability queries agree: with a tag that no slot carries,
   `hasFreeSlot` is `getNumUsed` below the slot count, and for a request that is
   not out of order both say that the request would start at once.
   */
  lemma AvailabilityQueriesAgree(s: State, t: nat, tag: nat)
    requires !HasTag(s, tag)
    ensures FreeSlot(s, t, tag) <==> NumUsed(s, t) < |s.slots|
    ensures |s.slots| > 0 && s.last <= t ==> (StartTime(s, t) == t <==> NumUsed(s, t) < |s.slots|)
  {
    if |s.slots| > 0 {
      var u := Pick(s.slots, t);
      if NumUsed(s, t) < |s.slots| {
        var j :| 0 <= j < |s.slots| && s.slots[j].free <= t;
        assert s.slots[u].free <= s.slots[j].free || s.slots[u].free <= t;
      }
    }
  }

  // ---------------------------------------------------------------------------
  // Runs of in-order requests

  datatype Request = Request(start: nat, delay: nat, tag: nat)

  predicate InOrder(reqs: seq<Request>) {
    && (forall i :: 0 <= i < |reqs| ==> reqs[i].start > 0)
    && (forall i, j :: 0 <= i < j < |reqs| ==> reqs[i].start <= reqs[j].start)
  }

  /** The state of a fresh model with `k` units after serving `reqs`. */
  function After(k: nat, reqs: seq<Request>): State {
    if reqs == [] then Init(k)
    else
      var r := reqs[|reqs| - 1];
      Complete(After(k, reqs[..|reqs| - 1]), r.start, r.delay, r.tag).0
  }

  /** The moment request `i` is taken into service. */
  function Begin(k: nat, reqs: seq<Request>, i: nat): nat
    requires i < |reqs|
  {
    StartTime(After(k, reqs[..i]), reqs[i].start)
  }

  /**
   An assignment of requests to `k` servers that keeps the arrival order: starts
   do not decrease, no request starts before it arrives, and a server finishes a
   request before it starts its next one.
   */
  ghost predicate Schedule(k: nat, reqs: seq<Request>, begins: seq<nat>, server: seq<nat>) {
    && |begins| == |server| == |reqs|
    && (forall i :: 0 <= i < |reqs| ==> server[i] < k && reqs[i].start <= begins[i])
    && (forall i, j :: 0 <= i < j < |reqs| ==> begins[i] <= begins[j])
    && (forall i, j :: 0 <= i < j < |reqs| && server[i] == server[j] ==>
          begins[i] + reqs[i].delay <= begins[j])
  }

  function Greedy(k: nat, reqs: seq<Request>): (b: seq<nat>)
    ensures |b| == |reqs|
    ensures forall i :: 0 <= i < |reqs| ==> b[i] == Begin(k, reqs, i)
  {
    seq(|reqs|, i requires 0 <= i < |reqs| => Begin(k, reqs, i))
  }

  /** Each slot holds the end of the last request it served; `owner[u] < 0` when it served none. */
  ghost predicate Owns(s: State, reqs: seq<Request>, begins: seq<nat>, server: seq<nat>, owner: seq<int>)
    requires |begins| == |server| == |reqs|
  {
    && |owner| == |s.slots|
    && (forall u :: 0 <= u < |owner| ==> owner[u] < |reqs|)
    && (forall u :: 0 <= u < |owner| && owner[u] >= 0 ==>
          server[owner[u]] == u && s.slots[u].free == begins[owner[u]] + reqs[owner[u]].delay)
    && (forall u :: 0 <= u < |owner| && owner[u] < 0 ==> s.slots[u].free == 0)
    && (forall i :: 0 <= i < |reqs| ==> server[i] < |owner| && i <= owner[server[i]])
  }

  /** What serving the in-order requests `reqs` at the moments `b` has made of the state. */
  ghost predicate Served(s: State, reqs: seq<Request>, b: seq<nat>, server: seq<nat>, owner: seq<int>) {
    && Schedule(|s.slots|, reqs, b, server)
    && Owns(s, reqs, b, server, owner)
    && s.last == (if reqs == [] then 0 else reqs[|reqs| - 1].start)
    && s.requests == |reqs|
    && s.outOfOrder == 0
    && (reqs != [] ==> LatestBegin(s, reqs[|reqs| - 1], b[|reqs| - 1]))
  }

  /** The last request started on arrival, or no unit is free before it started. */
  ghost predicate LatestBegin(s: State, r: Request, begin: nat) {
    begin == r.start || forall u :: 0 <= u < |s.slots| ==> begin <= s.slots[u].free
  }

  /** A new request starts after all earlier ones started and after its unit finished. */
  lemma BeginsLast(s: State, reqs: seq<Request>, b: seq<nat>, server: seq<nat>, owner: seq<int>, t: nat)
    requires |s.slots| > 0 && s.last <= t
    requires Served(s, reqs, b, server, owner)
    ensures forall i :: 0 <= i < |reqs| ==> b[i] <= StartTime(s, t)
    ensures forall i :: 0 <= i < |reqs| && server[i] == Pick(s.slots, t) ==> b[i] + reqs[i].delay <= StartTime(s, t)
  {
    var n := |reqs|;
    if n > 0 {
      assert b[n - 1] <= StartTime(s, t);
    }
    forall i | 0 <= i < n && server[i] == Pick(s.slots, t)
      ensures b[i] + reqs[i].delay <= StartTime(s, t)
    {
      var o := owner[server[i]];
      assert i < o ==> b[i] + reqs[i].delay <= b[o];
    }
  }

  lemma ScheduleSnoc(k: nat, reqs: seq<Request>, b: seq<nat>, server: seq<nat>, r: Request, begin: nat, u: nat)
    requires Schedule(k, reqs, b, server)
    requires u < k && r.start <= begin
    requires forall i :: 0 <= i < |reqs| ==> b[i] <= begin
    requires forall i :: 0 <= i < |reqs| && server[i] == u ==> b[i] + reqs[i].delay <= begin
    ensures Schedule(k, reqs + [r], b + [begin], server + [u])
  {
    var R, B, S := reqs + [r], b + [begin], server + [u];
    forall i, j | 0 <= i < j < |R|
      ensures B[i] <= B[j]
      ensures S[i] == S[j] ==> B[i] + R[i].delay <= B[j]
    {
      assert R[i] == reqs[i] && B[i] == b[i] && S[i] == server[i];
      if j < |reqs| {
        assert B[j] == b[j] && S[j] == server[j];
      }
    }
  }

  lemma OwnsSnoc(s: State, s': State, reqs: seq<Request>, b: seq<nat>, server: seq<nat>, owner: seq<int>,
                 r: Request, begin: nat, u: nat)
    requires |b| == |server| == |reqs| && u < |s.slots|
    requires Owns(s, reqs, b, server, owner)
    requires s'.slots == s.slots[u := Slot(begin + r.delay, r.tag)]
    ensures Owns(s', reqs + [r], b + [begin], server + [u], owner[u := |reqs|])
  {
  }

  /** One more in-order request extends the schedule. */
  lemma ServeStep(s: State, reqs: seq<Request>, b: seq<nat>, server: seq<nat>, owner: seq<int>, r: Request)
    requires |s.slots| > 0 && r.start > 0 && s.last <= r.start
    requires Served(s, reqs, b, server, owner)
    ensures var u := Pick(s.slots, r.start);
            Served(Complete(s, r.start, r.delay, r.tag).0, reqs + [r], b + [StartTime(s, r.start)],
                   server + [u], owner[u := |reqs|])
  {
    var n := |reqs|;
    var u := Pick(s.slots, r.start);
    var begin := StartTime(s, r.start);
    BeginsLast(s, reqs, b, server, owner, r.start);
    ScheduleSnoc(|s.slots|, reqs, b, server, r, begin, u);
    var s' := Complete(s, r.start, r.delay, r.tag).0;
    assert s'.slots == s.slots[u := Slot(begin + r.delay, r.tag)];
    assert LatestBegin(s', r, begin);
    OwnsSnoc(s, s', reqs, b, server, owner, r, begin, u);
  }

  lemma GreedySnoc(k: nat, past: seq<Request>, r: Request)
    ensures Greedy(k, past + [r]) == Greedy(k, past) + [StartTime(After(k, past), r.start)]
    ensures After(k, past + [r]) == Complete(After(k, past), r.start, r.delay, r.tag).0
  {
    var reqs := past + [r];
    assert reqs[..|past|] == past;
    forall i | 0 <= i < |past| ensures Begin(k, reqs, i) == Begin(k, past, i) {
      assert past[..i] == reqs[..i];
    }
  }

  /** The next in-order request is not before the last one served. */
  lemma NextInOrder(s: State, past: seq<Request>, r: Request, b: seq<nat>, server: seq<nat>, owner: seq<int>)
    requires InOrder(past + [r]) && Served(s, past, b, server, owner)
    ensures r.start > 0 && s.last <= r.start && |owner| == |s.slots|
  {
    var n := |past|;
    assert (past + [r])[n] == r;
    assert n > 0 ==> (past + [r])[n - 1] == past[n - 1];
    hide Schedule, LatestBegin;
  }

  lemma SlotsKept(s: State, t: nat, d: nat, tag: nat)
    ensures |Complete(s, t, d, tag).0.slots| == |s.slots|
  {
  }

  lemma ExtendRun(k: nat, past: seq<Request>, r: Request, server: seq<nat>, owner: seq<int>)
    returns (server': seq<nat>, owner': seq<int>)
    requires k > 0 && InOrder(past + [r]) && |After(k, past).slots| == k
    requires Served(After(k, past), past, Greedy(k, past), server, owner)
    ensures |After(k, past + [r]).slots| == k
    ensures Served(After(k, past + [r]), past + [r], Greedy(k, past + [r]), server', owner')
  {
    hide InOrder, After, Greedy, Served, Complete, StartTime;
    var s := After(k, past);
    var u := Pick(s.slots, r.start);
    NextInOrder(s, past, r, Greedy(k, past), server, owner);
    SlotsKept(s, r.start, r.delay, r.tag);
    GreedySnoc(k, past, r);
    ServeStep(s, past, Greedy(k, past), server, owner, r);
    server', owner' := server + [u], owner[u := |past|];
  }

  lemma ServedInit(k: nat)
    ensures Served(Init(k), [], [], [], seq(k, _ => -1))
  {
  }

  /** The greedy choice is itself an order-preserving k-server schedule. */
  lemma {:induction false} GreedyIsSchedule(k: nat, reqs: seq<Request>) returns (server: seq<nat>, owner: seq<int>)
    requires k > 0 && InOrder(reqs)
    ensures |After(k, reqs).slots| == k
    ensures Served(After(k, reqs), reqs, Greedy(k, reqs), server, owner)
  {
    if reqs == [] {
      server, owner := [], seq(k, _ => -1);
      ServedInit(k);
    } else {
      var past, r := reqs[..|reqs| - 1], reqs[|reqs| - 1];
      assert reqs == past + [r];
      server, owner := GreedyIsSchedule(k, past);
      server, owner := ExtendRun(k, past, r, server, owner);
    }
  }

  // ---------------------------------------------------------------------------
  // Optimality

  lemma {:induction false} Pigeonhole(k: nat, f: seq<nat>)
    requires |f| > k && forall a :: 0 <= a < |f| ==> f[a] < k
    ensures exists a, b :: 0 <= a < b < |f| && f[a] == f[b]
  {
    var n := |f| - 1;
    assert f[n] < k;
    if x :| 0 <= x < n && f[x] == f[n] {
    } else {
      // Rename the value k-1 to f[n], which nobody before n uses.
      var g := seq(n, a requires 0 <= a < n => if f[a] == k - 1 then f[n] else f[a]);
      Pigeonhole(k - 1, g);
      var a, b :| 0 <= a < b < |g| && g[a] == g[b];
      assert f[a] == f[b];
    }
  }

  /**
   If every unit is busy until `mine`, an order-preserving schedule whose earlier
   starts are no better than the model's cannot start request `i` before `mine`.
   */
  lemma NoEarlierStart(k: nat, reqs: seq<Request>, begins: seq<nat>, server: seq<nat>, i: nat, mine: nat, owner: seq<nat>)
    requires Schedule(k, reqs, begins, server) && i < |reqs|
    requires |owner| == k
    requires forall u :: 0 <= u < k ==> owner[u] < i && mine <= begins[owner[u]] + reqs[owner[u]].delay
    requires forall u, v :: 0 <= u < v < k ==> owner[u] != owner[v]
    ensures mine <= begins[i]
  {
    var who := owner + [i];
    var f := seq(k + 1, u requires 0 <= u < k + 1 => server[who[u]]);
    Pigeonhole(k, f);
    var u, v :| 0 <= u < v < |f| && f[u] == f[v];
    var p := if who[u] < who[v] then who[u] else who[v];
    var q := if who[u] < who[v] then who[v] else who[u];
    assert begins[p] + reqs[p].delay <= begins[q];
  }

  /** A request that must wait finds every unit taken by an earlier request that ends no earlier than it starts. */
  lemma OwnersBusy(s: State, reqs: seq<Request>, b: seq<nat>, server: seq<nat>, owner: seq<int>, t: nat)
    requires Served(s, reqs, b, server, owner)
    requires t < StartTime(s, t)
    ensures forall u :: 0 <= u < |owner| ==>
              0 <= owner[u] < |reqs| && StartTime(s, t) <= b[owner[u]] + reqs[owner[u]].delay
    ensures forall u, v :: 0 <= u < v < |owner| ==> owner[u] != owner[v]
  {
    assert forall u :: 0 <= u < |s.slots| ==> StartTime(s, t) <= s.slots[u].free;
  }

  /**
   No order-preserving schedule on `k` servers starts any request earlier than
   the model does.
   */
  lemma {:induction false} GreedyIsOptimal(k: nat, reqs: seq<Request>, begins: seq<nat>, server: seq<nat>, i: nat)
    requires k > 0 && InOrder(reqs) && i < |reqs|
    requires Schedule(k, reqs, begins, server)
    ensures Begin(k, reqs, i) <= begins[i]
  {
    var past := reqs[..i];
    var b := Greedy(k, past);
    forall j | 0 <= j < i ensures b[j] <= begins[j] {
      assert past[..j] == reqs[..j];
      GreedyIsOptimal(k, reqs, begins, server, j);
    }
    var srv, owner := GreedyIsSchedule(k, past);
    var mine := Begin(k, reqs, i);
    if reqs[i].start < mine {
      OwnersBusy(After(k, past), past, b, srv, owner, reqs[i].start);
      NoEarlierStart(k, reqs, begins, server, i, mine, owner);
    }
  }

  /** The requests in service at instant `at`. */
  ghost function InService(reqs: seq<Request>, begins: seq<nat>, at: nat): set<nat>
    requires |begins| == |reqs|
  {
    set i: nat | i < |reqs| && begins[i] <= at < begins[i] + reqs[i].delay
  }

  /** An injection of a finite set into `[0,k)` bounds its size. */
  lemma {:induction false} InjectionBound(k: nat, s: set<nat>, f: seq<nat>)
    requires forall i :: i in s ==> i < |f| && f[i] < k
    requires forall i, j :: i in s && j in s && i != j ==> f[i] != f[j]
    ensures |s| <= k
  {
    if s != {} {
      if i :| i in s && f[i] == k - 1 {
        InjectionBound(k - 1, s - {i}, f);
      } else {
        var i :| i in s;
        assert k > 0;
        InjectionBound(k - 1, s, f);
      }
    }
  }

  lemma ScheduleCapacity(k: nat, reqs: seq<Request>, begins: seq<nat>, server: seq<nat>, at: nat)
    requires Schedule(k, reqs, begins, server)
    ensures |InService(reqs, begins, at)| <= k
  {
    InjectionBound(k, InService(reqs, begins, at), server);
  }

  /** At most `k` requests are in service at any instant. */
  lemma Capacity(k: nat, reqs: seq<Request>, at: nat)
    requires k > 0 && InOrder(reqs)
    ensures |InService(reqs, Greedy(k, reqs), at)| <= k
  {
    var server, owner := GreedyIsSchedule(k, reqs);
    ScheduleCapacity(k, reqs, Greedy(k, reqs), server, at);
  }

  /** The waits of the first `n` requests, added up. */
  ghost function TotalWait(k: nat, reqs: seq<Request>, n: nat): nat
    requires n <= |reqs|
  {
    if n == 0 then 0 else TotalWait(k, reqs, n - 1) + (Begin(k, reqs, n - 1) - reqs[n - 1].start)
  }

  lemma InOrderPrefix(reqs: seq<Request>, n: nat)
    requires InOrder(reqs) && n < |reqs|
    ensures InOrder(reqs[..n]) && InOrder(reqs[..n] + [reqs[n]]) && reqs[..n + 1] == reqs[..n] + [reqs[n]]
  {
  }

  lemma AfterNothing(k: nat)
    ensures After(k, []).totalDelay == 0
  {
  }

  /** `m_total_delay` is the sum of the waits. */
  lemma {:induction false} DelayIsTotalWait(k: nat, reqs: seq<Request>, n: nat)
    requires k > 0 && InOrder(reqs) && n <= |reqs|
    ensures After(k, reqs[..n]).totalDelay == TotalWait(k, reqs, n)
  {
    hide InOrder, After, Served, Greedy, Complete, StartTime;
    if n == 0 {
      AfterNothing(k);
      assert reqs[..0] == [];
    } else {
      var past, r := reqs[..n - 1], reqs[n - 1];
      DelayIsTotalWait(k, reqs, n - 1);
      InOrderPrefix(reqs, n - 1);
      var server, owner := GreedyIsSchedule(k, past);
      NextInOrder(After(k, past), past, r, Greedy(k, past), server, owner);
      DelayStep(After(k, past), r);
      GreedySnoc(k, past, r);
    }
  }

  lemma DelayStep(s: State, r: Request)
    requires |s.slots| > 0 && r.start > 0 && s.last <= r.start
    ensures Complete(s, r.start, r.delay, r.tag).0.totalDelay == s.totalDelay + (StartTime(s, r.start) - r.start)
  {
  }

  // ---------------------------------------------------------------------------
  // The cycle interface refines to the time interface

  datatype Op =
    | OpComplete(t: nat, d: nat, tag: nat)
    | OpBarrier(t: nat, d: nat, tag: nat)
    | OpStart(t: nat)
    | OpFree(t: nat, tag: nat)
    | OpUsed(t: nat)

  /** One call on the model in its own unit of time, and what it returns. */
  function Apply(s: State, op: Op): (State, nat) {
    match op
    case OpComplete(t, d, tag) => Complete(s, t, d, tag)
    case OpBarrier(t, d, tag) => BarrierAt(s, t, d, tag)
    case OpStart(t) => (s, StartTime(s, t))
    case OpFree(t, tag) => TestFree(s, t, tag)
    case OpUsed(t) => (s, NumUsed(s, t))
  }

  function TestFree(s: State, t: nat, tag: nat): (State, nat) {
    if FreeSlot(s, t, tag) then (s, 1) else (s.(freeFailures := s.freeFailures + 1), 0)
  }

  /** `SubsecondTimeCycleConverter::subsecondTimeToCycles`, which truncates. */
  function ToCycles(time: nat, period: nat): (c: nat)
    requires period > 0
  {
    time / period
  }

  /** One call through the cycle overloads, which convert arguments and results by the period. */
  function ApplyCycles(s: State, op: Op, period: nat): (State, nat)
    requires period > 0
  {
    match op
    case OpComplete(t, d, tag) =>
      var (s', r) := Complete(s, t * period, d * period, tag); (s', ToCycles(r, period))
    case OpBarrier(t, d, tag) =>
      var (s', r) := BarrierAt(s, t * period, d * period, tag); (s', ToCycles(r, period))
    case OpStart(t) => (s, ToCycles(StartTime(s, t * period), period))
    case OpFree(t, tag) => TestFree(s, t * period, tag)
    case OpUsed(t) => (s, NumUsed(s, t * period))
  }

  function Scaled(slots: seq<Slot>, p: nat): (r: seq<Slot>)
    ensures |r| == |slots|
    ensures forall i :: 0 <= i < |slots| ==> r[i] == Slot(slots[i].free * p, slots[i].tag)
  {
    seq(|slots|, i requires 0 <= i < |slots| => Slot(slots[i].free * p, slots[i].tag))
  }

  /** `s` with every time expressed in femtoseconds instead of cycles. */
  function Scale(s: State, p: nat): State {
    s.(slots := Scaled(s.slots, p), last := s.last * p,
       totalDelay := s.totalDelay * p, totalBarrierDelay := s.totalBarrierDelay * p)
  }

  lemma Mono(a: nat, b: nat, p: nat)
    requires p > 0
    ensures a * p < b * p <==> a < b
    ensures a * p == b * p <==> a == b
    ensures (a + b) * p == a * p + b * p
    ensures a >= b ==> (a - b) * p == a * p - b * p
  {
    if a < b { assert (b - a) * p > 0; }
    if b < a { assert (a - b) * p > 0; }
  }

  lemma Exact(a: nat, p: nat)
    requires p > 0
    ensures ToCycles(a * p, p) == a
  {
    var q, r := (a * p) / p, (a * p) % p;
    assert (a - q) * p == r;
    Mono(a, q, p);
    Mono(a - q, 1, p);
  }

  lemma {:induction false} PickScales(slots: seq<Slot>, t: nat, i: nat, unit: nat, p: nat)
    requires p > 0
    requires i <= |slots| && unit < |slots| && unit <= i
    requires forall j :: 0 <= j < i ==> slots[j].free > t && slots[unit].free <= slots[j].free
    ensures forall j :: 0 <= j < i ==> slots[j].free * p > t * p && slots[unit].free * p <= slots[j].free * p
    ensures PickFrom(Scaled(slots, p), t * p, i, unit) == PickFrom(slots, t, i, unit)
    decreases |slots| - i
  {
    forall j | 0 <= j < i
      ensures slots[j].free * p > t * p && slots[unit].free * p <= slots[j].free * p
    {
      Mono(t, slots[j].free, p);
      Mono(slots[j].free, slots[unit].free, p);
    }
    if i < |slots| {
      Mono(t, slots[i].free, p);
      Mono(slots[i].free, slots[unit].free, p);
      if slots[i].free <= t {
      } else if slots[i].free < slots[unit].free {
        PickScales(slots, t, i + 1, i, p);
      } else {
        PickScales(slots, t, i + 1, unit, p);
      }
    }
  }

  lemma StartScales(s: State, t: nat, p: nat)
    requires p > 0
    ensures StartTime(Scale(s, p), t * p) == StartTime(s, t) * p
    ensures |s.slots| > 0 ==> Pick(Scaled(s.slots, p), t * p) == Pick(s.slots, t)
  {
    if |s.slots| > 0 {
      PickScales(s.slots, t, 0, 0, p);
      Mono(t, s.last, p);
      Mono(t, s.slots[Pick(s.slots, t)].free, p);
    }
  }

  lemma UpdateScales(slots: seq<Slot>, u: nat, x: nat, tag: nat, p: nat)
    requires u < |slots|
    ensures Scaled(slots, p)[u := Slot(x * p, tag)] == Scaled(slots[u := Slot(x, tag)], p)
  {
  }

  lemma FillScales(n: nat, x: nat, tag: nat, p: nat)
    ensures seq(n, _ => Slot(x * p, tag)) == Scaled(seq(n, _ => Slot(x, tag)), p)
  {
  }

  lemma CompleteScales(s: State, t: nat, d: nat, tag: nat, p: nat)
    requires p > 0
    ensures Complete(Scale(s, p), t * p, d * p, tag).0 == Scale(Complete(s, t, d, tag).0, p)
    ensures Complete(Scale(s, p), t * p, d * p, tag).1 == Complete(s, t, d, tag).1 * p
  {
    hide StartTime, Pick, Scaled;
    StartScales(s, t, p);
    Mono(t, s.last, p);
    Mono(0, t, p);
    Mono(t, d, p);
    if |s.slots| > 0 && t > 0 && t >= s.last {
      var u := Pick(s.slots, t);
      var begin := Max(t, s.slots[u].free);
      Mono(t, s.slots[u].free, p);
      Mono(begin, d, p);
      Mono(begin, t, p);
      Mono(s.totalDelay, begin - t, p);
      UpdateScales(s.slots, u, begin + d, tag, p);
    }
  }

  lemma {:induction false} LatestScales(slots: seq<Slot>, t: nat, n: nat, p: nat)
    requires p > 0 && n <= |slots|
    ensures Latest(Scaled(slots, p), t * p, n) == Latest(slots, t, n) * p
  {
    if n > 0 {
      LatestScales(slots, t, n - 1, p);
      Mono(Latest(slots, t, n - 1), slots[n - 1].free, p);
    }
  }

  lemma BarrierScales(s: State, t: nat, d: nat, tag: nat, p: nat)
    requires p > 0
    ensures BarrierAt(Scale(s, p), t * p, d * p, tag).0 == Scale(BarrierAt(s, t, d, tag).0, p)
    ensures BarrierAt(Scale(s, p), t * p, d * p, tag).1 == BarrierAt(s, t, d, tag).1 * p
  {
    hide Latest, Scaled;
    Mono(t, d, p);
    if |s.slots| > 0 {
      var m := Latest(s.slots, t, |s.slots|);
      LatestScales(s.slots, t, |s.slots|, p);
      Mono(m, d, p);
      Mono(m, t, p);
      Mono(s.totalBarrierDelay, m - t, p);
      FillScales(|s.slots|, m + d, tag, p);
      assert |Scale(s, p).slots| == |s.slots|;
      var x := (m + d) * p;
      assert m * p + d * p == x;
      assert seq(|s.slots|, _ => Slot(m * p + d * p, tag)) == seq(|s.slots|, _ => Slot(x, tag));
    }
  }

  lemma {:induction false} UsedScales(slots: seq<Slot>, t: nat, n: nat, p: nat)
    requires p > 0 && n <= |slots|
    ensures UsedUpTo(Scaled(slots, p), t * p, n) == UsedUpTo(slots, t, n)
  {
    if n > 0 {
      UsedScales(slots, t, n - 1, p);
      Mono(t, slots[n - 1].free, p);
    }
  }

  lemma FreeScales(s: State, t: nat, tag: nat, p: nat)
    requires p > 0
    ensures FreeSlot(Scale(s, p), t * p, tag) <==> FreeSlot(s, t, tag)
  {
    forall j | 0 <= j < |s.slots| ensures s.slots[j].free * p <= t * p <==> s.slots[j].free <= t {
      Mono(t, s.slots[j].free, p);
    }
    if j :| 0 <= j < |s.slots| && (s.slots[j].free <= t || s.slots[j].tag == tag) {
      assert Scaled(s.slots, p)[j].free <= t * p || Scaled(s.slots, p)[j].tag == tag;
    }
  }

  /** A call through the cycle overloads answers what a model counting cycles answers. */
  lemma CycleCallRefines(s: State, op: Op, p: nat)
    requires p > 0
    ensures ApplyCycles(Scale(s, p), op, p).0 == Scale(Apply(s, op).0, p)
    ensures ApplyCycles(Scale(s, p), op, p).1 == Apply(s, op).1
  {
    match op
    case OpComplete(t, d, tag) =>
      CompleteScales(s, t, d, tag, p);
      Exact(Complete(s, t, d, tag).1, p);
    case OpBarrier(t, d, tag) =>
      BarrierScales(s, t, d, tag, p);
      Exact(BarrierAt(s, t, d, tag).1, p);
    case OpStart(t) =>
      StartScales(s, t, p);
      Exact(StartTime(s, t), p);
    case OpFree(t, tag) => FreeScales(s, t, tag, p);
    case OpUsed(t) => UsedScales(s.slots, t, |s.slots|, p);
  }

  function RunOps(s: State, ops: seq<Op>): (State, seq<nat>)
    decreases |ops|
  {
    if ops == [] then (s, [])
    else
      var (s1, r) := Apply(s, ops[0]);
      var (s2, rs) := RunOps(s1, ops[1..]);
      (s2, [r] + rs)
  }

  function RunCycles(s: State, ops: seq<Op>, period: nat): (State, seq<nat>)
    requires period > 0
    decreases |ops|
  {
    if ops == [] then (s, [])
    else
      var (s1, r) := ApplyCycles(s, ops[0], period);
      var (s2, rs) := RunCycles(s1, ops[1..], period);
      (s2, [r] + rs)
  }

  /** Over any run of mixed calls, every answer of the cycle interface is exact. */
  lemma {:induction false} CycleRunRefines(s: State, ops: seq<Op>, p: nat)
    requires p > 0
    ensures RunCycles(Scale(s, p), ops, p).1 == RunOps(s, ops).1
    ensures RunCycles(Scale(s, p), ops, p).0 == Scale(RunOps(s, ops).0, p)
    decreases |ops|
  {
    if ops != [] {
      CycleCallRefines(s, ops[0], p);
      CycleRunRefines(Apply(s, ops[0]).0, ops[1..], p);
    }
  }

  // ---------------------------------------------------------------------------
  // Peek and commit over whole runs

  /** Some request came at a positive time. */
  predicate Requested(ops: seq<Op>) { exists i :: 0 <= i < |ops| && ops[i].OpComplete? && ops[i].t > 0 }

  /** Some barrier ended after time zero. */
  predicate Barred(ops: seq<Op>) { exists i :: 0 <= i < |ops| && ops[i].OpBarrier? && ops[i].t + ops[i].d > 0 }

  /** Until the first request at a positive time, the units are all free at the same moment, which only a barrier moves. */
  ghost predicate Early(s: State, k: nat, requested: bool, barred: bool) {
    && |s.slots| == k
    && (k > 0 ==> (s.last > 0 <==> requested))
    && (k > 0 && !requested ==>
         && (forall j :: 0 <= j < k ==> s.slots[j].free == s.slots[0].free)
         && (s.slots[0].free > 0 <==> barred))
  }

  lemma {:induction false} LatestOfEqual(slots: seq<Slot>, t: nat, n: nat)
    requires 0 < n <= |slots| && forall j :: 0 <= j < n ==> slots[j].free == slots[0].free
    ensures Latest(slots, t, n) == Max(t, slots[0].free)
  {
    if n > 1 { LatestOfEqual(slots, t, n - 1); }
  }

  lemma EarlyStep(s: State, k: nat, requested: bool, barred: bool, op: Op)
    requires Early(s, k, requested, barred)
    ensures Early(Apply(s, op).0, k, requested || (op.OpComplete? && op.t > 0), barred || (op.OpBarrier? && op.t + op.d > 0))
  {
    if op.OpBarrier? && k > 0 && !requested { LatestOfEqual(s.slots, op.t, k); }
  }

  lemma {:induction false} EarlyRun(s: State, k: nat, requested: bool, barred: bool, ops: seq<Op>)
    requires Early(s, k, requested, barred)
    ensures Early(RunOps(s, ops).0, k, requested || Requested(ops), barred || Barred(ops))
    decreases |ops|
  {
    if ops != [] {
      var op, more := ops[0], ops[1..];
      EarlyStep(s, k, requested, barred, op);
      var s1, requested1, barred1 := Apply(s, op).0, requested || (op.OpComplete? && op.t > 0), barred || (op.OpBarrier? && op.t + op.d > 0);
      EarlyRun(s1, k, requested1, barred1, more);
      FirstOp(ops);
      hide Early, Apply, Requested, Barred;
    }
  }

  lemma FirstOp(ops: seq<Op>)
    requires ops != []
    ensures Requested(ops) <==> (ops[0].OpComplete? && ops[0].t > 0) || Requested(ops[1..])
    ensures Barred(ops) <==> (ops[0].OpBarrier? && ops[0].t + ops[0].d > 0) || Barred(ops[1..])
  {
    assert forall i :: 1 <= i < |ops| ==> ops[i] == ops[1..][i - 1];
  }

  /** `getStartTime` foretells `getCompletionTime` for every request. */
  ghost predicate PeekAgrees(s: State) {
    forall t: nat, d: nat, tag: nat :: Complete(s, t, d, tag).1 == StartTime(s, t) + d
  }

  /**
   After any run of mixed calls the peek agrees with the commit, unless the run
   had a barrier that ended after time zero and no request at a positive time:
   then the request at time zero disagrees.
   */
  lemma PeekOverRuns(k: nat, ops: seq<Op>)
    ensures PeekAgrees(RunOps(Init(k), ops).0) <==> k == 0 || Requested(ops) || !Barred(ops)
  {
    var s := RunOps(Init(k), ops).0;
    EarlyRun(Init(k), k, false, false, ops);
    assert Early(s, k, Requested(ops), Barred(ops));
    hide RunOps, Requested, Barred;
    if k == 0 || Requested(ops) || !Barred(ops) {
      assert k > 0 && s.last == 0 ==> s.slots[0].free <= 0;
      forall t: nat, d: nat, tag: nat ensures Complete(s, t, d, tag).1 == StartTime(s, t) + d {
        PeekMatchesCommit(s, t, d, tag);
      }
    } else {
      PeekMatchesCommit(s, 0, 0, 0);
      assert NumUsed(s, 0) == |s.slots|;
    }
  }

  /** The smallest run that shows it: a barrier of length 5 at time zero. */
  lemma PeekAfterBarrier(d: nat, tag: nat)
    ensures var s := BarrierAt(Init(1), 0, 5, tag).0; StartTime(s, 0) + d == 5 + d && Complete(s, 0, d, tag).1 == d
  {
    assert Latest(Init(1).slots, 0, 1) == 0;
    var s := BarrierAt(Init(1), 0, 5, tag).0;
    assert s.slots == [Slot(5, tag)];
  }

  // ---------------------------------------------------------------------------
  // What each operation does to the units

  /** The latest of some times is one of them. */
  lemma {:induction false} LatestAttained(slots: seq<Slot>, t: nat, n: nat)
    requires n <= |slots|
    ensures Latest(slots, t, n) == t || exists j :: 0 <= j < n && slots[j].free == Latest(slots, t, n)
  {
    if n > 0 {
      LatestAttained(slots, t, n - 1);
      if Latest(slots, t, n) != Latest(slots, t, n - 1) { assert slots[n - 1].free == Latest(slots, t, n); }
    }
  }

  /**
   A barrier starts at its own time or when the last unit becomes free, whichever
   is later, and all units are taken by it until it ends.
   */
  lemma BarrierWaitsForAll(s: State, t: nat, d: nat, tag: nat)
    requires |s.slots| > 0
    ensures var (s', end) := BarrierAt(s, t, d, tag);
            var start := end - d;
            && start >= t && (forall j :: 0 <= j < |s.slots| ==> s.slots[j].free <= start)
            && (start == t || exists j :: 0 <= j < |s.slots| && s.slots[j].free == start)
            && |s'.slots| == |s.slots| && (forall j :: 0 <= j < |s.slots| ==> s'.slots[j] == Slot(end, tag))
            && s'.totalBarrierDelay - s.totalBarrierDelay == start - t
            && s'.last == s.last && s'.totalDelay == s.totalDelay
  {
    LatestAttained(s.slots, t, |s.slots|);
  }

  /** A request that is taken into service. */
  predicate InTime(s: State, t: nat) { |s.slots| > 0 && t > 0 && s.last <= t }

  /**
   A request in order takes one unit, from the earliest moment it can: its own time
   or when the first unit becomes free. Any other request is answered as if there
   were no contention and takes no unit.
   */
  lemma RequestTakesOneUnit(s: State, t: nat, d: nat, tag: nat)
    ensures var (s', end) := Complete(s, t, d, tag);
            var start := end - d;
            if InTime(s, t) then
              && start >= t && s'.last == t && s'.totalDelay - s.totalDelay == start - t
              && (exists u :: 0 <= u < |s.slots| && s.slots[u].free <= start && s'.slots == s.slots[u := Slot(end, tag)])
              && (start > t ==> forall j :: 0 <= j < |s.slots| ==> s.slots[j].free >= start)
            else start == t && s'.slots == s.slots && s'.last == s.last && s'.totalDelay == s.totalDelay
    ensures var s' := Complete(s, t, d, tag).0; s'.totalBarrierDelay == s.totalBarrierDelay && s'.barriers == s.barriers
  {
    if InTime(s, t) {
      var u := Pick(s.slots, t);
      assert Complete(s, t, d, tag).0.slots == s.slots[u := Slot(Complete(s, t, d, tag).1, tag)];
    }
  }

  /** The tag of a request or barrier finds its unit, at any time, until another request takes the unit. */
  lemma TagFindsUnit(s: State, t: nat, d: nat, tag: nat, at: nat)
    ensures InTime(s, t) ==> FreeSlot(Complete(s, t, d, tag).0, at, tag)
    ensures |s.slots| > 0 ==> FreeSlot(BarrierAt(s, t, d, tag).0, at, tag)
  {
    hide Complete, BarrierAt;
    if InTime(s, t) {
      RequestTakesOneUnit(s, t, d, tag);
      var (s', end) := Complete(s, t, d, tag);
      var u :| 0 <= u < |s.slots| && s.slots[u].free <= end - d && s'.slots == s.slots[u := Slot(end, tag)];
      assert s'.slots[u].tag == tag;
    }
    if |s.slots| > 0 {
      BarrierWaitsForAll(s, t, d, tag);
      assert BarrierAt(s, t, d, tag).0.slots[0].tag == tag;
    }
  }

  ghost function Busy(slots: seq<Slot>, t: nat, n: nat): set<nat>
    requires n <= |slots|
  {
    set j | 0 <= j < n && slots[j].free > t
  }

  lemma BusyNext(slots: seq<Slot>, t: nat, n: nat)
    requires n < |slots|
    ensures Busy(slots, t, n + 1) == if slots[n].free > t then Busy(slots, t, n) + {n} else Busy(slots, t, n)
    ensures n !in Busy(slots, t, n)
  {
  }

  lemma {:induction false} UsedIsCount(slots: seq<Slot>, t: nat, n: nat)
    requires n <= |slots|
    ensures UsedUpTo(slots, t, n) == |Busy(slots, t, n)|
  {
    if n == 0 {
      assert Busy(slots, t, 0) == {};
    } else {
      UsedIsCount(slots, t, n - 1);
      BusyNext(slots, t, n - 1);
    }
  }

  /** `getNumUsed` is the number of units not free yet. */
  lemma NumUsedCounts(s: State, t: nat)
    ensures NumUsed(s, t) == |Busy(s.slots, t, |s.slots|)|
  {
    UsedIsCount(s.slots, t, |s.slots|);
  }

  // ---------------------------------------------------------------------------
  // Whole runs of a fresh model

  /** The state before call number `i`. */
  function Before(k: nat, ops: seq<Op>, i: nat): State
    requires i <= |ops|
  {
    if i == 0 then Init(k) else Apply(Before(k, ops, i - 1), ops[i - 1]).0
  }

  /** What call number `i` returns. */
  function Answer(k: nat, ops: seq<Op>, i: nat): nat
    requires i < |ops|
  {
    Apply(Before(k, ops, i), ops[i]).1
  }

  /** The two ways to follow a run agree. */
  lemma {:induction false} RunFrom(k: nat, ops: seq<Op>, i: nat)
    requires i <= |ops|
    ensures var (s, answers) := RunOps(Before(k, ops, i), ops[i..]);
            && s == Before(k, ops, |ops|) && |answers| == |ops| - i
            && forall j :: 0 <= j < |ops| - i ==> answers[j] == Answer(k, ops, i + j)
    decreases |ops| - i
  {
    hide Apply;
    if i < |ops| {
      RunFrom(k, ops, i + 1);
      assert ops[i..][0] == ops[i] && ops[i..][1..] == ops[i + 1..];
      var (s, answers) := RunOps(Before(k, ops, i + 1), ops[i + 1..]);
      assert RunOps(Before(k, ops, i), ops[i..]) == (s, [Answer(k, ops, i)] + answers);
      forall j | 0 <= j < |ops| - i ensures ([Answer(k, ops, i)] + answers)[j] == Answer(k, ops, i + j) {
        if j > 0 { assert answers[j - 1] == Answer(k, ops, i + 1 + (j - 1)); }
      }
    }
  }

  /** When the request or barrier with number `i` is taken into service. */
  function Start(k: nat, ops: seq<Op>, i: nat): int
    requires i < |ops| && (ops[i].OpComplete? || ops[i].OpBarrier?)
  {
    Answer(k, ops, i) - ops[i].d
  }

  /** Call number `i` is a request, at a positive time, that no earlier request is later than. */
  predicate InOrderAt(ops: seq<Op>, i: nat)
    requires i < |ops|
  {
    && ops[i].OpComplete? && ops[i].t > 0
    && forall l :: 0 <= l < i && ops[l].OpComplete? ==> ops[l].t <= ops[i].t
  }

  /** No unit becomes free earlier than it was going to. */
  ghost predicate Later(s: State, s': State) {
    |s'.slots| == |s.slots| && forall j :: 0 <= j < |s.slots| ==> s.slots[j].free <= s'.slots[j].free
  }

  lemma ApplyLater(s: State, op: Op)
    ensures Later(s, Apply(s, op).0)
  {
    hide Complete, BarrierAt;
    match op
    case OpComplete(t, d, tag) => RequestTakesOneUnit(s, t, d, tag);
    case OpBarrier(t, d, tag) =>
      if |s.slots| > 0 { BarrierWaitsForAll(s, t, d, tag); } else { NoUnits(s, t, d, tag); }
    case OpStart(_) =>
    case OpFree(_, _) =>
    case OpUsed(_) =>
  }

  lemma NoUnits(s: State, t: nat, d: nat, tag: nat)
    requires |s.slots| == 0
    ensures BarrierAt(s, t, d, tag).0 == s
  {
  }

  lemma {:induction false} BeforeLater(k: nat, ops: seq<Op>, i: nat, j: nat)
    requires i <= j <= |ops|
    ensures Later(Before(k, ops, i), Before(k, ops, j)) && |Before(k, ops, i).slots| == k
    decreases j - i, i
  {
    hide Apply;
    if i < j {
      BeforeLater(k, ops, i, j - 1);
      ApplyLater(Before(k, ops, j - 1), ops[j - 1]);
    } else if i > 0 {
      BeforeLater(k, ops, i - 1, i - 1);
      ApplyLater(Before(k, ops, i - 1), ops[i - 1]);
    }
  }

  /** `m_t_last` is the latest time of a request so far. */
  lemma {:induction false} LastIsLatest(k: nat, ops: seq<Op>, i: nat)
    requires i <= |ops| && k > 0
    ensures var last := Before(k, ops, i).last;
            && (forall l :: 0 <= l < i && ops[l].OpComplete? ==> ops[l].t <= last)
            && (last == 0 || exists l :: 0 <= l < i && ops[l].OpComplete? && ops[l].t == last)
  {
    hide Complete, BarrierAt;
    if i > 0 {
      LastIsLatest(k, ops, i - 1);
      BeforeLater(k, ops, i - 1, i - 1);
      var s, op := Before(k, ops, i - 1), ops[i - 1];
      match op
      case OpComplete(t, d, tag) => RequestTakesOneUnit(s, t, d, tag);
      case OpBarrier(t, d, tag) => BarrierWaitsForAll(s, t, d, tag);
      case OpStart(_) =>
      case OpFree(_, _) =>
      case OpUsed(_) =>
    }
  }

  ghost predicate AllFreeAt(s: State, end: nat) { forall j :: 0 <= j < |s.slots| ==> s.slots[j].free == end }

  /** After call number `i`, a request in order or a barrier, some unit is taken until its answer; after a barrier every unit is. */
  lemma UnitTaken(k: nat, ops: seq<Op>, i: nat) returns (u: nat)
    requires k > 0 && i < |ops| && (ops[i].OpBarrier? || InOrderAt(ops, i))
    ensures u < k && |Before(k, ops, i + 1).slots| == k
    ensures Before(k, ops, i + 1).slots[u].free == Answer(k, ops, i)
    ensures ops[i].OpBarrier? ==> AllFreeAt(Before(k, ops, i + 1), Answer(k, ops, i))
  {
    hide Complete, BarrierAt;
    BeforeLater(k, ops, i, i);
    LastIsLatest(k, ops, i);
    var s, op := Before(k, ops, i), ops[i];
    if op.OpBarrier? {
      BarrierWaitsForAll(s, op.t, op.d, op.tag);
      u := 0;
    } else {
      assert InTime(s, op.t);
      RequestTakesOneUnit(s, op.t, op.d, op.tag);
      var (s', end) := Complete(s, op.t, op.d, op.tag);
      u :| 0 <= u < |s.slots| && s.slots[u].free <= end - op.d && s'.slots == s.slots[u := Slot(end, op.tag)];
    }
  }

  /** Every request in order and every barrier before a barrier has ended when it starts. */
  lemma BarrierAfter(k: nat, ops: seq<Op>, i: nat, j: nat)
    requires k > 0 && i < j < |ops| && (ops[i].OpBarrier? || InOrderAt(ops, i)) && ops[j].OpBarrier?
    ensures Answer(k, ops, i) <= Start(k, ops, j)
  {
    hide BarrierAt, Complete, InOrderAt;
    var u := UnitTaken(k, ops, i);
    BeforeLater(k, ops, i + 1, j);
    var op := ops[j];
    BarrierWaitsForAll(Before(k, ops, j), op.t, op.d, op.tag);
    hide Before;
  }

  /** No request in order and no barrier after a barrier starts before it has ended. */
  lemma BarrierBefore(k: nat, ops: seq<Op>, i: nat, j: nat)
    requires k > 0 && i < j < |ops| && ops[i].OpBarrier? && (ops[j].OpBarrier? || InOrderAt(ops, j))
    ensures Answer(k, ops, i) <= Start(k, ops, j)
  {
    if ops[j].OpBarrier? {
      BarrierAfter(k, ops, i, j);
    } else {
      RequestAfterBarrier(k, ops, i, j);
    }
  }

  lemma RequestAfterBarrier(k: nat, ops: seq<Op>, i: nat, j: nat)
    requires k > 0 && i < j < |ops| && ops[i].OpBarrier? && InOrderAt(ops, j)
    ensures Answer(k, ops, i) <= Start(k, ops, j)
  {
    hide BarrierAt, Complete;
    var _ := UnitTaken(k, ops, i);
    BeforeLater(k, ops, i + 1, j);
    LastIsLatest(k, ops, j);
    var s, op := Before(k, ops, j), ops[j];
    assert InTime(s, op.t);
    RequestTakesOneUnit(s, op.t, op.d, op.tag);
    var (s', end) := Complete(s, op.t, op.d, op.tag);
    var u :| 0 <= u < |s.slots| && s.slots[u].free <= end - op.d && s'.slots == s.slots[u := Slot(end, op.tag)];
    assert Before(k, ops, i + 1).slots[u].free <= s.slots[u].free;
  }

  // The statistics, each as the number of calls of some kind.

  ghost function Which(n: nat, kind: nat -> bool): set<nat> { set m | 0 <= m < n && kind(m) }

  /** How many of the first `n` calls are of a kind. */
  ghost function Number(n: nat, kind: nat -> bool): nat { |Which(n, kind)| }

  lemma NumberNext(n: nat, kind: nat -> bool)
    ensures Number(n + 1, kind) == Number(n, kind) + if kind(n) then 1 else 0
  {
    assert Which(n + 1, kind) == if kind(n) then Which(n, kind) + {n} else Which(n, kind);
  }

  lemma NumberNone(kind: nat -> bool)
    ensures Number(0, kind) == 0
  {
    assert Which(0, kind) == {};
  }

  ghost function RequestCall(ops: seq<Op>): nat -> bool { (m: nat) => m < |ops| && ops[m].OpComplete? }
  ghost function BarrierCall(ops: seq<Op>): nat -> bool { (m: nat) => m < |ops| && ops[m].OpBarrier? }

  /** A test for a free unit that was answered no. */
  ghost function Failure(k: nat, ops: seq<Op>): nat -> bool { (m: nat) => m < |ops| && ops[m].OpFree? && Answer(k, ops, m) == 0 }

  /** Some request before call number `m` is later than time `t`, or at it. */
  ghost predicate Overtakes(ops: seq<Op>, m: nat, t: nat)
    requires m <= |ops|
  {
    exists l :: 0 <= l < m && ops[l].OpComplete? && ops[l].t > t
  }

  ghost predicate Repeats(ops: seq<Op>, m: nat, t: nat)
    requires m <= |ops|
  {
    exists l :: 0 <= l < m && ops[l].OpComplete? && ops[l].t == t
  }

  ghost function Late(ops: seq<Op>): nat -> bool {
    (m: nat) => m < |ops| && ops[m].OpComplete? && ops[m].t > 0 && Overtakes(ops, m, ops[m].t)
  }

  ghost function Simultaneous(ops: seq<Op>): nat -> bool {
    (m: nat) => m < |ops| && ops[m].OpComplete? && ops[m].t > 0 && !Overtakes(ops, m, ops[m].t) && Repeats(ops, m, ops[m].t)
  }

  ghost predicate Statistics(k: nat, ops: seq<Op>, n: nat)
    requires n <= |ops|
  {
    var s := Before(k, ops, n);
    && s.requests == Number(n, RequestCall(ops)) && s.barriers == Number(n, BarrierCall(ops)) && s.freeFailures == Number(n, Failure(k, ops))
    && s.outOfOrder == Number(n, Late(ops)) && s.simultaneous == Number(n, Simultaneous(ops))
  }

  /** How the counters grow by one call. */
  lemma CountersNext(s: State, op: Op)
    requires |s.slots| > 0
    ensures var s' := Apply(s, op).0;
            && s'.requests == s.requests + (if op.OpComplete? then 1 else 0)
            && s'.barriers == s.barriers + (if op.OpBarrier? then 1 else 0)
            && s'.freeFailures == s.freeFailures + (if op.OpFree? && Apply(s, op).1 == 0 then 1 else 0)
            && s'.outOfOrder == s.outOfOrder + (if op.OpComplete? && op.t > 0 && s.last > op.t then 1 else 0)
            && s'.simultaneous == s.simultaneous + (if op.OpComplete? && op.t > 0 && s.last == op.t then 1 else 0)
  {
    hide Pick, Latest;
  }

  /** Over every run: the counters count the requests, the barriers, the failed tests, the requests overtaken by an earlier later one, and those at the time of the latest. */
  lemma {:induction false} StatisticsOverRuns(k: nat, ops: seq<Op>, n: nat)
    requires k > 0 && n <= |ops|
    ensures Statistics(k, ops, n)
  {
    hide Apply, Number;
    if n == 0 {
      NumberNone(RequestCall(ops));
      NumberNone(BarrierCall(ops));
      NumberNone(Failure(k, ops));
      NumberNone(Late(ops));
      NumberNone(Simultaneous(ops));
    } else {
      StatisticsOverRuns(k, ops, n - 1);
      NumberNext(n - 1, RequestCall(ops));
      NumberNext(n - 1, BarrierCall(ops));
      NumberNext(n - 1, Failure(k, ops));
      NumberNext(n - 1, Late(ops));
      NumberNext(n - 1, Simultaneous(ops));
      BeforeLater(k, ops, n - 1, n - 1);
      CountersNext(Before(k, ops, n - 1), ops[n - 1]);
      LastIsLatest(k, ops, n - 1);
    }
  }

  // ---------------------------------------------------------------------------
  // The class

  class ContentionModel {
    const numOutstanding: nat
    var slots: seq<Slot>
    var last: nat
    var requests: nat
    var barriers: nat
    var outOfOrder: nat
    var simultaneous: nat
    var freeFailures: nat
    var totalDelay: nat
    var totalBarrierDelay: nat

    ghost predicate Valid() reads this { |slots| == numOutstanding }

    ghost function Value(): State reads this {
      State(slots, last, requests, barriers, outOfOrder, simultaneous, freeFailures, totalDelay, totalBarrierDelay)
    }

    constructor (k: nat)
      ensures Valid() && numOutstanding == k && Value() == Init(k)
    {
      numOutstanding := k;
      slots := seq(k, _ => Slot(0, 0));
      last := 0;
      requests, barriers, outOfOrder, simultaneous, freeFailures := 0, 0, 0, 0, 0;
      totalDelay, totalBarrierDelay := 0, 0;
    }

    method GetNumUsed(t: nat) returns (used: nat)
      requires Valid()
      ensures used == NumUsed(Value(), t)
    {
      used := 0;
      for i := 0 to numOutstanding
        invariant used == UsedUpTo(slots, t, i)
      {
        if slots[i].free > t { used := used + 1; }
      }
    }

    method HasFreeSlot(t: nat, tag: nat) returns (free: bool)
      requires Valid()
      modifies this`freeFailures
      ensures Valid()
      ensures free == FreeSlot(old(Value()), t, tag)
      ensures Value() == TestFree(old(Value()), t, tag).0
    {
      for i := 0 to numOutstanding
        invariant forall j :: 0 <= j < i ==> !(slots[j].free <= t || slots[j].tag == tag)
        invariant freeFailures == old(freeFailures)
      {
        if slots[i].free <= t { return true; }
        if slots[i].tag == tag { return true; }
      }
      freeFailures := freeFailures + 1;
      return false;
    }

    method GetBarrierCompletionTime(t: nat, d: nat, tag: nat) returns (end: nat)
      requires Valid()
      modifies this
      ensures Valid()
      ensures (Value(), end) == BarrierAt(old(Value()), t, d, tag)
    {
      if numOutstanding == 0 { return t + d; }
      var max := t;
      for i := 0 to numOutstanding
        invariant max == Latest(slots, t, i)
        invariant unchanged(this)
      {
        if slots[i].free > max { max := slots[i].free; }
      }
      ghost var before := Value();
      for i := 0 to numOutstanding
        invariant |slots| == numOutstanding
        invariant forall j :: 0 <= j < i ==> slots[j] == Slot(max + d, tag)
        invariant Value() == before.(slots := slots)
      {
        slots := slots[i := Slot(max + d, tag)];
      }
      assert slots == seq(numOutstanding, _ => Slot(max + d, tag));
      totalBarrierDelay := totalBarrierDelay + (max - t);
      barriers := barriers + 1;
      return max + d;
    }

    method GetStartTime(t: nat) returns (begin: nat)
      requires Valid()
      ensures begin == StartTime(Value(), t)
    {
      if numOutstanding == 0 { return t; }
      if t < last { return t; }
      var unit := 0;
      for i := 0 to numOutstanding
        invariant unit < numOutstanding && unit <= i
        invariant forall j :: 0 <= j < i ==> slots[j].free > t && slots[unit].free <= slots[j].free
        invariant Pick(slots, t) == PickFrom(slots, t, i, unit)
      {
        if slots[i].free <= t {
          return t;
        } else if slots[i].free < slots[unit].free {
          unit := i;
        }
      }
      begin := Max(t, slots[unit].free);
    }

    /** The search loop of `getCompletionTime`. */
    method FirstFreeUnit(t: nat) returns (unit: nat)
      requires Valid() && numOutstanding > 0
      ensures unit == Pick(slots, t)
    {
      unit := 0;
      for i := 0 to numOutstanding
        invariant unit < numOutstanding && unit <= i
        invariant forall j :: 0 <= j < i ==> slots[j].free > t && slots[unit].free <= slots[j].free
        invariant Pick(slots, t) == PickFrom(slots, t, i, unit)
      {
        if slots[i].free <= t {
          return i;
        } else if slots[i].free < slots[unit].free {
          unit := i;
        }
      }
    }

    method GetCompletionTime(t: nat, d: nat, tag: nat) returns (end: nat)
      requires Valid()
      modifies this
      ensures Valid()
      ensures (Value(), end) == Complete(old(Value()), t, d, tag)
    {
      if numOutstanding == 0 { return t + d; }
      if t == 0 {
        end := d;
      } else if t < last {
        end := t + d;
        outOfOrder := outOfOrder + 1;
      } else {
        if t == last { simultaneous := simultaneous + 1; }
        var unit := FirstFreeUnit(t);
        var begin := if t < slots[unit].free then slots[unit].free else t;
        end := begin + d;
        slots := slots[unit := Slot(end, tag)];
        totalDelay := totalDelay + (begin - t);
        last := t;
      }
      requests := requests + 1;
    }

    // The overloads for components that count cycles of `period` femtoseconds.

    method GetCompletionCycles(t: nat, d: nat, tag: nat, period: nat) returns (end: nat)
      requires Valid() && period > 0
      modifies this
      ensures Valid()
      ensures (Value(), end) == ApplyCycles(old(Value()), OpComplete(t, d, tag), period)
    {
      var result := GetCompletionTime(t * period, d * period, tag);
      end := ToCycles(result, period);
    }

    method GetBarrierCompletionCycles(t: nat, d: nat, tag: nat, period: nat) returns (end: nat)
      requires Valid() && period > 0
      modifies this
      ensures Valid()
      ensures (Value(), end) == ApplyCycles(old(Value()), OpBarrier(t, d, tag), period)
    {
      var result := GetBarrierCompletionTime(t * period, d * period, tag);
      end := ToCycles(result, period);
    }

    method GetStartCycles(t: nat, period: nat) returns (begin: nat)
      requires Valid() && period > 0
      ensures begin == ApplyCycles(Value(), OpStart(t), period).1
    {
      var result := GetStartTime(t * period);
      begin := ToCycles(result, period);
    }
  }
}
