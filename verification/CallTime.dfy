/**
 `Profile.call_ratios` (tools/gprof2dot.py) on all call graphs, and
 `Profile.integrate` on those without mutual recursion: the time of a function is
 charged to its callers in proportion to their calls, and nothing is lost or
 counted twice.
 Floating point is modelled by real arithmetic.
 */
module CallTime {
  import opened Basics
  import opened CallGraph

  // ---------------------------------------------------------------------------
  // Finite sums

  function Sum(f: nat -> real, n: nat): real {
    if n == 0 then 0.0 else Sum(f, n - 1) + f(n - 1)
  }

  lemma {:induction false} SumSame(f: nat -> real, h: nat -> real, n: nat)
    requires forall i :: 0 <= i < n ==> f(i) == h(i)
    ensures Sum(f, n) == Sum(h, n)
  {
    if n > 0 { SumSame(f, h, n - 1); }
  }

  lemma {:induction false} SumAdd(f: nat -> real, h: nat -> real, k: nat -> real, n: nat)
    requires forall i :: 0 <= i < n ==> k(i) == f(i) + h(i)
    ensures Sum(k, n) == Sum(f, n) + Sum(h, n)
  {
    if n > 0 { SumAdd(f, h, k, n - 1); }
  }

  /** Multiplication, as a name that proofs can treat as opaque. */
  function Times(x: real, y: real): real { x * y }

  lemma TimesAdd(a: real, b: real, x: real)
    ensures Times(a + b, x) == Times(a, x) + Times(b, x)
  {
  }

  lemma {:induction false} SumScale(f: nat -> real, h: nat -> real, x: real, n: nat)
    requires forall i :: 0 <= i < n ==> h(i) == Times(f(i), x)
    ensures Sum(h, n) == Times(Sum(f, n), x)
  {
    if n > 0 {
      SumScale(f, h, x, n - 1);
      TimesAdd(Sum(f, n - 1), f(n - 1), x);
      hide Times;
    }
  }

  lemma {:induction false} SumZero(f: nat -> real, n: nat)
    requires forall i :: 0 <= i < n ==> f(i) == 0.0
    ensures Sum(f, n) == 0.0
  {
    if n > 0 { SumZero(f, n - 1); }
  }

  /** A non-negative term is at most the sum. */
  lemma {:induction false} SumTerm(f: nat -> real, n: nat, k: nat)
    requires k < n && forall i :: 0 <= i < n ==> f(i) >= 0.0
    ensures 0.0 <= f(k) <= Sum(f, n) && Sum(f, n - 1) >= 0.0
  {
    if n > 1 {
      if k < n - 1 { SumTerm(f, n - 1, k); } else { SumTerm(f, n - 1, 0); }
    }
  }

  /** A sum with a single non-zero term. */
  lemma {:induction false} SumSingle(f: nat -> real, n: nat, k: nat)
    requires k < n && forall i :: 0 <= i < n && i != k ==> f(i) == 0.0
    ensures Sum(f, n) == f(k)
  {
    if k == n - 1 { SumZero(f, n - 1); } else { SumSingle(f, n - 1, k); }
  }

  function Row(a: (nat, nat) -> real, i: nat): nat -> real { (j: nat) => a(i, j) }
  function Column(a: (nat, nat) -> real, j: nat): nat -> real { (i: nat) => a(i, j) }
  function RowSums(a: (nat, nat) -> real, m: nat): nat -> real { (i: nat) => Sum(Row(a, i), m) }
  function ColumnSums(a: (nat, nat) -> real, n: nat): nat -> real { (j: nat) => Sum(Column(a, j), n) }

  /** The order of a double sum does not matter. */
  lemma {:induction false} SumSwap(a: (nat, nat) -> real, n: nat, m: nat)
    ensures Sum(RowSums(a, m), n) == Sum(ColumnSums(a, n), m)
  {
    if n == 0 {
      SumZero(ColumnSums(a, 0), m);
    } else {
      SumSwap(a, n - 1, m);
      SumAdd(ColumnSums(a, n - 1), Row(a, n - 1), ColumnSums(a, n), m);
    }
  }

  // ---------------------------------------------------------------------------
  // Call ratios

  type Call = (Id, Id)

  /** No two functions call each other, directly or not; a function may call itself. */
  ghost predicate Acyclic(g: Graph) {
    forall x, y :: x in g.nodes && y in g.nodes && Mutual(g, x, y) ==> x == y
  }

  /** Exactly the graphs in which `find_cycles` leaves every function without a cycle. */
  lemma AcyclicMeansNoCycles(g: Graph)
    ensures Acyclic(g) <==> forall x :: x in g.nodes ==> Component(g, x) == {x}
  {
    forall x: Id ensures Mutual(g, x, x) { ReachSelf(g, x); }
    hide Mutual;
    forall x, y | x in g.nodes && y in g.nodes && Mutual(g, x, y) ensures y in Component(g, x) {}
  }

  /** The calls that count: between different functions. */
  predicate Calls(g: Graph, f: Id, c: Id) { Edge(g, f, c) && f != c }

  /** The profile `call_ratios` looks at: `cycleOf` is what `find_cycles` has left. */
  datatype Input = Input(g: Graph, counts: map<Call, real>, cycleOf: map<Id, nat>)

  predicate HasData(p: Input, f: Id, c: Id) { Calls(p.g, f, c) && (f, c) in p.counts }

  /** The event value of a call, where it has one. */
  function Weight(p: Input, f: Id, c: Id): real { if HasData(p, f, c) then p.counts[(f, c)] else 0.0 }

  /** A call from `f` to `c` comes into the cycle of `c` from outside. */
  predicate Enters(p: Input, f: Id, c: Id) { c in p.cycleOf && !(f in p.cycleOf && p.cycleOf[f] == p.cycleOf[c]) }

  /** The weights of the calls into `c`, by caller. */
  function Weights(p: Input, c: Id): nat -> real {
    (i: nat) => if i < |p.g.nodes| then Weight(p, p.g.nodes[i], c) else 0.0
  }

  /** What flows into `c` from the first `n` functions (`function_totals`). */
  function Inflow(p: Input, c: Id, n: nat): real { Sum(Weights(p, c), n) }

  // A sum over all calls of a function, or of the first functions, in the order of the source's loops.

  function OfCaller(g: Graph, w: (Id, Id) -> real, f: Id): nat -> real {
    (j: nat) => if f in g.calls && j < |g.calls[f]| then w(f, g.calls[f][j]) else 0.0
  }

  function ByCaller(g: Graph, w: (Id, Id) -> real): nat -> real {
    (i: nat) => if i < |g.nodes| && g.nodes[i] in g.calls then Sum(OfCaller(g, w, g.nodes[i]), |g.calls[g.nodes[i]]|) else 0.0
  }

  function OverCalls(g: Graph, w: (Id, Id) -> real, n: nat): real { Sum(ByCaller(g, w), n) }

  function EntryWeight(p: Input, k: nat): (Id, Id) -> real {
    (f: Id, c: Id) => if Enters(p, f, c) && p.cycleOf[c] == k then Weight(p, f, c) else 0.0
  }

  /** What flows into cycle `k` from outside, from the first `n` functions (`cycle_totals`). */
  function CycleInflow(p: Input, k: nat, n: nat): real { OverCalls(p.g, EntryWeight(p, k), n) }

  /** `ratio()`: division clamped to [0, 1], and 0/0 taken as 1. */
  function Ratio(numerator: real, denominator: real): real {
    if denominator == 0.0 then 1.0
    else
      var r := numerator / denominator;
      if r < 0.0 then 0.0 else if r > 1.0 then 1.0 else r
  }

  /** What the call from `f` to `c` is a part of. */
  function Whole(p: Input, f: Id, c: Id): real {
    if Enters(p, f, c) then CycleInflow(p, p.cycleOf[c], |p.g.nodes|) else Inflow(p, c, |p.g.nodes|)
  }

  /** The ratio `call_ratios` gives to the call from `f` to `c`. */
  function CallRatio(p: Input, f: Id, c: Id): real {
    if HasData(p, f, c) then Ratio(p.counts[(f, c)], Whole(p, f, c)) else 0.0
  }

  ghost predicate NonNegative(counts: map<Call, real>) { forall k :: k in counts ==> counts[k] >= 0.0 }

  lemma RatioExact(x: real, t: real)
    requires 0.0 <= x <= t
    ensures if t > 0.0 then Ratio(x, t) == Times(x, 1.0 / t) else Ratio(x, t) == 1.0
  {
    if t > 0.0 { DivideBounds(x, t); }
  }

  lemma DivideBounds(x: real, t: real)
    requires 0.0 <= x <= t && t > 0.0
    ensures 0.0 <= x / t <= 1.0 && x / t == Times(x, 1.0 / t)
  {
  }

  lemma SelfDivision(t: real)
    requires t > 0.0
    ensures t / t == 1.0
  {
  }

  lemma TimesInverse(x: real, t: real)
    requires t > 0.0
    ensures Times(x, 1.0 / t) == x / t
  {
  }

  // The calls into a function that do not enter a cycle: all of them for a
  // function without a cycle, those from inside for a member of one.

  function InnerWeights(p: Input, c: Id): nat -> real {
    (i: nat) => if i < |p.g.nodes| && !Enters(p, p.g.nodes[i], c) then Weight(p, p.g.nodes[i], c) else 0.0
  }

  function InnerRatios(p: Input, c: Id): nat -> real {
    (i: nat) => if i < |p.g.nodes| && !Enters(p, p.g.nodes[i], c) then CallRatio(p, p.g.nodes[i], c) else 0.0
  }

  function InnerData(p: Input, c: Id): nat -> real {
    (i: nat) => if i < |p.g.nodes| && !Enters(p, p.g.nodes[i], c) && HasData(p, p.g.nodes[i], c) then 1.0 else 0.0
  }

  /** All calls into a function. */
  function Ratios(p: Input, c: Id): nat -> real {
    (i: nat) => if i < |p.g.nodes| then CallRatio(p, p.g.nodes[i], c) else 0.0
  }

  function WithData(p: Input, c: Id): nat -> real {
    (i: nat) => if i < |p.g.nodes| && HasData(p, p.g.nodes[i], c) then 1.0 else 0.0
  }

  lemma InflowBounds(p: Input, c: Id, i: nat)
    requires NonNegative(p.counts) && i < |p.g.nodes|
    ensures 0.0 <= Weight(p, p.g.nodes[i], c) <= Inflow(p, c, |p.g.nodes|)
  {
    SumTerm(Weights(p, c), |p.g.nodes|, i);
    assert Weights(p, c)(i) == Weight(p, p.g.nodes[i], c);
  }

  /** The ratio of a call that does not enter a cycle. */
  lemma InnerRatio(p: Input, c: Id, i: nat)
    requires NonNegative(p.counts) && i < |p.g.nodes|
    ensures var t := Inflow(p, c, |p.g.nodes|);
            t >= 0.0 && InnerRatios(p, c)(i) == if t > 0.0 then Times(InnerWeights(p, c)(i), 1.0 / t) else InnerData(p, c)(i)
  {
    var f, t := p.g.nodes[i], Inflow(p, c, |p.g.nodes|);
    InflowBounds(p, c, i);
    RatioExact(Weight(p, f, c), t);
    hide Inflow, Ratio, Calls;
  }

  /**
   The ratios of the calls into a function that do not enter a cycle add up to
   their part of all that flows into the function, or, if nothing does, to the
   number of them with data.
   */
  lemma InnerRatiosSum(p: Input, c: Id)
    requires NonNegative(p.counts)
    ensures var n := |p.g.nodes|;
            var t := Inflow(p, c, n);
            Sum(InnerRatios(p, c), n) == if t > 0.0 then Sum(InnerWeights(p, c), n) / t else Sum(InnerData(p, c), n)
  {
    var n, t := |p.g.nodes|, Inflow(p, c, |p.g.nodes|);
    var w, r, d := InnerWeights(p, c), InnerRatios(p, c), InnerData(p, c);
    forall i: nat | i < n ensures r(i) == if t > 0.0 then Times(w(i), 1.0 / t) else d(i) { InnerRatio(p, c, i); }
    if t > 0.0 { TimesInverse(Sum(w, n), t); }
    hide InnerWeights, InnerRatios, InnerData, Inflow, Times;
    if t > 0.0 { SumScale(w, r, 1.0 / t, n); } else { SumSame(r, d, n); }
  }

  /**
   The ratios of the calls into a function without a cycle add up to one, unless
   nothing flows in: then every call with data counts as one.
   */
  lemma RatiosSum(p: Input, c: Id)
    requires NonNegative(p.counts) && c !in p.cycleOf
    ensures var n := |p.g.nodes|;
            Sum(Ratios(p, c), n) == if Inflow(p, c, n) > 0.0 then 1.0 else Sum(WithData(p, c), n)
  {
    var n := |p.g.nodes|;
    InnerRatiosSum(p, c);
    forall i: nat | i < n
      ensures Ratios(p, c)(i) == InnerRatios(p, c)(i) && Weights(p, c)(i) == InnerWeights(p, c)(i) && WithData(p, c)(i) == InnerData(p, c)(i)
    {
      hide CallRatio, Weight, HasData;
    }
    SumSame(Ratios(p, c), InnerRatios(p, c), n);
    SumSame(Weights(p, c), InnerWeights(p, c), n);
    SumSame(WithData(p, c), InnerData(p, c), n);
    assert Inflow(p, c, n) == Sum(InnerWeights(p, c), n);
    if Inflow(p, c, n) > 0.0 { SelfDivision(Inflow(p, c, n)); }
    hide Ratios, InnerRatios, Weights, InnerWeights, WithData, InnerData, Inflow;
  }

  // The calls that enter a cycle.

  function EntryRatio(p: Input, k: nat): (Id, Id) -> real {
    (f: Id, c: Id) => if Enters(p, f, c) && p.cycleOf[c] == k then CallRatio(p, f, c) else 0.0
  }

  function EntryData(p: Input, k: nat): (Id, Id) -> real {
    (f: Id, c: Id) => if Enters(p, f, c) && p.cycleOf[c] == k && HasData(p, f, c) then 1.0 else 0.0
  }

  lemma OverCallsSame(g: Graph, w: (Id, Id) -> real, r: (Id, Id) -> real, n: nat)
    requires n <= |g.nodes| && forall f: Id, c: Id :: Edge(g, f, c) ==> w(f, c) == r(f, c)
    ensures OverCalls(g, w, n) == OverCalls(g, r, n)
  {
    forall i: nat | i < n ensures ByCaller(g, w)(i) == ByCaller(g, r)(i) {
      var f := g.nodes[i];
      if f in g.calls {
        forall j: nat | j < |g.calls[f]| ensures OfCaller(g, w, f)(j) == OfCaller(g, r, f)(j) { assert Edge(g, f, g.calls[f][j]); }
        SumSame(OfCaller(g, w, f), OfCaller(g, r, f), |g.calls[f]|);
      }
    }
    SumSame(ByCaller(g, w), ByCaller(g, r), n);
  }

  lemma OverCallsScale(g: Graph, w: (Id, Id) -> real, r: (Id, Id) -> real, x: real, n: nat)
    requires n <= |g.nodes| && forall f: Id, c: Id :: Edge(g, f, c) ==> r(f, c) == Times(w(f, c), x)
    ensures OverCalls(g, r, n) == Times(OverCalls(g, w, n), x)
  {
    assert Times(0.0, x) == 0.0;
    hide Times;
    forall i: nat | i < n ensures ByCaller(g, r)(i) == Times(ByCaller(g, w)(i), x) {
      var f := g.nodes[i];
      if f in g.calls {
        forall j: nat | j < |g.calls[f]| ensures OfCaller(g, r, f)(j) == Times(OfCaller(g, w, f)(j), x) { assert Edge(g, f, g.calls[f][j]); }
        SumScale(OfCaller(g, w, f), OfCaller(g, r, f), x, |g.calls[f]|);
      }
    }
    SumScale(ByCaller(g, w), ByCaller(g, r), x, n);
  }

  /** A non-negative term is at most the sum. */
  lemma OverCallsTerm(g: Graph, w: (Id, Id) -> real, f: Id, c: Id)
    requires Valid(g) && Edge(g, f, c) && forall f: Id, c: Id :: w(f, c) >= 0.0
    ensures 0.0 <= w(f, c) <= OverCalls(g, w, |g.nodes|)
  {
    assert f in g.nodes;
    var i :| 0 <= i < |g.nodes| && g.nodes[i] == f;
    var j :| 0 <= j < |g.calls[f]| && g.calls[f][j] == c;
    SumTerm(OfCaller(g, w, f), |g.calls[f]|, j);
    forall i: nat | i < |g.nodes| ensures ByCaller(g, w)(i) >= 0.0 {
      if g.nodes[i] in g.calls { SumNonNegative(OfCaller(g, w, g.nodes[i]), |g.calls[g.nodes[i]]|); }
    }
    SumTerm(ByCaller(g, w), |g.nodes|, i);
  }

  lemma {:induction false} SumNonNegative(f: nat -> real, n: nat)
    requires forall i: nat :: f(i) >= 0.0
    ensures Sum(f, n) >= 0.0
  {
    if n > 0 { SumNonNegative(f, n - 1); }
  }

  /** The ratio of a call that enters cycle `k`. */
  lemma EntryExact(p: Input, k: nat, f: Id, c: Id)
    requires Valid(p.g) && NonNegative(p.counts) && Edge(p.g, f, c)
    ensures var t := CycleInflow(p, k, |p.g.nodes|);
            t >= 0.0 && EntryRatio(p, k)(f, c) == if t > 0.0 then Times(EntryWeight(p, k)(f, c), 1.0 / t) else EntryData(p, k)(f, c)
  {
    var t := CycleInflow(p, k, |p.g.nodes|);
    OverCallsTerm(p.g, EntryWeight(p, k), f, c);
    if Enters(p, f, c) && p.cycleOf[c] == k { RatioExact(Weight(p, f, c), t); }
    hide CycleInflow, Ratio, Calls;
  }

  /**
   The ratios of the calls that enter a cycle from outside add up to one, unless
   nothing flows in: then every such call with data counts as one.
   */
  lemma CycleRatiosSum(p: Input, k: nat)
    requires Valid(p.g) && NonNegative(p.counts)
    ensures var n := |p.g.nodes|;
            OverCalls(p.g, EntryRatio(p, k), n) == if CycleInflow(p, k, n) > 0.0 then 1.0 else OverCalls(p.g, EntryData(p, k), n)
  {
    var n, t := |p.g.nodes|, CycleInflow(p, k, |p.g.nodes|);
    var w, r, d := EntryWeight(p, k), EntryRatio(p, k), EntryData(p, k);
    forall f: Id, c: Id | Edge(p.g, f, c) ensures r(f, c) == if t > 0.0 then Times(w(f, c), 1.0 / t) else d(f, c) {
      EntryExact(p, k, f, c);
    }
    if t > 0.0 { TimesInverse(t, t); OverCallsScale(p.g, w, r, 1.0 / t, n); } else { OverCallsSame(p.g, r, d, n); }
    assert CycleInflow(p, k, n) == OverCalls(p.g, w, n);
    hide OverCalls, EntryWeight, EntryRatio, EntryData, CycleInflow, Edge, Times;
  }

  /** Two calls are shares of the same whole: into the same function, or from outside into the same cycle. */
  predicate SameWhole(p: Input, f: Id, c: Id, f': Id, c': Id) {
    if Enters(p, f, c) then Enters(p, f', c') && p.cycleOf[c] == p.cycleOf[c'] else !Enters(p, f', c') && c == c'
  }

  lemma WholeBounds(p: Input, f: Id, c: Id)
    requires Valid(p.g) && NonNegative(p.counts) && HasData(p, f, c)
    ensures 0.0 <= p.counts[(f, c)] <= Whole(p, f, c)
  {
    if Enters(p, f, c) {
      OverCallsTerm(p.g, EntryWeight(p, p.cycleOf[c]), f, c);
    } else {
      assert f in p.g.nodes;
      var i :| 0 <= i < |p.g.nodes| && p.g.nodes[i] == f;
      InflowBounds(p, c, i);
    }
    hide Inflow, OverCalls;
  }

  /** A ratio is never negative or more than one, whatever the counts. */
  lemma RatioRange(p: Input, f: Id, c: Id)
    ensures 0.0 <= CallRatio(p, f, c) <= 1.0
  {
    hide Whole;
  }

  /** Shares of the same whole are as their counts; none is negative or more than one. With the sums, this leaves one value for each. */
  lemma RatiosProportional(p: Input, f: Id, c: Id, f': Id, c': Id)
    requires Valid(p.g) && NonNegative(p.counts) && HasData(p, f, c) && HasData(p, f', c') && SameWhole(p, f, c, f', c')
    ensures CallRatio(p, f, c) * p.counts[(f', c')] == CallRatio(p, f', c') * p.counts[(f, c)]
    ensures 0.0 <= CallRatio(p, f, c) <= 1.0
  {
    hide Ratio, Whole, Calls, Enters, SameWhole;
    WholeBounds(p, f, c);
    WholeBounds(p, f', c');
    WholesSame(p, f, c, f', c');
    var x, y, t := p.counts[(f, c)], p.counts[(f', c')], Whole(p, f, c);
    CrossRatio(x, y, t);
    assert CallRatio(p, f, c) == Ratio(x, t) && CallRatio(p, f', c') == Ratio(y, t);
  }

  lemma WholesSame(p: Input, f: Id, c: Id, f': Id, c': Id)
    requires SameWhole(p, f, c, f', c')
    ensures Whole(p, f, c) == Whole(p, f', c')
  {
    hide Inflow, CycleInflow;
  }

  lemma CrossRatio(x: real, y: real, t: real)
    requires 0.0 <= x <= t && 0.0 <= y <= t
    ensures Ratio(x, t) * y == Ratio(y, t) * x && 0.0 <= Ratio(x, t) <= 1.0
  {
    if t > 0.0 {
      DivideBounds(x, t);
      DivideBounds(y, t);
      CrossDivide(x, y, t);
    }
  }

  lemma CrossDivide(x: real, y: real, t: real)
    requires t > 0.0
    ensures (x / t) * y == (y / t) * x
  {
  }

  // ---------------------------------------------------------------------------
  // Totals

  function Get(m: map<Id, real>, f: Id): real { if f in m then m[f] else 0.0 }

  /** What `f` is charged for its calls to `c`. */
  function Charge(g: Graph, ratio: map<Call, real>, total: map<Id, real>, f: Id, c: Id): real {
    if Calls(g, f, c) && (f, c) in ratio then ratio[(f, c)] * Get(total, c) else 0.0
  }

  /** The charges of `f` in the order of its calls. */
  function Charges(g: Graph, ratio: map<Call, real>, total: map<Id, real>, f: Id): nat -> real {
    (k: nat) => if f in g.calls && k < |g.calls[f]| then Charge(g, ratio, total, f, g.calls[f][k]) else 0.0
  }

  function OwnTime(self: map<Id, real>, s: seq<Id>): nat -> real {
    (i: nat) => if i < |s| then Get(self, s[i]) else 0.0
  }

  /** The total of `f` is its own time plus its charges: what `_integrate_function` computes. */
  ghost predicate Balanced(g: Graph, self: map<Id, real>, ratio: map<Call, real>, total: map<Id, real>, f: Id) {
    && f in total && f in g.calls
    && total[f] == Get(self, f) + Sum(Charges(g, ratio, total, f), |g.calls[f]|)
  }

  /** All charges, as a matrix of callers by callees. */
  function Matrix(g: Graph, ratio: map<Call, real>, total: map<Id, real>): (nat, nat) -> real {
    (i: nat, j: nat) => if i < |g.nodes| && j < |g.nodes| then Charge(g, ratio, total, g.nodes[i], g.nodes[j]) else 0.0
  }

  /** The charges of caller `i`, spread over call number and callee. */
  function Spread(g: Graph, ratio: map<Call, real>, total: map<Id, real>, f: Id): (nat, nat) -> real {
    (k: nat, j: nat) =>
      if f in g.calls && k < |g.calls[f]| && j < |g.nodes| && g.calls[f][k] == g.nodes[j]
      then Charge(g, ratio, total, f, g.nodes[j]) else 0.0
  }

  /** Summing over the calls of a function is summing over all functions. */
  lemma CallsAsNodes(g: Graph, ratio: map<Call, real>, total: map<Id, real>, i: nat)
    requires Valid(g) && i < |g.nodes|
    ensures Sum(Charges(g, ratio, total, g.nodes[i]), |g.calls[g.nodes[i]]|) == Sum(Row(Matrix(g, ratio, total), i), |g.nodes|)
  {
    var f, n := g.nodes[i], |g.nodes|;
    var calls := g.calls[f];
    var a := Spread(g, ratio, total, f);
    forall k: nat | k < |calls| ensures RowSums(a, n)(k) == Charges(g, ratio, total, f)(k) {
      assert calls[k] in g.nodes;
      var j :| 0 <= j < n && g.nodes[j] == calls[k];
      SumSingle(Row(a, k), n, j);
    }
    SumSame(RowSums(a, n), Charges(g, ratio, total, f), |calls|);
    forall j: nat | j < n ensures ColumnSums(a, |calls|)(j) == Row(Matrix(g, ratio, total), i)(j) {
      ColumnOfCalls(g, ratio, total, f, j);
    }
    SumSame(ColumnSums(a, |calls|), Row(Matrix(g, ratio, total), i), n);
    SumSwap(a, |calls|, n);
  }

  lemma ColumnOfCalls(g: Graph, ratio: map<Call, real>, total: map<Id, real>, f: Id, j: nat)
    requires Valid(g) && f in g.nodes && j < |g.nodes|
    ensures Sum(Column(Spread(g, ratio, total, f), j), |g.calls[f]|) == Charge(g, ratio, total, f, g.nodes[j])
  {
    var calls, c := g.calls[f], g.nodes[j];
    var col := Column(Spread(g, ratio, total, f), j);
    if c in calls {
      var k :| 0 <= k < |calls| && calls[k] == c;
      SumSingle(col, |calls|, k);
    } else {
      SumZero(col, |calls|);
    }
  }

  /** The part of `c`'s time that its callers pay for. */
  function Shares(g: Graph, ratio: map<Call, real>, c: Id): nat -> real {
    (i: nat) => if i < |g.nodes| && Calls(g, g.nodes[i], c) && (g.nodes[i], c) in ratio then ratio[(g.nodes[i], c)] else 0.0
  }

  /** What the callers pay for function number `j`. */
  function Paid(g: Graph, ratio: map<Call, real>, total: map<Id, real>): nat -> real {
    (j: nat) => if j < |g.nodes| then Sum(Shares(g, ratio, g.nodes[j]), |g.nodes|) * Get(total, g.nodes[j]) else 0.0
  }

  lemma PaidAt(g: Graph, ratio: map<Call, real>, total: map<Id, real>, j: nat)
    requires j < |g.nodes|
    ensures Paid(g, ratio, total)(j) == Sum(Shares(g, ratio, g.nodes[j]), |g.nodes|) * Get(total, g.nodes[j])
  {
    hide Shares, Sum, Get;
  }

  lemma ChargeIsShare(g: Graph, ratio: map<Call, real>, total: map<Id, real>, i: nat, j: nat)
    requires i < |g.nodes| && j < |g.nodes|
    ensures Column(Matrix(g, ratio, total), j)(i) == Times(Shares(g, ratio, g.nodes[j])(i), Get(total, g.nodes[j]))
  {
    hide Get, Calls;
    assert Column(Matrix(g, ratio, total), j)(i) == Charge(g, ratio, total, g.nodes[i], g.nodes[j]);
  }

  lemma ColumnIsPaid(g: Graph, ratio: map<Call, real>, total: map<Id, real>, j: nat)
    requires j < |g.nodes|
    ensures Sum(Column(Matrix(g, ratio, total), j), |g.nodes|) == Paid(g, ratio, total)(j)
  {
    hide Shares, Matrix, Column, Paid, Get;
    var shares, column, x := Shares(g, ratio, g.nodes[j]), Column(Matrix(g, ratio, total), j), Get(total, g.nodes[j]);
    forall i: nat | i < |g.nodes| ensures column(i) == Times(shares(i), x) {
      ChargeIsShare(g, ratio, total, i, j);
    }
    SumScale(shares, column, x, |g.nodes|);
    PaidAt(g, ratio, total, j);
  }

  /**
   Conservation, for any ratios: the totals minus what callers pay for them are
   the own times.
   */
  lemma TotalsConserved(g: Graph, self: map<Id, real>, ratio: map<Call, real>, total: map<Id, real>)
    requires Valid(g) && forall f :: f in g.nodes ==> Balanced(g, self, ratio, total, f)
    ensures Sum(OwnTime(total, g.nodes), |g.nodes|) == Sum(OwnTime(self, g.nodes), |g.nodes|) + Sum(Paid(g, ratio, total), |g.nodes|)
  {
    var n := |g.nodes|;
    var a := Matrix(g, ratio, total);
    forall i: nat | i < n ensures OwnTime(total, g.nodes)(i) == OwnTime(self, g.nodes)(i) + RowSums(a, n)(i) {
      assert Balanced(g, self, ratio, total, g.nodes[i]);
      CallsAsNodes(g, ratio, total, i);
    }
    SumAdd(OwnTime(self, g.nodes), RowSums(a, n), OwnTime(total, g.nodes), n);
    SumSwap(a, n, n);
    forall j: nat | j < n ensures ColumnSums(a, n)(j) == Paid(g, ratio, total)(j) {
      ColumnIsPaid(g, ratio, total, j);
    }
    SumSame(ColumnSums(a, n), Paid(g, ratio, total), n);
  }

  /** Some other function calls `c`. */
  predicate Called(g: Graph, c: Id) { exists i :: 0 <= i < |g.nodes| && Calls(g, g.nodes[i], c) }

  /** The totals of the functions nobody else calls. */
  function RootTime(g: Graph, total: map<Id, real>): nat -> real {
    (i: nat) => if i < |g.nodes| && !Called(g, g.nodes[i]) then Get(total, g.nodes[i]) else 0.0
  }

  /** Every call between different functions carries a positive count. */
  ghost predicate PositiveCounts(p: Input) {
    && NonNegative(p.counts)
    && forall f: Id, c: Id :: Calls(p.g, f, c) ==> (f, c) in p.counts && p.counts[(f, c)] > 0.0
  }

  /** The ratios are those `call_ratios` computes. */
  ghost predicate RatiosOf(p: Input, ratio: map<Call, real>) {
    forall f: Id, c: Id :: Calls(p.g, f, c) ==> (f, c) in ratio && ratio[(f, c)] == CallRatio(p, f, c)
  }

  ghost predicate NoCycle(p: Input) { forall f :: f in p.g.nodes ==> f !in p.cycleOf }

  lemma SharesSum(p: Input, ratio: map<Call, real>, c: Id)
    requires PositiveCounts(p) && RatiosOf(p, ratio) && c !in p.cycleOf
    ensures Sum(Shares(p.g, ratio, c), |p.g.nodes|) == if Called(p.g, c) then 1.0 else 0.0
  {
    var g, n := p.g, |p.g.nodes|;
    if Called(g, c) {
      forall i: nat | i < n ensures Shares(g, ratio, c)(i) == Ratios(p, c)(i) { hide Ratio, Whole; }
      SumSame(Shares(g, ratio, c), Ratios(p, c), n);
      RatiosSum(p, c);
      var i :| 0 <= i < n && Calls(g, g.nodes[i], c);
      InflowBounds(p, c, i);
    } else {
      SumZero(Shares(g, ratio, c), n);
    }
  }

  /** A function is either called, and paid for in full, or carries its own total. */
  lemma RootOrPaid(p: Input, ratio: map<Call, real>, total: map<Id, real>, j: nat)
    requires PositiveCounts(p) && RatiosOf(p, ratio) && j < |p.g.nodes| && p.g.nodes[j] !in p.cycleOf
    ensures OwnTime(total, p.g.nodes)(j) == RootTime(p.g, total)(j) + Paid(p.g, ratio, total)(j)
  {
    SharesSum(p, ratio, p.g.nodes[j]);
    PaidAt(p.g, ratio, total, j);
    hide Sum, Shares, PositiveCounts, RatiosOf, Calls, Paid;
  }

  /**
   With positive call counts and no cycles, the integrated totals of the functions
   that nobody else calls add up to all the time there is.
   */
  lemma RootsCarryEverything(p: Input, self: map<Id, real>, ratio: map<Call, real>, total: map<Id, real>)
    requires Valid(p.g) && NoCycle(p) && forall f :: f in p.g.nodes ==> Balanced(p.g, self, ratio, total, f)
    requires PositiveCounts(p) && RatiosOf(p, ratio)
    ensures Sum(RootTime(p.g, total), |p.g.nodes|) == Sum(OwnTime(self, p.g.nodes), |p.g.nodes|)
  {
    var g, n := p.g, |p.g.nodes|;
    TotalsConserved(g, self, ratio, total);
    forall j: nat | j < n ensures OwnTime(total, g.nodes)(j) == RootTime(g, total)(j) + Paid(g, ratio, total)(j) {
      RootOrPaid(p, ratio, total, j);
    }
    hide OwnTime, RootTime, Paid, Balanced, PositiveCounts, RatiosOf;
    SumAdd(RootTime(g, total), Paid(g, ratio, total), OwnTime(total, g.nodes), n);
  }

  // ---------------------------------------------------------------------------
  // Profiles

  /** `f` is integrated: its total balances, its callees have theirs, and each of its calls carries its charge. */
  ghost predicate Settled(g: Graph, self: map<Id, real>, ratio: map<Call, real>, total: map<Id, real>, charged: map<Call, real>, f: Id) {
    && Balanced(g, self, ratio, total, f)
    && forall c: Id :: Calls(g, f, c) ==> c in total && (f, c) in charged && charged[(f, c)] == Charge(g, ratio, total, f, c)
  }

  ghost function Reached(g: Graph, f: Id): set<Id> { set y | y in g.nodes && Reach(g, f, y) }

  /** In a graph without mutual recursion a callee reaches less than its caller. */
  lemma ReachesLess(g: Graph, f: Id, c: Id)
    requires Valid(g) && Acyclic(g) && Calls(g, f, c)
    ensures c in g.nodes && f in g.nodes && !Reach(g, c, f)
    ensures Reached(g, c) < Reached(g, f)
  {
    ReachEdge(g, f, c);
    assert f in g.nodes && c in g.nodes;
    assert !Mutual(g, f, c);
    ReachSelf(g, f);
    forall y | Reach(g, c, y) ensures Reach(g, f, y) { ReachTrans(g, f, c, y); }
    assert f in Reached(g, f) && f !in Reached(g, c);
  }

  /** Further totals do not disturb the charges for callees that have theirs. */
  lemma {:induction false} ChargesKept(g: Graph, ratio: map<Call, real>, total: map<Id, real>, total': map<Id, real>, f: Id, n: nat)
    requires f in g.calls && n <= |g.calls[f]|
    requires forall k :: 0 <= k < n ==> Calls(g, f, g.calls[f][k]) ==> g.calls[f][k] in total
    requires forall h :: h in total ==> h in total' && total'[h] == total[h]
    ensures Sum(Charges(g, ratio, total, f), n) == Sum(Charges(g, ratio, total', f), n)
  {
    SumSame(Charges(g, ratio, total, f), Charges(g, ratio, total', f), n);
  }

  ghost predicate Extends<K, V>(m: map<K, V>, m': map<K, V>) {
    forall k :: k in m ==> k in m' && m'[k] == m[k]
  }

  lemma SettledKept(g: Graph, self: map<Id, real>, ratio: map<Call, real>, total: map<Id, real>, charged: map<Call, real>,
                    total': map<Id, real>, charged': map<Call, real>, f: Id)
    requires Settled(g, self, ratio, total, charged, f) && Extends(total, total') && Extends(charged, charged')
    ensures Settled(g, self, ratio, total', charged', f)
  {
    ChargesKept(g, ratio, total, total', f, |g.calls[f]|);
  }

  /** The inflow of `c` once function number `i` has handled its calls in `done`. */
  ghost function PartInflow(p: Input, c: Id, i: nat, done: seq<Id>): real
    requires i < |p.g.nodes|
  {
    Inflow(p, c, i) + if c in done then Weight(p, p.g.nodes[i], c) else 0.0
  }

  /** The inflow of cycle `k` once function number `i` has handled its first `j` calls. */
  ghost function PartCycleInflow(p: Input, k: nat, i: nat, j: nat): real
    requires i < |p.g.nodes|
  {
    CycleInflow(p, k, i) + Sum(OfCaller(p.g, EntryWeight(p, k), p.g.nodes[i]), j)
  }

  /** `function_totals` after the first `i` functions. */
  ghost predicate FunctionTotals(p: Input, totals: map<Id, real>, i: nat) {
    forall c :: c in p.g.nodes ==> c in totals && totals[c] == Inflow(p, c, i)
  }

  /** `cycle_totals` after the first `i` functions. */
  ghost predicate CycleTotals(p: Input, cycles: seq<nat>, totals: map<nat, real>, i: nat) {
    forall k :: k in cycles ==> k in totals && totals[k] == CycleInflow(p, k, i)
  }

  ghost predicate FunctionsPart(p: Input, totals: map<Id, real>, i: nat, j: nat)
    requires i < |p.g.nodes| && p.g.nodes[i] in p.g.calls && j <= |p.g.calls[p.g.nodes[i]]|
  {
    forall c :: c in p.g.nodes ==> c in totals && totals[c] == PartInflow(p, c, i, p.g.calls[p.g.nodes[i]][..j])
  }

  ghost predicate CyclesPart(p: Input, cycles: seq<nat>, totals: map<nat, real>, i: nat, j: nat)
    requires i < |p.g.nodes|
  {
    forall k :: k in cycles ==> k in totals && totals[k] == PartCycleInflow(p, k, i, j)
  }

  lemma PartsStart(p: Input, cycles: seq<nat>, totals: map<Id, real>, cycleTotals: map<nat, real>, i: nat)
    requires i < |p.g.nodes| && p.g.nodes[i] in p.g.calls
    requires FunctionTotals(p, totals, i) && CycleTotals(p, cycles, cycleTotals, i)
    ensures FunctionsPart(p, totals, i, 0) && CyclesPart(p, cycles, cycleTotals, i, 0)
  {
    hide Inflow, CycleInflow;
  }

  lemma FunctionsStep(p: Input, totals: map<Id, real>, i: nat, j: nat)
    requires i < |p.g.nodes| && p.g.nodes[i] in p.g.calls && j < |p.g.calls[p.g.nodes[i]]| && Distinct(p.g.calls[p.g.nodes[i]])
    requires FunctionsPart(p, totals, i, j)
    ensures var f := p.g.nodes[i];
            var c := p.g.calls[f][j];
            if c != f && (f, c) in p.counts
            then c in p.g.nodes ==> c in totals && FunctionsPart(p, totals[c := totals[c] + p.counts[(f, c)]], i, j + 1)
            else FunctionsPart(p, totals, i, j + 1)
  {
    hide Inflow;
    var calls := p.g.calls[p.g.nodes[i]];
    assert calls[..j + 1] == calls[..j] + [calls[j]];
  }

  lemma CyclesStep(p: Input, cycles: seq<nat>, totals: map<nat, real>, i: nat, j: nat)
    requires i < |p.g.nodes| && p.g.nodes[i] in p.g.calls && j < |p.g.calls[p.g.nodes[i]]|
    requires CyclesPart(p, cycles, totals, i, j)
    ensures var f := p.g.nodes[i];
            var c := p.g.calls[f][j];
            if c != f && (f, c) in p.counts && Enters(p, f, c)
            then
              var k := p.cycleOf[c];
              k in cycles ==> k in totals && CyclesPart(p, cycles, totals[k := totals[k] + p.counts[(f, c)]], i, j + 1)
            else CyclesPart(p, cycles, totals, i, j + 1)
  {
    hide CycleInflow;
    var f := p.g.nodes[i];
    var c := p.g.calls[f][j];
    forall k: nat ensures PartCycleInflow(p, k, i, j + 1) == PartCycleInflow(p, k, i, j) + EntryWeight(p, k)(f, c) {
      assert OfCaller(p.g, EntryWeight(p, k), f)(j) == EntryWeight(p, k)(f, c);
    }
    hide PartCycleInflow, OfCaller;
  }

  lemma PartsEnd(p: Input, cycles: seq<nat>, totals: map<Id, real>, cycleTotals: map<nat, real>, i: nat)
    requires Valid(p.g) && i < |p.g.nodes|
    requires var n := |p.g.calls[p.g.nodes[i]]|; FunctionsPart(p, totals, i, n) && CyclesPart(p, cycles, cycleTotals, i, n)
    ensures FunctionTotals(p, totals, i + 1) && CycleTotals(p, cycles, cycleTotals, i + 1)
  {
    var calls := p.g.calls[p.g.nodes[i]];
    assert calls[..|calls|] == calls;
    forall c: Id ensures Inflow(p, c, i + 1) == PartInflow(p, c, i, calls) { InflowStep(p, c, i); }
    forall k: nat ensures CycleInflow(p, k, i + 1) == PartCycleInflow(p, k, i, |calls|) { CycleInflowStep(p, k, i); }
    hide Inflow, CycleInflow, PartInflow, PartCycleInflow, Valid;
  }

  lemma InflowStep(p: Input, c: Id, i: nat)
    requires i < |p.g.nodes| && p.g.nodes[i] in p.g.calls
    ensures Inflow(p, c, i + 1) == PartInflow(p, c, i, p.g.calls[p.g.nodes[i]])
  {
    assert Weights(p, c)(i) == Weight(p, p.g.nodes[i], c);
  }

  lemma CycleInflowStep(p: Input, k: nat, i: nat)
    requires i < |p.g.nodes| && p.g.nodes[i] in p.g.calls
    ensures CycleInflow(p, k, i + 1) == PartCycleInflow(p, k, i, |p.g.calls[p.g.nodes[i]]|)
  {
    var w := EntryWeight(p, k);
    assert ByCaller(p.g, w)(i) == Sum(OfCaller(p.g, w, p.g.nodes[i]), |p.g.calls[p.g.nodes[i]]|);
    hide EntryWeight, OfCaller;
  }

  class Profile {
    const g: Graph
    const counts: map<Call, real>  // the event of each call, where recorded
    const self: map<Id, real>      // `inevent` of each function
    const cycleOf: map<Id, nat>    // the cycle of each function, where it has one
    const cycles: seq<nat>
    var ratio: map<Call, real>
    var total: map<Id, real>       // `outevent` of each function
    var charged: map<Call, real>   // `outevent` of each call

    constructor (p: Input, self: map<Id, real>, cycles: seq<nat>)
      ensures P() == p && this.self == self && this.cycles == cycles
      ensures ratio == map[] && total == map[] && charged == map[]
    {
      g, counts, cycleOf, this.self, this.cycles := p.g, p.counts, p.cycleOf, self, cycles;
      ratio, total, charged := map[], map[], map[];
    }

    function P(): Input { Input(g, counts, cycleOf) }

    /** Every cycle that a function carries is listed, as `find_cycles` leaves it. */
    ghost predicate Listed() { forall f :: f in g.nodes && f in cycleOf ==> cycleOf[f] in cycles }

    /** Pass 1 of `call_ratios` for the calls of function number `i`. */
    method AddCalls(i: nat, totals: map<Id, real>, cycleTotals: map<nat, real>)
      returns (totals': map<Id, real>, cycleTotals': map<nat, real>)
      requires Valid(g) && Listed() && i < |g.nodes|
      requires FunctionTotals(P(), totals, i) && CycleTotals(P(), cycles, cycleTotals, i)
      ensures FunctionTotals(P(), totals', i + 1) && CycleTotals(P(), cycles, cycleTotals', i + 1)
    {
      hide FunctionTotals, CycleTotals, FunctionsPart, CyclesPart;
      totals', cycleTotals' := totals, cycleTotals;
      var f := g.nodes[i];
      var calls := g.calls[f];
      PartsStart(P(), cycles, totals, cycleTotals, i);
      for j := 0 to |calls|
        invariant FunctionsPart(P(), totals', i, j) && CyclesPart(P(), cycles, cycleTotals', i, j)
      {
        var c := calls[j];
        FunctionsStep(P(), totals', i, j);
        CyclesStep(P(), cycles, cycleTotals', i, j);
        if c != f && (f, c) in counts {
          totals' := totals'[c := totals'[c] + counts[(f, c)]];
          if c in cycleOf && !(f in cycleOf && cycleOf[f] == cycleOf[c]) {
            cycleTotals' := cycleTotals'[cycleOf[c] := cycleTotals'[cycleOf[c]] + counts[(f, c)]];
          }
        }
      }
      PartsEnd(P(), cycles, totals', cycleTotals', i);
    }

    /** Pass 2 of `call_ratios` for the calls of function number `i`. */
    method SetRatios(i: nat, totals: map<Id, real>, cycleTotals: map<nat, real>)
      requires Valid(g) && Listed() && i < |g.nodes|
      requires FunctionTotals(P(), totals, |g.nodes|) && CycleTotals(P(), cycles, cycleTotals, |g.nodes|)
      requires forall c: Id :: (g.nodes[i], c) !in ratio
      modifies this`ratio
      ensures Extends(old(ratio), ratio)
      ensures RatiosFrom(P(), ratio, g.nodes[i])
      ensures forall k :: k in ratio && k !in old(ratio) ==> k.0 == g.nodes[i] && Calls(g, k.0, k.1)
    {
      hide Inflow, CycleInflow, Ratio;
      var f := g.nodes[i];
      var calls := g.calls[f];
      for j := 0 to |calls|
        invariant Extends(old(ratio), ratio)
        invariant forall c: Id :: c in calls[..j] && c != f ==> (f, c) in ratio && ratio[(f, c)] == CallRatio(P(), f, c)
        invariant forall k :: k in ratio && k !in old(ratio) ==> k.0 == f && k.1 in calls[..j] && k.1 != f
      {
        var c := calls[j];
        assert calls[..j + 1] == calls[..j] + [c];
        assert (f, c) !in ratio; // the source asserts that the ratio is still unset
        if c != f {
          var r := 0.0;
          if (f, c) in counts {
            var whole := totals[c];
            if c in cycleOf && !(f in cycleOf && cycleOf[f] == cycleOf[c]) {
              whole := cycleTotals[cycleOf[c]];
            }
            r := Ratio(counts[(f, c)], whole);
          }
          ratio := ratio[(f, c) := r];
        }
      }
    }

    method CallRatios()
      requires Valid(g) && Listed() && ratio == map[]
      modifies this`ratio
      ensures RatiosOf(P(), ratio)
      ensures forall k :: k in ratio ==> Calls(g, k.0, k.1)
    {
      hide CallRatio, Calls, RatiosFrom, FunctionTotals, CycleTotals;
      var totals := map f | f in g.nodes :: 0.0;
      var cycleTotals := map k | k in cycles :: 0.0;
      NothingAdded(P(), cycles, totals, cycleTotals);
      for i := 0 to |g.nodes|
        invariant ratio == map[]
        invariant FunctionTotals(P(), totals, i) && CycleTotals(P(), cycles, cycleTotals, i)
      {
        totals, cycleTotals := AddCalls(i, totals, cycleTotals);
      }
      for i := 0 to |g.nodes|
        invariant forall k :: 0 <= k < i ==> RatiosFrom(P(), ratio, g.nodes[k])
        invariant forall k :: k in ratio ==> k.0 in g.nodes[..i] && Calls(g, k.0, k.1)
      {
        ghost var before := ratio;
        SetRatios(i, totals, cycleTotals);
        forall k | 0 <= k < i ensures RatiosFrom(P(), ratio, g.nodes[k]) { RatiosKept(P(), before, ratio, g.nodes[k]); }
      }
      AllRatios(P(), ratio);
    }

    /** What `integrate` asserts at its start, for a graph without mutual recursion. */
    ghost predicate Ready() reads this`ratio {
      && Valid(g) && Acyclic(g)
      && (forall f :: f in g.nodes ==> f in self)
      && (forall f: Id, c: Id :: Calls(g, f, c) ==> (f, c) in ratio)
    }

    /** Functions with a total are settled; a call carries a charge only if its caller has a total or is in `open`. */
    ghost predicate Integrating(open: set<Id>) reads this {
      InProgress(g, self, ratio, total, charged, open)
    }

    /** `open` holds the functions whose calls are being integrated by the callers of this call. */
    method IntegrateFunction(f: Id, ghost open: set<Id>) returns (t: real)
      requires Ready() && Integrating(open) && f in g.nodes
      requires forall o :: o in open ==> !Reach(g, f, o)
      modifies this`total, this`charged
      decreases Reached(g, f), 2
      ensures Integrating(open) && f in total && t == total[f]
      ensures Grew(g, f, old(total), total, old(charged), charged)
    {
      hide Settled, Acyclic, Valid, Reached, InProgress, Grew, CallsSettled, Charges, Ready;
      NothingGrew(g, f, total, charged);
      if f !in total {
        ghost var total0, charged0 := total, charged;
        t := IntegrateCalls(f, open);
        FinishFunction(g, self, ratio, total, charged, f, t, open);
        GrewSelf(g, f, total0, total, charged0, charged, t);
        total := total[f := t];
      }
      t := total[f];
    }

    lemma BeginFunction(f: Id, open: set<Id>)
      requires Ready() && Integrating(open) && f in g.nodes && f !in total
      requires forall o :: o in open ==> !Reach(g, f, o)
      ensures f in g.calls && f in self && Integrating(open + {f})
      ensures CallsSettled(g, ratio, total, charged, f, 0) && Grew(g, f, total, total, charged, charged)
      ensures forall k: nat :: k < |g.calls[f]| ==> (f, g.calls[f][k]) !in charged
    {
      hide Settled, Acyclic, Reached, Charge, Reach;
      ReachSelf(g, f);
    }

    /** The loop of `_integrate_function` over the calls of `f`. */
    method IntegrateCalls(f: Id, ghost open: set<Id>) returns (t: real)
      requires Ready() && Integrating(open) && f in g.nodes && f !in total
      requires forall o :: o in open ==> !Reach(g, f, o)
      modifies this`total, this`charged
      decreases Reached(g, f), 1
      ensures Integrating(open + {f}) && f !in total
      ensures Grew(g, f, old(total), total, old(charged), charged)
      ensures f in g.calls && f in self && CallsSettled(g, ratio, total, charged, f, |g.calls[f]|)
      ensures t == self[f] + Sum(Charges(g, ratio, total, f), |g.calls[f]|)
    {
      hide Settled, Acyclic, Reached, Charge, Charges, CallsSettled, Grew, InProgress, Ready, Valid, Reach;
      BeginFunction(f, open);
      t := self[f];
      var calls := g.calls[f];
      for j := 0 to |calls|
        invariant Ready() && Integrating(open + {f}) && f !in total
        invariant Grew(g, f, old(total), total, old(charged), charged)
        invariant CallsSettled(g, ratio, total, charged, f, j)
        invariant forall k: nat :: j <= k < |calls| ==> (f, calls[k]) !in charged
        invariant t == self[f] + Sum(Charges(g, ratio, total, f), j)
      {
        ghost var total1, charged1 := total, charged;
        if calls[j] != f {
          var x := IntegrateCall(f, j, open);
          t := t + x;
          GrewTrans(g, f, old(total), total1, total, old(charged), charged1, charged);
        } else {
          SelfCall(g, ratio, total, charged, f, j);
        }
        ChargeAt(g, ratio, total, f, j);
      }
    }

    /** `_integrate_call` on call number `j` of `f`. */
    method IntegrateCall(f: Id, j: nat, ghost open: set<Id>) returns (x: real)
      requires Ready() && Integrating(open + {f}) && f in g.nodes && f in g.calls && f !in total
      requires j < |g.calls[f]| && g.calls[f][j] != f
      requires forall o :: o in open ==> !Reach(g, f, o)
      requires CallsSettled(g, ratio, total, charged, f, j)
      requires forall k: nat :: j <= k < |g.calls[f]| ==> (f, g.calls[f][k]) !in charged
      modifies this`total, this`charged
      decreases Reached(g, f), 0
      ensures Integrating(open + {f}) && f !in total
      ensures Grew(g, f, old(total), total, old(charged), charged)
      ensures CallsSettled(g, ratio, total, charged, f, j + 1)
      ensures forall k: nat :: j < k < |g.calls[f]| ==> (f, g.calls[f][k]) !in charged
      ensures x == Charge(g, ratio, total, f, g.calls[f][j])
      ensures Sum(Charges(g, ratio, old(total), f), j) == Sum(Charges(g, ratio, total, f), j)
    {
      hide Settled, Reached, CallsSettled, Charges, Grew, InProgress, Acyclic, Valid, Reach;
      var c := g.calls[f][j];
      assert (f, c) !in charged; // the source asserts that the call is not charged yet
      ReachesLess(g, f, c);
      Ancestors(g, f, c, open);
      OtherCalls(g, f, j);
      var y := IntegrateFunction(c, open + {f});
      x := ratio[(f, c)] * y;
      GrewCallee(g, f, c, old(total), total, old(charged), charged, x);
      Recharged(g, self, ratio, total, charged, f, c, x, open + {f});
      charged := charged[(f, c) := x];
      NextSettled(g, ratio, old(total), total, old(charged), charged, f, j);
    }

    /** Without cycles, what `integrate` asserts is all its recursion needs. */
    lemma Prepared()
      requires Valid(g)
      requires forall f :: f in g.nodes ==> f in self && f !in cycleOf && Component(g, f) == {f}
      requires forall f: Id, c: Id :: Calls(g, f, c) ==> (f, c) in ratio
      ensures Ready() && NoCycle(P())
      ensures total == map[] && charged == map[] ==> Integrating({})
    {
      AcyclicMeansNoCycles(g);
      hide Component, Acyclic, Calls;
    }

    /** `integrate`: gives every function its total and returns the sum of all own times. */
    method Integrate() returns (t: real)
      requires Valid(g) && total == map[] && charged == map[]
      requires forall f :: f in g.nodes ==> f in self && f !in cycleOf && Component(g, f) == {f}
      requires forall f: Id, c: Id :: Calls(g, f, c) ==> (f, c) in ratio
      modifies this`total, this`charged
      ensures total.Keys == (set f | f in g.nodes)
      ensures forall f :: f in g.nodes ==> Settled(g, self, ratio, total, charged, f)
      ensures t == Sum(OwnTime(self, g.nodes), |g.nodes|)
      ensures PositiveCounts(P()) && RatiosOf(P(), ratio) ==> t == Sum(RootTime(g, total), |g.nodes|)
    {
      hide PositiveCounts, RatiosOf, Settled, RootTime, Acyclic, Valid, Component, NoCycle, Calls, Grew, Integrating, Ready;
      Prepared();
      t := 0.0;
      for i := 0 to |g.nodes|
        invariant Integrating({}) && forall k :: 0 <= k < i ==> g.nodes[k] in total
        invariant t == Sum(OwnTime(self, g.nodes), i)
      {
        ghost var total0, charged0 := total, charged;
        t := t + self[g.nodes[i]];
        var _ := IntegrateFunction(g.nodes[i], {});
        GrewKeys(g, g.nodes[i], total0, total, charged0, charged);
      }
      Finished();
      AllSettled(P(), self, ratio, total, charged);
    }

    lemma Finished()
      requires Integrating({}) && forall k :: 0 <= k < |g.nodes| ==> g.nodes[k] in total
      ensures total.Keys == (set f | f in g.nodes)
      ensures forall f :: f in g.nodes ==> Settled(g, self, ratio, total, charged, f)
    {
      hide Settled;
    }
  }

  lemma GrewKeys(g: Graph, f: Id, total: map<Id, real>, total': map<Id, real>, charged: map<Call, real>, charged': map<Call, real>)
    requires Grew(g, f, total, total', charged, charged')
    ensures total.Keys <= total'.Keys
  {
    hide Reach;
  }

  /** Nothing changed, and what is new is reached by `f`. */
  ghost predicate Grew(g: Graph, f: Id, total: map<Id, real>, total': map<Id, real>, charged: map<Call, real>, charged': map<Call, real>) {
    && Extends(total, total') && Extends(charged, charged')
    && (forall h :: h in total' ==> h in total || Reach(g, f, h))
    && (forall k :: k in charged' ==> k in charged || Reach(g, f, k.0))
  }

  lemma GrewTrans(g: Graph, f: Id, total: map<Id, real>, total': map<Id, real>, total'': map<Id, real>,
                  charged: map<Call, real>, charged': map<Call, real>, charged'': map<Call, real>)
    requires Grew(g, f, total, total', charged, charged') && Grew(g, f, total', total'', charged', charged'')
    ensures Grew(g, f, total, total'', charged, charged'')
  {
    hide Reach;
  }

  /** Integrating the callee `c` and charging `f` for it. */
  lemma GrewCallee(g: Graph, f: Id, c: Id, total: map<Id, real>, total': map<Id, real>, charged: map<Call, real>, charged': map<Call, real>, x: real)
    requires Grew(g, c, total, total', charged, charged') && Calls(g, f, c) && !Reach(g, c, f) && (f, c) !in charged
    ensures f in total' ==> f in total
    ensures forall y: Id :: (f, y) in charged' ==> (f, y) in charged
    ensures Extends(total, total') && Extends(charged', charged'[(f, c) := x]) && Extends(charged, charged'[(f, c) := x])
    ensures Grew(g, f, total, total', charged, charged'[(f, c) := x])
  {
    ReachSelf(g, f);
    ReachEdge(g, f, c);
    forall h | Reach(g, c, h) ensures Reach(g, f, h) { ReachTrans(g, f, c, h); }
    hide Reach;
    forall y: Id | (f, y) in charged' ensures (f, y) in charged { assert (f, y).0 == f; }
  }

  /** A callee reaches neither its caller nor the open functions above it. */
  lemma Ancestors(g: Graph, f: Id, c: Id, open: set<Id>)
    requires !Reach(g, c, f) && Calls(g, f, c)
    requires forall o :: o in open ==> !Reach(g, f, o)
    ensures forall o :: o in open + {f} ==> !Reach(g, c, o)
  {
    ReachEdge(g, f, c);
    forall o | o in open ensures !Reach(g, c, o) {
      if Reach(g, c, o) { ReachTrans(g, f, c, o); }
    }
  }

  /** Functions with a total are settled; a call carries a charge only if its caller has a total or is in `open`. */
  ghost predicate InProgress(g: Graph, self: map<Id, real>, ratio: map<Call, real>, total: map<Id, real>, charged: map<Call, real>, open: set<Id>) {
    && (forall f :: f in total ==> f in g.nodes && Settled(g, self, ratio, total, charged, f))
    && (forall k :: k in charged ==> k.0 in total || k.0 in open)
  }

  lemma Recharged(g: Graph, self: map<Id, real>, ratio: map<Call, real>, total: map<Id, real>, charged: map<Call, real>,
                  f: Id, c: Id, x: real, open: set<Id>)
    requires InProgress(g, self, ratio, total, charged, open) && (f, c) !in charged && f in open
    ensures InProgress(g, self, ratio, total, charged[(f, c) := x], open)
  {
    hide Settled;
    forall h | h in total ensures Settled(g, self, ratio, total, charged[(f, c) := x], h) {
      SettledKept(g, self, ratio, total, charged, total, charged[(f, c) := x], h);
    }
  }

  /** Giving `f` its total closes it. */
  lemma FinishFunction(g: Graph, self: map<Id, real>, ratio: map<Call, real>, total: map<Id, real>, charged: map<Call, real>,
                       f: Id, t: real, open: set<Id>)
    requires InProgress(g, self, ratio, total, charged, open + {f}) && f in g.nodes && f in g.calls && f !in total && f in self
    requires CallsSettled(g, ratio, total, charged, f, |g.calls[f]|)
    requires t == self[f] + Sum(Charges(g, ratio, total, f), |g.calls[f]|)
    ensures InProgress(g, self, ratio, total[f := t], charged, open)
  {
    hide Settled, CallsSettled, Charges;
    SettleNow(g, self, ratio, total, charged, f, t);
    forall h | h in total ensures Settled(g, self, ratio, total[f := t], charged, h) {
      SettledKept(g, self, ratio, total, charged, total[f := t], charged, h);
    }
  }

  lemma NothingGrew(g: Graph, f: Id, total: map<Id, real>, charged: map<Call, real>)
    ensures Grew(g, f, total, total, charged, charged)
  {
  }

  lemma GrewSelf(g: Graph, f: Id, total: map<Id, real>, total': map<Id, real>, charged: map<Call, real>, charged': map<Call, real>, t: real)
    requires Grew(g, f, total, total', charged, charged') && f !in total'
    ensures Grew(g, f, total, total'[f := t], charged, charged')
  {
    ReachSelf(g, f);
    hide Reach;
  }

  /** The callees of a function are distinct. */
  lemma OtherCalls(g: Graph, f: Id, j: nat)
    requires Valid(g) && f in g.nodes && j < |g.calls[f]|
    ensures forall k: nat :: j < k < |g.calls[f]| ==> g.calls[f][k] != g.calls[f][j]
  {
  }

  lemma AllSettled(p: Input, self: map<Id, real>, ratio: map<Call, real>, total: map<Id, real>, charged: map<Call, real>)
    requires Valid(p.g) && NoCycle(p) && forall f :: f in p.g.nodes ==> Settled(p.g, self, ratio, total, charged, f)
    ensures PositiveCounts(p) && RatiosOf(p, ratio) ==>
              Sum(RootTime(p.g, total), |p.g.nodes|) == Sum(OwnTime(self, p.g.nodes), |p.g.nodes|)
  {
    hide PositiveCounts, RatiosOf, RootTime, OwnTime, Balanced, NoCycle;
    if PositiveCounts(p) && RatiosOf(p, ratio) {
      RootsCarryEverything(p, self, ratio, total);
    }
  }

  /** The first `n` calls of `f` carry their charges. */
  ghost predicate CallsSettled(g: Graph, ratio: map<Call, real>, total: map<Id, real>, charged: map<Call, real>, f: Id, n: nat)
    requires f in g.calls && n <= |g.calls[f]|
  {
    forall k :: 0 <= k < n ==> Calls(g, f, g.calls[f][k]) ==>
      var c := g.calls[f][k];
      c in total && (f, c) in charged && charged[(f, c)] == Charge(g, ratio, total, f, c)
  }

  lemma ChargeKept(g: Graph, ratio: map<Call, real>, total: map<Id, real>, total': map<Id, real>, f: Id, c: Id)
    requires Extends(total, total') && c in total
    ensures Charge(g, ratio, total, f, c) == Charge(g, ratio, total', f, c)
  {
  }

  /** One more call of `f` is settled, and the earlier charges stand. */
  lemma NextSettled(g: Graph, ratio: map<Call, real>, total: map<Id, real>, total': map<Id, real>,
                    charged: map<Call, real>, charged': map<Call, real>, f: Id, j: nat)
    requires f in g.calls && j < |g.calls[f]| && CallsSettled(g, ratio, total, charged, f, j)
    requires Extends(total, total') && Extends(charged, charged')
    requires var c := g.calls[f][j]; c in total' && (f, c) in charged' && charged'[(f, c)] == Charge(g, ratio, total', f, c)
    ensures CallsSettled(g, ratio, total', charged', f, j + 1)
    ensures Sum(Charges(g, ratio, total, f), j) == Sum(Charges(g, ratio, total', f), j)
  {
    hide Charge, Charges, Sum, Calls;
    ChargesKept(g, ratio, total, total', f, j);
    forall k | 0 <= k < j && Calls(g, f, g.calls[f][k])
      ensures charged[(f, g.calls[f][k])] == Charge(g, ratio, total', f, g.calls[f][k])
    {
      ChargeKept(g, ratio, total, total', f, g.calls[f][k]);
    }
  }

  lemma ChargeAt(g: Graph, ratio: map<Call, real>, total: map<Id, real>, f: Id, j: nat)
    requires f in g.calls && j < |g.calls[f]|
    ensures Sum(Charges(g, ratio, total, f), j + 1) == Sum(Charges(g, ratio, total, f), j) + Charge(g, ratio, total, f, g.calls[f][j])
  {
  }

  lemma SelfCall(g: Graph, ratio: map<Call, real>, total: map<Id, real>, charged: map<Call, real>, f: Id, j: nat)
    requires f in g.calls && j < |g.calls[f]| && g.calls[f][j] == f && CallsSettled(g, ratio, total, charged, f, j)
    ensures CallsSettled(g, ratio, total, charged, f, j + 1)
    ensures Charge(g, ratio, total, f, f) == 0.0
  {
  }

  lemma SettleNow(g: Graph, self: map<Id, real>, ratio: map<Call, real>, total: map<Id, real>, charged: map<Call, real>, f: Id, t: real)
    requires f in g.calls && f !in total && f in self && CallsSettled(g, ratio, total, charged, f, |g.calls[f]|)
    requires t == self[f] + Sum(Charges(g, ratio, total, f), |g.calls[f]|)
    ensures Settled(g, self, ratio, total[f := t], charged, f)
  {
    var total' := total[f := t];
    ChargesKept(g, ratio, total, total', f, |g.calls[f]|);
    forall c: Id | Calls(g, f, c) ensures c in total' && (f, c) in charged && charged[(f, c)] == Charge(g, ratio, total', f, c) {
      var k :| 0 <= k < |g.calls[f]| && g.calls[f][k] == c;
    }
  }

  ghost predicate RatiosFrom(p: Input, ratio: map<Call, real>, f: Id) {
    forall c: Id :: Calls(p.g, f, c) ==> (f, c) in ratio && ratio[(f, c)] == CallRatio(p, f, c)
  }

  lemma RatiosKept(p: Input, ratio: map<Call, real>, ratio': map<Call, real>, f: Id)
    requires RatiosFrom(p, ratio, f) && Extends(ratio, ratio')
    ensures RatiosFrom(p, ratio', f)
  {
    hide CallRatio, Calls;
  }

  lemma NothingAdded(p: Input, cycles: seq<nat>, totals: map<Id, real>, cycleTotals: map<nat, real>)
    requires forall c :: c in p.g.nodes ==> c in totals && totals[c] == 0.0
    requires forall k :: k in cycles ==> k in cycleTotals && cycleTotals[k] == 0.0
    ensures FunctionTotals(p, totals, 0) && CycleTotals(p, cycles, cycleTotals, 0)
  {
  }

  lemma AllRatios(p: Input, ratio: map<Call, real>)
    requires Valid(p.g) && forall k :: 0 <= k < |p.g.nodes| ==> RatiosFrom(p, ratio, p.g.nodes[k])
    ensures RatiosOf(p, ratio)
  {
    hide CallRatio;
    forall f: Id, c: Id | Calls(p.g, f, c) ensures (f, c) in ratio && ratio[(f, c)] == CallRatio(p, f, c) {
      assert f in p.g.nodes;
    }
  }
}
