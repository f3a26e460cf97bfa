/**
 `Profile.find_cycles` and `Profile._tarjan` (tools/gprof2dot.py): Tarjan's
 strongly connected components, run once per unvisited root with fresh order
 tables, so that a later root explores earlier components again.
 */
module FindCycles {
  import opened Basics
  import opened CallGraph

  // ---------------------------------------------------------------------------
  // What the tables of one search mean

  /**
   `orders` numbers the functions met so far, `open` is the content of the stack
   (functions whose component is not finished) and `grey` holds the functions
   whose calls are still being followed.
   */
  datatype Tables = Tables(orders: map<Id, nat>, open: set<Id>, grey: set<Id>)

  ghost predicate Sane(g: Graph, t: Tables) {
    && (forall x :: x in t.orders ==> x in g.nodes)
    && t.grey <= t.open <= t.orders.Keys
  }

  /** Functions whose calls have all been followed only call numbered functions. */
  ghost predicate Followed(g: Graph, t: Tables) {
    forall x, y :: x in t.orders && x !in t.grey && Edge(g, x, y) ==> y in t.orders
  }

  /** Finished components only call finished components. */
  ghost predicate Finished(g: Graph, t: Tables) {
    Closed(g, t.orders.Keys - t.open)
  }

  /** A grey function reaches every open function numbered after it. */
  ghost predicate Down(g: Graph, t: Tables)
    requires Sane(g, t)
  {
    forall x, y :: x in t.grey && y in t.open && t.orders[x] <= t.orders[y] ==> Reach(g, x, y)
  }

  /** `y` reaches a grey function that was numbered no later than itself. */
  ghost predicate Returns(g: Graph, t: Tables, y: Id)
    requires Sane(g, t) && y in t.open
  {
    exists x :: x in t.grey && t.orders[x] <= t.orders[y] && Reach(g, y, x)
  }

  ghost predicate Up(g: Graph, t: Tables)
    requires Sane(g, t)
  {
    forall y {:trigger Returns(g, t, y)} :: y in t.open ==> Returns(g, t, y)
  }

  ghost predicate Search(g: Graph, t: Tables) {
    && Sane(g, t)
    && Followed(g, t)
    && Finished(g, t)
    && Down(g, t)
    && Up(g, t)
  }

  // ---------------------------------------------------------------------------
  // Entering a function

  ghost function Entered(t: Tables, f: Id, order: nat): Tables {
    Tables(t.orders[f := order], t.open + {f}, t.grey + {f})
  }

  lemma Enter(g: Graph, t: Tables, f: Id, order: nat)
    requires Search(g, t)
    requires f in g.nodes && f !in t.orders
    requires forall x :: x in t.orders ==> t.orders[x] < order
    requires forall x :: x in t.grey ==> Reach(g, x, f)
    ensures Search(g, Entered(t, f, order))
  {
    var t' := Entered(t, f, order);
    assert Sane(g, t');
    assert Followed(g, t');
    assert t'.orders.Keys - t'.open == t.orders.Keys - t.open;
    assert Finished(g, t');
    ReachSelf(g, f);
    assert Down(g, t');
    forall y | y in t'.open ensures Returns(g, t', y) {
      if y == f {
        assert f in t'.grey && t'.orders[f] <= t'.orders[f];
      } else {
        assert Returns(g, t, y);
        var x :| x in t.grey && t.orders[x] <= t.orders[y] && Reach(g, y, x);
        assert x in t'.grey && t'.orders[x] <= t'.orders[y];
      }
    }
  }

  // ---------------------------------------------------------------------------
  // Leaving a function whose calls have all been followed

  /** The functions stacked since `f` was entered. */
  ghost function Members(t: Tables, f: Id): set<Id>
    requires t.open <= t.orders.Keys && f in t.orders
  {
    set y | y in t.open && t.orders[f] <= t.orders[y]
  }

  /** `low` bounds the order of every open function before `f` that is called from its members. */
  ghost predicate LowBound(g: Graph, t: Tables, f: Id, low: nat)
    requires t.open <= t.orders.Keys && f in t.orders
  {
    forall u, v :: u in Members(t, f) && Edge(g, u, v) && v in t.open - Members(t, f) ==> low <= t.orders[v]
  }

  /** `low` is the order of some open function that `f` reaches. */
  ghost predicate LowReached(g: Graph, t: Tables, f: Id, low: nat) {
    exists v :: v in t.open && v in t.orders && t.orders[v] == low && Reach(g, f, v)
  }

  /** `f` is the latest grey function, all its calls are followed, and `low` is its low link. */
  ghost predicate Leaving(g: Graph, t: Tables, f: Id, low: nat) {
    && Search(g, t)
    && f in t.grey
    && (forall x :: x in t.grey && x != f ==> t.orders[x] < t.orders[f])
    && (forall c :: Edge(g, f, c) ==> c in t.orders)
    && low <= t.orders[f]
    && LowBound(g, t, f, low)
    && LowReached(g, t, f, low)
  }

  ghost function Kept(t: Tables, f: Id): Tables { t.(grey := t.grey - {f}) }

  ghost function Popped(t: Tables, f: Id): Tables
    requires t.open <= t.orders.Keys && f in t.orders
  {
    t.(open := t.open - Members(t, f), grey := t.grey - {f})
  }

  /** When the low link is smaller, `f` stays open and an earlier grey function stands in for it. */
  lemma Keep(g: Graph, t: Tables, f: Id, low: nat)
    requires Leaving(g, t, f, low) && low < t.orders[f]
    ensures Search(g, Kept(t, f))
  {
    var t' := Kept(t, f);
    assert Sane(g, t');
    assert Followed(g, t');
    assert Finished(g, t');
    assert Down(g, t');
    var v :| v in t.open && t.orders[v] == low && Reach(g, f, v);
    assert Returns(g, t, v);
    var x :| x in t.grey && t.orders[x] <= t.orders[v] && Reach(g, v, x);
    ReachTrans(g, f, v, x);
    forall y | y in t'.open ensures Returns(g, t', y) {
      assert Returns(g, t, y);
      var z :| z in t.grey && t.orders[z] <= t.orders[y] && Reach(g, y, z);
      if z == f {
        ReachTrans(g, y, f, x);
        assert x in t'.grey;
      } else {
        assert z in t'.grey;
      }
    }
  }

  /** When the low link equals the order, no call leads from the members back below them. */
  lemma MembersClosed(g: Graph, t: Tables, f: Id, low: nat)
    requires Leaving(g, t, f, low) && low == t.orders[f]
    ensures Closed(g, Members(t, f) + (t.orders.Keys - t.open))
  {
    var inside := Members(t, f) + (t.orders.Keys - t.open);
    forall u, v | u in inside && Edge(g, u, v) ensures v in inside {
      if u in Members(t, f) {
        assert v in t.orders;
      }
    }
  }

  /** When the low link equals the order, the members are exactly the component of `f`. */
  lemma MembersAreComponent(g: Graph, t: Tables, f: Id, low: nat)
    requires Leaving(g, t, f, low) && low == t.orders[f]
    ensures Members(t, f) == Component(g, f)
  {
    var finished := t.orders.Keys - t.open;
    var inside := Members(t, f) + finished;
    MembersClosed(g, t, f, low);
    forall y | y in Members(t, f) ensures y in Component(g, f) {
      assert Returns(g, t, y);
      var x :| x in t.grey && t.orders[x] <= t.orders[y] && Reach(g, y, x);
      ClosedReach(g, inside, y, x);
      assert x == f;
    }
    forall y | y in Component(g, f) ensures y in Members(t, f) {
      ClosedReach(g, inside, f, y);
      if y in finished {
        ClosedReach(g, finished, y, f);
      }
    }
  }

  /** Popping the component leaves a sound search. */
  lemma Pop(g: Graph, t: Tables, f: Id, low: nat)
    requires Leaving(g, t, f, low) && low == t.orders[f]
    ensures Search(g, Popped(t, f))
  {
    var t' := Popped(t, f);
    MembersClosed(g, t, f, low);
    assert t'.orders.Keys - t'.open == Members(t, f) + (t.orders.Keys - t.open);
    forall y | y in t'.open ensures Returns(g, t', y) {
      assert Returns(g, t, y);
      var x :| x in t.grey && t.orders[x] <= t.orders[y] && Reach(g, y, x);
      assert x in t'.grey;
    }
  }

  // ---------------------------------------------------------------------------
  // Following the calls of a function

  /** `t'` continues the search `t`; everything new is numbered from `order` on. */
  ghost predicate Grown(t: Tables, t': Tables, order: nat) {
    && t'.grey == t.grey
    && t.open <= t'.open
    && t.orders.Keys <= t'.orders.Keys
    && (forall x :: x in t.orders ==> t'.orders[x] == t.orders[x])
    && (forall x :: x in t'.orders && x !in t.orders ==> order <= t'.orders[x])
    && (t'.open - t.open) * t.orders.Keys == {}
  }

  /** What a finished call on `f` promises its caller about the low link `low`. */
  ghost predicate CallResult(g: Graph, t: Tables, t': Tables, f: Id, low: nat) {
    && f in t'.orders && f !in t.orders
    && low <= t'.orders[f]
    && (f in t'.open ==> LowReached(g, t', f, low))
    && (f !in t'.open ==> low == t'.orders[f])
    && (forall u, v :: u in t'.open - t.open && Edge(g, u, v) && v in t.open && v in t'.orders ==> low <= t'.orders[v])
  }

  /** Inside `f`, entered from `t0` under number `order`, with the calls in `done` followed. */
  ghost predicate Following(g: Graph, t0: Tables, t: Tables, f: Id, order: nat, low: nat, done: set<Id>) {
    && f !in t0.orders && f in t.orders && f in t.open
    && t.grey == t0.grey + {f}
    && Search(g, t)
    && Grown(Entered(t0, f, order), t, order + 1)
    && low <= order
    && done <= t.orders.Keys
    && LowReached(g, t, f, low)
    && FollowBound(g, t0, t, f, low, done)
  }

  ghost predicate FollowBound(g: Graph, t0: Tables, t: Tables, f: Id, low: nat, done: set<Id>)
    requires t.open <= t.orders.Keys
  {
    forall u, v :: u in t.open - t0.open && Edge(g, u, v) && v in t0.open && v in t.orders && (u == f ==> v in done) ==>
      low <= t.orders[v]
  }

  function Min(a: nat, b: nat): nat { if b < a then b else a }

  /** A recursive call on `c` keeps the loop going. */
  lemma AfterCall(g: Graph, t0: Tables, t: Tables, t': Tables, f: Id, order: nat, next: nat, low: nat, done: set<Id>, c: Id, lowC: nat)
    requires Search(g, t0)
    requires Following(g, t0, t, f, order, low, done)
    requires Edge(g, f, c) && order < next
    requires Search(g, t') && Grown(t, t', next) && CallResult(g, t, t', c, lowC)
    ensures Following(g, t0, t', f, order, Min(low, lowC), done + {c})
  {
    assert Grown(Entered(t0, f, order), t', order + 1);
    if lowC < low {
      assert c in t'.open;
      var v :| v in t'.open && t'.orders[v] == lowC && Reach(g, c, v);
      ReachEdge(g, f, c);
      ReachTrans(g, f, c, v);
    } else {
      var v :| v in t.open && t.orders[v] == low && Reach(g, f, v);
      assert v in t'.open && t'.orders[v] == low;
    }
    assert LowReached(g, t', f, Min(low, lowC));
    forall u, v | u in t'.open - t0.open && Edge(g, u, v) && v in t0.open && v in t'.orders && (u == f ==> v in done + {c})
      ensures Min(low, lowC) <= t'.orders[v]
    {
      assert v in t.open;
      if u in t.open {
        assert low <= t.orders[v];
      }
    }
  }

  /** So does a call to a function already numbered. */
  lemma AfterSeen(g: Graph, t0: Tables, t: Tables, f: Id, order: nat, low: nat, done: set<Id>, c: Id)
    requires Search(g, t0)
    requires Following(g, t0, t, f, order, low, done)
    requires Edge(g, f, c) && c in t.orders
    ensures Following(g, t0, t, f, order, if c in t.open then Min(low, t.orders[c]) else low, done + {c})
  {
    var low' := if c in t.open then Min(low, t.orders[c]) else low;
    if low' < low {
      ReachEdge(g, f, c);
    }
    assert LowReached(g, t, f, low');
    forall u, v | u in t.open - t0.open && Edge(g, u, v) && v in t0.open && v in t.orders && (u == f ==> v in done + {c})
      ensures low' <= t.orders[v]
    {
    }
  }

  /** When all calls are followed, the function is ready to be left. */
  lemma AllFollowed(g: Graph, t0: Tables, t: Tables, f: Id, order: nat, low: nat, done: set<Id>)
    requires Search(g, t0) && (forall x :: x in t0.orders ==> t0.orders[x] < order)
    requires Following(g, t0, t, f, order, low, done)
    requires forall c :: Edge(g, f, c) ==> c in done
    ensures t.orders[f] == order && Leaving(g, t, f, low)
    ensures t.open - t0.open == Members(t, f)
  {
  }

  /** With the component popped, the caller's tables have grown by closed functions only. */
  lemma LeftPopped(g: Graph, t0: Tables, t: Tables, f: Id, order: nat, low: nat, done: set<Id>)
    requires Search(g, t0) && Following(g, t0, t, f, order, low, done)
    requires t.orders[f] == order == low && t.open - t0.open == Members(t, f)
    ensures Grown(t0, Popped(t, f), order) && CallResult(g, t0, Popped(t, f), f, low)
  {
    hide Reach, LowReached, FollowBound;
    var t' := Popped(t, f);
    assert t0.open <= t.open;
    assert t'.open == t0.open;
  }

  /** With `f` left open, its low link is what the caller needs. */
  lemma LeftKept(g: Graph, t0: Tables, t: Tables, f: Id, order: nat, low: nat, done: set<Id>)
    requires Search(g, t0) && Following(g, t0, t, f, order, low, done)
    requires t.orders[f] == order && forall c :: Edge(g, f, c) ==> c in done
    ensures Grown(t0, Kept(t, f), order) && CallResult(g, t0, Kept(t, f), f, low)
  {
    hide Reach;
    var t' := Kept(t, f);
    var v :| v in t.open && v in t.orders && t.orders[v] == low && Reach(g, f, v);
    assert v in t'.open && t'.orders[v] == low;
    assert LowReached(g, t', f, low);
    hide LowReached, Search;
  }

  /** Leaving `f` by either way gives the caller what it was promised. */
  lemma Left(g: Graph, t0: Tables, t: Tables, f: Id, order: nat, low: nat, done: set<Id>)
    requires Search(g, t0) && (forall x :: x in t0.orders ==> t0.orders[x] < order)
    requires Following(g, t0, t, f, order, low, done)
    requires forall c :: Edge(g, f, c) ==> c in done
    ensures t.orders[f] == order && Leaving(g, t, f, low) && f !in t0.grey
    ensures var t' := if low == order then Popped(t, f) else Kept(t, f);
            Search(g, t') && Grown(t0, t', order) && CallResult(g, t0, t', f, low)
  {
    AllFollowed(g, t0, t, f, order, low, done);
    LowAtMost(g, t0, t, f, order, low, done);
    hide Search, Leaving, Following, Grown, CallResult;
    if low == order {
      Pop(g, t, f, low);
      LeftPopped(g, t0, t, f, order, low, done);
    } else {
      Keep(g, t, f, low);
      LeftKept(g, t0, t, f, order, low, done);
    }
  }

  lemma LowAtMost(g: Graph, t0: Tables, t: Tables, f: Id, order: nat, low: nat, done: set<Id>)
    requires Search(g, t0) && Following(g, t0, t, f, order, low, done)
    ensures low <= order && f in t.orders && t.open <= t.orders.Keys && f !in t0.grey
  {
    hide Reach, LowReached, FollowBound;
  }

  // ---------------------------------------------------------------------------
  // The cycles carried by the functions

  ghost function Components(g: Graph): (c: map<Id, set<Id>>)
    ensures c.Keys == (set x | x in g.nodes)
  {
    map x | x in g.nodes :: Component(g, x)
  }

  /** `comp` maps every element to its class in a partition. */
  ghost predicate Partition(comp: map<Id, set<Id>>) {
    && (forall x :: x in comp ==> x in comp[x] && comp[x] <= comp.Keys)
    && (forall x, y :: x in comp && y in comp[x] ==> y in comp && comp[y] == comp[x])
  }

  lemma ComponentsPartition(g: Graph)
    ensures Partition(Components(g))
  {
    var comp := Components(g);
    forall x | x in comp ensures x in comp[x] && comp[x] <= comp.Keys { ReachSelf(g, x); }
    forall x, y | x in comp && y in comp[x] ensures comp[y] == comp[x] { SameComponent(g, x, y); }
  }

  /**
   `cycleOf` gives the cycle object each function carries, if any, and
   `members[c]` the functions of cycle object `c`.  A carried cycle is a whole
   component of at least two functions, and all of them carry it.
   */
  ghost predicate Cycles(comp: map<Id, set<Id>>, cycleOf: map<Id, nat>, members: seq<set<Id>>) {
    && (forall x :: x in cycleOf ==> x in comp && cycleOf[x] < |members|)
    && (forall x :: x in cycleOf ==> members[cycleOf[x]] == comp[x] && |comp[x]| > 1)
    && (forall x, y :: x in cycleOf && y in comp[x] ==> y in cycleOf && cycleOf[y] == cycleOf[x])
  }

  lemma CyclesRefer(comp: map<Id, set<Id>>, cycleOf: map<Id, nat>, members: seq<set<Id>>)
    requires Cycles(comp, cycleOf, members)
    ensures forall x :: x in cycleOf ==> cycleOf[x] < |members|
  {
  }

  /** Every function of `s` that lies on a cycle carries one. */
  ghost predicate Covered(comp: map<Id, set<Id>>, cycleOf: map<Id, nat>, s: set<Id>) {
    forall x :: x in s && x in comp && |comp[x]| > 1 ==> x in cycleOf
  }

  ghost predicate Recycled(comp: map<Id, set<Id>>, cycleOf: map<Id, nat>, cycleOf': map<Id, nat>, f: Id, c: nat)
    requires f in comp
  {
    && (forall x :: x in comp[f] ==> x in cycleOf' && cycleOf'[x] == c)
    && (forall x :: x !in comp[f] ==> (x in cycleOf' <==> x in cycleOf))
    && (forall x :: x !in comp[f] && x in cycleOf ==> cycleOf'[x] == cycleOf[x])
  }

  lemma NewCyclePair(comp: map<Id, set<Id>>, cycleOf: map<Id, nat>, members: seq<set<Id>>, f: Id, cycleOf': map<Id, nat>, x: Id, y: Id)
    requires Partition(comp) && Cycles(comp, cycleOf, members)
    requires f in comp && Recycled(comp, cycleOf, cycleOf', f, |members|)
    requires x in cycleOf' && x in comp && y in comp[x]
    ensures y in cycleOf' && cycleOf'[y] == cycleOf'[x]
  {
    if x in comp[f] {
      assert comp[x] == comp[f];
    } else {
      assert comp[y] == comp[x];
      assert x in cycleOf;
      assert y in cycleOf && cycleOf[y] == cycleOf[x];
    }
  }

  lemma NewCycleOne(comp: map<Id, set<Id>>, cycleOf: map<Id, nat>, members: seq<set<Id>>, f: Id, cycleOf': map<Id, nat>, x: Id)
    requires Partition(comp) && Cycles(comp, cycleOf, members)
    requires f in comp && |comp[f]| > 1 && Recycled(comp, cycleOf, cycleOf', f, |members|) && x in cycleOf'
    ensures var members' := members + [comp[f]];
            x in comp && cycleOf'[x] < |members'| && members'[cycleOf'[x]] == comp[x] && |comp[x]| > 1
  {
    if x in comp[f] { assert comp[x] == comp[f]; } else { assert x in cycleOf; }
  }

  /** Giving a whole component a new cycle object keeps the cycles right. */
  lemma NewCycle(comp: map<Id, set<Id>>, cycleOf: map<Id, nat>, members: seq<set<Id>>, f: Id, cycleOf': map<Id, nat>)
    requires Partition(comp) && Cycles(comp, cycleOf, members)
    requires f in comp && |comp[f]| > 1
    requires Recycled(comp, cycleOf, cycleOf', f, |members|)
    ensures Cycles(comp, cycleOf', members + [comp[f]])
  {
    hide Partition, Cycles, Recycled;
    var members' := members + [comp[f]];
    forall x | x in cycleOf'
      ensures x in comp && cycleOf'[x] < |members'| && members'[cycleOf'[x]] == comp[x] && |comp[x]| > 1
    {
      NewCycleOne(comp, cycleOf, members, f, cycleOf', x);
    }
    forall x, y | x in cycleOf' && y in comp[x]
      ensures y in cycleOf' && cycleOf'[y] == cycleOf'[x]
    {
      NewCyclePair(comp, cycleOf, members, f, cycleOf', x, y);
    }
    MakeCycles(comp, cycleOf', members');
  }

  lemma MakeCycles(comp: map<Id, set<Id>>, cycleOf: map<Id, nat>, members: seq<set<Id>>)
    requires forall x :: x in cycleOf ==> x in comp && cycleOf[x] < |members| && members[cycleOf[x]] == comp[x] && |comp[x]| > 1
    requires forall x, y :: x in cycleOf && y in comp[x] ==> y in cycleOf && cycleOf[y] == cycleOf[x]
    ensures Cycles(comp, cycleOf, members)
  {
  }

  /**
   After the search, two distinct functions carry the same cycle exactly when
   each reaches the other.
   */
  lemma CycleMeansMutual(g: Graph, cycleOf: map<Id, nat>, members: seq<set<Id>>, x: Id, y: Id)
    requires Cycles(Components(g), cycleOf, members) && Covered(Components(g), cycleOf, set f | f in g.nodes)
    requires x in g.nodes && y in g.nodes && x != y
    ensures (x in cycleOf && y in cycleOf && cycleOf[x] == cycleOf[y]) <==> Mutual(g, x, y)
  {
    ComponentsPartition(g);
    var cx, cy := Components(g)[x], Components(g)[y];
    if Mutual(g, x, y) {
      TwoMembers(cx, x, y);
    }
  }

  /** A function carries no cycle exactly when it is alone in its component. */
  lemma LoneFunction(g: Graph, cycleOf: map<Id, nat>, members: seq<set<Id>>, x: Id)
    requires Cycles(Components(g), cycleOf, members) && Covered(Components(g), cycleOf, set f | f in g.nodes)
    requires x in g.nodes
    ensures x !in cycleOf <==> Component(g, x) == {x}
  {
    ComponentsPartition(g);
    var cx := Components(g)[x];
    if x !in cycleOf && cx != {x} {
      var z :| z in cx && z != x;
      TwoMembers(cx, x, z);
    }
  }

  lemma TwoMembers(s: set<Id>, x: Id, y: Id)
    requires x in s && y in s && x != y
    ensures |s| > 1
  {
    assert |s - {x}| == |s| - 1;
    assert y in s - {x};
  }

  // ---------------------------------------------------------------------------
  // The stack as a sequence

  ghost predicate Sorted(stack: seq<Id>, orders: map<Id, nat>) {
    && (forall i :: 0 <= i < |stack| ==> stack[i] in orders)
    && (forall i, j :: 0 <= i < j < |stack| ==> orders[stack[i]] < orders[stack[j]])
  }

  lemma Cut(stack: seq<Id>, orders: map<Id, nat>, grey: set<Id>, pos: nat)
    requires Sorted(stack, orders) && pos < |stack|
    ensures var t := Tables(orders, Elements(stack), grey);
            t.open <= orders.Keys
            && Members(t, stack[pos]) == Elements(stack[pos..])
            && t.open - Members(t, stack[pos]) == Elements(stack[..pos])
    ensures Distinct(stack[pos..]) && Sorted(stack[..pos], orders)
  {
    forall x | x in stack
      ensures x in stack[..pos] <==> orders[x] < orders[stack[pos]]
      ensures x in stack[pos..] <==> orders[stack[pos]] <= orders[x]
    {
      StackSplit(stack, orders, pos, x);
    }
  }

  /** The top of the stack is the component of the function at its bottom, and popping it is sound. */
  lemma TopOfStack(g: Graph, orders: map<Id, nat>, stack: seq<Id>, grey: set<Id>, pos: nat)
    requires Sorted(stack, orders) && pos < |stack|
    requires Leaving(g, Tables(orders, Elements(stack), grey), stack[pos], orders[stack[pos]])
    ensures var t := Tables(orders, Elements(stack), grey);
            var f := stack[pos];
            f in orders && t.open <= orders.Keys && Popped(t, f) == Tables(orders, Elements(stack[..pos]), grey - {f})
            && Search(g, Popped(t, f)) && f in g.nodes
    ensures Components(g)[stack[pos]] == Elements(stack[pos..])
    ensures Elements(stack) == Elements(stack[..pos]) + Elements(stack[pos..])
    ensures Distinct(stack[pos..]) && Sorted(stack[..pos], orders)
  {
    var t := Tables(orders, Elements(stack), grey);
    var f := stack[pos];
    Cut(stack, orders, grey, pos);
    MembersAreComponent(g, t, f, orders[f]);
    Pop(g, t, f, orders[f]);
  }

  /** Closing a component covers it. */
  lemma CoverComponent(comp: map<Id, set<Id>>, cycleOf: map<Id, nat>, cycleOf': map<Id, nat>, visited: set<Id>,
                       open: set<Id>, open': set<Id>, f: Id)
    requires Partition(comp) && f in comp && open == open' + comp[f]
    requires Covered(comp, cycleOf, visited - open)
    requires forall x :: x in cycleOf ==> x in cycleOf'
    requires |comp[f]| > 1 ==> forall x :: x in comp[f] ==> x in cycleOf'
    ensures Covered(comp, cycleOf', visited - open')
  {
  }

  lemma SortedPush(stack: seq<Id>, orders: map<Id, nat>, f: Id, order: nat)
    requires Sorted(stack, orders) && f !in orders && forall x :: x in orders ==> orders[x] < order
    ensures Sorted(stack + [f], orders[f := order])
  {
  }

  lemma ElementsPush(stack: seq<Id>, f: Id)
    ensures Elements(stack + [f]) == Elements(stack) + {f}
  {
  }

  lemma CoverPush(comp: map<Id, set<Id>>, cycleOf: map<Id, nat>, visited: set<Id>, open: set<Id>, f: Id)
    requires Covered(comp, cycleOf, visited - open)
    ensures Covered(comp, cycleOf, visited + {f} - (open + {f}))
  {
  }

  lemma CalleeDefined(g: Graph, f: Id, c: Id)
    requires Valid(g) && Edge(g, f, c)
    ensures c in g.nodes
  {
    assert f in g.nodes;
  }

  lemma GrownKeys(t: Tables, t': Tables, order: nat)
    requires Grown(t, t', order)
    ensures t.orders.Keys <= t'.orders.Keys
  {
  }

  lemma ElementsSnoc(s: seq<Id>, i: nat)
    requires i < |s|
    ensures Elements(s[..i + 1]) == Elements(s[..i]) + {s[i]}
  {
    assert s[..i + 1] == s[..i] + [s[i]];
  }

  lemma StackSplit(stack: seq<Id>, orders: map<Id, nat>, pos: nat, x: Id)
    requires Sorted(stack, orders) && pos < |stack| && x in stack
    ensures x in stack[..pos] <==> orders[x] < orders[stack[pos]]
    ensures x in stack[pos..] <==> orders[stack[pos]] <= orders[x]
  {
    var i :| 0 <= i < |stack| && stack[i] == x;
    if i < pos {
      assert x == stack[..pos][i];
    } else {
      assert x == stack[pos..][i - pos];
    }
  }

  // ---------------------------------------------------------------------------
  // The program

  class Profile {
    const g: Graph
    ghost const comp: map<Id, set<Id>>

    // The tables of the search from one root.
    var stack: seq<Id>
    var orders: map<Id, nat>
    var lowlinks: map<Id, nat>
    var visited: set<Id>

    // `cycleOf[f]` is the cycle object of function `f`, `members[c]` the functions of cycle object `c`.
    var cycleOf: map<Id, nat>
    var members: seq<set<Id>>
    var cycles: seq<nat>

    constructor (graph: Graph)
      requires Valid(graph)
      ensures g == graph && Consistent()
      ensures cycleOf == map[] && members == [] && cycles == []
    {
      g := graph;
      comp := Components(graph);
      stack, orders, lowlinks, visited := [], map[], map[], {};
      cycleOf, members, cycles := map[], [], [];
      ComponentsPartition(graph);
    }

    /** The graph is valid and the cycles carried so far are right. */
    ghost predicate Consistent() reads this`cycleOf, this`members {
      && Valid(g) && comp == Components(g) && Partition(comp)
      && Cycles(comp, cycleOf, members)
    }

    ghost function View(grey: set<Id>): Tables reads this`orders, this`stack {
      Tables(orders, Elements(stack), grey)
    }

    /** The search tables agree with each other, all numbers are below `next`, and finished functions are covered. */
    ghost predicate Searching(grey: set<Id>, next: nat) reads this {
      && Consistent()
      && Search(g, View(grey))
      && Sorted(stack, orders)
      && lowlinks.Keys == orders.Keys
      && (forall x :: x in orders ==> orders[x] < next)
      && orders.Keys <= visited
      && Covered(comp, cycleOf, visited - Elements(stack))
    }

    /** Functions refer to cycle objects that exist. */
    ghost predicate Refers() reads this { forall x :: x in cycleOf ==> cycleOf[x] < |members| }

    /**
     `Cycle.add_function` of cycle object `c`: its loop over the older cycle of `f`
     merges nothing, because it asks whether `f` is missing from the new one.
     */
    method AddFunction(c: nat, f: Id)
      requires Refers() && c < |members| && f !in members[c]
      modifies this`cycleOf, this`members
      ensures members == old(members)[c := old(members)[c] + {f}]
      ensures cycleOf == old(cycleOf)[f := c]
    {
      members := members[c := members[c] + {f}];
      if f in cycleOf {
        var others := members[cycleOf[f]];
        while others != {}
          invariant members == old(members)[c := old(members)[c] + {f}] && cycleOf == old(cycleOf)
        {
          var other :| other in others;
          if f !in members[c] {
            assert false; // here the source would add `other`
          }
          others := others - {other};
        }
      }
      cycleOf := cycleOf[f := c];
    }

    /** `Cycle.add_function` applied to each function of a component in turn. */
    method AddFunctions(component: seq<Id>)
      requires Refers() && Distinct(component)
      modifies this`cycleOf, this`members
      ensures members == old(members) + [Elements(component)]
      ensures forall x :: x in component ==> x in cycleOf && cycleOf[x] == |old(members)|
      ensures forall x :: x !in component ==> (x in cycleOf <==> x in old(cycleOf))
      ensures forall x :: x !in component && x in old(cycleOf) ==> cycleOf[x] == old(cycleOf)[x]
    {
      var c := |members|;
      members := members + [{}];
      assert Elements(component[..0]) == {};
      for i := 0 to |component|
        invariant Refers() && members == old(members) + [Elements(component[..i])]
        invariant forall x :: x in component[..i] ==> x in cycleOf && cycleOf[x] == c
        invariant forall x :: x !in component[..i] ==> (x in cycleOf <==> x in old(cycleOf))
        invariant forall x :: x !in component[..i] && x in old(cycleOf) ==> cycleOf[x] == old(cycleOf)[x]
      {
        var f := component[i];
        assert f !in members[c];
        assert component[..i + 1] == component[..i] + [f];
        ElementsSnoc(component, i);
        AddFunction(c, f);
      }
      assert component[..|component|] == component;
    }

    /** Give a component of several functions a cycle object of its own. */
    method RecordCycle(component: seq<Id>, ghost f: Id)
      requires Consistent() && f in comp && comp[f] == Elements(component)
      requires Distinct(component) && component != []
      modifies this`cycleOf, this`members
      ensures Consistent()
      ensures forall x :: x in old(cycleOf) ==> x in cycleOf
      ensures |comp[f]| > 1 ==> forall x :: x in comp[f] ==> x in cycleOf
    {
      hide Cycles, Components;
      ghost var cycles0, members0 := cycleOf, members;
      CyclesRefer(comp, cycleOf, members);
      if |component| > 1 {
        AddFunctions(component);
        TwoMembers(comp[f], component[0], component[1]);
        NewCycle(comp, cycles0, members0, f, cycleOf);
      } else {
        assert component == [component[0]];
        assert comp[f] == {component[0]};
      }
    }

    /** Pop the component of `f`, found at the top of the stack. */
    method CloseComponent(f: Id, pos: nat, ghost grey: set<Id>, ghost next: nat)
      requires Searching(grey, next)
      requires pos < |stack| && stack[pos] == f
      requires Leaving(g, View(grey), f, orders[f])
      modifies this`stack, this`cycleOf, this`members
      ensures stack == old(stack)[..pos]
      ensures View(grey - {f}) == Popped(old(View(grey)), f)
      ensures Searching(grey - {f}, next)
    {
      hide Search, Cycles, Covered, Component, Partition, Leaving, Popped, Valid, Sorted, Elements;
      ghost var cycles0, open0 := cycleOf, Elements(stack);
      TopOfStack(g, orders, stack, grey, pos);
      var component := stack[pos..];
      stack := stack[..pos];
      assert View(grey - {f}) == Popped(old(View(grey)), f);
      RecordCycle(component, f);
      CoverComponent(comp, cycles0, cycleOf, visited, open0, Elements(stack), f);
    }

    /** Inside function `f`, entered from the tables `t0`, with the calls in `done` followed. */
    ghost predicate Inside(t0: Tables, stack0: seq<Id>, f: Id, order0: nat, order: nat, done: set<Id>) reads this {
      && Searching(t0.grey + {f}, order) && order0 < order
      && f in lowlinks && Following(g, t0, View(t0.grey + {f}), f, order0, lowlinks[f], done)
      && stack0 + [f] <= stack
    }

    ghost predicate LowlinksKept(before: map<Id, nat>, f: Id) reads this {
      forall x :: x in before && x != f ==> x in lowlinks && lowlinks[x] == before[x]
    }

    /** The body of the loop over the calls of `f`. */
    method FollowCall(f: Id, c: Id, order1: nat, ghost t0: Tables, ghost stack0: seq<Id>, ghost order0: nat, ghost done: set<Id>)
      returns (order: nat)
      requires Inside(t0, stack0, f, order0, order1, done) && Edge(g, f, c)
      requires Search(g, t0) && forall x :: x in t0.orders ==> t0.orders[x] < order0
      modifies this`stack, this`orders, this`lowlinks, this`visited, this`cycleOf, this`members
      ensures Inside(t0, stack0, f, order0, order, done + {c})
      ensures LowlinksKept(old(lowlinks), f)
      ensures old(orders).Keys <= orders.Keys
      ensures visited == old(visited) + orders.Keys
      decreases Elements(g.nodes) - orders.Keys, 2
    {
      hide Inside, Search, LowlinksKept, Edge;
      if c !in orders {
        order := FollowNew(f, c, order1, t0, stack0, order0, done);
      } else {
        FollowSeen(f, c, order1, t0, stack0, order0, done);
        order := order1;
      }
    }

    /** A function not met before is searched first. */
    method FollowNew(f: Id, c: Id, order1: nat, ghost t0: Tables, ghost stack0: seq<Id>, ghost order0: nat, ghost done: set<Id>)
      returns (order: nat)
      requires Inside(t0, stack0, f, order0, order1, done) && Edge(g, f, c) && c !in orders
      requires Search(g, t0) && forall x :: x in t0.orders ==> t0.orders[x] < order0
      modifies this`stack, this`orders, this`lowlinks, this`visited, this`cycleOf, this`members
      ensures Inside(t0, stack0, f, order0, order, done + {c})
      ensures LowlinksKept(old(lowlinks), f)
      ensures old(orders).Keys <= orders.Keys
      ensures visited == old(visited) + orders.Keys
      decreases Elements(g.nodes) - orders.Keys, 1
    {
      hide Search, Following, CallResult, Cycles, Covered, Partition, Components, Reach, Leaving, Sorted, Grown, Elements;
      hide Inside, Consistent, Edge;
      InsideFacts(t0, stack0, f, order0, order1, done, c);
      ghost var t := View(t0.grey + {f});
      ghost var low := lowlinks[f];
      GreyReach(g, t0, t, f, order0, low, done, c);
      order := Tarjan(c, order1, t.grey);
      AfterCall(g, t0, t, View(t.grey), f, order0, order1, low, done, c, lowlinks[c]);
      GrownKeys(t, View(t.grey), order1);
      lowlinks := lowlinks[f := Min(lowlinks[f], lowlinks[c])];
      MakeInside(t0, stack0, f, order0, order, done + {c});
    }

    lemma InsideFacts(t0: Tables, stack0: seq<Id>, f: Id, order0: nat, order: nat, done: set<Id>, c: Id)
      requires Inside(t0, stack0, f, order0, order, done) && Edge(g, f, c)
      ensures Searching(t0.grey + {f}, order) && order0 < order && c in g.nodes
      ensures f in lowlinks && f in orders && Following(g, t0, View(t0.grey + {f}), f, order0, lowlinks[f], done)
      ensures stack0 + [f] <= stack && View(t0.grey + {f}).grey == t0.grey + {f}
    {
      hide Search, Cycles, Covered, Partition, Components, Reach, Sorted, Elements, Following;
      CalleeDefined(g, f, c);
    }

    lemma MakeInside(t0: Tables, stack0: seq<Id>, f: Id, order0: nat, order: nat, done: set<Id>)
      requires Searching(t0.grey + {f}, order) && order0 < order && f in lowlinks
      requires Following(g, t0, View(t0.grey + {f}), f, order0, lowlinks[f], done) && stack0 + [f] <= stack
      ensures Inside(t0, stack0, f, order0, order, done)
    {
      hide Search, Cycles, Covered, Partition, Components, Reach, Sorted, Elements, Following;
    }

    /** A function met before matters if it is on the stack. */
    method FollowSeen(f: Id, c: Id, ghost order1: nat, ghost t0: Tables, ghost stack0: seq<Id>, ghost order0: nat, ghost done: set<Id>)
      requires Inside(t0, stack0, f, order0, order1, done) && Edge(g, f, c) && c in orders
      requires Search(g, t0) && forall x :: x in t0.orders ==> t0.orders[x] < order0
      modifies this`lowlinks
      ensures Inside(t0, stack0, f, order0, order1, done + {c})
      ensures LowlinksKept(old(lowlinks), f)
      ensures visited == old(visited) + orders.Keys
    {
      hide Search, Following, CallResult, Cycles, Covered, Partition, Components, Reach, Leaving, Sorted;
      AfterSeen(g, t0, View(t0.grey + {f}), f, order0, lowlinks[f], done, c);
      if c in stack {
        lowlinks := lowlinks[f := Min(lowlinks[f], orders[c])];
      }
    }

    /** Number `f` and push it on the stack. */
    method OpenFunction(f: Id, order: nat, ghost grey: set<Id>)
      requires Searching(grey, order)
      requires f in g.nodes && f !in orders
      requires forall x :: x in grey ==> Reach(g, x, f)
      modifies this`stack, this`orders, this`lowlinks, this`visited
      ensures Inside(old(View(grey)), old(stack), f, order, order + 1, {})
      ensures orders == old(orders)[f := order] && lowlinks == old(lowlinks)[f := order]
      ensures stack == old(stack) + [f] && visited == old(visited) + {f}
    {
      hide Search, Following, Cycles, Partition, Components, Reach, Valid, Sorted, Covered, Elements;
      ghost var t0, stack0 := View(grey), stack;
      SortedPush(stack, orders, f, order);
      ElementsPush(stack, f);
      CoverPush(comp, cycleOf, visited, Elements(stack), f);
      StartFollowing(g, t0, f, order);
      visited := visited + {f};
      orders := orders[f := order];
      lowlinks := lowlinks[f := order];
      stack := stack + [f];
      assert View(grey + {f}) == Entered(t0, f, order);
    }

    /** The loop over the calls of `f`. */
    method FollowCalls(f: Id, order1: nat, ghost t0: Tables, ghost stack0: seq<Id>, ghost order0: nat) returns (order: nat)
      requires f in g.nodes && Inside(t0, stack0, f, order0, order1, {})
      requires Search(g, t0) && forall x :: x in t0.orders ==> t0.orders[x] < order0
      requires orders.Keys <= visited
      modifies this`stack, this`orders, this`lowlinks, this`visited, this`cycleOf, this`members
      ensures Inside(t0, stack0, f, order0, order, Elements(g.calls[f]))
      ensures LowlinksKept(old(lowlinks), f)
      ensures visited == old(visited) + orders.Keys
      decreases Elements(g.nodes) - orders.Keys, 3
    {
      hide Search, Following, Cycles, Covered, Partition, Components, Sorted;
      assert f in g.calls;
      hide Inside, Valid;
      order := order1;
      var calls := g.calls[f];
      assert Elements(calls[..0]) == {};
      for i := 0 to |calls|
        invariant Inside(t0, stack0, f, order0, order, Elements(calls[..i]))
        invariant LowlinksKept(old(lowlinks), f) && old(lowlinks).Keys <= lowlinks.Keys
        invariant visited == old(visited) + orders.Keys
        invariant old(orders).Keys <= orders.Keys
      {
        ElementsSnoc(calls, i);
        order := FollowCall(f, calls[i], order, t0, stack0, order0, Elements(calls[..i]));
      }
      assert calls[..|calls|] == calls;
    }

    /** One call of `_tarjan`; `grey` holds the functions whose calls are being followed by its callers. */
    method Tarjan(f: Id, order0: nat, ghost grey: set<Id>) returns (order: nat)
      requires Searching(grey, order0)
      requires f in g.nodes && f !in orders
      requires forall x :: x in grey ==> Reach(g, x, f)
      modifies this`stack, this`orders, this`lowlinks, this`visited, this`cycleOf, this`members
      ensures Searching(grey, order) && order0 <= order
      ensures old(stack) <= stack
      ensures Grown(old(View(grey)), View(grey), order0)
      ensures f in lowlinks && f in orders && CallResult(g, old(View(grey)), View(grey), f, lowlinks[f])
      ensures LowlinksKept(old(lowlinks), f)
      ensures visited == old(visited) + orders.Keys
      decreases Elements(g.nodes) - orders.Keys, 0
    {
      hide Search, Following, CallResult, Grown, Cycles, Covered, Partition, Components, Reach, Sorted, Inside;
      ghost var t0, stack0 := View(grey), stack;
      var pos := |stack|;
      assert f in Elements(g.nodes) - orders.Keys;
      OpenFunction(f, order0, grey);
      order := FollowCalls(f, order0 + 1, t0, stack0, order0);
      LeaveFunction(f, pos, t0, stack0, order0, order);
    }

    /** When all calls of `f` are followed: close its component if its low link is its own number. */
    method LeaveFunction(f: Id, pos: nat, ghost t0: Tables, ghost stack0: seq<Id>, ghost order0: nat, ghost order: nat)
      requires Valid(g) && f in g.nodes && Inside(t0, stack0, f, order0, order, Elements(g.calls[f])) && pos == |stack0|
      requires Search(g, t0) && forall x :: x in t0.orders ==> t0.orders[x] < order0
      modifies this`stack, this`cycleOf, this`members
      ensures Searching(t0.grey, order) && order0 <= order
      ensures stack0 <= stack
      ensures Grown(t0, View(t0.grey), order0)
      ensures f in lowlinks && CallResult(g, t0, View(t0.grey), f, lowlinks[f])
    {
      hide Search, Following, CallResult, Grown, Cycles, Covered, Partition, Components, Leaving, Sorted;
      ghost var grey := t0.grey + {f};
      Left(g, t0, View(grey), f, order0, lowlinks[f], Elements(g.calls[f]));
      assert grey - {f} == t0.grey;
      assert stack[..pos] == stack0 && stack[pos] == f;
      if lowlinks[f] == orders[f] {
        CloseComponent(f, pos, grey, order);
      }
    }

    /** Search from every function not visited yet, then list the cycles that are carried. */
    method FindCycles()
      requires Consistent()
      modifies this
      ensures Consistent() && Covered(comp, cycleOf, Elements(g.nodes))
      ensures forall x, y :: x in g.nodes && y in g.nodes && x != y ==>
                ((x in cycleOf && y in cycleOf && cycleOf[x] == cycleOf[y]) <==> Mutual(g, x, y))
      ensures forall x :: x in g.nodes ==> (x !in cycleOf <==> Component(g, x) == {x})
      ensures forall x :: x in cycleOf ==> members[cycleOf[x]] == Component(g, x)
      ensures Distinct(cycles) && forall c :: c in cycles <==> Carried(g.nodes, cycleOf, c)
    {
      SearchAll();
      forall x, y | x in g.nodes && y in g.nodes && x != y
        ensures (x in cycleOf && y in cycleOf && cycleOf[x] == cycleOf[y]) <==> Mutual(g, x, y)
      {
        CycleMeansMutual(g, cycleOf, members, x, y);
      }
      forall x | x in g.nodes ensures x !in cycleOf <==> Component(g, x) == {x} {
        LoneFunction(g, cycleOf, members, x);
      }
      ListCycles();
    }

    method SearchAll()
      requires Consistent()
      modifies this`stack, this`orders, this`lowlinks, this`visited, this`cycleOf, this`members
      ensures Consistent() && Covered(comp, cycleOf, Elements(g.nodes))
    {
      hide Search, CallResult, Grown, Cycles, Partition, Components, Reach;
      visited := {};
      for i := 0 to |g.nodes|
        invariant Consistent() && Covered(comp, cycleOf, visited)
        invariant forall j :: 0 <= j < i ==> g.nodes[j] in visited
      {
        if g.nodes[i] !in visited {
          stack, orders, lowlinks := [], map[], map[];
          FreshSearch(g);
          assert View({}) == Tables(map[], {}, {});
          SearchFrom(g.nodes[i]);
        }
      }
    }

    /** One search with fresh tables finishes everything it meets. */
    method SearchFrom(f: Id)
      requires Searching({}, 0) && f in g.nodes && f !in orders
      modifies this`stack, this`orders, this`lowlinks, this`visited, this`cycleOf, this`members
      ensures Consistent() && Covered(comp, cycleOf, visited)
      ensures visited >= old(visited) + {f}
    {
      hide Search, CallResult, Grown, Cycles, Partition, Components, Reach, Covered;
      var order := Tarjan(f, 0, {});
      NothingOpen(g, View({}));
      assert visited - Elements(stack) == visited;
    }

    /** Collect the cycle objects carried by some function, each once. */
    method ListCycles()
      modifies this`cycles
      ensures Distinct(cycles) && forall c :: c in cycles <==> Carried(g.nodes, cycleOf, c)
    {
      cycles := [];
      for i := 0 to |g.nodes|
        invariant Distinct(cycles)
        invariant forall c :: c in cycles <==> Carried(g.nodes[..i], cycleOf, c)
      {
        var f := g.nodes[i];
        assert g.nodes[..i + 1] == g.nodes[..i] + [f];
        forall c ensures Carried(g.nodes[..i + 1], cycleOf, c) <==> Carried(g.nodes[..i], cycleOf, c) || (f in cycleOf && cycleOf[f] == c) {
          assert f in g.nodes[..i + 1];
        }
        if f in cycleOf && cycleOf[f] !in cycles {
          cycles := cycles + [cycleOf[f]];
        }
      }
      assert g.nodes[..|g.nodes|] == g.nodes;
    }
  }

  /** Some function of `s` carries cycle object `c`. */
  ghost predicate Carried(s: seq<Id>, cycleOf: map<Id, nat>, c: nat) {
    exists x :: x in s && x in cycleOf && cycleOf[x] == c
  }

  lemma FreshSearch(g: Graph)
    ensures Search(g, Tables(map[], {}, {}))
  {
  }

  /** When nothing is grey, nothing is open. */
  lemma NothingOpen(g: Graph, t: Tables)
    requires Search(g, t) && t.grey == {}
    ensures t.open == {}
  {
    forall y ensures y !in t.open {
      assert y in t.open ==> Returns(g, t, y);
    }
  }

  /** Entering `f` starts the loop over its calls. */
  lemma StartFollowing(g: Graph, t: Tables, f: Id, order: nat)
    requires Search(g, t)
    requires f in g.nodes && f !in t.orders
    requires forall x :: x in t.orders ==> t.orders[x] < order
    requires forall x :: x in t.grey ==> Reach(g, x, f)
    ensures Following(g, t, Entered(t, f, order), f, order, order, {})
  {
    var t' := Entered(t, f, order);
    Enter(g, t, f, order);
    ReachSelf(g, f);
    assert f in t'.open && t'.orders[f] == order;
  }

  /** Every grey function reaches the callees of the latest one. */
  lemma GreyReach(g: Graph, t0: Tables, t: Tables, f: Id, order: nat, low: nat, done: set<Id>, c: Id)
    requires Search(g, t0) && (forall x :: x in t0.orders ==> t0.orders[x] < order)
    requires Following(g, t0, t, f, order, low, done) && Edge(g, f, c)
    ensures forall x :: x in t.grey ==> Reach(g, x, c)
  {
    ReachEdge(g, f, c);
    forall x | x in t.grey ensures Reach(g, x, c) {
      ReachTrans(g, x, f, c);
    }
  }
}
