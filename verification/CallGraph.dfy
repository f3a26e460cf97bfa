/**
 Call graphs of `Profile` objects (tools/gprof2dot.py) and reachability in them.
 */
module CallGraph {
  import opened Basics

  type Id = nat

  /**
   `nodes` is the iteration order of `Profile.functions`; `calls[f]` is the
   iteration order of the `calls` dictionary of function `f`, which holds at
   most one call per callee.
   */
  datatype Graph = Graph(nodes: seq<Id>, calls: map<Id, seq<Id>>)

  /** What `Profile.validate` establishes: no call leads to an undefined function. */
  ghost predicate Valid(g: Graph) {
    && (forall i, j :: 0 <= i < j < |g.nodes| ==> g.nodes[i] != g.nodes[j])
    && g.calls.Keys == (set f | f in g.nodes)
    && (forall f :: f in g.nodes ==> Distinct(g.calls[f]))
    && (forall f, c :: f in g.nodes && c in g.calls[f] ==> c in g.nodes)
  }

  predicate Edge(g: Graph, f: Id, c: Id) { f in g.calls && c in g.calls[f] }

  ghost predicate Path(g: Graph, p: seq<Id>) {
    && |p| > 0
    && forall i :: 0 <= i < |p| - 1 ==> Edge(g, p[i], p[i + 1])
  }

  ghost predicate PathBetween(g: Graph, p: seq<Id>, x: Id, y: Id) {
    Path(g, p) && p[0] == x && p[|p| - 1] == y
  }

  /** There is a chain of zero or more calls from `x` to `y`. */
  ghost predicate Reach(g: Graph, x: Id, y: Id) {
    exists p :: PathBetween(g, p, x, y)
  }

  ghost predicate Mutual(g: Graph, x: Id, y: Id) {
    Reach(g, x, y) && Reach(g, y, x)
  }

  /** The strongly connected component of `x`. */
  ghost function Component(g: Graph, x: Id): set<Id> {
    set y | y in g.nodes && Mutual(g, x, y)
  }

  lemma ReachSelf(g: Graph, x: Id)
    ensures Reach(g, x, x)
  {
    assert PathBetween(g, [x], x, x);
  }

  lemma ReachEdge(g: Graph, x: Id, y: Id)
    requires Edge(g, x, y)
    ensures Reach(g, x, y)
  {
    assert PathBetween(g, [x, y], x, y);
  }

  lemma ReachTrans(g: Graph, x: Id, y: Id, z: Id)
    requires Reach(g, x, y) && Reach(g, y, z)
    ensures Reach(g, x, z)
  {
    var p :| PathBetween(g, p, x, y);
    var q :| PathBetween(g, q, y, z);
    var r := p + q[1..];
    forall i | 0 <= i < |r| - 1 ensures Edge(g, r[i], r[i + 1]) {
      if i < |p| - 1 {
        assert Edge(g, p[i], p[i + 1]);
      } else {
        assert Edge(g, q[i - (|p| - 1)], q[i - (|p| - 1) + 1]);
      }
    }
    assert PathBetween(g, r, x, z);
  }

  /** A set that no call leaves cannot be left by a chain of calls. */
  ghost predicate Closed(g: Graph, s: set<Id>) {
    forall x, y :: x in s && Edge(g, x, y) ==> y in s
  }

  lemma {:induction false} ClosedPath(g: Graph, s: set<Id>, p: seq<Id>, k: nat)
    requires Closed(g, s) && Path(g, p) && p[0] in s && k < |p|
    ensures p[k] in s
  {
    if k > 0 {
      ClosedPath(g, s, p, k - 1);
      assert Edge(g, p[k - 1], p[k]);
    }
  }

  lemma ClosedReach(g: Graph, s: set<Id>, x: Id, y: Id)
    requires Closed(g, s) && x in s && Reach(g, x, y)
    ensures y in s
  {
    var p :| PathBetween(g, p, x, y);
    ClosedPath(g, s, p, |p| - 1);
  }

  /** Mutually reachable functions have the same component. */
  lemma SameComponent(g: Graph, x: Id, y: Id)
    requires Mutual(g, x, y)
    ensures Component(g, x) == Component(g, y)
  {
    forall z | z in g.nodes ensures Mutual(g, x, z) <==> Mutual(g, y, z) {
      if Mutual(g, x, z) { ReachTrans(g, y, x, z); ReachTrans(g, z, x, y); }
      if Mutual(g, y, z) { ReachTrans(g, x, y, z); ReachTrans(g, z, y, x); }
    }
  }
}
