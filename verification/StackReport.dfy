/**
 Which components `merge_items` (tools/buildstack.py) reports: every node of the
 item tree is described by itself, by the counters it is the first to name and by
 the thresholds on the way to it, and the report is proved to be the list of the
 nodes that qualify.
 */
module StackReport {
  import opened BuildStack

  /** A node of the item tree, by the numbers of the items on the way to it. */
  type Address = seq<nat>

  predicate IsNode(items: seq<Item>, a: Address)
    decreases |a|
  {
    |a| > 0 && a[0] < |items| && (|a| == 1 || (items[a[0]].Stack? && IsNode(items[a[0]].items, a[1..])))
  }

  function NodeAt(items: seq<Item>, a: Address): Item
    requires IsNode(items, a)
    decreases |a|
  {
    if |a| == 1 then items[a[0]] else NodeAt(items[a[0]].items, a[1..])
  }

  /** The names on the way, joined by dashes. */
  function Path(items: seq<Item>, a: Address): string
    requires IsNode(items, a)
    decreases |a|
  {
    if |a| == 1 then items[a[0]].name else items[a[0]].name + "-" + Path(items[a[0]].items, a[1..])
  }

  /** The counters that a leaf, or some leaf of a stack, names. */
  function KeysOf(item: Item): set<Key> {
    match item
    case Leaf(_, _, keys) => set k | k in keys
    case Stack(_, _, sub) => Named(sub, |sub|)
  }

  /** The counters named by leaves before node `a`. */
  function Earlier(items: seq<Item>, a: Address): set<Key>
    requires IsNode(items, a)
    decreases |a|
  {
    Named(items, a[0]) + if |a| == 1 then {} else Earlier(items[a[0]].items, a[1..])
  }

  /** What the thresholds are compared with: the recorded counters, without those in `used`, and their scale. */
  datatype Counters = Counters(values: Values, used: set<Key>, scale: real)

  ghost predicate Proper(c: Counters) { c.used <= c.values.Keys && c.scale != 0.0 }

  /** The counters that node `a` is the first to name. */
  function Mine(items: seq<Item>, c: Counters, a: Address): set<Key>
    requires IsNode(items, a)
  {
    KeysOf(NodeAt(items, a)) * c.values.Keys - c.used - Earlier(items, a)
  }

  ghost function Amount(items: seq<Item>, c: Counters, a: Address): real
    requires IsNode(items, a)
  {
    SumOver(c.values, Mine(items, c, a))
  }

  ghost predicate Exceeds(items: seq<Item>, c: Counters, a: Address)
    requires IsNode(items, a) && c.scale != 0.0
  {
    Amount(items, c, a) / c.scale > NodeAt(items, a).threshold
  }

  /** The node itself and every stack around it exceed their thresholds. */
  ghost predicate Reaches(items: seq<Item>, c: Counters, a: Address)
    requires c.scale != 0.0
  {
    forall k :: 1 <= k <= |a| && IsNode(items, a[..k]) ==> Exceeds(items, c, a[..k])
  }

  /** Some item directly in stack `a` exceeds its threshold. */
  ghost predicate Refined(items: seq<Item>, c: Counters, a: Address)
    requires c.scale != 0.0
  {
    exists i: nat :: IsNode(items, a + [i]) && Exceeds(items, c, a + [i])
  }

  /** The nodes that are reported. */
  ghost predicate Visible(items: seq<Item>, c: Counters, nocollapse: bool, a: Address)
    requires c.scale != 0.0
  {
    && IsNode(items, a)
    && if nocollapse then NodeAt(items, a).Leaf?
       else Reaches(items, c, a) && (NodeAt(items, a).Leaf? || !Refined(items, c, a))
  }

  // ---------------------------------------------------------------------------
  // All nodes, in the order of the items

  function Under(i: nat, s: seq<Address>): seq<Address> { seq(|s|, k requires 0 <= k < |s| => [i] + s[k]) }

  function Addresses(items: seq<Item>, n: nat): seq<Address>
    requires n <= |items|
    decreases items, n
  {
    if n == 0 then []
    else
      Addresses(items, n - 1) + [[n - 1]] +
      match items[n - 1]
      case Leaf(_, _, _) => []
      case Stack(_, _, sub) => Under(n - 1, Addresses(sub, |sub|))
  }

  /** The nodes inside item number `i`. */
  function Within(items: seq<Item>, i: nat): seq<Address>
    requires i < |items|
  {
    match items[i]
    case Leaf(_, _, _) => []
    case Stack(_, _, sub) => Under(i, Addresses(sub, |sub|))
  }

  lemma AddressesNext(items: seq<Item>, i: nat)
    requires i < |items|
    ensures Addresses(items, i + 1) == Addresses(items, i) + [[i]] + Within(items, i)
  {
  }

  lemma InThree(s: seq<Address>, x: Address, t: seq<Address>, a: Address)
    ensures a in s + [x] + t <==> a in s || a == x || a in t
  {
  }

  /** The list holds every node. */
  lemma {:induction false} AddressesAreNodes(items: seq<Item>, n: nat, a: Address)
    requires n <= |items|
    ensures a in Addresses(items, n) <==> IsNode(items, a) && a[0] < n
    decreases items, n
  {
    hide Addresses, Under, Within;
    if n == 0 {
      NoAddress(items);
    } else {
      AddressesAreNodes(items, n - 1, a);
      AddressesNext(items, n - 1);
      InThree(Addresses(items, n - 1), [n - 1], Within(items, n - 1), a);
      WithinHas(items, n - 1, a);
      if items[n - 1].Stack? && |a| > 0 {
        AddressesAreNodes(items[n - 1].items, |items[n - 1].items|, a[1..]);
      }
    }
  }

  lemma NoAddress(items: seq<Item>)
    ensures Addresses(items, 0) == []
  {
  }

  lemma WithinHas(items: seq<Item>, i: nat, a: Address)
    requires i < |items|
    ensures a in Within(items, i) <==>
              |a| > 0 && a[0] == i && items[i].Stack? && a[1..] in Addresses(items[i].items, |items[i].items|)
  {
    hide Addresses;
    if items[i].Stack? {
      var s := Addresses(items[i].items, |items[i].items|);
      if |a| > 0 { UnderHas(i, s, a); } else if a in Under(i, s) { UnderNonEmpty(i, s, a); }
    }
  }

  lemma UnderNonEmpty(i: nat, s: seq<Address>, a: Address)
    requires a in Under(i, s)
    ensures |a| > 0
  {
  }

  lemma UnderHas(i: nat, s: seq<Address>, a: Address)
    requires |a| > 0
    ensures a in Under(i, s) <==> a[0] == i && a[1..] in s
  {
    var u := Under(i, s);
    if a in u {
      var k :| 0 <= k < |u| && u[k] == a;
      assert a[1..] == s[k];
    }
    if a[0] == i && a[1..] in s {
      var k :| 0 <= k < |s| && s[k] == a[1..];
      assert u[k] == a;
    }
  }

  // ---------------------------------------------------------------------------
  // The components of the visible nodes

  ghost function ComponentOf(prefix: string, items: seq<Item>, c: Counters, a: Address): Component
    requires IsNode(items, a)
  {
    Component(prefix + Path(items, a), Amount(items, c, a))
  }

  ghost function ShownOne(prefix: string, items: seq<Item>, c: Counters, nocollapse: bool, a: Address): seq<Component>
    requires c.scale != 0.0
  {
    if Visible(items, c, nocollapse, a) then [ComponentOf(prefix, items, c, a)] else []
  }

  ghost function Shown(prefix: string, items: seq<Item>, c: Counters, nocollapse: bool, s: seq<Address>): seq<Component>
    requires c.scale != 0.0
  {
    if s == [] then []
    else Shown(prefix, items, c, nocollapse, s[..|s| - 1]) + ShownOne(prefix, items, c, nocollapse, s[|s| - 1])
  }

  lemma {:induction false} ShownConcat(prefix: string, items: seq<Item>, c: Counters, nocollapse: bool, a: seq<Address>, b: seq<Address>)
    requires c.scale != 0.0
    ensures Shown(prefix, items, c, nocollapse, a + b) == Shown(prefix, items, c, nocollapse, a) + Shown(prefix, items, c, nocollapse, b)
  {
    hide ShownOne;
    if b == [] {
      assert a + b == a;
    } else {
      ShownConcat(prefix, items, c, nocollapse, a, b[..|b| - 1]);
      assert (a + b)[..|a + b| - 1] == a + b[..|b| - 1];
    }
  }

  lemma ShownSingle(prefix: string, items: seq<Item>, c: Counters, nocollapse: bool, a: Address)
    requires c.scale != 0.0
    ensures Shown(prefix, items, c, nocollapse, [a]) == ShownOne(prefix, items, c, nocollapse, a)
  {
    hide ShownOne;
    assert [a][..0] == [];
  }

  /** What item number `i` leaves for the items inside it. */
  function Inside(items: seq<Item>, c: Counters, i: nat): Counters
    requires i <= |items|
  {
    c.(used := c.used + Named(items, i) * c.values.Keys)
  }

  lemma MineInside(items: seq<Item>, c: Counters, i: nat, a: Address)
    requires i < |items| && items[i].Stack? && IsNode(items[i].items, a) && IsNode(items, [i] + a)
    requires NodeAt(items, [i] + a) == NodeAt(items[i].items, a)
    requires Earlier(items, [i] + a) == Named(items, i) + Earlier(items[i].items, a)
    ensures Mine(items, c, [i] + a) == Mine(items[i].items, Inside(items, c, i), a)
  {
    hide Named, KeysOf, NodeAt, Earlier, IsNode;
  }

  /** A node seen from the stack that holds it. */
  lemma FromInside(prefix: string, items: seq<Item>, c: Counters, i: nat, a: Address)
    requires i < |items| && items[i].Stack? && c.scale != 0.0
    ensures var sub := items[i].items;
            && (IsNode(items, [i] + a) <==> (a == [] || IsNode(sub, a)))
            && (IsNode(sub, a) ==>
                 && NodeAt(items, [i] + a) == NodeAt(sub, a)
                 && Amount(items, c, [i] + a) == Amount(sub, Inside(items, c, i), a)
                 && prefix + Path(items, [i] + a) == (prefix + items[i].name + "-") + Path(sub, a)
                 && (Exceeds(items, c, [i] + a) <==> Exceeds(sub, Inside(items, c, i), a)))
  {
    hide SumOver, Named, KeysOf, Mine, Inside;
    assert ([i] + a)[1..] == a;
    if IsNode(items[i].items, a) { MineInside(items, c, i, a); InsideScale(items, c, i); }
  }

  lemma InsideScale(items: seq<Item>, c: Counters, i: nat)
    requires i <= |items|
    ensures Inside(items, c, i).scale == c.scale && Inside(items, c, i).values == c.values
    ensures Proper(c) ==> Proper(Inside(items, c, i))
  {
  }

  /** Reaching a node inside a stack is reaching the stack and then the node. */
  lemma ReachesInside(items: seq<Item>, c: Counters, i: nat, a: Address)
    requires i < |items| && items[i].Stack? && c.scale != 0.0 && IsNode(items[i].items, a)
    ensures Inside(items, c, i).scale != 0.0
    ensures Reaches(items, c, [i] + a) <==> Exceeds(items, c, [i]) && Reaches(items[i].items, Inside(items, c, i), a)
  {
    hide Exceeds, Inside, Amount;
    InsideScale(items, c, i);
    var sub, d, b := items[i].items, Inside(items, c, i), [i] + a;
    assert b[..1] == [i];
    FromInside("", items, c, i, a);
    forall k | 1 <= k <= |a|
      ensures (IsNode(items, b[..k + 1]) <==> IsNode(sub, a[..k])) && (IsNode(sub, a[..k]) ==> (Exceeds(items, c, b[..k + 1]) <==> Exceeds(sub, d, a[..k])))
    {
      assert b[..k + 1] == [i] + a[..k];
      FromInside("", items, c, i, a[..k]);
    }
    if Reaches(items, c, b) {
      forall k | 1 <= k <= |a| && IsNode(sub, a[..k]) ensures Exceeds(sub, d, a[..k]) { assert Exceeds(items, c, b[..k + 1]); }
    }
    if Exceeds(items, c, [i]) && Reaches(sub, d, a) {
      forall k | 1 <= k <= |b| && IsNode(items, b[..k]) ensures Exceeds(items, c, b[..k]) {
        if k > 1 { assert Exceeds(sub, d, a[..k - 1]); }
      }
    }
  }

  lemma RefinedInside(items: seq<Item>, c: Counters, i: nat, a: Address)
    requires i < |items| && items[i].Stack? && c.scale != 0.0
    ensures Inside(items, c, i).scale != 0.0
    ensures Refined(items, c, [i] + a) <==> exists j: nat :: IsNode(items[i].items, a + [j]) && Exceeds(items[i].items, Inside(items, c, i), a + [j])
  {
    hide Exceeds, Inside, Amount;
    InsideScale(items, c, i);
    var sub, d, b := items[i].items, Inside(items, c, i), [i] + a;
    forall j: nat
      ensures (IsNode(items, b + [j]) <==> IsNode(sub, a + [j])) && (IsNode(sub, a + [j]) ==> (Exceeds(items, c, b + [j]) <==> Exceeds(sub, d, a + [j])))
    {
      assert b + [j] == [i] + (a + [j]);
      FromInside("", items, c, i, a + [j]);
    }
    if Refined(items, c, b) {
      var j: nat :| IsNode(items, b + [j]) && Exceeds(items, c, b + [j]);
      assert Exceeds(sub, d, a + [j]);
    }
    if j: nat :| IsNode(sub, a + [j]) && Exceeds(sub, d, a + [j]) {
      assert Exceeds(items, c, b + [j]);
    }
  }

  lemma VisibleInside(prefix: string, items: seq<Item>, c: Counters, nocollapse: bool, i: nat, a: Address)
    requires i < |items| && items[i].Stack? && c.scale != 0.0 && IsNode(items[i].items, a)
    ensures Inside(items, c, i).scale != 0.0
    ensures ShownOne(prefix, items, c, nocollapse, [i] + a) ==
              if nocollapse || Exceeds(items, c, [i]) then ShownOne(prefix + items[i].name + "-", items[i].items, Inside(items, c, i), nocollapse, a)
              else []
  {
    hide Exceeds, Inside, Amount, Reaches, Refined;
    FromInside(prefix, items, c, i, a);
    ReachesInside(items, c, i, a);
    RefinedInside(items, c, i, a);
    RefinedMeans(items[i].items, Inside(items, c, i), a);
  }

  lemma RefinedMeans(items: seq<Item>, c: Counters, a: Address)
    requires c.scale != 0.0
    ensures Refined(items, c, a) <==> exists j: nat :: IsNode(items, a + [j]) && Exceeds(items, c, a + [j])
  {
  }

  lemma UnderLast(i: nat, s: seq<Address>)
    requires s != []
    ensures var u := Under(i, s); |u| == |s| && u[..|u| - 1] == Under(i, s[..|s| - 1]) && u[|u| - 1] == [i] + s[|s| - 1]
  {
  }

  /** The components inside a stack are those its own list shows, or none. */
  lemma {:induction false} ShownInside(prefix: string, items: seq<Item>, c: Counters, nocollapse: bool, i: nat, s: seq<Address>)
    requires i < |items| && items[i].Stack? && c.scale != 0.0 && forall a :: a in s ==> IsNode(items[i].items, a)
    ensures Inside(items, c, i).scale != 0.0
    ensures Shown(prefix, items, c, nocollapse, Under(i, s)) ==
              if nocollapse || Exceeds(items, c, [i]) then Shown(prefix + items[i].name + "-", items[i].items, Inside(items, c, i), nocollapse, s)
              else []
  {
    hide ShownOne, Exceeds, Inside, Under, IsNode;
    InsideScale(items, c, i);
    if s == [] {
      UnderNone(i);
    } else {
      UnderLast(i, s);
      assert s[|s| - 1] in s;
      ShownInside(prefix, items, c, nocollapse, i, s[..|s| - 1]);
      VisibleInside(prefix, items, c, nocollapse, i, s[|s| - 1]);
    }
  }

  lemma UnderNone(i: nat)
    ensures Under(i, []) == []
  {
  }

  /** Where an item exceeds its threshold, something is visible. */
  lemma {:induction false} SomethingVisible(items: seq<Item>, c: Counters, j: nat) returns (a: Address)
    requires j < |items| && c.scale != 0.0 && Exceeds(items, c, [j])
    ensures Visible(items, c, false, a)
    decreases items
  {
    hide Exceeds, Inside, Amount;
    ReachesOne(items, c, j);
    if items[j].Leaf? || !Refined(items, c, [j]) {
      a := [j];
    } else {
      var sub, d := items[j].items, Inside(items, c, j);
      assert [j] + [] == [j];
      RefinedInside(items, c, j, []);
      var k: nat :| IsNode(sub, [] + [k]) && Exceeds(sub, d, [] + [k]);
      assert [] + [k] == [k];
      var b := SomethingVisible(sub, d, k);
      a := [j] + b;
      VisibleThere(items, c, j, b);
    }
  }

  lemma VisibleThere(items: seq<Item>, c: Counters, i: nat, a: Address)
    requires i < |items| && items[i].Stack? && c.scale != 0.0 && Exceeds(items, c, [i])
    requires Inside(items, c, i).scale != 0.0 && Visible(items[i].items, Inside(items, c, i), false, a)
    ensures Visible(items, c, false, [i] + a)
  {
    hide Exceeds, Inside, Amount, Reaches, Refined;
    VisibleInside("", items, c, false, i, a);
  }

  lemma ReachesOne(items: seq<Item>, c: Counters, j: nat)
    requires j < |items| && c.scale != 0.0
    ensures Reaches(items, c, [j]) <==> Exceeds(items, c, [j])
  {
    hide Exceeds;
    assert [j][..1] == [j];
  }

  /** Where none does, nothing is. */
  lemma NothingVisible(items: seq<Item>, c: Counters, a: Address)
    requires c.scale != 0.0 && Visible(items, c, false, a)
    ensures Exceeds(items, c, [a[0]])
  {
    hide Exceeds, Refined;
    assert a[..1] == [a[0]];
    assert IsNode(items, a[..1]);
  }

  lemma {:induction false} ShownNothing(prefix: string, items: seq<Item>, c: Counters, nocollapse: bool, s: seq<Address>)
    requires c.scale != 0.0
    ensures Shown(prefix, items, c, nocollapse, s) == [] <==> forall a :: a in s ==> !Visible(items, c, nocollapse, a)
  {
    hide Visible;
    if s != [] {
      ShownNothing(prefix, items, c, nocollapse, s[..|s| - 1]);
      assert s == s[..|s| - 1] + [s[|s| - 1]];
    }
  }

  /** The items of a stack are all too small exactly when its own list shows nothing. */
  lemma AllSmall(prefix: string, items: seq<Item>, c: Counters)
    requires c.scale != 0.0
    ensures Shown(prefix, items, c, false, Addresses(items, |items|)) == [] <==> !Refined(items, c, [])
  {
    hide Exceeds, Amount, Visible, Shown, Addresses;
    ShownNothing(prefix, items, c, false, Addresses(items, |items|));
    if Refined(items, c, []) {
      var j: nat :| IsNode(items, [] + [j]) && Exceeds(items, c, [] + [j]);
      assert [] + [j] == [j];
      var a := SomethingVisible(items, c, j);
      VisibleIsNode(items, c, false, a);
      AddressesAreNodes(items, |items|, a);
    } else {
      forall a | a in Addresses(items, |items|) ensures !Visible(items, c, false, a) {
        if Visible(items, c, false, a) { VisibleRefines(items, c, a); }
      }
    }
  }

  lemma VisibleRefines(items: seq<Item>, c: Counters, a: Address)
    requires c.scale != 0.0 && Visible(items, c, false, a)
    ensures Refined(items, c, [])
  {
    hide Exceeds, Visible;
    VisibleIsNode(items, c, false, a);
    NothingVisible(items, c, a);
    assert [] + [a[0]] == [a[0]];
  }

  lemma VisibleIsNode(items: seq<Item>, c: Counters, nocollapse: bool, a: Address)
    requires c.scale != 0.0 && Visible(items, c, nocollapse, a)
    ensures IsNode(items, a) && a[0] < |items|
  {
  }

  // ---------------------------------------------------------------------------
  // The report

  ghost function Tallied(prefix: string, items: seq<Item>, c: Counters, nocollapse: bool, n: nat): Tally
    requires Proper(c) && n <= |items|
  {
    Collapse(prefix, items, n, c.values, c.used, c.scale, nocollapse)
  }

  /** The first `n` items leave the rest what they have not named. */
  lemma TalliedUsed(prefix: string, items: seq<Item>, c: Counters, nocollapse: bool, n: nat)
    requires Proper(c) && n <= |items|
    ensures Tallied(prefix, items, c, nocollapse, n).used == Inside(items, c, n).used
    ensures Tallied(prefix, items, c, nocollapse, n).total == SumOver(c.values, Named(items, n) * c.values.Keys - c.used)
  {
    hide Collapse, SumOver, Named;
    CountedOnce(prefix, items, n, c.values, c.used, c.scale, nocollapse);
    var t := Tallied(prefix, items, c, nocollapse, n);
    assert t.used - c.used == Named(items, n) * c.values.Keys - c.used;
  }

  lemma LeafAmount(items: seq<Item>, c: Counters, i: nat)
    requires i < |items| && items[i].Leaf?
    ensures Mine(items, c, [i]) == Fresh(c.values, Inside(items, c, i).used, items[i].keys)
  {
  }

  lemma StackAmount(items: seq<Item>, c: Counters, i: nat)
    requires i < |items| && items[i].Stack?
    ensures Mine(items, c, [i]) == Named(items[i].items, |items[i].items|) * c.values.Keys - Inside(items, c, i).used
  {
  }

  /** One more item adds the components of its visible nodes. */
  lemma NextShown(prefix: string, items: seq<Item>, c: Counters, nocollapse: bool, i: nat)
    requires Proper(c) && i < |items|
    requires items[i].Stack? ==>
               && Proper(Inside(items, c, i))
               && var sub := items[i].items;
                  Tallied(prefix + items[i].name + "-", sub, Inside(items, c, i), nocollapse, |sub|).res
                    == Shown(prefix + items[i].name + "-", sub, Inside(items, c, i), nocollapse, Addresses(sub, |sub|))
    ensures Tallied(prefix, items, c, nocollapse, i + 1).res ==
              Tallied(prefix, items, c, nocollapse, i).res + Shown(prefix, items, c, nocollapse, [[i]] + Within(items, i))
  {
    hide Tallied, Shown, ShownOne, Within, Addresses, Inside;
    ShownConcat(prefix, items, c, nocollapse, [[i]], Within(items, i));
    ShownSingle(prefix, items, c, nocollapse, [i]);
    if items[i].Leaf? { NextLeaf(prefix, items, c, nocollapse, i); } else { NextStack(prefix, items, c, nocollapse, i); }
  }

  lemma NextLeaf(prefix: string, items: seq<Item>, c: Counters, nocollapse: bool, i: nat)
    requires Proper(c) && i < |items| && items[i].Leaf?
    ensures Tallied(prefix, items, c, nocollapse, i + 1).res ==
              Tallied(prefix, items, c, nocollapse, i).res + ShownOne(prefix, items, c, nocollapse, [i])
    ensures Shown(prefix, items, c, nocollapse, Within(items, i)) == []
  {
    hide SumOver, Named, Fresh, Inside, Mine, Reaches, Refined;
    TalliedUsed(prefix, items, c, nocollapse, i);
    LeafAmount(items, c, i);
    ReachesOne(items, c, i);
  }

  lemma NextStack(prefix: string, items: seq<Item>, c: Counters, nocollapse: bool, i: nat)
    requires Proper(c) && i < |items| && items[i].Stack? && Proper(Inside(items, c, i))
    requires var sub := items[i].items;
             Tallied(prefix + items[i].name + "-", sub, Inside(items, c, i), nocollapse, |sub|).res
               == Shown(prefix + items[i].name + "-", sub, Inside(items, c, i), nocollapse, Addresses(sub, |sub|))
    ensures Tallied(prefix, items, c, nocollapse, i + 1).res ==
              Tallied(prefix, items, c, nocollapse, i).res + (ShownOne(prefix, items, c, nocollapse, [i]) + Shown(prefix, items, c, nocollapse, Within(items, i)))
  {
    hide SumOver, Named, Inside, Mine, Reaches, Refined, Shown, ShownOne, Addresses, Exceeds, Tallied, Under, IsNode, Amount, Visible;
    var sub, d, p := items[i].items, Inside(items, c, i), prefix + items[i].name + "-";
    var list := Addresses(sub, |sub|);
    forall a | a in list ensures IsNode(sub, a) { AddressesAreNodes(sub, |sub|, a); }
    ShownInside(prefix, items, c, nocollapse, i, list);
    AllSmall(p, sub, d);
    StackItself(prefix, items, c, nocollapse, i);
    AddedStack(prefix, items, c, nocollapse, i);
  }

  /** When the stack itself is visible. */
  lemma StackItself(prefix: string, items: seq<Item>, c: Counters, nocollapse: bool, i: nat)
    requires Proper(c) && i < |items| && items[i].Stack?
    ensures IsNode(items, [i]) && Inside(items, c, i).scale != 0.0
    ensures ShownOne(prefix, items, c, nocollapse, [i]) ==
              if !nocollapse && Exceeds(items, c, [i]) && !Refined(items[i].items, Inside(items, c, i), [])
              then [Component(prefix + items[i].name, Amount(items, c, [i]))] else []
  {
    hide Exceeds, Inside, Amount, Reaches, Refined;
    ReachesOne(items, c, i);
    assert [i] + [] == [i];
    RefinedInside(items, c, i, []);
    RefinedMeans(items[i].items, Inside(items, c, i), []);
  }

  /** What the loop does with a stack. */
  lemma AddedStack(prefix: string, items: seq<Item>, c: Counters, nocollapse: bool, i: nat)
    requires Proper(c) && i < |items| && items[i].Stack? && Proper(Inside(items, c, i)) && IsNode(items, [i])
    ensures var sub := items[i].items;
            var s := Tallied(prefix + items[i].name + "-", sub, Inside(items, c, i), nocollapse, |sub|).res;
            Tallied(prefix, items, c, nocollapse, i + 1).res ==
              Tallied(prefix, items, c, nocollapse, i).res +
                if !nocollapse && !Exceeds(items, c, [i]) then []
                else if !nocollapse && s == [] then [Component(prefix + items[i].name, Amount(items, c, [i]))]
                else s
  {
    hide SumOver, Named, Inside, Mine;
    TalliedUsed(prefix, items, c, nocollapse, i);
    InsideScale(items, c, i);
    var sub := items[i].items;
    TalliedUsed(prefix + items[i].name + "-", sub, Inside(items, c, i), nocollapse, |sub|);
    StackAmount(items, c, i);
  }

  /** The report of the first `n` items lists exactly their visible nodes, in order, each with its path and its counters. */
  lemma {:induction false} ReportedExactly(prefix: string, items: seq<Item>, c: Counters, nocollapse: bool, n: nat)
    requires Proper(c) && n <= |items|
    ensures Tallied(prefix, items, c, nocollapse, n).res == Shown(prefix, items, c, nocollapse, Addresses(items, n))
    decreases items, n
  {
    hide Tallied, Shown, Addresses, Within, Inside;
    if n == 0 {
      NothingTallied(prefix, items, c, nocollapse);
    } else {
      var i := n - 1;
      ReportedExactly(prefix, items, c, nocollapse, i);
      InsideScale(items, c, i);
      if items[i].Stack? {
        var sub := items[i].items;
        ReportedExactly(prefix + items[i].name + "-", sub, Inside(items, c, i), nocollapse, |sub|);
      }
      NextShown(prefix, items, c, nocollapse, i);
      AddressesNext(items, i);
      assert Addresses(items, i) + [[i]] + Within(items, i) == Addresses(items, i) + ([[i]] + Within(items, i));
      ShownConcat(prefix, items, c, nocollapse, Addresses(items, i), [[i]] + Within(items, i));
    }
  }

  lemma NothingTallied(prefix: string, items: seq<Item>, c: Counters, nocollapse: bool)
    requires Proper(c)
    ensures Tallied(prefix, items, c, nocollapse, 0).res == [] && Shown(prefix, items, c, nocollapse, Addresses(items, 0)) == []
  {
  }

  /** All counters of a core, none used. */
  ghost function Fully(values: Values): Counters { Counters(values, {}, Scale(values)) }

  /**
   The report of a core is the list of the visible nodes, followed by `other` with
   the counters that are in none of them, unless that is zero.
   */
  lemma ReportIsShown(items: seq<Item>, values: Values, nocollapse: bool)
    ensures Proper(Fully(values))
    ensures var shown := Shown("", items, Fully(values), nocollapse, Addresses(items, |items|));
            var other := SumOver(values, values.Keys) - BuildStack.Sum(shown);
            var r := Reported(items, values, nocollapse);
            r.res == (if other != 0.0 then shown + [Component("other", other)] else shown) && r.other == other
  {
    hide Shown, Addresses, Collapse, SumOver, BuildStack.Sum;
    ScaleNonZero(values);
    ReportedExactly("", items, Fully(values), nocollapse, |items|);
    ReportConserves(items, values, nocollapse);
    var t := Tallied("", items, Fully(values), nocollapse, |items|);
    SumSnoc(t.res, Component("other", Reported(items, values, nocollapse).other));
  }

  lemma ScaleNonZero(values: Values)
    ensures Scale(values) != 0.0
  {
  }

  lemma {:induction false} ShownHas(prefix: string, items: seq<Item>, c: Counters, nocollapse: bool, s: seq<Address>, x: Component)
    requires c.scale != 0.0
    ensures x in Shown(prefix, items, c, nocollapse, s) <==>
              exists a :: a in s && IsNode(items, a) && Visible(items, c, nocollapse, a) && x == ComponentOf(prefix, items, c, a)
  {
    hide Visible, ComponentOf, IsNode;
    if s != [] {
      var n := |s| - 1;
      if Visible(items, c, nocollapse, s[n]) { VisibleIsNode(items, c, nocollapse, s[n]); }
      ShownHas(prefix, items, c, nocollapse, s[..n], x);
      assert s == s[..n] + [s[n]];
    }
  }

  /** With distinct paths: the path of a node is reported exactly when the node is visible, and then with its counters. */
  lemma PathReported(items: seq<Item>, c: Counters, nocollapse: bool, a: Address)
    requires Proper(c) && IsNode(items, a)
    requires forall b :: IsNode(items, b) && Path(items, b) == Path(items, a) ==> b == a
    ensures (exists x :: x in Tallied("", items, c, nocollapse, |items|).res && x.name == Path(items, a)) <==> Visible(items, c, nocollapse, a)
    ensures Visible(items, c, nocollapse, a) ==> Component(Path(items, a), Amount(items, c, a)) in Tallied("", items, c, nocollapse, |items|).res
  {
    hide Tallied, Shown, Addresses, Visible, Amount;
    ReportedExactly("", items, c, nocollapse, |items|);
    var list := Addresses(items, |items|);
    var res := Shown("", items, c, nocollapse, list);
    var mine := Component(Path(items, a), Amount(items, c, a));
    assert "" + Path(items, a) == Path(items, a);
    AddressesAreNodes(items, |items|, a);
    ShownHas("", items, c, nocollapse, list, mine);
    if x :| x in res && x.name == Path(items, a) {
      ShownHas("", items, c, nocollapse, list, x);
      var b :| b in list && IsNode(items, b) && Visible(items, c, nocollapse, b) && x == ComponentOf("", items, c, b);
      assert "" + Path(items, b) == Path(items, b);
    }
  }

  // ---------------------------------------------------------------------------
  // The names `get_names` lists

  /** The name of a node: its own, for a leaf behind that of the stack it is in. */
  function Label(parent: string, items: seq<Item>, a: Address): string
    requires IsNode(items, a)
    decreases |a|
  {
    if |a| > 1 then Label(items[a[0]].name, items[a[0]].items, a[1..])
    else if items[a[0]].Leaf? && parent != "" then parent + "-" + items[a[0]].name
    else items[a[0]].name
  }

  function LabelOne(parent: string, items: seq<Item>, stacks: bool, a: Address): seq<string> {
    if IsNode(items, a) && (stacks || NodeAt(items, a).Leaf?) then [Label(parent, items, a)] else []
  }

  /** The names of the listed leaves, and of the stacks too if they are wanted. */
  function Labels(parent: string, items: seq<Item>, stacks: bool, s: seq<Address>): seq<string> {
    if s == [] then [] else Labels(parent, items, stacks, s[..|s| - 1]) + LabelOne(parent, items, stacks, s[|s| - 1])
  }

  lemma {:induction false} LabelsConcat(parent: string, items: seq<Item>, stacks: bool, a: seq<Address>, b: seq<Address>)
    ensures Labels(parent, items, stacks, a + b) == Labels(parent, items, stacks, a) + Labels(parent, items, stacks, b)
  {
    hide LabelOne;
    if b == [] {
      assert a + b == a;
    } else {
      LabelsConcat(parent, items, stacks, a, b[..|b| - 1]);
      assert (a + b)[..|a + b| - 1] == a + b[..|b| - 1];
    }
  }

  lemma LabelInside(parent: string, items: seq<Item>, stacks: bool, i: nat, a: Address)
    requires i < |items| && items[i].Stack? && IsNode(items[i].items, a)
    ensures LabelOne(parent, items, stacks, [i] + a) == LabelOne(items[i].name, items[i].items, stacks, a)
  {
    assert ([i] + a)[1..] == a;
  }

  lemma {:induction false} LabelsInside(parent: string, items: seq<Item>, stacks: bool, i: nat, s: seq<Address>)
    requires i < |items| && items[i].Stack? && forall a :: a in s ==> IsNode(items[i].items, a)
    ensures Labels(parent, items, stacks, Under(i, s)) == Labels(items[i].name, items[i].items, stacks, s)
  {
    hide LabelOne, Under, IsNode;
    if s == [] {
      UnderNone(i);
    } else {
      UnderLast(i, s);
      assert s[|s| - 1] in s;
      LabelsInside(parent, items, stacks, i, s[..|s| - 1]);
      LabelInside(parent, items, stacks, i, s[|s| - 1]);
    }
  }

  lemma LabelsSingle(parent: string, items: seq<Item>, stacks: bool, i: nat)
    requires i < |items|
    ensures Labels(parent, items, stacks, [[i]]) ==
              if items[i].Leaf? then [if parent != "" then parent + "-" + items[i].name else items[i].name]
              else if stacks then [items[i].name] else []
  {
    assert [[i]][..0] == [];
  }

  lemma NamesNext(items: seq<Item>, i: nat, parent: string, stacks: bool)
    requires i < |items|
    ensures GetNames(items, i + 1, parent, stacks) == GetNames(items, i, parent, stacks) +
      match items[i]
      case Leaf(name, _, _) => [if parent != "" then parent + "-" + name else name]
      case Stack(name, _, sub) => (if stacks then [name] else []) + GetNames(sub, |sub|, name, stacks)
  {
  }

  /** `get_names` lists the nodes in order, each leaf behind the name of the stack it is directly in. */
  lemma {:induction false} NamesExactly(items: seq<Item>, n: nat, parent: string, stacks: bool)
    requires n <= |items|
    ensures GetNames(items, n, parent, stacks) == Labels(parent, items, stacks, Addresses(items, n))
    decreases items, n
  {
    hide GetNames, Labels, Addresses, Within, Under;
    if n == 0 {
      NoNames(items, parent, stacks);
    } else {
      var i := n - 1;
      NamesExactly(items, i, parent, stacks);
      NamesNext(items, i, parent, stacks);
      AddressesNext(items, i);
      LabelsConcat(parent, items, stacks, Addresses(items, i) + [[i]], Within(items, i));
      LabelsConcat(parent, items, stacks, Addresses(items, i), [[i]]);
      LabelsSingle(parent, items, stacks, i);
      WithinNames(items, i, parent, stacks);
      if items[i].Stack? {
        var sub := items[i].items;
        NamesExactly(sub, |sub|, items[i].name, stacks);
      }
    }
  }

  lemma NoNames(items: seq<Item>, parent: string, stacks: bool)
    ensures GetNames(items, 0, parent, stacks) == [] && Labels(parent, items, stacks, Addresses(items, 0)) == []
  {
  }

  lemma WithinNames(items: seq<Item>, i: nat, parent: string, stacks: bool)
    requires i < |items|
    ensures Labels(parent, items, stacks, Within(items, i)) ==
              if items[i].Leaf? then [] else Labels(items[i].name, items[i].items, stacks, Addresses(items[i].items, |items[i].items|))
  {
    hide LabelOne, Under, IsNode, Addresses;
    if items[i].Stack? {
      var sub := items[i].items;
      forall a | a in Addresses(sub, |sub|) ensures IsNode(sub, a) { AddressesAreNodes(sub, |sub|, a); }
      LabelsInside(parent, items, stacks, i, Addresses(sub, |sub|));
    }
  }
}
