/**
 `merge_items` (tools/buildstack.py): collapsing a set of counters into a stack
 of named components. Numbers are reals.
 */
module BuildStack {

  type Key = string
  type Values = map<Key, real>

  /** An entry of an item list: a component fed by some counters, or a list of sub-components. */
  datatype Item =
    | Leaf(name: string, threshold: real, keys: seq<Key>)
    | Stack(name: string, threshold: real, items: seq<Item>)

  datatype Component = Component(name: string, value: real)

  // ---------------------------------------------------------------------------
  // Sums over sets of counters

  ghost function SumOver(values: Values, keys: set<Key>): real
    requires keys <= values.Keys
  {
    if keys == {} then 0.0
    else
      var k :| k in keys;
      SumOver(values, keys - {k}) + values[k]
  }

  /** The sum does not depend on the order. */
  lemma {:induction false} SumTake(values: Values, keys: set<Key>, k: Key)
    requires keys <= values.Keys && k in keys
    ensures SumOver(values, keys) == SumOver(values, keys - {k}) + values[k]
    decreases |keys|
  {
    var j :| j in keys && SumOver(values, keys) == SumOver(values, keys - {j}) + values[j];
    if j != k {
      SumTake(values, keys - {j}, k);
      SumTake(values, keys - {k}, j);
      assert keys - {j} - {k} == keys - {k} - {j};
    }
  }

  lemma {:induction false} SumSplit(values: Values, a: set<Key>, b: set<Key>)
    requires a + b <= values.Keys && a !! b
    ensures SumOver(values, a + b) == SumOver(values, a) + SumOver(values, b)
    decreases |b|
  {
    if b == {} {
      assert a + b == a;
    } else {
      var k :| k in b;
      SumTake(values, a + b, k);
      SumTake(values, b, k);
      SumSplit(values, a, b - {k});
      assert a + b - {k} == a + (b - {k});
    }
  }

  /** A sum over counters that are kept does not change when others are deleted. */
  lemma {:induction false} SumKept(values: Values, values': Values, keys: set<Key>)
    requires keys <= values.Keys && keys <= values'.Keys && forall k :: k in keys ==> values[k] == values'[k]
    ensures SumOver(values, keys) == SumOver(values', keys)
    decreases |keys|
  {
    if keys != {} {
      var k :| k in keys;
      SumTake(values, keys, k);
      SumTake(values', keys, k);
      SumKept(values, values', keys - {k});
    }
  }

  // ---------------------------------------------------------------------------
  // Collapsing, without deleting anything

  /** What has been collected, and the counters used so far. */
  datatype Tally = Tally(res: seq<Component>, total: real, other: real, used: set<Key>)

  /** The counters a leaf adds: those recorded and not used before. */
  function Fresh(values: Values, used: set<Key>, keys: seq<Key>): set<Key> {
    (set k | k in keys && k in values) - used
  }

  /** A component that is too small, unless nothing is collapsed. */
  predicate Small(value: real, scale: real, threshold: real, nocollapse: bool)
    requires scale != 0.0
  {
    value / scale <= threshold && !nocollapse
  }

  function AddLeaf(t: Tally, name: string, value: real, keys: set<Key>, small: bool): Tally {
    if small then Tally(t.res, t.total + value, t.other + value, t.used + keys)
    else Tally(t.res + [Component(name, value)], t.total + value, t.other, t.used + keys)
  }

  function AddStack(t: Tally, name: string, s: Tally, small: bool, nocollapse: bool): Tally {
    if small then Tally(t.res, t.total + s.total, t.other + s.total, s.used)
    else if s.res == [] && !nocollapse then Tally(t.res + [Component(name, s.total)], t.total + s.total, t.other, s.used)
    else Tally(t.res + s.res, t.total + s.total, t.other + s.other, s.used)
  }

  /** The tally after the first `n` items; each counter goes to the first leaf that names it. */
  ghost function Collapse(prefix: string, items: seq<Item>, n: nat, values: Values, used: set<Key>, scale: real, nocollapse: bool): (t: Tally)
    requires n <= |items| && used <= values.Keys && scale != 0.0
    ensures used <= t.used <= values.Keys
    decreases items, n
  {
    if n == 0 then Tally([], 0.0, 0.0, used)
    else
      var t := Collapse(prefix, items, n - 1, values, used, scale, nocollapse);
      match items[n - 1]
      case Leaf(name, threshold, keys) =>
        var mine := Fresh(values, t.used, keys);
        var value := SumOver(values, mine);
        AddLeaf(t, prefix + name, value, mine, Small(value, scale, threshold, nocollapse))
      case Stack(name, threshold, sub) =>
        var s := Collapse(prefix + name + "-", sub, |sub|, values, t.used, scale, nocollapse);
        AddStack(t, prefix + name, s, Small(s.total, scale, threshold, nocollapse), nocollapse)
  }

  function Sum(res: seq<Component>): real {
    if res == [] then 0.0 else Sum(res[..|res| - 1]) + res[|res| - 1].value
  }

  lemma {:induction false} SumConcat(a: seq<Component>, b: seq<Component>)
    ensures Sum(a + b) == Sum(a) + Sum(b)
  {
    if b == [] {
      assert a + b == a;
    } else {
      SumConcat(a, b[..|b| - 1]);
      assert (a + b)[..|a + b| - 1] == a + b[..|b| - 1];
    }
  }

  lemma SumSnoc(a: seq<Component>, c: Component)
    ensures Sum(a + [c]) == Sum(a) + c.value
  {
    assert (a + [c])[..|a|] == a;
  }

  /** The components kept and `other` add up to the total. */
  predicate Balanced(t: Tally) { Sum(t.res) + t.other == t.total }

  lemma LeafBalances(t: Tally, name: string, value: real, keys: set<Key>, small: bool)
    requires Balanced(t)
    ensures Balanced(AddLeaf(t, name, value, keys, small))
  {
    SumSnoc(t.res, Component(name, value));
  }

  lemma StackBalances(t: Tally, name: string, s: Tally, small: bool, nocollapse: bool)
    requires Balanced(t) && Balanced(s)
    ensures Balanced(AddStack(t, name, s, small, nocollapse))
  {
    SumSnoc(t.res, Component(name, s.total));
    SumConcat(t.res, s.res);
  }

  /** Every level balances. */
  lemma {:induction false} LevelBalances(prefix: string, items: seq<Item>, n: nat, values: Values, used: set<Key>, scale: real, nocollapse: bool)
    requires n <= |items| && used <= values.Keys && scale != 0.0
    ensures Balanced(Collapse(prefix, items, n, values, used, scale, nocollapse))
    decreases items, n
  {
    if n == 0 { return; }
    hide Balanced, AddLeaf, AddStack, Small, Fresh;
    LevelBalances(prefix, items, n - 1, values, used, scale, nocollapse);
    var t := Collapse(prefix, items, n - 1, values, used, scale, nocollapse);
    match items[n - 1]
    case Leaf(name, threshold, keys) =>
      var mine := Fresh(values, t.used, keys);
      var value := SumOver(values, mine);
      LeafBalances(t, prefix + name, value, mine, Small(value, scale, threshold, nocollapse));
    case Stack(name, threshold, sub) =>
      var s := Collapse(prefix + name + "-", sub, |sub|, values, t.used, scale, nocollapse);
      LevelBalances(prefix + name + "-", sub, |sub|, values, t.used, scale, nocollapse);
      StackBalances(t, prefix + name, s, Small(s.total, scale, threshold, nocollapse), nocollapse);
  }

  /** All counters named by the first `n` items. */
  function Named(items: seq<Item>, n: nat): set<Key>
    requires n <= |items|
    decreases items, n
  {
    if n == 0 then {}
    else
      Named(items, n - 1) +
      match items[n - 1]
      case Leaf(_, _, keys) => set k | k in keys
      case Stack(_, _, sub) => Named(sub, |sub|)
  }

  /** The total is the sum of the counters named, each counted once however often it is named. */
  lemma {:induction false} CountedOnce(prefix: string, items: seq<Item>, n: nat, values: Values, used: set<Key>, scale: real, nocollapse: bool)
    requires n <= |items| && used <= values.Keys && scale != 0.0
    ensures var t := Collapse(prefix, items, n, values, used, scale, nocollapse);
      t.used == used + Named(items, n) * values.Keys && t.total == SumOver(values, t.used - used)
    decreases items, n
  {
    hide SumOver, Fresh, Small, AddLeaf, AddStack;
    if n == 0 {
      CountedNone(values, used);
    } else {
      CountedOnce(prefix, items, n - 1, values, used, scale, nocollapse);
      var t := Collapse(prefix, items, n - 1, values, used, scale, nocollapse);
      match items[n - 1]
      case Leaf(name, threshold, keys) =>
        FreshKeys(values, t.used, keys);
        var value := SumOver(values, Fresh(values, t.used, keys));
        CountLeaf(t, values, used, Named(items, n - 1), keys, prefix + name, Small(value, scale, threshold, nocollapse));
      case Stack(name, threshold, sub) =>
        var s := Collapse(prefix + name + "-", sub, |sub|, values, t.used, scale, nocollapse);
        CountedOnce(prefix + name + "-", sub, |sub|, values, t.used, scale, nocollapse);
        CountStack(t, values, used, Named(items, n - 1), s, Named(sub, |sub|), prefix + name, Small(s.total, scale, threshold, nocollapse), nocollapse);
    }
  }

  lemma CountedNone(values: Values, used: set<Key>)
    ensures used + {} * values.Keys == used && used - used == {} && SumOver(values, {}) == 0.0
  {
  }

  /** `t` has counted the counters of `named` that were not in `used` before. */
  ghost predicate Counts(t: Tally, values: Values, used: set<Key>, named: set<Key>)
    requires used <= values.Keys
  {
    t.used == used + named * values.Keys && t.total == SumOver(values, t.used - used)
  }

  lemma CountLeaf(t: Tally, values: Values, used: set<Key>, named: set<Key>, keys: seq<Key>, name: string, small: bool)
    requires used <= values.Keys && Counts(t, values, used, named)
    ensures var mine := Fresh(values, t.used, keys);
      mine <= values.Keys && Counts(AddLeaf(t, name, SumOver(values, mine), mine, small), values, used, named + (set k | k in keys))
  {
    hide SumOver, Fresh;
    FreshKeys(values, t.used, keys);
    Chain(values, used, t.used, t.used + Fresh(values, t.used, keys));
  }

  lemma CountStack(t: Tally, values: Values, used: set<Key>, named: set<Key>, s: Tally, inner: set<Key>, name: string, small: bool, nocollapse: bool)
    requires used <= values.Keys && Counts(t, values, used, named) && Counts(s, values, t.used, inner)
    ensures Counts(AddStack(t, name, s, small, nocollapse), values, used, named + inner)
  {
    hide SumOver;
    Chain(values, used, t.used, s.used);
  }

  lemma FreshKeys(values: Values, used: set<Key>, keys: seq<Key>)
    requires used <= values.Keys
    ensures var mine := Fresh(values, used, keys);
      mine <= values.Keys && used + mine - used == mine && used + mine == used + (set k | k in keys) * values.Keys
  {
  }

  lemma Chain(values: Values, a: set<Key>, b: set<Key>, c: set<Key>)
    requires a <= b <= c <= values.Keys
    ensures SumOver(values, c - a) == SumOver(values, b - a) + SumOver(values, c - b)
  {
    SumSplit(values, b - a, c - b);
    assert c - a == (b - a) + (c - b);
  }

  // ---------------------------------------------------------------------------
  // The report of one core

  datatype Report = Report(res: seq<Component>, total: real, other: real, scale: real)

  ghost function Scale(values: Values): real {
    var sum := SumOver(values, values.Keys);
    if sum == 0.0 then 1.0 else sum
  }

  ghost function Reported(items: seq<Item>, values: Values, nocollapse: bool): Report {
    var t := Collapse("", items, |items|, values, {}, Scale(values), nocollapse);
    var other := t.other + SumOver(values, values.Keys - t.used);
    Report(if other != 0.0 then t.res + [Component("other", other)] else t.res, t.total, other, Scale(values))
  }

  /** The reported components add up to all counters, and `total` to the counters that some item names. */
  lemma ReportConserves(items: seq<Item>, values: Values, nocollapse: bool)
    ensures var r := Reported(items, values, nocollapse);
      && Sum(r.res) == SumOver(values, values.Keys) && r.total == SumOver(values, Named(items, |items|) * values.Keys)
      && (SumOver(values, values.Keys) == 0.0 ==> r.scale == 1.0) && (SumOver(values, values.Keys) != 0.0 ==> r.scale == SumOver(values, values.Keys))
  {
    hide Collapse, Named, SumOver;
    var t := Collapse("", items, |items|, values, {}, Scale(values), nocollapse);
    LevelBalances("", items, |items|, values, {}, Scale(values), nocollapse);
    CountedOnce("", items, |items|, values, {}, Scale(values), nocollapse);
    Chain(values, {}, t.used, values.Keys);
    assert values.Keys - {} == values.Keys && t.used - {} == t.used && t.used == Named(items, |items|) * values.Keys;
    SumSnoc(t.res, Component("other", t.other + SumOver(values, values.Keys - t.used)));
  }

  // ---------------------------------------------------------------------------
  // Names

  function Names(res: seq<Component>): seq<string> { seq(|res|, i requires 0 <= i < |res| => res[i].name) }

  /** The leaves with the path that leads to each. */
  function LeafNames(prefix: string, items: seq<Item>, n: nat): seq<string>
    requires n <= |items|
    decreases items, n
  {
    if n == 0 then []
    else
      LeafNames(prefix, items, n - 1) +
      match items[n - 1]
      case Leaf(name, _, _) => [prefix + name]
      case Stack(name, _, sub) => LeafNames(prefix + name + "-", sub, |sub|)
  }

  /** Nothing was collapsed: `names` are the names of all components, and there is no `other`. */
  predicate Complete(t: Tally, names: seq<string>) { Names(t.res) == names && t.other == 0.0 }

  lemma CompleteSteps(t: Tally, names: seq<string>, name: string, value: real, keys: set<Key>, s: Tally, more: seq<string>)
    requires Complete(t, names)
    ensures Complete(AddLeaf(t, name, value, keys, false), names + [name])
    ensures Complete(s, more) ==> Complete(AddStack(t, name, s, false, true), names + more)
  {
  }

  /** Without collapsing, every leaf is reported under its path, and nothing goes to `other`. */
  lemma {:induction false} NothingCollapsed(prefix: string, items: seq<Item>, n: nat, values: Values, used: set<Key>, scale: real)
    requires n <= |items| && used <= values.Keys && scale != 0.0
    ensures Complete(Collapse(prefix, items, n, values, used, scale, true), LeafNames(prefix, items, n))
    decreases items, n
  {
    if n > 0 {
      hide SumOver, Fresh, Complete, AddLeaf, AddStack;
      NothingCollapsed(prefix, items, n - 1, values, used, scale);
      var t, names := Collapse(prefix, items, n - 1, values, used, scale, true), LeafNames(prefix, items, n - 1);
      match items[n - 1]
      case Leaf(name, threshold, keys) =>
        var mine := Fresh(values, t.used, keys);
        CompleteSteps(t, names, prefix + name, SumOver(values, mine), mine, t, []);
      case Stack(name, threshold, sub) =>
        NothingCollapsed(prefix + name + "-", sub, |sub|, values, t.used, scale);
        var s := Collapse(prefix + name + "-", sub, |sub|, values, t.used, scale, true);
        CompleteSteps(t, names, prefix + name, 0.0, {}, s, LeafNames(prefix + name + "-", sub, |sub|));
    } else {
      assert Names([]) == [];
    }
  }

  /** `get_names`, without its filter on the top level. */
  function GetNames(items: seq<Item>, n: nat, prefix: string, addPrefixes: bool): seq<string>
    requires n <= |items|
    decreases items, n
  {
    if n == 0 then []
    else
      GetNames(items, n - 1, prefix, addPrefixes) +
      match items[n - 1]
      case Leaf(name, _, _) => [if prefix != "" then prefix + "-" + name else name]
      case Stack(name, _, sub) => (if addPrefixes then [name] else []) + GetNames(sub, |sub|, name, addPrefixes)
  }

  predicate HasLeaf(items: seq<Item>, n: nat)
    requires n <= |items|
    decreases items, n
  {
    n > 0 && (HasLeaf(items, n - 1) || items[n - 1].Leaf? || HasLeaf(items[n - 1].items, |items[n - 1].items|))
  }

  /** No stack with leaves in the first `n` items. */
  predicate OneLevel(items: seq<Item>, n: nat)
    requires n <= |items|
  {
    forall i :: 0 <= i < n && items[i].Stack? ==> !HasLeaf(items[i].items, |items[i].items|)
  }

  /** Leaves are at the top or in a stack at the top that has a name. */
  predicate TwoLevels(items: seq<Item>, n: nat)
    requires n <= |items|
  {
    forall i :: 0 <= i < n && items[i].Stack? && HasLeaf(items[i].items, |items[i].items|) ==>
      items[i].name != "" && OneLevel(items[i].items, |items[i].items|)
  }

  function Length(names: seq<string>): nat {
    if names == [] then 0 else Length(names[..|names| - 1]) + |names[|names| - 1]|
  }

  lemma {:induction false} LengthConcat(a: seq<string>, b: seq<string>)
    ensures Length(a + b) == Length(a) + Length(b)
  {
    if b == [] {
      assert a + b == a;
    } else {
      LengthConcat(a, b[..|b| - 1]);
      assert (a + b)[..|a + b| - 1] == a + b[..|b| - 1];
    }
  }

  function PrefixLength(prefix: string): nat { if prefix == "" then 0 else |prefix| + 1 }

  /** The name `get_names` gives a leaf. */
  function ShortName(prefix: string, name: string): string { if prefix != "" then prefix + "-" + name else name }

  function PathsOf(path: string, item: Item): seq<string> {
    match item
    case Leaf(name, _, _) => [path + name]
    case Stack(name, _, sub) => LeafNames(path + name + "-", sub, |sub|)
  }

  function NamesOf(prefix: string, item: Item): seq<string> {
    match item
    case Leaf(name, _, _) => [ShortName(prefix, name)]
    case Stack(name, _, sub) => GetNames(sub, |sub|, name, false)
  }

  lemma LastPaths(path: string, items: seq<Item>, n: nat)
    requires 0 < n <= |items|
    ensures LeafNames(path, items, n) == LeafNames(path, items, n - 1) + PathsOf(path, items[n - 1])
  {
  }

  lemma LastNames(prefix: string, items: seq<Item>, n: nat)
    requires 0 < n <= |items|
    ensures GetNames(items, n, prefix, false) == GetNames(items, n - 1, prefix, false) + NamesOf(prefix, items[n - 1])
  {
    match items[n - 1]
    case Leaf(_, _, _) =>
    case Stack(name, _, sub) => assert [] + GetNames(sub, |sub|, name, false) == GetNames(sub, |sub|, name, false);
  }

  lemma LastItem(path: string, prefix: string, items: seq<Item>, n: nat)
    requires 0 < n <= |items|
    ensures LeafNames(path, items, n) == LeafNames(path, items, n - 1) + PathsOf(path, items[n - 1])
    ensures GetNames(items, n, prefix, false) == GetNames(items, n - 1, prefix, false) + NamesOf(prefix, items[n - 1])
    ensures Length(LeafNames(path, items, n)) == Length(LeafNames(path, items, n - 1)) + Length(PathsOf(path, items[n - 1]))
    ensures Length(GetNames(items, n, prefix, false)) == Length(GetNames(items, n - 1, prefix, false)) + Length(NamesOf(prefix, items[n - 1]))
  {
    hide Length, LeafNames, GetNames, PathsOf, NamesOf;
    LastPaths(path, items, n);
    LastNames(prefix, items, n);
    LengthConcat(LeafNames(path, items, n - 1), PathsOf(path, items[n - 1]));
    LengthConcat(GetNames(items, n - 1, prefix, false), NamesOf(prefix, items[n - 1]));
  }

  lemma NothingNamed(path: string, prefix: string, items: seq<Item>)
    ensures LeafNames(path, items, 0) == [] && GetNames(items, 0, prefix, false) == [] && !HasLeaf(items, 0)
  {
  }

  lemma LengthOne(name: string)
    ensures Length([name]) == |name|
  {
  }

  /** `get_names` never uses more letters than the paths, and fewer if its prefix is shorter. */
  lemma {:induction false} NamesShorter(path: string, prefix: string, items: seq<Item>, n: nat)
    requires n <= |items| && PrefixLength(prefix) <= |path|
    ensures Length(GetNames(items, n, prefix, false)) <= Length(LeafNames(path, items, n))
    ensures HasLeaf(items, n) && PrefixLength(prefix) < |path| ==>
      Length(GetNames(items, n, prefix, false)) < Length(LeafNames(path, items, n))
    decreases items, n
  {
    hide Length, GetNames, LeafNames;
    if n == 0 {
      NothingNamed(path, prefix, items);
      return;
    }
    NamesShorter(path, prefix, items, n - 1);
    LastItem(path, prefix, items, n);
    match items[n - 1]
    case Leaf(name, _, _) =>
      LengthOne(path + name);
      LengthOne(ShortName(prefix, name));
    case Stack(name, _, sub) =>
      NamesShorter(path + name + "-", name, sub, |sub|);
  }

  lemma {:induction false} NoLeafNoName(path: string, prefix: string, items: seq<Item>, n: nat)
    requires n <= |items| && !HasLeaf(items, n)
    ensures LeafNames(path, items, n) == [] && GetNames(items, n, prefix, false) == []
    decreases items, n
  {
    if n > 0 {
      NoLeafNoName(path, prefix, items, n - 1);
      LastItem(path, prefix, items, n);
      var name, sub := items[n - 1].name, items[n - 1].items;
      NoLeafNoName(path + name + "-", name, sub, |sub|);
    }
  }

  /** Inside a stack with a name: one level agrees, and more levels lose letters. */
  lemma {:induction false} InsideStack(name: string, items: seq<Item>, n: nat)
    requires n <= |items| && name != ""
    ensures OneLevel(items, n) ==> GetNames(items, n, name, false) == LeafNames(name + "-", items, n)
    ensures !OneLevel(items, n) ==> Length(GetNames(items, n, name, false)) < Length(LeafNames(name + "-", items, n))
  {
    hide Length, GetNames, LeafNames, HasLeaf;
    if n == 0 {
      NothingNamed(name + "-", name, items);
      return;
    }
    InsideStack(name, items, n - 1);
    NamesShorter(name + "-", name, items, n - 1);
    LastItem(name + "-", name, items, n);
    match items[n - 1]
    case Leaf(leaf, _, _) =>
      assert ShortName(name, leaf) == name + "-" + leaf;
      assert OneLevel(items, n) <==> OneLevel(items, n - 1);
    case Stack(m, _, sub) =>
      NamesShorter(name + "-" + m + "-", m, sub, |sub|);
      if !HasLeaf(sub, |sub|) { NoLeafNoName(name + "-" + m + "-", m, sub, |sub|); }
      assert OneLevel(items, n) <==> OneLevel(items, n - 1) && !HasLeaf(sub, |sub|);
  }

  lemma {:induction false} AtTop(items: seq<Item>, n: nat)
    requires n <= |items|
    ensures TwoLevels(items, n) ==> GetNames(items, n, "", false) == LeafNames("", items, n)
    ensures !TwoLevels(items, n) ==> Length(GetNames(items, n, "", false)) < Length(LeafNames("", items, n))
  {
    hide Length, GetNames, LeafNames, HasLeaf, OneLevel;
    if n == 0 {
      NothingNamed("", "", items);
      return;
    }
    AtTop(items, n - 1);
    NamesShorter("", "", items, n - 1);
    LastItem("", "", items, n);
    match items[n - 1]
    case Leaf(leaf, _, _) =>
      assert "" + leaf == leaf;
      assert TwoLevels(items, n) <==> TwoLevels(items, n - 1);
    case Stack(m, _, sub) =>
      assert "" + m + "-" == m + "-";
      NamesShorter(m + "-", m, sub, |sub|);
      if !HasLeaf(sub, |sub|) { NoLeafNoName(m + "-", m, sub, |sub|); }
      else if m != "" { InsideStack(m, sub, |sub|); }
      assert TwoLevels(items, n) <==> TwoLevels(items, n - 1) && (HasLeaf(sub, |sub|) ==> m != "" && OneLevel(sub, |sub|));
  }

  /**
   Without collapsing, the components are named as `get_names` lists the leaves
   exactly when no leaf is deeper than a stack at the top that has a name:
   `get_names` forgets the outer part of a longer path.
   */
  lemma NamesAgree(items: seq<Item>, values: Values, scale: real)
    requires scale != 0.0
    ensures Names(Collapse("", items, |items|, values, {}, scale, true).res) == GetNames(items, |items|, "", false)
            <==> TwoLevels(items, |items|)
  {
    NothingCollapsed("", items, |items|, values, {}, scale);
    AtTop(items, |items|);
    hide Collapse, GetNames, LeafNames, TwoLevels, Length;
  }

  // ---------------------------------------------------------------------------
  // Collapsing by deletion

  /** `sum(values.values())`, in any order. */
  method SumValues(values: Values) returns (sum: real)
    ensures sum == SumOver(values, values.Keys)
  {
    sum := 0.0;
    var todo := values.Keys;
    while todo != {}
      invariant todo <= values.Keys
      invariant sum + SumOver(values, todo) == SumOver(values, values.Keys)
    {
      var k :| k in todo;
      SumTake(values, todo, k);
      sum := sum + values[k];
      todo := todo - {k};
    }
  }

  lemma NoKey(all: Values, used: set<Key>, keys: seq<Key>)
    ensures Fresh(all, used, keys[..0]) == {} && used + {} == used && SumOver(all, {}) == 0.0
  {
  }

  /** One more key of a leaf: it counts if it is recorded and has not been used. */
  lemma NextKey(all: Values, used: set<Key>, keys: seq<Key>, i: nat)
    requires i < |keys| && used <= all.Keys
    ensures var mine, more, k := Fresh(all, used, keys[..i]), Fresh(all, used, keys[..i + 1]), keys[i];
      if k in all - (used + mine)
      then all - (used + more) == all - (used + mine) - {k} && SumOver(all, more) == SumOver(all, mine) + (all - (used + mine))[k]
      else more == mine
    ensures Fresh(all, used, keys[..i + 1]) <= all.Keys
  {
    var mine, more, k := Fresh(all, used, keys[..i]), Fresh(all, used, keys[..i + 1]), keys[i];
    assert keys[..i + 1] == keys[..i] + [k];
    if k in all - (used + mine) {
      assert more == mine + {k};
      SumTake(all, more, k);
      assert more - {k} == mine;
      assert used + more == (used + mine) + {k};
    } else {
      assert more == mine;
    }
  }

  class Merger {
    const scale: real
    const nocollapse: bool
    var values: Values // the counters no item has claimed yet

    constructor (values: Values, scale: real, nocollapse: bool)
      ensures this.values == values && this.scale == scale && this.nocollapse == nocollapse
    {
      this.values, this.scale, this.nocollapse := values, scale, nocollapse;
    }

    /** Of the counters `all`, those in `used` have been deleted. */
    ghost predicate Left(all: Values, used: set<Key>) reads this {
      used <= all.Keys && values == all - used
    }

    /** Claim the counters of a leaf. */
    method Claim(keys: seq<Key>, ghost all: Values, ghost used: set<Key>) returns (value: real)
      requires Left(all, used)
      modifies this
      ensures Left(all, used + Fresh(all, used, keys))
      ensures value == SumOver(all, Fresh(all, used, keys))
    {
      hide Fresh, SumOver;
      value := 0.0;
      NoKey(all, used, keys);
      for i := 0 to |keys|
        invariant Left(all, used + Fresh(all, used, keys[..i]))
        invariant value == SumOver(all, Fresh(all, used, keys[..i]))
      {
        NextKey(all, used, keys, i);
        var key := keys[i];
        if key in values {
          value := value + values[key];
          values := values - {key};
        }
      }
      assert keys[..|keys|] == keys;
    }

    /** `get_items`. */
    method GetItems(prefix: string, items: seq<Item>, ghost all: Values, ghost used: set<Key>)
      returns (res: seq<Component>, total: real, other: real)
      requires Left(all, used) && scale != 0.0
      modifies this
      ensures var t := Collapse(prefix, items, |items|, all, used, scale, nocollapse);
        res == t.res && total == t.total && other == t.other && Left(all, t.used)
      decreases items
    {
      hide SumOver, Fresh;
      res, total, other := [], 0.0, 0.0;
      for i := 0 to |items|
        invariant used <= all.Keys
        invariant var t := Collapse(prefix, items, i, all, used, scale, nocollapse);
          res == t.res && total == t.total && other == t.other && Left(all, t.used)
      {
        ghost var t := Collapse(prefix, items, i, all, used, scale, nocollapse);
        match items[i]
        case Leaf(name, threshold, keys) =>
          var value := Claim(keys, all, t.used);
          total := total + value;
          if value / scale <= threshold && !nocollapse {
            other := other + value;
          } else {
            res := res + [Component(prefix + name, value)];
          }
        case Stack(name, threshold, sub) =>
          var res', total', other' := GetItems(prefix + name + "-", sub, all, t.used);
          total := total + total';
          if total' / scale <= threshold && !nocollapse {
            other := other + total';
          } else if res' == [] && !nocollapse {
            res := res + [Component(prefix + name, total')];
          } else {
            res := res + res';
            other := other + other';
          }
      }
    }
  }

  /** `merge_items` on the counters of one core. */
  method MergeItems(values: Values, items: seq<Item>, nocollapse: bool) returns (r: Report)
    ensures r == Reported(items, values, nocollapse)
    ensures Sum(r.res) == SumOver(values, values.Keys)
  {
    var sum := SumValues(values);
    var scale := if sum == 0.0 then 1.0 else sum;
    var merger := new Merger(values, scale, nocollapse);
    assert values - {} == values;
    var res, total, other := merger.GetItems("", items, values, {});
    ghost var used := Collapse("", items, |items|, values, {}, scale, nocollapse).used;
    var left := SumValues(merger.values);
    assert merger.values.Keys == values.Keys - used;
    SumKept(values, merger.values, values.Keys - used);
    other := other + left;
    if other != 0.0 {
      res := res + [Component("other", other)];
    }
    r := Report(res, total, other, scale);
    ReportConserves(items, values, nocollapse);
  }
}
