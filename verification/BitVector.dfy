/**
 `BitVector` (common/misc/bit_vector.cc, common/misc/bit_vector.h): a set of
 small numbers kept in 64-bit words, with an iterator.
 */
module BitVector {
  import opened Basics

  // ---------------------------------------------------------------------------
  // Words are numbers below 2^64; the bit operations of the source on them

  function Power(k: nat): (r: nat)
    ensures r > 0
  {
    if k == 0 then 1 else 2 * Power(k - 1)
  }

  predicate Bit(w: nat, k: nat) { if k == 0 then w % 2 == 1 else Bit(w / 2, k - 1) }

  function And(a: nat, b: nat): nat {
    if a == 0 then 0 else 2 * And(a / 2, b / 2) + if a % 2 == 1 && b % 2 == 1 then 1 else 0
  }

  function Or(a: nat, b: nat): nat
    decreases a + b
  {
    if a == 0 && b == 0 then 0 else 2 * Or(a / 2, b / 2) + if a % 2 == 1 || b % 2 == 1 then 1 else 0
  }

  /** `a & ~b`. */
  function AndNot(a: nat, b: nat): nat {
    if a == 0 then 0 else 2 * AndNot(a / 2, b / 2) + if a % 2 == 1 && b % 2 == 0 then 1 else 0
  }

  /** `a >> n`. */
  function Shift(a: nat, n: nat): nat { if n == 0 then a else Shift(a / 2, n - 1) }

  lemma {:induction false} ZeroHasNoBit(k: nat)
    ensures !Bit(0, k)
  {
    if k > 0 { ZeroHasNoBit(k - 1); }
  }

  lemma {:induction false} PowerBit(k: nat, j: nat)
    ensures Bit(Power(k), j) <==> j == k
  {
    if j > 0 && k > 0 {
      PowerBit(k - 1, j - 1);
      assert Power(k) / 2 == Power(k - 1);
    } else if j > 0 {
      ZeroHasNoBit(j - 1);
      assert Power(k) / 2 == 0;
    }
  }

  lemma OrHalves(a: nat, b: nat)
    ensures Or(a, b) / 2 == Or(a / 2, b / 2) && (Or(a, b) % 2 == 1 <==> a % 2 == 1 || b % 2 == 1)
  {
  }

  lemma {:induction false} OrBit(a: nat, b: nat, k: nat)
    ensures Bit(Or(a, b), k) <==> Bit(a, k) || Bit(b, k)
  {
    hide Or;
    OrHalves(a, b);
    if k > 0 { OrBit(a / 2, b / 2, k - 1); }
  }

  lemma AndHalves(a: nat, b: nat)
    ensures And(a, b) / 2 == And(a / 2, b / 2) && (And(a, b) % 2 == 1 <==> a % 2 == 1 && b % 2 == 1)
  {
  }

  lemma {:induction false} AndBit(a: nat, b: nat, k: nat)
    ensures Bit(And(a, b), k) <==> Bit(a, k) && Bit(b, k)
  {
    hide And;
    AndHalves(a, b);
    if k > 0 { AndBit(a / 2, b / 2, k - 1); }
  }

  lemma AndNotHalves(a: nat, b: nat)
    ensures AndNot(a, b) / 2 == AndNot(a / 2, b / 2) && (AndNot(a, b) % 2 == 1 <==> a % 2 == 1 && b % 2 == 0)
  {
  }

  lemma {:induction false} AndNotBit(a: nat, b: nat, k: nat)
    ensures Bit(AndNot(a, b), k) <==> Bit(a, k) && !Bit(b, k)
  {
    hide AndNot;
    AndNotHalves(a, b);
    if k > 0 { AndNotBit(a / 2, b / 2, k - 1); }
  }

  /** Testing with a mask tests one bit. */
  lemma {:induction false} AndPower(w: nat, k: nat)
    ensures And(w, Power(k)) != 0 <==> Bit(w, k)
  {
    if w == 0 {
      ZeroHasNoBit(k);
    } else if k > 0 {
      AndPower(w / 2, k - 1);
      assert Power(k) / 2 == Power(k - 1) && Power(k) % 2 == 0;
    } else {
      AndZero(w / 2);
      assert Power(k) / 2 == 0;
    }
  }

  lemma {:induction false} AndZero(a: nat)
    ensures And(a, 0) == 0
  {
    if a > 0 { AndZero(a / 2); }
  }

  lemma {:induction false} Bounds(a: nat, b: nat, n: nat)
    requires a < Power(n) && b < Power(n)
    ensures Or(a, b) < Power(n) && AndNot(a, b) < Power(n)
  {
    if n > 0 { Bounds(a / 2, b / 2, n - 1); }
  }

  lemma {:induction false} PowerGrows(k: nat, n: nat)
    requires k < n
    ensures Power(k) < Power(n)
  {
    if k < n - 1 { PowerGrows(k, n - 1); }
  }

  /** Shifting right moves the bits down. */
  lemma {:induction false} HighBits(w: nat, n: nat, k: nat)
    ensures Bit(Shift(w, n), k) <==> Bit(w, n + k)
  {
    if n > 0 { HighBits(w / 2, n - 1, k); }
  }

  lemma {:induction false} OnesBit(n: nat, k: nat)
    ensures Bit(Power(n) - 1, k) <==> k < n
  {
    if n == 0 {
      ZeroHasNoBit(k);
    } else if k > 0 {
      OnesBit(n - 1, k - 1);
      assert (Power(n) - 1) / 2 == Power(n - 1) - 1;
    }
  }

  /** The low part of a word has its low bits. */
  lemma LowBits(w: nat, n: nat, k: nat)
    requires k < n
    ensures Bit(And(w, Power(n) - 1), k) <==> Bit(w, k)
  {
    AndBit(w, Power(n) - 1, k);
    OnesBit(n, k);
  }

  // ---------------------------------------------------------------------------
  // Finding a bit

  /** `r` is the first position after `last` of a bit among the low `width` bits of `w`, which stand at `base`; -1 if there is none. */
  predicate First(w: nat, width: nat, base: nat, last: int, r: int) {
    if r == -1 then forall b: nat :: b < width && Bit(w, b) ==> base + b <= last
    else
      && base <= r < base + width && Bit(w, r - base) && r > last
      && forall b: nat :: b < width && Bit(w, b) && base + b < r ==> base + b <= last
  }

  /** First the low half, then the high half. */
  lemma Halves(w: nat, half: nat, base: nat, last: int, low: int, high: int)
    requires First(And(w, Power(half) - 1), half, base, last, low)
    requires low == -1 ==> First(Shift(w, half), half, base + half, last, high)
    ensures First(w, 2 * half, base, last, if low != -1 then low else high)
  {
    forall b: nat | b < half ensures Bit(And(w, Power(half) - 1), b) <==> Bit(w, b) { LowBits(w, half, b); }
    forall b: nat | half <= b < 2 * half ensures Bit(Shift(w, half), b - half) <==> Bit(w, b) { HighBits(w, half, b - half); }
    hide Bit, And, Shift, Power;
    var r := if low != -1 then low else high;
    forall b: nat | b < 2 * half && Bit(w, b) && (r == -1 || base + b < r) ensures base + b <= last {
      if b < half { assert Bit(And(w, Power(half) - 1), b); } else { assert Bit(Shift(w, half), b - half); }
    }
  }

  /** A part of a word that is zero holds no bit. */
  lemma ZeroFirst(width: nat, base: nat, last: int)
    ensures First(0, width, base, last, -1)
  {
    forall b: nat ensures !Bit(0, b) { ZeroHasNoBit(b); }
  }

  /** `bTestBit`. */
  function TestBit(byte: nat, bit: nat): (r: bool)
    ensures r == Bit(byte, bit)
  {
    AndPower(byte, bit);
    And(byte, Power(bit)) != 0
  }

  /** The innermost loop of `find`. */
  method FindInByte(w: nat, base: nat, last: int) returns (r: int)
    ensures First(w, 8, base, last, r)
  {
    for l := 0 to 8
      invariant forall b: nat :: b < l && Bit(w, b) ==> base + b <= last
    {
      if TestBit(w, l) && base + l > last {
        return base + l;
      }
    }
    return -1;
  }

  /** The loops of `find` over the halves of a word, over the halves of these, and over their bytes. */
  method FindInParts(w: nat, half: nat, base: nat, last: int) returns (r: int)
    requires half == 8 || half == 16 || half == 32
    ensures First(w, 2 * half, base, last, r)
    decreases half
  {
    hide And, Shift, Power, First;
    var parts := [And(w, Power(half) - 1), Shift(w, half)];
    for i := 0 to 2
      invariant i >= 1 ==> First(parts[0], half, base, last, -1)
      invariant i >= 2 ==> First(parts[1], half, base + half, last, -1)
    {
      if parts[i] != 0 {
        if half == 8 {
          r := FindInByte(parts[i], base + half * i, last);
        } else {
          r := FindInParts(parts[i], half / 2, base + half * i, last);
        }
        if r != -1 {
          Halves(w, half, base, last, if i == 0 then r else -1, r);
          return;
        }
      } else {
        ZeroFirst(half, base + half * i, last);
      }
    }
    Halves(w, half, base, last, -1, -1);
    return -1;
  }

  // ---------------------------------------------------------------------------
  // The set and its iterator

  ghost function Members(words: seq<nat>): set<nat> {
    set p: nat | p < 64 * |words| && Bit(words[p / 64], p % 64)
  }

  /** `r` is the next member after `last`, or -1 after the last one. */
  ghost predicate Next(s: set<nat>, last: int, r: int) {
    if r == -1 then forall m :: m in s ==> m <= last
    else r > last && r >= 0 && r in s && forall m :: m in s && m > last ==> r <= m
  }

  lemma WordUpdate(words: seq<nat>, bit: nat, w: nat)
    requires bit < 64 * |words|
    requires forall j: nat :: j < 64 && j != bit % 64 ==> (Bit(w, j) <==> Bit(words[bit / 64], j))
    ensures var words' := words[bit / 64 := w];
      Members(words') == if Bit(w, bit % 64) then Members(words) + {bit} else Members(words) - {bit}
  {
    hide Bit;
    var words' := words[bit / 64 := w];
    forall p: nat | p < 64 * |words| && p != bit ensures p in Members(words') <==> p in Members(words) {
      if p / 64 == bit / 64 { assert p % 64 != bit % 64; }
    }
    assert bit in Members(words') <==> Bit(w, bit % 64);
  }

  lemma EmptyWords(words: seq<nat>)
    requires forall i :: 0 <= i < |words| ==> words[i] == 0
    ensures Members(words) == {}
  {
    forall k: nat ensures !Bit(0, k) { ZeroHasNoBit(k); }
    hide Bit;
  }

  class BitVector {
    const capacity: nat
    const words: array<nat>
    var size: nat
    var lastPos: int

    ghost predicate Valid() reads this, words {
      && words.Length == (capacity + 63) / 64
      && (forall i :: 0 <= i < words.Length ==> words[i] < Power(64))
      && (forall p :: p in Set() ==> p < capacity)
      && size == |Set()|
      && -1 <= lastPos < 64 * words.Length
    }

    ghost function Set(): set<nat> reads words { Members(words[..]) }

    constructor (bits: nat)
      ensures Valid() && fresh(words) && capacity == bits && Set() == {} && lastPos == -1
    {
      capacity, size, lastPos := bits, 0, -1;
      words := new nat[(bits + 63) / 64](_ => 0);
      new;
      EmptyWords(words[..]);
    }

    method Reset()
      requires Valid()
      modifies this, words
      ensures Valid() && Set() == {} && lastPos == -1
    {
      for i := 0 to words.Length
        invariant forall j :: 0 <= j < i ==> words[j] == 0
      {
        words[i] := 0;
      }
      EmptyWords(words[..]);
      size := 0;
      lastPos := -1;
    }

    method ResetFind()
      requires Valid()
      modifies this`lastPos
      ensures Valid() && lastPos == -1
    {
      lastPos := -1;
    }

    function At(bit: nat): (r: bool)
      reads this, words
      requires Valid() && bit < capacity
      ensures r <==> bit in Set()
    {
      AndPower(words[bit / 64], bit % 64);
      And(words[bit / 64], Power(bit % 64)) != 0
    }

    method Insert(bit: nat)
      requires Valid() && bit < capacity
      modifies this`size, words
      ensures Valid() && Set() == old(Set()) + {bit} && size == |Set()|
    {
      hide Members, Bit, Power, And, Or, AndNot;
      if !At(bit) {
        ghost var before := words[..];
        var index, mask := bit / 64, Power(bit % 64);
        InsertBit(words[index], bit % 64);
        WordUpdate(before, bit, Or(words[index], mask));
        words[index] := Or(words[index], mask);
        assert words[..] == before[index := words[index]];
        size := size + 1;
      }
    }

    method Clear(bit: nat)
      requires Valid() && bit < capacity
      modifies this`size, words
      ensures Valid() && Set() == old(Set()) - {bit} && size == |Set()|
    {
      hide Members, Bit, Power, And, Or, AndNot;
      if At(bit) {
        ghost var before := words[..];
        var index, mask := bit / 64, Power(bit % 64);
        ClearBit(words[index], bit % 64);
        WordUpdate(before, bit, AndNot(words[index], mask));
        words[index] := AndNot(words[index], mask);
        assert words[..] == before[index := words[index]];
        size := size - 1;
      }
    }

    method Find() returns (r: int)
      requires Valid()
      modifies this`lastPos
      ensures Valid() && lastPos == r && Next(Set(), old(lastPos), r)
    {
      hide Members, Bit, Power, First;
      var windex := if lastPos == -1 then 0 else lastPos / 64;
      var count := (capacity + 63) / 64;
      while windex < count
        invariant 0 <= windex <= count && lastPos == old(lastPos)
        invariant forall m :: m in Members(words[..]) && m < 64 * windex ==> m <= lastPos
      {
        var word := words[windex];
        if word != 0 {
          r := FindInParts(word, 32, 64 * windex, lastPos);
        } else {
          ZeroFirst(64, 64 * windex, lastPos);
          r := -1;
        }
        WordScanned(words[..], windex, lastPos, r);
        if r != -1 {
          lastPos := r;
          return;
        }
        windex := windex + 1;
      }
      lastPos := -1;
      return -1;
    }
  }

  lemma InsertBit(w: nat, k: nat)
    requires w < Power(64) && k < 64
    ensures Or(w, Power(k)) < Power(64)
    ensures forall j: nat :: Bit(Or(w, Power(k)), j) <==> j == k || Bit(w, j)
  {
    PowerGrows(k, 64);
    Bounds(w, Power(k), 64);
    forall j: nat ensures Bit(Or(w, Power(k)), j) <==> j == k || Bit(w, j) { OrBit(w, Power(k), j); PowerBit(k, j); }
  }

  lemma ClearBit(w: nat, k: nat)
    requires w < Power(64) && k < 64
    ensures AndNot(w, Power(k)) < Power(64)
    ensures forall j: nat :: Bit(AndNot(w, Power(k)), j) <==> j != k && Bit(w, j)
  {
    PowerGrows(k, 64);
    Bounds(w, Power(k), 64);
    forall j: nat ensures Bit(AndNot(w, Power(k)), j) <==> j != k && Bit(w, j) { AndNotBit(w, Power(k), j); PowerBit(k, j); }
  }

  /** The search of one word, in terms of the members. */
  lemma WordScanned(words: seq<nat>, i: nat, last: int, r: int)
    requires i < |words| && First(words[i], 64, 64 * i, last, r)
    requires forall m :: m in Members(words) && m < 64 * i ==> m <= last
    ensures if r == -1 then forall m :: m in Members(words) && m < 64 * (i + 1) ==> m <= last else Next(Members(words), last, r)
  {
    hide Bit;
    forall m | m in Members(words) && 64 * i <= m < 64 * (i + 1)
      ensures Bit(words[i], m - 64 * i)
    {
      assert m / 64 == i && m % 64 == m - 64 * i;
    }
    if r != -1 {
      assert r / 64 == i && r % 64 == r - 64 * i;
      forall m | m in Members(words) && m > last ensures r <= m {
        if 64 * i <= m < 64 * (i + 1) { assert Bit(words[i], m - 64 * i); }
      }
    }
  }

  // ---------------------------------------------------------------------------
  // Repeated finding

  /** What the iterator remembers before call `k`. */
  function Before(r: seq<int>, k: nat): int
    requires k <= |r|
  {
    if k == 0 then -1 else r[k - 1]
  }

  /** The results of calls of `find` in a row, from `resetFind` on. */
  ghost predicate Finds(s: set<nat>, r: seq<int>) {
    forall k {:trigger Before(r, k)} :: 0 <= k < |r| ==> Next(s, Before(r, k), r[k])
  }

  ghost function UpTo(s: set<nat>, last: int): set<nat> { set m | m in s && m <= last }

  function Last(t: seq<int>): int { if t == [] then -1 else t[|t| - 1] }

  /** The results `t` are exactly the members up to the last of them, in order. */
  ghost predicate Ascending(s: set<nat>, t: seq<int>) {
    && (forall i :: 0 <= i < |t| ==> t[i] in s && 0 <= t[i] <= Last(t))
    && (forall i, j :: 0 <= i < j < |t| ==> t[i] < t[j])
    && (forall m :: m in UpTo(s, Last(t)) ==> m in t)
    && |UpTo(s, Last(t))| == |t|
  }

  lemma NextAscends(s: set<nat>, t: seq<int>, x: int)
    requires Ascending(s, t) && |t| < |s| && Next(s, Last(t), x)
    ensures Ascending(s, t + [x])
  {
    var a, b := UpTo(s, Last(t)), UpTo(s, x);
    OneMore(s, Last(t), x);
    var t' := t + [x];
    assert Last(t') == x;
    forall i | 0 <= i < |t'| ensures t'[i] in s && 0 <= t'[i] <= x {}
    hide UpTo, Last, Next;
    forall m | m in b ensures m in t' {
      if m == x { assert t'[|t|] == x; } else { assert m in t; }
    }
  }

  lemma OneMore(s: set<nat>, last: int, x: int)
    requires Next(s, last, x) && |UpTo(s, last)| < |s|
    ensures x > last && x >= 0 && UpTo(s, x) == UpTo(s, last) + {x} && x !in UpTo(s, last)
  {
    assert x == -1 ==> UpTo(s, last) == s;
  }

  lemma NextAt(s: set<nat>, r: seq<int>, k: nat)
    requires Finds(s, r) && k < |r|
    ensures Next(s, Last(r[..k]), r[k])
  {
    assert Last(r[..k]) == Before(r, k);
  }

  lemma {:induction false} AscendingTo(s: set<nat>, r: seq<int>, k: nat)
    requires Finds(s, r) && k <= |r| && k <= |s|
    ensures Ascending(s, r[..k])
  {
    if k == 0 {
      assert UpTo(s, -1) == {};
    } else {
      AscendingTo(s, r, k - 1);
      var t := r[..k - 1];
      assert r[..k] == t + [r[k - 1]];
      NextAt(s, r, k - 1);
      NextAscends(s, t, r[k - 1]);
    }
  }

  /**
   From `resetFind` on, calls of `find` give the members in ascending order, each
   once, then -1, and start over.
   */
  lemma Enumeration(s: set<nat>, r: seq<int>)
    requires Finds(s, r) && |r| > |s|
    ensures forall i, j :: 0 <= i < j < |s| ==> r[i] < r[j]
    ensures forall m: nat :: m in s <==> m in r[..|s|]
    ensures forall i :: 0 <= i < |s| ==> r[i] >= 0
    ensures r[|s|] == -1
    ensures Finds(s, r[|s| + 1..])
  {
    AscendingTo(s, r, |s|);
    var last := Last(r[..|s|]);
    NextAt(s, r, |s|);
    SameSize(UpTo(s, last), s);
    var more := r[|s| + 1..];
    forall k | 0 <= k < |more| ensures Next(s, Before(more, k), more[k]) {
      assert Before(more, k) == Before(r, |s| + 1 + k) && more[k] == r[|s| + 1 + k];
    }
  }

  lemma SameSize(a: set<nat>, b: set<nat>)
    requires a <= b && |a| == |b|
    ensures a == b
  {
    if x :| x in b && x !in a {
      SubsetSize(a, b - {x});
    }
  }

  lemma FindsMore(s: set<nat>, t: seq<int>, p: int)
    requires Finds(s, t) && Next(s, Last(t), p)
    ensures Finds(s, t + [p])
  {
    var r := t + [p];
    forall k {:trigger Before(r, k)} | 0 <= k < |r| ensures Next(s, Before(r, k), r[k]) {
      if k < |t| { assert Before(r, k) == Before(t, k); } else { assert Before(r, k) == Last(t); }
    }
  }

  /** The first -1 comes after as many results as there are members. */
  lemma FirstMiss(s: set<nat>, t: seq<int>, p: int)
    requires Finds(s, t + [p]) && forall i :: 0 <= i < |t| ==> t[i] != -1
    ensures if p == -1 then |t| == |s| else |t| < |s|
  {
    var r := t + [p];
    if |r| > |s| { Enumeration(s, r); }
    if |t| < |s| {
      AscendingTo(s, r, |r|);
      assert r[..|r|][|t|] == p;
    }
  }

  /** The loop the comments on `find` describe: reset, then call it until it returns -1. */
  method ListMembers(v: BitVector) returns (r: seq<int>)
    requires v.Valid()
    modifies v`lastPos
    ensures v.Valid() && v.lastPos == -1
    ensures |r| == |v.Set()|
    ensures forall i, j :: 0 <= i < j < |r| ==> r[i] < r[j]
    ensures forall m: nat :: m in v.Set() <==> m in r
  {
    hide Members, Finds, Next;
    v.ResetFind();
    ghost var s := v.Set();
    r := [];
    NothingFound(s);
    var p := v.Find();
    FindsMore(s, r, p);
    FirstMiss(s, r, p);
    while p != -1
      invariant v.Valid() && v.Set() == s && v.lastPos == p
      invariant Finds(s, r + [p]) && forall i :: 0 <= i < |r| ==> r[i] != -1
      invariant if p == -1 then |r| == |s| else |r| < |s|
      decreases |s| - |r|, p != -1
    {
      r := r + [p];
      p := v.Find();
      FindsMore(s, r, p);
      FirstMiss(s, r, p);
    }
    Enumeration(s, r + [p]);
    assert (r + [p])[..|s|] == r;
  }

  lemma NothingFound(s: set<nat>)
    ensures Finds(s, [])
  {
  }
}
