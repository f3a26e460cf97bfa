/**
 The fixed-size block allocator of common/misc/FSBAllocator.hh.  A block is an
 array of words holding 512 units; a unit is the payload of `e` words followed
 by one word naming its block.  Free units are chained through their first
 payload word, units never handed out lie behind a bump index, and a stack lists
 the blocks that have room.

 The theorem is that the allocator implements a set of disjoint live units whose
 payloads are nobody's business but the client's.
 */
module FSBAllocator {
  import opened Basics

  type Word = nat

  const BLOCK_ELEMENTS: nat := 512

  /** `Data_t(-1)`, the end of the free list. */
  const NIL: nat := 0xFFFF_FFFF_FFFF_FFFF

  /** Where unit `k` starts, for a payload of `e` words. */
  function Off(e: nat, k: nat): nat { k * (e + 1) }

  function BlockSize(e: nat): nat { Off(e, BLOCK_ELEMENTS) }

  lemma OffZero(e: nat)
    ensures Off(e, 0) == 0
  {
  }

  lemma OffNext(e: nat, k: nat)
    ensures Off(e, k + 1) == Off(e, k) + e + 1
  {
  }

  lemma {:induction false} OffApart(e: nat, k: nat, l: nat)
    requires k < l
    ensures Off(e, k) + e + 1 <= Off(e, l)
  {
    hide Off;
    OffNext(e, l - 1);
    if k < l - 1 {
      OffApart(e, k, l - 1);
    }
  }

  /** Units are disjoint and lie inside the block. */
  lemma UnitsApart(e: nat)
    ensures forall k, l {:trigger Off(e, k), Off(e, l)} :: 0 <= k < l ==> Off(e, k) + e + 1 <= Off(e, l)
    ensures forall k {:trigger Off(e, k)} :: 0 <= k < BLOCK_ELEMENTS ==> Off(e, k) + e + 1 <= BlockSize(e)
  {
    forall k, l | 0 <= k < l ensures Off(e, k) + e + 1 <= Off(e, l) { OffApart(e, k, l); }
  }

  // ---------------------------------------------------------------------------
  // One block

  datatype MemBlock = MemBlock(words: seq<Word>, firstFree: nat, inUse: nat, endIndex: nat)

  predicate IsFull(b: MemBlock) { b.inUse == BLOCK_ELEMENTS }

  /** `MemBlock::allocate`: the new block and the offset of the unit handed out. */
  function TakeUnit(e: nat, b: MemBlock, index: nat): (MemBlock, nat)
    requires |b.words| == BlockSize(e)
  {
    if b.firstFree == NIL then
      var end := if b.inUse == 0 then 0 else b.endIndex;
      var words := if end + e < |b.words| then b.words[end + e := index] else b.words;
      (MemBlock(words, NIL, b.inUse + 1, end + e + 1), end)
    else
      var next := if b.firstFree < |b.words| then b.words[b.firstFree] else NIL;
      (b.(firstFree := next, inUse := b.inUse + 1), b.firstFree)
  }

  /** `MemBlock::deallocate` */
  function ReturnUnit(b: MemBlock, p: nat): MemBlock
    requires p < |b.words| && b.inUse > 0
  {
    var words := b.words[p := b.firstFree];
    MemBlock(words, if b.inUse == 1 then NIL else p, b.inUse - 1, b.endIndex)
  }

  /** The units of a block: those ever handed out since it was last empty are `[0, used)`, and `free` chains the returned ones. */
  datatype Shape = Shape(free: seq<nat>, used: nat)

  predicate Live(sh: Shape, k: nat) { k < sh.used && k !in sh.free }

  /** The offset of the i-th free unit, or the end of the list. */
  function Chain(e: nat, free: seq<nat>, i: nat): nat {
    if i < |free| then Off(e, free[i]) else NIL
  }

  ghost predicate Chained(e: nat, b: MemBlock, free: seq<nat>) {
    && b.firstFree == Chain(e, free, 0)
    && forall i :: 0 <= i < |free| ==> Off(e, free[i]) < |b.words| && b.words[Off(e, free[i])] == Chain(e, free, i + 1)
  }

  ghost predicate Tagged(e: nat, b: MemBlock, used: nat, index: nat) {
    forall k :: 0 <= k < used ==> Off(e, k) + e < |b.words| && b.words[Off(e, k) + e] == index
  }

  /** Live units, free list and untouched tail partition the block, and every unit handed out is tagged. */
  ghost predicate BlockOk(e: nat, index: nat, b: MemBlock, sh: Shape) {
    && |b.words| == BlockSize(e)
    && sh.used <= BLOCK_ELEMENTS
    && Distinct(sh.free) && (forall i :: 0 <= i < |sh.free| ==> sh.free[i] < sh.used)
    && |sh.free| <= sh.used && b.inUse == sh.used - |sh.free|
    && (b.inUse == 0 ==> sh.used == 0)
    && (b.inUse > 0 ==> b.endIndex == Off(e, sh.used))
    && Chained(e, b, sh.free)
    && Tagged(e, b, sh.used, index)
  }

  function Payload(e: nat, b: MemBlock, k: nat): seq<Word>
    requires Off(e, k) + e <= |b.words|
  {
    b.words[Off(e, k)..Off(e, k) + e]
  }

  /** The payloads of the units in `s` are the same in both blocks. */
  ghost predicate SamePayloads(e: nat, b: MemBlock, b': MemBlock, s: set<nat>) {
    forall k :: k in s ==>
      Off(e, k) + e <= |b.words| && Off(e, k) + e <= |b'.words| && Payload(e, b, k) == Payload(e, b', k)
  }

  function LiveSet(sh: Shape): set<nat> { set k | 0 <= k < sh.used && k !in sh.free }

  /** The shape after an allocation, and the unit handed out. */
  function AllocateShape(sh: Shape): (Shape, nat) {
    if sh.free == [] then (Shape([], sh.used + 1), sh.used) else (Shape(sh.free[1..], sh.used), sh.free[0])
  }

  function DeallocateShape(sh: Shape, k: nat): Shape {
    if sh.used - |sh.free| == 1 then Shape([], 0) else Shape([k] + sh.free, sh.used)
  }

  lemma BumpChained(e: nat, index: nat, b: MemBlock, sh: Shape)
    requires BlockOk(e, index, b, sh) && !IsFull(b) && sh.free == []
    ensures var (b', p) := TakeUnit(e, b, index);
            && p == Off(e, sh.used) && b'.inUse == b.inUse + 1
            && p + e < |b.words| && b'.words == b.words[p + e := index] && b'.endIndex == Off(e, sh.used + 1)
            && Chained(e, b', [])
  {
    hide Off;
    UnitsApart(e);
    OffZero(e);
    OffNext(e, sh.used);
  }

  lemma BumpTagged(e: nat, index: nat, b: MemBlock, used: nat, words: seq<Word>)
    requires used < BLOCK_ELEMENTS && |b.words| == BlockSize(e) && Tagged(e, b, used, index)
    requires Off(e, used) + e < |b.words| && words == b.words[Off(e, used) + e := index]
    ensures Tagged(e, b.(words := words), used + 1, index)
    ensures forall k :: 0 <= k < used ==> Off(e, k) + e < |words| && words[Off(e, k)..Off(e, k) + e] == b.words[Off(e, k)..Off(e, k) + e]
  {
    hide Off;
    UnitsApart(e);
  }

  lemma ReuseOk(e: nat, index: nat, b: MemBlock, sh: Shape)
    requires BlockOk(e, index, b, sh) && sh.free != [] && BlockSize(e) < NIL
    ensures var (b', p) := TakeUnit(e, b, index);
            && p == Off(e, sh.free[0]) && b'.inUse == b.inUse + 1
            && b'.words == b.words && b'.endIndex == b.endIndex
            && Chained(e, b', sh.free[1..])
  {
    hide Off;
  }

  /** Allocating at the bump index. */
  lemma AllocateBump(e: nat, index: nat, b: MemBlock, sh: Shape)
    requires BlockOk(e, index, b, sh) && !IsFull(b) && sh.free == []
    ensures var (b', p) := TakeUnit(e, b, index);
            var (sh', k) := AllocateShape(sh);
            && BlockOk(e, index, b', sh') && p == Off(e, k) && k < BLOCK_ELEMENTS
            && SamePayloads(e, b, b', LiveSet(sh))
  {
    hide Off, Chained, TakeUnit;
    BumpChained(e, index, b, sh);
    BumpTagged(e, index, b, sh.used, TakeUnit(e, b, index).0.words);
  }

  /** Allocating from the free list. */
  lemma AllocateReuse(e: nat, index: nat, b: MemBlock, sh: Shape)
    requires BlockOk(e, index, b, sh) && sh.free != [] && BlockSize(e) < NIL
    ensures var (b', p) := TakeUnit(e, b, index);
            var (sh', k) := AllocateShape(sh);
            && BlockOk(e, index, b', sh') && p == Off(e, k) && k < BLOCK_ELEMENTS
            && SamePayloads(e, b, b', LiveSet(sh))
  {
    hide Off, Chained, TakeUnit;
    ReuseOk(e, index, b, sh);
  }

  /** `MemBlock::allocate` hands out a unit that was not live and touches no live payload. */
  lemma AllocateOk(e: nat, index: nat, b: MemBlock, sh: Shape)
    requires BlockOk(e, index, b, sh) && !IsFull(b) && BlockSize(e) < NIL
    ensures var (b', p) := TakeUnit(e, b, index);
            var (sh', k) := AllocateShape(sh);
            && BlockOk(e, index, b', sh') && p == Off(e, k) && k < BLOCK_ELEMENTS
            && SamePayloads(e, b, b', LiveSet(sh))
  {
    if sh.free == [] { AllocateBump(e, index, b, sh); } else { AllocateReuse(e, index, b, sh); }
  }

  /** Different units do not overlap. */
  lemma Elsewhere(e: nat, k: nat, l: nat)
    requires k != l
    ensures Off(e, l) + e < Off(e, k) || Off(e, k) + e < Off(e, l)
  {
    hide Off;
    if k < l { OffApart(e, k, l); } else { OffApart(e, l, k); }
  }

  /** Putting `k` in front of a free list. */
  lemma PrependChained(e: nat, b: MemBlock, free: seq<nat>, k: nat)
    requires Chained(e, b, free) && Off(e, k) < |b.words| && b.words[Off(e, k)] == b.firstFree
    ensures Chained(e, b.(firstFree := Off(e, k)), [k] + free)
  {
    hide Off;
    var free' := [k] + free;
    assert |free| > 0 ==> free'[1] == free[0];
    forall i | 0 <= i < |free'|
      ensures Off(e, free'[i]) < |b.words| && b.words[Off(e, free'[i])] == Chain(e, free', i + 1)
    {
      if i > 0 {
        assert free'[i] == free[i - 1] && Chain(e, free', i + 1) == Chain(e, free, i);
      } else {
        assert Chain(e, free', 1) == Chain(e, free, 0);
      }
    }
  }

  lemma DeallocateChained(e: nat, index: nat, b: MemBlock, sh: Shape, k: nat)
    requires BlockOk(e, index, b, sh) && Live(sh, k) && e > 0
    ensures Off(e, k) < |b.words| && b.inUse > 0
    ensures Chained(e, ReturnUnit(b, Off(e, k)), DeallocateShape(sh, k).free)
  {
    hide Off, Chained, Chain;
    LiveCount(sh, k);
    OwnTag(e, index, b, sh, k);
    var p := Off(e, k);
    var words := b.words[p := b.firstFree];
    ChainFrame(e, b, sh.free, k, words);
    PrependChained(e, b.(words := words), sh.free, k);
    NothingChained(e, ReturnUnit(b, p));
    SameChain(e, b.(words := words, firstFree := p), ReturnUnit(b, p), [k] + sh.free);
  }

  lemma NothingChained(e: nat, b: MemBlock)
    ensures b.firstFree == NIL ==> Chained(e, b, [])
  {
  }

  lemma SameChain(e: nat, b: MemBlock, b': MemBlock, free: seq<nat>)
    requires Chained(e, b, free) && b.words == b'.words
    ensures b.firstFree == b'.firstFree ==> Chained(e, b', free)
  {
  }

  /** Changing the payload of unit `k` leaves the tags and the other payloads alone. */
  lemma PayloadFrame(e: nat, b: MemBlock, used: nat, index: nat, k: nat, words: seq<Word>)
    requires Tagged(e, b, used, index) && k < used && |words| == |b.words|
    requires forall i :: 0 <= i < |words| && !(Off(e, k) <= i < Off(e, k) + e) ==> words[i] == b.words[i]
    ensures Tagged(e, b.(words := words), used, index)
    ensures forall l :: 0 <= l < used && l != k ==> words[Off(e, l)..Off(e, l) + e] == b.words[Off(e, l)..Off(e, l) + e]
  {
    hide Off;
    UnitsApart(e);
  }

  /** If the unit is live, the free list is left alone too. */
  lemma ChainFrame(e: nat, b: MemBlock, free: seq<nat>, k: nat, words: seq<Word>)
    requires e > 0 && Chained(e, b, free) && k !in free && |words| == |b.words|
    requires forall i :: 0 <= i < |words| && !(Off(e, k) <= i < Off(e, k) + e) ==> words[i] == b.words[i]
    ensures Chained(e, b.(words := words), free)
  {
    hide Off;
    forall i | 0 <= i < |free| ensures Off(e, free[i]) < |words| && words[Off(e, free[i])] == Chain(e, free, i + 1) {
      Elsewhere(e, k, free[i]);
    }
  }

  /** A live unit is one that is not free, so not every unit is free. */
  lemma LiveCount(sh: Shape, k: nat)
    requires Live(sh, k) && Distinct(sh.free) && forall i :: 0 <= i < |sh.free| ==> sh.free[i] < sh.used
    ensures |sh.free| < sh.used
  {
    FewerThan(sh.free + [k], sh.used);
  }

  /** Distinct numbers below `n` are at most `n`. */
  lemma {:induction false} FewerThan(s: seq<nat>, n: nat)
    requires Distinct(s) && forall i :: 0 <= i < |s| ==> s[i] < n
    ensures |s| <= n
  {
    if s != [] {
      assert s[0] < n;
      if i :| 0 <= i < |s| && s[i] == n - 1 {
        var t := s[..i] + s[i + 1..];
        FewerThan(t, n - 1);
      } else {
        FewerThan(s, n - 1);
      }
    }
  }

  /** `MemBlock::deallocate` takes back a live unit and touches no other payload. */
  lemma DeallocateOk(e: nat, index: nat, b: MemBlock, sh: Shape, k: nat)
    requires BlockOk(e, index, b, sh) && Live(sh, k) && e > 0
    ensures b.inUse > 0 && Off(e, k) < |b.words|
    ensures var b' := ReturnUnit(b, Off(e, k));
            var sh' := DeallocateShape(sh, k);
            && BlockOk(e, index, b', sh')
            && SamePayloads(e, b, b', LiveSet(sh) - {k})
  {
    hide Off, Chained;
    LiveCount(sh, k);
    DeallocateChained(e, index, b, sh, k);
    PayloadFrame(e, b, sh.used, index, k, ReturnUnit(b, Off(e, k)).words);
  }

  /** The live units change by exactly the unit handed out or taken back. */
  lemma AllocateLive(sh: Shape, l: nat)
    requires Distinct(sh.free) && forall i :: 0 <= i < |sh.free| ==> sh.free[i] < sh.used
    ensures var (sh', k) := AllocateShape(sh);
            !Live(sh, k) && (Live(sh', l) <==> Live(sh, l) || l == k)
  {
    if sh.free != [] {
      assert sh.free == [sh.free[0]] + sh.free[1..];
    }
  }

  lemma DeallocateLive(sh: Shape, k: nat, l: nat)
    requires Distinct(sh.free) && forall i :: 0 <= i < |sh.free| ==> sh.free[i] < sh.used
    requires Live(sh, k)
    ensures Live(DeallocateShape(sh, k), l) <==> Live(sh, l) && l != k
  {
    if Live(sh, l) && l != k {
      FewerThan(sh.free + [k, l], sh.used);
    }
  }

  /** A client may write any payload word of a live unit. */
  lemma WriteOk(e: nat, index: nat, b: MemBlock, sh: Shape, k: nat, w: nat, v: Word)
    requires BlockOk(e, index, b, sh) && Live(sh, k) && w < e
    ensures Off(e, k) + w < |b.words|
    ensures var b' := b.(words := b.words[Off(e, k) + w := v]);
            BlockOk(e, index, b', sh) && SamePayloads(e, b, b', LiveSet(sh) - {k})
  {
    hide Off, Chained;
    LiveInside(e, index, b, sh, k);
    var words := b.words[Off(e, k) + w := v];
    PayloadFrame(e, b, sh.used, index, k, words);
    ChainFrame(e, b, sh.free, k, words);
  }

  // ---------------------------------------------------------------------------
  // The pool of blocks

  /** Every block is sound, and the stack lists exactly the blocks with room, once each. */
  ghost predicate PoolOk(e: nat, blocks: seq<MemBlock>, withFree: seq<nat>, shapes: seq<Shape>) {
    && |shapes| == |blocks|
    && (forall i :: 0 <= i < |blocks| ==> BlockOk(e, i, blocks[i], shapes[i]))
    && Distinct(withFree)
    && (forall i :: i in withFree <==> 0 <= i < |blocks| && !IsFull(blocks[i]))
  }

  lemma PoolFacts(e: nat, blocks: seq<MemBlock>, withFree: seq<nat>, shapes: seq<Shape>)
    requires PoolOk(e, blocks, withFree, shapes)
    ensures |shapes| == |blocks| && forall i :: 0 <= i < |blocks| ==> BlockOk(e, i, blocks[i], shapes[i])
  {
    hide BlockOk;
  }

  lemma UseFacts(e: nat, index: nat, b: MemBlock, sh: Shape)
    requires BlockOk(e, index, b, sh)
    ensures b.inUse <= BLOCK_ELEMENTS && sh.used <= BLOCK_ELEMENTS
  {
  }

  function FreshBlock(e: nat, garbage: seq<Word>, end: nat): MemBlock { MemBlock(garbage, NIL, 0, end) }

  lemma FreshOk(e: nat, index: nat, words: seq<Word>, end: nat)
    requires |words| == BlockSize(e)
    ensures BlockOk(e, index, FreshBlock(e, words, end), Shape([], 0))
  {
  }

  /** `withFree` after block `i` has been replaced by `b`: dropped if it became full, added if it stopped being full. */
  lemma PoolUpdate(e: nat, blocks: seq<MemBlock>, withFree: seq<nat>, shapes: seq<Shape>, i: nat, b: MemBlock, sh: Shape, withFree': seq<nat>)
    requires PoolOk(e, blocks, withFree, shapes) && i < |blocks| && BlockOk(e, i, b, sh)
    requires if IsFull(blocks[i]) == IsFull(b) then withFree' == withFree
             else if IsFull(b) then withFree == withFree' + [i]
             else withFree' == withFree + [i]
    ensures PoolOk(e, blocks[i := b], withFree', shapes[i := sh])
  {
    hide BlockOk;
    if IsFull(blocks[i]) == IsFull(b) {
    } else if IsFull(b) {
      Snoc(withFree', i);
    } else {
      Snoc(withFree, i);
    }
  }

  lemma Snoc(s: seq<nat>, x: nat)
    ensures forall y :: y in s + [x] <==> y in s || y == x
    ensures Distinct(s + [x]) <==> Distinct(s) && x !in s
  {
    var t := s + [x];
    assert forall i :: 0 <= i < |s| ==> t[i] == s[i];
    assert t[|s|] == x;
  }

  datatype Ptr = Null | Aborted | Unit(block: nat, offset: nat)

  class Pool {
    const elem: nat
    const maxElem: nat
    var blocks: seq<MemBlock>
    var blocksWithFree: seq<nat>
    ghost var shapes: seq<Shape>

    ghost predicate Valid() reads this {
      elem > 0 && BlockSize(elem) < NIL && PoolOk(elem, blocks, blocksWithFree, shapes)
    }

    /** Unit `k` of block `i` is in the hands of the client. */
    ghost predicate LiveAt(i: nat, k: nat) reads this { i < |shapes| && Live(shapes[i], k) }

    ghost function Data(i: nat, k: nat): seq<Word>
      reads this
      requires Valid() && LiveAt(i, k)
    {
      LiveInside(elem, i, blocks[i], shapes[i], k);
      Payload(elem, blocks[i], k)
    }

    constructor (e: nat, max: nat)
      requires e > 0 && BlockSize(e) < NIL
      ensures Valid() && elem == e && maxElem == max
      ensures forall i, k :: !LiveAt(i, k)
    {
      elem, maxElem := e, max;
      blocks, blocksWithFree, shapes := [], [], [];
    }

    /** Add an empty block; its words are whatever the memory held. */
    method AddBlock(garbage: seq<Word>, end: nat)
      requires Valid() && blocksWithFree == [] && |garbage| == BlockSize(elem)
      modifies this
      ensures Valid() && blocksWithFree == [|old(blocks)|] && |blocks| == |old(blocks)| + 1
      ensures forall i, k :: LiveAt(i, k) <==> old(LiveAt(i, k))
      ensures forall i, k :: LiveAt(i, k) ==> Data(i, k) == old(Data(i, k))
    {
      hide BlockOk;
      FreshOk(elem, |blocks|, garbage, end);
      blocksWithFree := [|blocks|];
      blocks := blocks + [FreshBlock(elem, garbage, end)];
      shapes := shapes + [Shape([], 0)];
    }

    /** Some unit of some block is not in the hands of a client. */
    ghost predicate HasRoom() reads this { exists i, k: nat :: 0 <= i < |blocks| && k < BLOCK_ELEMENTS && !LiveAt(i, k) }

    lemma RoomListed()
      requires Valid()
      ensures HasRoom() ==> blocksWithFree != []
    {
      hide BlockOk, Live, IsFull;
      if HasRoom() {
        var i, k: nat :| 0 <= i < |blocks| && k < BLOCK_ELEMENTS && !LiveAt(i, k);
        RoomMeans(elem, i, blocks[i], shapes[i], k);
        assert i in blocksWithFree;
      }
    }

    /** `allocate`: take a unit from the block on top of the stack, adding a block when none has room. */
    method Allocate(garbage: seq<Word>, end: nat) returns (p: Ptr, ghost k: nat)
      requires Valid() && |garbage| == BlockSize(elem)
      modifies this
      ensures p.Aborted? <==> old(blocksWithFree) == [] && maxElem > 0 && (|old(blocks)| + 1) * BLOCK_ELEMENTS > maxElem
      ensures !p.Null?
      ensures p.Unit? ==>
                && Valid() && k < BLOCK_ELEMENTS && p.offset == Off(elem, k)
                && !old(LiveAt(p.block, k))
                && (forall i, l :: LiveAt(i, l) <==> old(LiveAt(i, l)) || (i == p.block && l == k))
                && (forall i, l :: old(LiveAt(i, l)) ==> Data(i, l) == old(Data(i, l)))
      ensures p.Unit? ==> p.block < |blocks| && |old(blocks)| <= |blocks| <= |old(blocks)| + 1
      ensures p.Unit? && old(HasRoom()) ==> |blocks| == |old(blocks)|
    {
      RoomListed();
      if blocksWithFree == [] {
        AddBlock(garbage, end);
        if maxElem > 0 && |blocks| * BLOCK_ELEMENTS > maxElem {
          return Aborted, 0;
        }
      }
      p, k := AllocateFromTop();
    }

    /** `deallocate`: the unit's own tag says which block it goes back to. */
    method Deallocate(p: Ptr, ghost k: nat)
      requires Valid()
      requires p.Null? || (p.Unit? && LiveAt(p.block, k) && p.offset == Off(elem, k))
      modifies this
      ensures Valid()
      ensures p.Null? ==> unchanged(this)
      ensures |blocks| == |old(blocks)|
      ensures p.Unit? ==> forall i, l :: LiveAt(i, l) <==> old(LiveAt(i, l)) && !(i == p.block && l == k)
      ensures forall i, l :: LiveAt(i, l) ==> Data(i, l) == old(Data(i, l))
    {
      if p.Unit? {
        DeallocateUnit(p, k);
      }
    }

    method DeallocateUnit(p: Ptr, ghost k: nat)
      requires Valid() && p.Unit? && LiveAt(p.block, k) && p.offset == Off(elem, k)
      modifies this
      ensures Valid() && |blocks| == |old(blocks)|
      ensures forall i, l :: LiveAt(i, l) <==> old(LiveAt(i, l)) && !(i == p.block && l == k)
      ensures forall i, l :: LiveAt(i, l) ==> Data(i, l) == old(Data(i, l))
    {
      hide BlockOk, ReturnUnit, DeallocateShape, Off, BlockSize, Live, PoolOk, IsFull;
      PoolFacts(elem, blocks, blocksWithFree, shapes);
      ghost var b, sh := blocks[p.block], shapes[p.block];
      BlockFacts(elem, p.block, b, sh);
      DeallocateOk(elem, p.block, b, sh, k);
      OwnTag(elem, p.block, b, sh, k);
      var index := blocks[p.block].words[p.offset + elem];
      assert index == p.block;
      var newFree := if IsFull(blocks[index]) then blocksWithFree + [index] else blocksWithFree;
      var b' := ReturnUnit(blocks[index], p.offset);
      ghost var sh' := DeallocateShape(sh, k);
      ReturnedRoom(b, p.offset) by { UseFacts(elem, p.block, b, sh); }
      PoolUpdate(elem, blocks, blocksWithFree, shapes, index, b', sh', newFree);
      forall l ensures Live(sh', l) <==> Live(sh, l) && l != k {
        DeallocateLive(sh, k, l);
      }
      blocks, blocksWithFree := blocks[index := b'], newFree;
      shapes := shapes[index := sh'];
      forall i, l | LiveAt(i, l) ensures Data(i, l) == old(Data(i, l)) {
        if i == index { SamePayload(elem, b, b', sh, LiveSet(sh) - {k}, l); }
      }
    }

    /** A client writes a payload word of a unit it holds. */
    method Write(p: Ptr, ghost k: nat, w: nat, v: Word)
      requires Valid() && p.Unit? && LiveAt(p.block, k) && p.offset == Off(elem, k) && w < elem
      modifies this
      ensures Valid() && forall i, l :: LiveAt(i, l) <==> old(LiveAt(i, l))
      ensures forall i, l :: LiveAt(i, l) ==>
                Data(i, l) == if i == p.block && l == k then old(Data(i, l))[w := v] else old(Data(i, l))
    {
      hide BlockOk, Off, BlockSize, Live;
      ghost var b, sh := blocks[p.block], shapes[p.block];
      WriteOk(elem, p.block, b, sh, k, w, v);
      LiveInside(elem, p.block, b, sh, k);
      var b' := blocks[p.block].(words := blocks[p.block].words[p.offset + w := v]);
      PoolUpdate(elem, blocks, blocksWithFree, shapes, p.block, b', sh, blocksWithFree);
      blocks := blocks[p.block := b'];
      assert shapes == shapes[p.block := sh];
      forall i, l | LiveAt(i, l)
        ensures Data(i, l) == if i == p.block && l == k then old(Data(i, l))[w := v] else old(Data(i, l))
      {
        if i == p.block && l != k { SamePayload(elem, b, b', sh, LiveSet(sh) - {k}, l); }
      }
    }

    method AllocateFromTop() returns (p: Ptr, ghost k: nat)
      requires Valid() && blocksWithFree != []
      modifies this
      ensures p.Unit? && Valid() && k < BLOCK_ELEMENTS && p.offset == Off(elem, k)
      ensures |blocks| == |old(blocks)| && p.block < |blocks| && !old(LiveAt(p.block, k))
      ensures forall i, l :: LiveAt(i, l) <==> old(LiveAt(i, l)) || (i == p.block && l == k)
      ensures forall i, l :: old(LiveAt(i, l)) ==> Data(i, l) == old(Data(i, l))
    {
      hide BlockOk, TakeUnit, AllocateShape, Off, BlockSize, Live;
      var index := blocksWithFree[|blocksWithFree| - 1];
      assert index in blocksWithFree;
      ghost var b, sh := blocks[index], shapes[index];
      BlockFacts(elem, index, b, sh);
      AllocateOk(elem, index, b, sh);
      var (b', offset) := TakeUnit(elem, blocks[index], index);
      ghost var (sh', unit) := AllocateShape(sh);
      k := unit;
      ghost var oldFree := blocksWithFree;
      var newFree := if IsFull(b') then blocksWithFree[..|blocksWithFree| - 1] else blocksWithFree;
      assert IsFull(b') ==> oldFree == newFree + [index];
      PoolUpdate(elem, blocks, blocksWithFree, shapes, index, b', sh', newFree);
      forall l ensures !Live(sh, unit) && (Live(sh', l) <==> Live(sh, l) || l == unit) {
        AllocateLive(sh, l);
      }
      blocks, blocksWithFree := blocks[index := b'], newFree;
      shapes := shapes[index := sh'];
      p := Unit(index, offset);
      forall i, l | old(LiveAt(i, l)) ensures Data(i, l) == old(Data(i, l)) {
        if i == index { SamePayload(elem, b, b', sh, LiveSet(sh), l); }
      }
    }
  }

  lemma LiveInside(e: nat, index: nat, b: MemBlock, sh: Shape, k: nat)
    requires BlockOk(e, index, b, sh) && Live(sh, k)
    ensures Off(e, k) + e <= |b.words|
  {
    hide Off;
    UnitsApart(e);
  }

  lemma BlockFacts(e: nat, index: nat, b: MemBlock, sh: Shape)
    requires BlockOk(e, index, b, sh)
    ensures |b.words| == BlockSize(e)
    ensures Distinct(sh.free) && forall i :: 0 <= i < |sh.free| ==> sh.free[i] < sh.used
  {
  }

  lemma SamePayload(e: nat, b: MemBlock, b': MemBlock, sh: Shape, s: set<nat>, k: nat)
    requires SamePayloads(e, b, b', s) && Live(sh, k) && (k in LiveSet(sh) ==> k in s)
    ensures Off(e, k) + e <= |b.words| && Off(e, k) + e <= |b'.words| && Payload(e, b, k) == Payload(e, b', k)
  {
    assert k in LiveSet(sh);
  }

  lemma OwnTag(e: nat, index: nat, b: MemBlock, sh: Shape, k: nat)
    requires BlockOk(e, index, b, sh) && Live(sh, k)
    ensures Off(e, k) + e < |b.words| && b.words[Off(e, k) + e] == index
  {
  }

  lemma ReturnedRoom(b: MemBlock, p: nat)
    requires p < |b.words| && 0 < b.inUse <= BLOCK_ELEMENTS
    ensures !IsFull(ReturnUnit(b, p))
  {
  }

  // ---------------------------------------------------------------------------
  // The live units, the free list and the tail partition a block

  lemma Partition(e: nat, index: nat, b: MemBlock, sh: Shape)
    requires BlockOk(e, index, b, sh)
    ensures |LiveSet(sh)| + |sh.free| + (BLOCK_ELEMENTS - sh.used) == BLOCK_ELEMENTS
    ensures |LiveSet(sh)| == b.inUse
  {
    var all, returned := Below(sh.used), Elements(sh.free);
    assert LiveSet(sh) == all - returned;
    assert returned <= all;
    DistinctSize(sh.free);
  }

  /** A block with a unit that is not live is not full. */
  lemma RoomMeans(e: nat, index: nat, b: MemBlock, sh: Shape, k: nat)
    requires BlockOk(e, index, b, sh) && k < BLOCK_ELEMENTS && !Live(sh, k)
    ensures !IsFull(b)
  {
    hide BlockOk, Below;
    Partition(e, index, b, sh);
    UseFacts(e, index, b, sh);
    assert LiveSet(sh) <= Below(BLOCK_ELEMENTS) - {k};
    SubsetSize(LiveSet(sh), Below(BLOCK_ELEMENTS) - {k});
  }

  function Below(n: nat): (s: set<nat>)
    ensures |s| == n && forall k: nat :: k in s <==> k < n
  {
    if n == 0 then {} else Below(n - 1) + {n - 1}
  }
}
