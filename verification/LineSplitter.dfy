/**
 The loop of `Core::initiateMemoryAccess` (common/core/core.cc) that splits an
 access into accesses to single cache lines, and what these accesses do together.
 */
module LineSplitter {
  import opened Basics

  /** One access: `size` bytes at `offset` in the cache line at `line`, for the data buffer from `head` on. */
  datatype Piece = Piece(line: nat, offset: nat, size: nat, head: nat)

  /** Round down to the start of a cache line. */
  function LineOf(a: nat, block: nat): nat
    requires block > 0
  {
    a - a % block
  }

  /** A piece does not leave its line, and its place in the buffer is its place in the access. */
  predicate Inside(p: Piece, address: nat, block: nat)
    requires block > 0
  {
    p.size > 0 && p.offset + p.size <= block && p.line % block == 0 && p.line + p.offset == address + p.head
  }

  /** The pieces follow each other without gap, each in the line after the one before, up to byte `done` of the buffer. */
  predicate Chain(pieces: seq<Piece>, address: nat, block: nat, done: nat)
    requires block > 0
  {
    && (forall i :: 0 <= i < |pieces| ==> Inside(pieces[i], address, block))
    && (forall i :: 0 <= i < |pieces| - 1 ==>
         pieces[i + 1].head == pieces[i].head + pieces[i].size && pieces[i + 1].line == pieces[i].line + block)
    && (if pieces == [] then done == 0
        else pieces[0].head == 0 && pieces[0].line == LineOf(address, block)
             && pieces[|pieces| - 1].head + pieces[|pieces| - 1].size == done)
  }

  // ---------------------------------------------------------------------------
  // Multiples of the line size

  lemma LineAligned(a: nat, block: nat)
    requires block > 0
    ensures 0 <= a % block < block && LineOf(a, block) % block == 0
  {
    DivMod(LineOf(a, block), block, a / block, 0);
  }

  lemma NextLine(line: nat, block: nat)
    requires block > 0 && line % block == 0
    ensures (line + block) % block == 0
  {
    DivMod(line + block, block, line / block + 1, 0);
  }

  /** Two line starts are equal or at least a line apart. */
  lemma LinesApart(a: nat, b: nat, block: nat)
    requires block > 0 && a % block == 0 && b % block == 0 && a < b
    ensures a + block <= b
  {
    assert a == block * (a / block) && b == block * (b / block);
    if a / block >= b / block {
      MulMono(block, b / block, a / block);
    } else {
      MulMono(block, a / block + 1, b / block);
    }
  }

  // ---------------------------------------------------------------------------
  // Splitting

  lemma Append(pieces: seq<Piece>, address: nat, block: nat, done: nat, p: Piece)
    requires block > 0 && Chain(pieces, address, block, done) && Inside(p, address, block) && p.head == done
    requires if pieces == [] then p.line == LineOf(address, block) else p.line == pieces[|pieces| - 1].line + block
    ensures Chain(pieces + [p], address, block, done + p.size)
  {
    hide Inside, LineOf;
    var all := pieces + [p];
    forall i | 0 <= i < |all| ensures Inside(all[i], address, block) {}
    forall i | 0 <= i < |all| - 1 ensures all[i + 1].head == all[i].head + all[i].size && all[i + 1].line == all[i].line + block {}
  }

  /** Where the loop stands at the cache line `line` with `head` bytes of the buffer handled. */
  predicate Reached(pieces: seq<Piece>, address: nat, size: nat, block: nat, head: nat, line: nat)
    requires block > 0
  {
    && Chain(pieces, address, block, head) && line % block == 0
    && line >= LineOf(address, block)
    && (line == LineOf(address, block) ==> pieces == [] && head == 0)
    && (line > LineOf(address, block) ==>
         if line <= LineOf(address + size, block) then address + head == line && pieces != [] && pieces[|pieces| - 1].line + block == line
         else head == size)
  }

  lemma Advance(pieces: seq<Piece>, address: nat, size: nat, block: nat, head: nat, line: nat, offset: nat, n: nat)
    requires block > 0 && size > 0 && Reached(pieces, address, size, block, head, line) && line <= LineOf(address + size, block)
    requires offset == if line == LineOf(address, block) then address % block else 0
    requires n == if line == LineOf(address + size, block) then (address + size) % block - offset else block - offset
    ensures n > 0 ==> Reached(pieces + [Piece(line, offset, n, head)], address, size, block, head + n, line + block)
    ensures n == 0 ==> Reached(pieces, address, size, block, head, line + block)
  {
    var endLine := LineOf(address + size, block);
    LineAligned(address, block);
    LineAligned(address + size, block);
    NextLine(line, block);
    if line < endLine { LinesApart(line, endLine, block); }
    hide Chain;
    if n > 0 { Append(pieces, address, block, head, Piece(line, offset, n, head)); }
  }

  /** The splitting loop; an access of no bytes returns before it. */
  method Split(address: nat, size: nat, block: nat) returns (pieces: seq<Piece>)
    requires block > 0
    ensures Chain(pieces, address, block, size)
  {
    hide Chain, Reached;
    pieces := [];
    NoPieces(address, size, block);
    if size == 0 { return; }
    LineAligned(address, block);
    LineAligned(address + size, block);
    var begin, end := address, address + size;
    var beginLine, endLine := begin - begin % block, end - end % block;
    var head: nat, line := 0, beginLine;
    LinesOrdered(begin, end, block);
    while line <= endLine
      invariant Reached(pieces, address, size, block, head, line)
      decreases endLine + block - line
    {
      var offset := if line == beginLine then begin % block else 0;
      OffsetBelowEnd(address, size, block, offset, line);
      var n: nat := if line == endLine then end % block - offset else block - offset;
      Advance(pieces, address, size, block, head, line, offset, n);
      if n == 0 {
        line := line + block;
        continue;
      }
      pieces := pieces + [Piece(line, offset, n, head)];
      head := head + n;
      line := line + block;
    }
    AllPieces(pieces, address, size, block, head, line);
  }

  lemma NoPieces(address: nat, size: nat, block: nat)
    requires block > 0
    ensures Chain([], address, block, 0) && Reached([], address, size, block, 0, LineOf(address, block))
  {
    LineAligned(address, block);
  }

  lemma AllPieces(pieces: seq<Piece>, address: nat, size: nat, block: nat, head: nat, line: nat)
    requires block > 0 && Reached(pieces, address, size, block, head, line) && line > LineOf(address + size, block)
    ensures Chain(pieces, address, block, size)
  {
    hide Chain;
    LinesOrdered(address, address + size, block);
  }

  lemma LinesOrdered(a: nat, b: nat, block: nat)
    requires block > 0 && a <= b
    ensures LineOf(a, block) <= LineOf(b, block)
  {
    LineAligned(a, block);
    LineAligned(b, block);
    if LineOf(b, block) < LineOf(a, block) { LinesApart(LineOf(b, block), LineOf(a, block), block); }
  }

  lemma OffsetBelowEnd(address: nat, size: nat, block: nat, offset: nat, line: nat)
    requires block > 0 && offset == if line == LineOf(address, block) then address % block else 0
    ensures offset < block
    ensures line == LineOf(address + size, block) ==> offset <= (address + size) % block
  {
    LineAligned(address, block);
    LineAligned(address + size, block);
  }

  // ---------------------------------------------------------------------------
  // There is only one such split

  /** A chain without its last piece. */
  lemma Shorter(pieces: seq<Piece>, address: nat, block: nat, done: nat)
    requires block > 0 && pieces != [] && Chain(pieces, address, block, done)
    ensures Inside(pieces[|pieces| - 1], address, block)
    ensures pieces[|pieces| - 1].head + pieces[|pieces| - 1].size == done
    ensures Chain(pieces[..|pieces| - 1], address, block, pieces[|pieces| - 1].head)
  {
    hide Inside, LineOf;
    var some := pieces[..|pieces| - 1];
    forall i | 0 <= i < |some| ensures Inside(some[i], address, block) {}
    if some != [] {
      assert some[|some| - 1].head + some[|some| - 1].size == pieces[|some|].head;
    }
  }

  lemma {:induction false} HeadBound(pieces: seq<Piece>, address: nat, block: nat, done: nat, k: nat)
    requires block > 0 && Chain(pieces, address, block, done) && k < |pieces|
    ensures pieces[k].head + pieces[k].size <= done
    ensures k < |pieces| - 1 ==> pieces[k].head + pieces[k].size < done
    ensures k == |pieces| - 1 ==> pieces[k].head + pieces[k].size == done
  {
    Shorter(pieces, address, block, done);
    if k < |pieces| - 1 {
      HeadBound(pieces[..|pieces| - 1], address, block, pieces[|pieces| - 1].head, k);
    }
  }

  /** Every piece but the last goes to the end of its line. */
  lemma FullPiece(pieces: seq<Piece>, address: nat, block: nat, done: nat, k: nat)
    requires block > 0 && Chain(pieces, address, block, done) && k < |pieces| - 1
    ensures pieces[k].offset + pieces[k].size == block
  {
    assert Inside(pieces[k], address, block) && Inside(pieces[k + 1], address, block);
  }

  lemma {:induction false} SamePiece(p: seq<Piece>, q: seq<Piece>, address: nat, block: nat, done: nat, k: nat)
    requires block > 0 && Chain(p, address, block, done) && Chain(q, address, block, done) && k < |p|
    ensures k < |q| && q[k] == p[k]
  {
    HeadBound(p, address, block, done, k);
    assert Inside(p[k], address, block);
    if k > 0 {
      SamePiece(p, q, address, block, done, k - 1);
      HeadBound(q, address, block, done, k - 1);
      HeadBound(p, address, block, done, k - 1);
    }
    assert k < |q|;
    SameStart(p, q, address, block, done, k);
    HeadBound(q, address, block, done, k);
    assert Inside(q[k], address, block);
    if k < |p| - 1 { FullPiece(p, address, block, done, k); }
    if k < |q| - 1 { FullPiece(q, address, block, done, k); }
    hide Chain;
  }

  lemma SameStart(p: seq<Piece>, q: seq<Piece>, address: nat, block: nat, done: nat, k: nat)
    requires block > 0 && Chain(p, address, block, done) && Chain(q, address, block, done) && k < |p| && k < |q|
    requires k > 0 ==> p[k - 1] == q[k - 1]
    ensures p[k].line == q[k].line && p[k].head == q[k].head
  {
    hide Inside, LineOf;
    if k > 0 {
      var i := k - 1;
      assert p[i + 1].head == p[i].head + p[i].size && q[i + 1].head == q[i].head + q[i].size;
      assert p[i + 1].line == p[i].line + block && q[i + 1].line == q[i].line + block;
    }
  }

  /** The conditions determine the pieces. */
  lemma OneSplit(p: seq<Piece>, q: seq<Piece>, address: nat, block: nat, size: nat)
    requires block > 0 && Chain(p, address, block, size) && Chain(q, address, block, size)
    ensures p == q
  {
    hide Chain;
    if |q| < |p| { SamePiece(p, q, address, block, size, |q|); }
    if |p| < |q| { SamePiece(q, p, address, block, size, |p|); }
    forall k: nat | k < |p| ensures q[k] == p[k] { SamePiece(p, q, address, block, size, k); }
  }

  // ---------------------------------------------------------------------------
  // The pieces together do what the access asks for

  type Memory = nat -> int

  function StorePiece(mem: Memory, buf: seq<int>, p: Piece): Memory {
    (a: nat) =>
      var i := p.head + a - (p.line + p.offset);
      if p.line + p.offset <= a < p.line + p.offset + p.size && 0 <= i < |buf| then buf[i] else mem(a)
  }

  function StoreAll(mem: Memory, buf: seq<int>, pieces: seq<Piece>): Memory {
    if pieces == [] then mem
    else StorePiece(StoreAll(mem, buf, pieces[..|pieces| - 1]), buf, pieces[|pieces| - 1])
  }

  /** Writing the pieces writes the buffer at the address, and nothing else. */
  lemma {:induction false} StoreWhole(mem: Memory, buf: seq<int>, pieces: seq<Piece>, address: nat, block: nat, done: nat, a: nat)
    requires block > 0 && Chain(pieces, address, block, done) && done <= |buf|
    ensures StoreAll(mem, buf, pieces)(a) == if address <= a < address + done then buf[a - address] else mem(a)
  {
    if pieces != [] {
      Shorter(pieces, address, block, done);
      var p := pieces[|pieces| - 1];
      StoreWhole(mem, buf, pieces[..|pieces| - 1], address, block, p.head, a);
      hide Chain;
    }
  }

  /** The `n` bytes at address `a`. */
  function Bytes(mem: Memory, a: nat, n: nat): seq<int> { seq(n, i requires 0 <= i => mem(a + i)) }

  lemma BytesConcat(mem: Memory, a: nat, n: nat, k: nat)
    ensures Bytes(mem, a, n) + Bytes(mem, a + n, k) == Bytes(mem, a, n + k)
  {
    var first, second, whole := Bytes(mem, a, n), Bytes(mem, a + n, k), Bytes(mem, a, n + k);
    assert whole[..n] == first;
    assert whole[n..] == second;
  }

  function LoadAll(mem: Memory, pieces: seq<Piece>): seq<int> {
    if pieces == [] then []
    else
      var p := pieces[|pieces| - 1];
      LoadAll(mem, pieces[..|pieces| - 1]) + Bytes(mem, p.line + p.offset, p.size)
  }

  /** Reading the pieces fills the buffer with the bytes at the address. */
  lemma {:induction false} LoadWhole(mem: Memory, pieces: seq<Piece>, address: nat, block: nat, done: nat)
    requires block > 0 && Chain(pieces, address, block, done)
    ensures LoadAll(mem, pieces) == Bytes(mem, address, done)
  {
    if pieces == [] {
      assert Bytes(mem, address, 0) == [];
    } else {
      Shorter(pieces, address, block, done);
      hide Chain, Bytes;
      var p := pieces[|pieces| - 1];
      LoadWhole(mem, pieces[..|pieces| - 1], address, block, p.head);
      BytesConcat(mem, address, p.head, p.size);
    }
  }
}
