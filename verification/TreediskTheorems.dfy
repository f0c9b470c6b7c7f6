/** What the treedisk invariant and contracts mean for whole runs, block by block. */
module TreediskTheorems {
  import opened Words
  import opened Radix
  import opened Blocks
  import opened BlockTree
  import opened TreediskLayout
  import opened TreediskSteps
  import opened TreediskWalk
  import opened TreediskWrite

  // ---- Positions ----

  /** A tree owns exactly the blocks its walks meet. */
  lemma {:induction false} OwnedIffOnPath(d: Disk, b: nat, k: nat, x: nat)
    requires forall y :: y in Owned(d, b, k) ==> y < |d|
    ensures x in Owned(d, b, k) <==> x != 0 && exists off: nat, l: nat | l <= k :: off < Pow(k) && PathAt(d, b, k, off, l) == x
    decreases k
  {
    if x in Owned(d, b, k) {
      var off, l := PositionOf(d, b, k, x);
    } else if x != 0 {
      forall off: nat, l: nat | l <= k ensures PathAt(d, b, k, off, l) != x {
        PathOwned(d, b, k, off, l);
        assert Owned(d, PathAt(d, b, k, off, l), l)[x] == 0;
      }
    }
  }

  lemma {:induction false} PositionOf(d: Disk, b: nat, k: nat, x: nat) returns (off: nat, l: nat)
    requires x in Owned(d, b, k) && forall y :: y in Owned(d, b, k) ==> y < |d|
    ensures x != 0 && l <= k && off < Pow(k) && PathAt(d, b, k, off, l) == x
    decreases k
  {
    if x == b || k == 0 {
      off, l := 0, k;
    } else {
      var i := ChildWith(d, b, k, x);
      KidOwned(d, b, k, i);
      off, l := PositionOf(d, d[b][i], k - 1, x);
      off := PathVia(d, b, k, i, off, l);
    }
  }

  lemma ChildWith(d: Disk, b: nat, k: nat, x: nat) returns (i: nat)
    requires x in Owned(d, b, k) && x != b && 0 < k && b < |d|
    ensures 0 < b && i < R && x in Owned(d, d[b][i], k - 1)
  {
    i := PartWith(Kids(d, d[b], k - 1), x);
  }

  lemma PathVia(d: Disk, b: nat, k: nat, i: nat, o: nat, l: nat) returns (off: nat)
    requires 0 < b < |d| && l < k && i < R && o < Pow(k - 1)
    ensures off < Pow(k)
    ensures PathAt(d, b, k, off, l) == PathAt(d, d[b][i], k - 1, o, l)
  {
    off := i * Pow(k - 1) + o;
    PrependDigit(i, o, k - 1);
    PathPrefix(d, d[b][i], k - 1, off, o, l);
  }

  lemma {:induction false} PartWith(s: seq<multiset<nat>>, x: nat) returns (i: nat)
    requires x in Flatten(s)
    ensures i < |s| && x in s[i]
  {
    if x in s[|s| - 1] {
      i := |s| - 1;
    } else {
      i := PartWith(s[..|s| - 1], x);
    }
  }

  lemma PrependDigit(i: nat, o: nat, k: nat)
    requires i < R && o < Pow(k)
    ensures i * Pow(k) + o < Pow(k + 1)
    ensures Digit(i * Pow(k) + o, k) == i && (i * Pow(k) + o) % Pow(k) == o % Pow(k)
  {
    var x := i * Pow(k) + o;
    MulMonotone(Pow(k), i + 1, R);
    assert Pow(k) * (i + 1) == i * Pow(k) + Pow(k);
    assert x == Pow(k) * i + o;
    DivModUnique(x, Pow(k), i, o);
    DivModUnique(o, Pow(k), 0, o);
  }

  /** Only the digits below the tree's height matter to a walk. */
  lemma {:induction false} PathPrefix(d: Disk, b: nat, k: nat, x: nat, y: nat, l: nat)
    requires l <= k && x % Pow(k) == y % Pow(k)
    ensures PathAt(d, b, k, x, l) == PathAt(d, b, k, y, l)
    decreases k
  {
    if l < k && 0 < b < |d| {
      SameDigits(x, y, k - 1);
      PathPrefix(d, d[b][Digit(x, k - 1)], k - 1, x, y, l);
    }
  }

  /** No block is at two positions of one tree. */
  lemma {:induction false} PositionUnique(d: Disk, b: nat, k: nat, x: nat, l: nat, y: nat, m: nat)
    requires l <= k && m <= k
    requires forall z :: Owned(d, b, k)[z] <= 1
    requires PathAt(d, b, k, x, l) == PathAt(d, b, k, y, m) != 0
    ensures l == m && SameBranch(x, y, l, k)
    decreases k
  {
    var p := PathAt(d, b, k, x, l);
    if l == k && m == k {
    } else if l == k {
      BelowRoot(d, b, k, y, m);
    } else if m == k {
      BelowRoot(d, b, k, x, l);
    } else {
      BelowRoot(d, b, k, x, l);
      BelowRoot(d, b, k, y, m);
      var i, j := Digit(x, k - 1), Digit(y, k - 1);
      if i != j {
        KidsDisjoint(d, b, k, i, j, p);
      } else {
        KidOwned(d, b, k, i);
        PositionUnique(d, d[b][i], k - 1, x, l, y, m);
      }
    }
  }

  /** A block met below the root is owned by one child, and is not the root. */
  lemma BelowRoot(d: Disk, b: nat, k: nat, x: nat, l: nat)
    requires l < k && PathAt(d, b, k, x, l) != 0
    requires Owned(d, b, k)[b] <= 1
    ensures 0 < b < |d|
    ensures PathAt(d, b, k, x, l) in Owned(d, d[b][Digit(x, k - 1)], k - 1)
    ensures PathAt(d, b, k, x, l) != b
  {
    var i, p := Digit(x, k - 1), PathAt(d, b, k, x, l);
    PathOwned(d, d[b][i], k - 1, x, l);
    assert p in Owned(d, p, l);
    assert Owned(d, p, l)[p] <= Owned(d, d[b][i], k - 1)[p];
    KidOwned(d, b, k, i);
    assert Owned(d, d[b][i], k - 1)[b] + multiset{b}[b] <= Owned(d, b, k)[b];
  }

  /** Block `x` is in the tree of file `j`, once, and in no other tree. */
  ghost predicate OnlyOwner(d: Disk, j: nat, x: nat)
    requires Shape(d) && j < NInodes(d)
  {
    && Owned(d, Root(d, j), Heights(d)[j])[x] == 1
    && forall i :: 0 <= i < NInodes(d) && i != j ==> x !in Owned(d, Root(d, i), Heights(d)[i])
  }

  /** The partition, spelled out: a block behind the inodes is free once, or in exactly one file's tree. */
  lemma EachBlockOnce(d: Disk, chain: seq<nat>, x: nat)
    requires Consistent(d, chain) && InodeBlocks(d) < x < |d|
    ensures Free(d, chain)[x] == 1 ==> forall j :: 0 <= j < NInodes(d) ==> x !in Owned(d, Root(d, j), Heights(d)[j])
    ensures Free(d, chain)[x] != 1 ==>
              && Free(d, chain)[x] == 0
              && exists j :: 0 <= j < NInodes(d) && OnlyOwner(d, j, x)
  {
    hide Owned, Flatten, Free, IsChain, FileOk;
    var hs := Heights(d);
    var ts := Trees(d, hs);
    assert (Flatten(ts) + Free(d, chain) + multiset{})[x] == 1;
    if Free(d, chain)[x] == 1 {
      forall j | 0 <= j < NInodes(d) ensures x !in Owned(d, Root(d, j), hs[j]) {
        OwnedAtMostOnce(d, hs, chain, multiset{}, j, x);
      }
    } else {
      assert x in Flatten(ts);
      var j := PartWith(ts, x);
      OwnedAtMostOnce(d, hs, chain, multiset{}, j, x);
      assert Owned(d, Root(d, j), hs[j])[x] == 1;
      forall i | 0 <= i < NInodes(d) && i != j ensures x !in Owned(d, Root(d, i), hs[i]) {
        TreesApart(d, hs, chain, multiset{}, i, j, x);
      }
      assert OnlyOwner(d, j, x);
    }
  }

  // ---- Cost ----

  /** A write never takes more than twice the new height, or one block for a file of height 0. */
  lemma CostBound(d: Disk, chain: seq<nat>, ino: nat, off: nat)
    requires Consistent(d, chain) && ino < NInodes(d)
    ensures Cost(d, ino, off) <= if LevelsAfter(Size(d, ino), off) == 0 then 1 else 2 * LevelsAfter(Size(d, ino), off)
    ensures Size(d, ino) == 0 && off == 0 ==> Cost(d, ino, off) == 1
    ensures off < Size(d, ino) ==> Cost(d, ino, off) <= Height(Size(d, ino))
  {
    assert FileOk(d, ino);
    LevelsEnough(Size(d, ino), off);
  }

  /** No tree is higher than five levels, so no write takes more than ten blocks. */
  lemma CostAtMostTen(d: Disk, chain: seq<nat>, ino: nat, off: Word)
    requires Consistent(d, chain) && ino < NInodes(d)
    ensures Cost(d, ino, off) <= 10
  {
    hide Partition, FileOk, Cost;
    CostBound(d, chain, ino, off);
    WordLevels(off);
    if Size(d, ino) > 0 {
      WordLevels(Size(d, ino) - 1);
    }
  }

  // ---- Draining the free list ----

  /** Up to `n` allocations in a row, and the blocks they hand out. */
  ghost function AllocateMany(d: Disk, n: nat): (r: (Disk, seq<nat>))
    requires d != []
    ensures r.0 != []
    decreases n
  {
    if n == 0 || !(0 < FreeList(d) < |d|) then (d, [])
    else
      var (d', bs) := AllocateMany(Allocated(d), n - 1);
      (d', [Allocate(d).b] + bs)
  }

  /** Repeated allocation hands out every free block exactly once, and finds the list empty exactly then. */
  lemma {:induction false} Drain(d: Disk, chain: seq<nat>, n: nat) returns (chain': seq<nat>)
    requires d != [] && IsChain(d, FreeList(d), chain) && n <= |Free(d, chain)|
    requires forall x :: Free(d, chain)[x] <= 1
    ensures var (d', bs) := AllocateMany(d, n);
            && |bs| == n
            && IsChain(d', FreeList(d'), chain')
            && Free(d, chain) == Free(d', chain') + multiset(bs)
            && (FreeList(d') == 0 <==> n == |Free(d, chain)|)
    decreases n
  {
    hide Free, Allocate, ChainAfter, IsChain;
    EmptyIffNoHead(d, chain);
    if n == 0 {
      chain' := chain;
    } else {
      AllocateFree(d, chain);
      var d1, chain1, b: nat := Allocated(d), ChainAfter(d, chain), Allocate(d).b;
      LessOne(Free(d, chain), Free(d1, chain1), b);
      chain' := Drain(d1, chain1, n - 1);
      var (d', bs) := AllocateMany(d1, n - 1);
      assert multiset([b] + bs) == multiset{b} + multiset(bs);
    }
  }

  lemma LessOne(f: multiset<nat>, f': multiset<nat>, b: nat)
    requires f == f' + multiset{b} && forall x :: f[x] <= 1
    ensures forall x :: f'[x] <= 1
  {
    forall x ensures f'[x] <= 1 {
      assert f[x] <= 1;
    }
  }

  lemma EmptyIffNoHead(d: Disk, chain: seq<nat>)
    requires d != [] && IsChain(d, FreeList(d), chain)
    ensures FreeList(d) == 0 <==> |Free(d, chain)| == 0
    ensures FreeList(d) < |d|
  {
  }

  // ---- Runs ----

  datatype WriteOp = WriteOp(ino: Word, offset: Word, block: Block)

  ghost function Step(fs: seq<seq<Block>>, op: WriteOp): (fs': seq<seq<Block>>)
    ensures |fs'| == |fs|
  {
    if op.ino < |fs| then fs[op.ino := Put(fs[op.ino], op.offset, op.block)] else fs
  }

  lemma WrittenStep(d: Disk, chain: seq<nat>, d': Disk, chain': seq<nat>, op: WriteOp)
    requires Written(d, chain, d', chain', op.ino, op.offset, op.block)
    ensures Files(d') == Step(Files(d), op)
  {
    hide Consistent, File, Put;
  }

  /** A write to an inode out of range is refused. */
  lemma NoStep(fs: seq<seq<Block>>, op: WriteOp)
    requires op.ino >= |fs|
    ensures Step(fs, op) == fs
  {
  }

  /** The abstract file system after a sequence of writes. */
  ghost function Replay(fs: seq<seq<Block>>, ops: seq<WriteOp>): (fs': seq<seq<Block>>)
    ensures |fs'| == |fs|
  {
    if ops == [] then fs else Step(Replay(fs, ops[..|ops| - 1]), ops[|ops| - 1])
  }

  /** The index of the last write to block `o` of file `ino`, or -1. */
  ghost function LastWrite(ops: seq<WriteOp>, ino: nat, o: nat): (i: int)
    ensures -1 <= i < |ops|
    ensures i >= 0 ==> ops[i].ino == ino && ops[i].offset == o
    ensures forall j :: i < j < |ops| ==> !(ops[j].ino == ino && ops[j].offset == o)
  {
    if ops == [] then -1
    else if ops[|ops| - 1].ino == ino && ops[|ops| - 1].offset == o then |ops| - 1
    else LastWrite(ops[..|ops| - 1], ino, o)
  }

  /** Of a file that was empty before `ops`: block `o` is the last one written there, or null in a gap, and the file
      ends just behind its furthest write. */
  ghost predicate LastWriteAt(f: seq<Block>, ops: seq<WriteOp>, ino: nat, o: nat) {
    && (o < |f| ==> f[o] == if LastWrite(ops, ino, o) >= 0 then ops[LastWrite(ops, ino, o)].block else NullBlock())
    && (LastWrite(ops, ino, o) >= 0 ==> o < |f|)
    && (|f| > 0 ==> LastWrite(ops, ino, |f| - 1) >= 0)
  }

  lemma LastWriteStep(f: seq<Block>, ops: seq<WriteOp>, ino: nat, o: nat)
    requires ops != [] && LastWriteAt(f, ops[..|ops| - 1], ino, o)
    ensures var op := ops[|ops| - 1];
            LastWriteAt(if op.ino == ino then Put(f, op.offset, op.block) else f, ops, ino, o)
  {
    hide Put, NullBlock;
  }

  /** Any run of writes: to a file that was empty, the last write to each block wins. */
  lemma {:induction false} LastWriteWins(fs: seq<seq<Block>>, ops: seq<WriteOp>, ino: nat, o: nat)
    requires ino < |fs| && fs[ino] == []
    ensures LastWriteAt(Replay(fs, ops)[ino], ops, ino, o)
  {
    if ops != [] {
      hide LastWriteAt, Put;
      LastWriteWins(fs, ops[..|ops| - 1], ino, o);
      LastWriteStep(Replay(fs, ops[..|ops| - 1])[ino], ops, ino, o);
    }
  }
}
