/** The treedisk inode store: many sparse files on one flat array of blocks. */
module Treedisk {
  import opened Words
  import opened Radix
  import opened Blocks
  import opened BlockTree
  import opened TreediskLayout
  import opened TreediskSteps
  import opened TreediskTreeSteps
  import opened TreediskWalk
  import opened TreediskWrite
  import opened TreediskCreate
  import opened TreediskTheorems

  /** log2(R), as `treedisk_init` computes it. */
  const LOG_R: nat := 7

  /** Shifting by the word size or more gives 0. */
  function LogShiftR(x: Word, nbits: nat): (r: Word) {
    if nbits >= 32 then 0 else
      QuotientShrinks(x, Pow2(nbits));
      x / Pow2(nbits)
  }

  lemma QuotientShrinks(x: nat, d: nat)
    requires d > 0
    ensures 0 <= x / d <= x
  {
    MulMonotone(x / d, 1, d);
  }

  lemma {:induction false} Pow2OfLog(k: nat)
    ensures Pow2(k * LOG_R) == Pow(k)
  {
    if k > 0 {
      Pow2OfLog(k - 1);
      assert Pow2(k * 7) == 2 * Pow2(k * 7 - 1) == 4 * Pow2(k * 7 - 2) == 8 * Pow2(k * 7 - 3) == 16 * Pow2(k * 7 - 4);
      assert Pow2(k * 7 - 4) == 2 * Pow2(k * 7 - 5) == 4 * Pow2(k * 7 - 6) == 8 * Pow2(k * 7 - 7);
      assert (k - 1) * 7 == k * 7 - 7;
    }
  }

  /** The shift is a division by a power of R, also where it saturates: 128^5 exceeds every word. */
  lemma ShiftIsDivision(x: Word, k: nat)
    ensures LogShiftR(x, k * LOG_R) == x / Pow(k)
  {
    Pow2OfLog(k);
    if k >= 5 {
      WordLevels(x);
      LevelsLeast(x, k);
      DivModUnique(x, Pow(k), 0, x);
    }
  }

  lemma ShiftIsDigit(x: Word, k: nat)
    ensures LogShiftR(x, k * LOG_R) % R == Digit(x, k)
  {
    ShiftIsDivision(x, k);
  }

  /** A lookup of `off` has come down to block `b` at height `l`. */
  ghost predicate Reading(d: Disk, chain: seq<nat>, ino: nat, off: nat, l: nat, b: nat) {
    && Consistent(d, chain) && ino < NInodes(d) && off < |File(d, ino)|
    && l <= Height(Size(d, ino)) && b == PathAt(d, Root(d, ino), Height(Size(d, ino)), off, l)
    && Lookup(d, b, l, off) == File(d, ino)[off]
  }

  lemma ReadStart(d: Disk, chain: seq<nat>, ino: nat, off: nat)
    requires Consistent(d, chain) && ino < NInodes(d) && off < Size(d, ino)
    ensures Reading(d, chain, ino, off, Levels(Size(d, ino) - 1), Root(d, ino))
  {
    hide Flatten, Free, IsChain, Trees, OnceEach, Owned;
    LevelsMonotone(off, Size(d, ino) - 1);
    LevelsLeast(off, Height(Size(d, ino)));
  }

  lemma ReadStep(d: Disk, chain: seq<nat>, ino: nat, off: nat, l: nat, b: nat)
    requires Reading(d, chain, ino, off, l, b)
    ensures b == 0 ==> File(d, ino)[off] == NullBlock()
    ensures b != 0 ==> b < |d|
    ensures b != 0 && l == 0 ==> File(d, ino)[off] == d[b]
    ensures b != 0 && l > 0 ==> Reading(d, chain, ino, off, l - 1, d[b][Digit(off, l - 1)])
  {
    hide Flatten, Free, IsChain, Trees, OnceEach, Owned;
    var k := Height(Size(d, ino));
    if b != 0 {
      OnPath(d, Heights(d), chain, ino, off, l);
      if l > 0 {
        PathStep(d, Root(d, ino), k, off, l - 1);
      }
    }
  }

  /** A walk at the height of `off` finds references where it looks for them. */
  ghost predicate Typed(d: Disk, ino: nat, off: nat)
    requires Shape(d)
  {
    ino < NInodes(d) ==> Root(d, ino) == 0 || Height(Size(d, ino)) == Levels(off)
  }

  /** File `ino` is empty now, and the others are as they were. */
  ghost predicate Emptied(d: Disk, d': Disk, ino: nat)
    requires Shape(d)
  {
    && Shape(d') && NInodes(d') == NInodes(d)
    && forall j :: 0 <= j < NInodes(d) ==> File(d', j) == if j == ino then [] else File(d, j)
  }

  lemma ArrivedInside(d: Disk, hs: seq<nat>, chain: seq<nat>, v: Disk, chain': seq<nat>, ino: nat, off: nat, b: nat)
    requires Arrived(d, hs, chain, v, chain', ino, off, b)
    ensures b < |v|
  {
  }

  datatype Status = Ok | Error | Full

  class TreeDisk {
    /** The inode store below, block by block. */
    var below: Disk
    var logRpb: nat
    /** The nodes of the free list. */
    ghost var chain: seq<nat>

    ghost predicate Valid()
      reads this
      ensures Valid() ==> Shape(below)
    {
      logRpb == LOG_R && Consistent(below, chain)
    }

    /** `treedisk_init`: the shift for one tree level. */
    constructor (below: Disk, ghost chain: seq<nat>)
      ensures this.below == below && this.chain == chain
      ensures logRpb == LOG_R
    {
      this.below := below;
      this.chain := chain;
      var log := 1;
      while (R - 1) / Pow2(log) != 0
        invariant 1 <= log <= LOG_R
        decreases LOG_R - log
      {
        assert Pow2(7) == 2 * Pow2(6) == 4 * Pow2(5) == 8 * Pow2(4) == 16 * Pow2(3) == 32 * Pow2(2) == 64 * Pow2(1);
        log := log + 1;
      }
      logRpb := log;
      assert Pow2(6) == 2 * Pow2(5) == 4 * Pow2(4) == 8 * Pow2(3) == 16 * Pow2(2) == 32 * Pow2(1);
    }

    /** The level loop shared by reading and writing. */
    method CountLevels(x: Word) returns (k: nat)
      requires logRpb == LOG_R
      ensures k == Levels(x)
    {
      k := 0;
      ShiftIsDivision(x, 0);
      while LogShiftR(x, k * logRpb) != 0
        invariant k <= Levels(x)
        decreases Levels(x) - k
      {
        ShiftIsDivision(x, k);
        LevelsLeast(x, k);
        if x < Pow(k) {
          DivModUnique(x, Pow(k), 0, x);
        }
        k := k + 1;
      }
      ShiftIsDivision(x, k);
      LevelsLeast(x, k);
    }

    /** `treedisk_get_snapshot`: the superblock and the inode's block, or an error for a number out of range. */
    method GetSnapshot(ino: Word) returns (ok: bool, superblock: Block, inodeblock: Block)
      requires Shape(below)
      ensures ok <==> ino < NInodes(below)
      ensures ok ==> superblock == below[0] && inodeblock == below[InodeBlockOf(ino)]
    {
      superblock, inodeblock := below[0], NullBlock();
      ok := ino < (superblock[0] * INODES_PER_BLOCK) % WORD;
      if ok {
        InodeInRange(below, ino);
        inodeblock := below[1 + ino / INODES_PER_BLOCK];
      }
    }

    /** `treedisk_getsize`. */
    method GetSize(ino: Word) returns (r: int)
      requires Valid()
      ensures ino >= NInodes(below) ==> r == -1
      ensures ino < NInodes(below) ==> r == AsInt(|File(below, ino)|)
    {
      var ok, superblock, inodeblock := GetSnapshot(ino);
      if !ok { return -1; }
      r := AsInt(inodeblock[SlotOf(ino) + 1]);
    }

    /** `treedisk_read`: block `offset` of the file, null where the file has a hole. */
    method Read(ino: Word, offset: Word) returns (status: Status, block: Block)
      requires Valid()
      ensures status == Error <==> ino >= NInodes(below) || offset >= |File(below, ino)|
      ensures status != Error ==> status == Ok && block == File(below, ino)[offset]
    {
      hide Consistent, Reading, Digit, LogShiftR;
      block := NullBlock();
      var ok, superblock, inodeblock := GetSnapshot(ino);
      if !ok { return Error, block; }
      var nblocks := inodeblock[SlotOf(ino) + 1];
      if offset >= nblocks { return Error, block; }
      var nlevels: nat := CountLevels(nblocks - 1);
      var b := inodeblock[SlotOf(ino)];
      ReadStart(below, chain, ino, offset);
      status := Ok;
      while b != 0
        invariant Reading(below, chain, ino, offset, nlevels, b)
        decreases nlevels
      {
        ReadStep(below, chain, ino, offset, nlevels, b);
        block := below[b];
        if nlevels == 0 { return; }
        nlevels := nlevels - 1;
        ShiftIsDigit(offset, nlevels);
        var index := LogShiftR(offset, nlevels * logRpb) % R;
        b := block[index];
      }
      ReadStep(below, chain, ino, offset, nlevels, b);
      block := NullBlock();
    }

    /** `treedisk_alloc_block`: take the highest reference of the first free-list node, or else the node itself. */
    method AllocBlock(superblock: Block) returns (full: bool, b: Word, superblock': Block)
      requires below != [] && superblock == below[0] && FreeList(below) < |below|
      modifies this`below
      ensures full <==> old(FreeList(below)) == 0
      ensures full ==> below == old(below)
      ensures !full ==>
                var a := Allocate(old(below));
                a.at < |below| && b == a.b && below == old(below)[a.at := a.blk] && superblock' == below[0]
    {
      b, superblock' := superblock[1], superblock;
      full := b == 0;
      if full { return; }
      var freelistblock := below[b];
      var i := R - 1;
      while i > 0 && freelistblock[i] == 0
        invariant 0 <= i < R
        invariant TopRef(freelistblock, R) == TopRef(freelistblock, i + 1)
      {
        i := i - 1;
      }
      if i == 0 {
        superblock' := superblock[1 := freelistblock[0]];
        below := below[0 := superblock'];
      } else {
        var head := b;
        b := freelistblock[i];
        below := below[head := freelistblock[i := 0]];
      }
    }

    /** The growth loop of `treedisk_write`: put new roots on top until the tree has `levels` levels.
        Disk `v` is the disk with the inode block as the write holds it in memory. */
    method Grow(ino: Word, nlevels: nat, levels: nat, superblock: Block, inodeblock: Block, ghost off: nat, ghost hs: seq<nat>, ghost v: Disk)
      returns (full: bool, superblock': Block, inodeblock': Block, ghost v': Disk)
      requires Shape(below) && ino < NInodes(below) && superblock == below[0]
      requires v == below[InodeBlockOf(ino) := inodeblock]
      requires Partition(v, hs, chain, multiset{}) && ino < |hs| && hs[ino] == nlevels <= levels
      modifies this`below, this`chain
      ensures full ==> |Free(v, old(chain))| < levels - nlevels
      ensures !full ==>
                && |below| == old(|below|) && superblock' == below[0]
                && v' == below[InodeBlockOf(ino) := inodeblock']
                && Grown(v, hs, old(chain), v', hs[ino := levels], chain, ino, nlevels, levels, off)
                && (levels == nlevels ==> v' == v && inodeblock' == inodeblock && below == old(below))
    {
      hide Flatten, Free, IsChain, Trees, OnceEach, Owned, ReadAt, SameReads, InodesKept, Missing, Pow;
      var k := nlevels;
      full, superblock', inodeblock', v' := false, superblock, inodeblock, v;
      InodeInRange(below, ino);
      GrownNone(v, hs, chain, ino, off);
      while k < levels
        invariant nlevels <= k <= levels
        invariant |below| == old(|below|) && superblock' == below[0]
        invariant v' == below[InodeBlockOf(ino) := inodeblock']
        invariant Grown(v, hs, old(chain), v', hs[ino := k], chain, ino, nlevels, k, off)
        invariant k == nlevels ==> v' == v && inodeblock' == inodeblock && below == old(below)
      {
        ghost var v0, hs0, chain0 := v', hs[ino := k], chain;
        InodeNotFree(v0, hs0, chain0, ino);
        AllocateHeld(below, v0, hs0, chain0, InodeBlockOf(ino));
        var indir;
        full, indir, superblock' := AllocBlock(superblock');
        if full { return; }
        ghost var v1 := Allocated(v0);
        chain := ChainAfter(v0, chain0);
        var tib := NullBlock()[0 := inodeblock'[SlotOf(ino)]];
        inodeblock' := inodeblock'[SlotOf(ino) := indir];
        below := below[indir := tib];
        v' := below[InodeBlockOf(ino) := inodeblock'];
        assert v' == SetRoot(v1, ino, indir)[indir := tib];
        GrowTurn(v, hs, old(chain), v0, hs0, chain0, v1, v', chain, ino, nlevels, k, indir, off);
        k := k + 1;
      }
    }

    /** The walk of `treedisk_write`: find or make the data block for `offset`. The block being
        visited is held in memory; a new indirect block reaches the disk only with its first child. */
    method Walk(ino: Word, offset: Word, levels: nat, superblock: Block, inodeblock: Block, ghost hs: seq<nat>)
      returns (full: bool, b: Word)
      requires logRpb == LOG_R
      requires Partition(below, hs, chain, multiset{}) && ino < |hs| && hs[ino] == levels && offset < Pow(levels)
      requires superblock == below[0] && inodeblock == below[InodeBlockOf(ino)]
      modifies this`below, this`chain
      ensures full ==> old(|Free(below, chain)|) < old(Missing(below, Root(below, ino), levels, offset))
      ensures !full ==> Arrived(old(below), hs, old(chain), below, chain, ino, offset, b)
    {
      hide Flatten, Free, IsChain, Trees, OnceEach, Owned, SameReads, InodesKept, PathAt, Allocate;
      var nlevels, parentOff: nat, parentIdx: nat := levels, InodeBlockOf(ino), SlotOf(ino);
      var sb, parentBlock := superblock, inodeblock;
      ghost var v := below;
      WalkStart(below, hs, chain, ino, offset);
      while true
        invariant 0 <= nlevels <= levels
        invariant Walked(old(below), hs, old(chain), v, chain, ino, offset, nlevels, parentOff, parentIdx)
        invariant |below| == |v| && v == below[parentOff := parentBlock]
        invariant sb == below[0]
        invariant parentBlock == below[parentOff] || parentBlock == NullBlock()
        decreases nlevels
      {
        b := parentBlock[parentIdx];
        var tib;
        if b == 0 {
          WalkHole(old(below), hs, old(chain), below, v, chain, ino, offset, nlevels, parentOff, parentIdx);
          ghost var below0 := below;
          full, b, sb := AllocBlock(sb);
          if full { return; }
          chain := ChainAfter(v, chain);
          v := LinkNew(below0, nlevels, parentOff, parentIdx, parentBlock);
          parentBlock := parentBlock[parentIdx := b];
          below := below[parentOff := parentBlock];
          if nlevels == 0 { break; }
          tib := NullBlock();
        } else {
          assert below == v;
          WalkDown(old(below), hs, old(chain), v, chain, ino, offset, nlevels, parentOff, parentIdx);
          if nlevels == 0 { break; }
          tib := below[b];
        }
        nlevels := nlevels - 1;
        ShiftIsDivision(offset, nlevels);
        parentIdx := LogShiftR(offset, nlevels * logRpb) % R;
        parentBlock, parentOff := tib, b;
      }
      full := false;
    }

    /** The rest of `treedisk_write` once the new size has wrapped to 0: the tree is not grown, but walked at the height
        of the offset. If it has another height the walk takes data for references, and nothing is said of what it
        does to the disk. */
    method WriteWrapped(ino: Word, offset: Word, nlevels: nat, levels: nat, superblock: Block, inodeblock: Block, block: Block) returns (status: Status)
      requires Valid() && ino < NInodes(below) && superblock == below[0] && nlevels == Height(Size(below, ino)) && levels == Levels(offset)
      requires InodeBlockOf(ino) < |below| && inodeblock == below[InodeBlockOf(ino)][SlotOf(ino) + 1 := 0]
      modifies this`below, this`chain
      ensures status == Ok || status == Full
      ensures status == Ok && old(Typed(below, ino, offset)) ==> Emptied(old(below), below, ino)
    {
      hide Consistent, Partition, Arrived, File;
      ghost var d0, chain0 := below, chain;
      below := below[InodeBlockOf(ino) := inodeblock];
      ghost var v := below;
      if inodeblock[SlotOf(ino)] == 0 || nlevels == levels {
        WrappedStart(d0, chain0, v, ino, levels);
        var full, b := Walk(ino, offset, levels, superblock, inodeblock, Heights(d0)[ino := levels]);
        if full { return Full; }
        ghost var vw := below;
        ArrivedInside(v, Heights(d0)[ino := levels], chain0, vw, chain, ino, offset, b);
        below := below[b := block];
        WrappedFile(d0, chain0, v, levels, vw, chain, below, ino, offset, b, block, ino);
        forall j: nat | j < NInodes(d0) ensures File(below, j) == if j == ino then [] else File(d0, j) {
          WrappedFile(d0, chain0, v, levels, vw, chain, below, ino, offset, b, block, j);
        }
        status := Ok;
      } else {
        below, chain := *, *;
        var panics: bool := *;
        status := if panics then Full else Ok;
      }
    }

    /** The rest of `treedisk_write` otherwise: grow the tree, write the inode back, walk, store. */
    method WriteGrown(ino: Word, offset: Word, nlevels: nat, levels: nat, superblock0: Block, inodeblock0: Block, dirty: bool, block: Block)
      returns (status: Status)
      requires Valid() && ino < NInodes(below) && superblock0 == below[0] && offset != WORD - 1
      requires nlevels == Height(Size(below, ino)) && levels == LevelsAfter(Size(below, ino), offset) && (dirty <==> Size(below, ino) <= offset)
      requires InodeBlockOf(ino) < |below| && inodeblock0 == below[InodeBlockOf(ino)][SlotOf(ino) + 1 := GrownSize(Size(below, ino), offset)]
      modifies this`below, this`chain
      ensures status == Ok || status == Full
      ensures status == Full <==> old(|Free(below, chain)| < Cost(below, ino, offset))
      ensures status == Ok ==>
                && Valid() && Written(old(below), old(chain), below, chain, ino, offset, block)
                && |Free(below, chain)| + old(Cost(below, ino, offset)) == old(|Free(below, chain)|)
    {
      hide Flatten, Free, IsChain, Trees, OnceEach, Owned, ReadAt, FileOk, Files, File, Missing, SameReads, InodesKept, Cost, Pow, Levels, Walked;
      ghost var d0, chain0, hs, nblocks := below, chain, Heights(below), Size(below, ino);
      var superblock, inodeblock := superblock0, inodeblock0;
      ghost var v := below[InodeBlockOf(ino) := inodeblock];
      SetSizeSame(d0, ino);
      assert v == SetSize(d0, ino, GrownSize(nblocks, offset));
      LevelsEnough(nblocks, offset);
      SizeStep(d0, v, hs, chain0, ino, GrownSize(nblocks, offset), offset);
      // The inode's size is not 0 any more, so an empty file grows its tree here like any other.
      ghost var vg;
      var full;
      full, superblock, inodeblock, vg := Grow(ino, nlevels, levels, superblock, inodeblock, offset, hs, v);
      if full {
        GrowthCost(d0, ino, offset);
        return Full;
      }
      if dirty {
        below := below[InodeBlockOf(ino) := inodeblock];
      }
      assert below == vg;
      PreparedCost(d0, chain0, v, vg, chain, ino, offset);
      ghost var chain1 := chain;
      var b;
      full, b := Walk(ino, offset, levels, superblock, inodeblock, hs[ino := levels]);
      if full { return Full; }
      ghost var vw := below;
      below := below[b := block];
      WriteUpdates(d0, chain0, v, vg, hs[ino := levels], chain1, vw, chain, below, ino, offset, b, block);
      WriteDone(d0, chain0, below, hs[ino := levels], chain, ino, offset, block);
      status := Ok;
    }

    /** `treedisk_write`: store one block, growing the file and its tree as needed. `Full` is the panic
        of an allocation that finds the free list empty. At the last offset the size wraps to 0 and the file is lost. */
    method Write(ino: Word, offset: Word, block: Block) returns (status: Status)
      requires Valid()
      modifies this`below, this`chain
      ensures status == Error <==> ino >= old(NInodes(below))
      ensures status == Error ==> below == old(below) && chain == old(chain)
      ensures offset != WORD - 1 ==>
                && (status == Full <==> ino < old(NInodes(below)) && old(|Free(below, chain)| < Cost(below, ino, offset)))
                && (status == Ok ==>
                      && Valid() && Written(old(below), old(chain), below, chain, ino, offset, block)
                      && |Free(below, chain)| + old(Cost(below, ino, offset)) == old(|Free(below, chain)|))
      ensures offset == WORD - 1 && status == Ok && old(Typed(below, ino, offset)) ==> Emptied(old(below), below, ino)
    {
      hide Consistent, Free, Cost, Written, Typed, Emptied, Levels;
      var ok, superblock, inodeblock := GetSnapshot(ino);
      if !ok { return Error; }
      InodeInRange(below, ino);
      var slot := SlotOf(ino);
      var nblocks, dirty := inodeblock[slot + 1], false;
      var nlevels: nat := 0;
      if nblocks > 0 { nlevels := CountLevels(nblocks - 1); }
      var levels := nlevels;
      if offset >= nblocks {
        inodeblock := inodeblock[slot + 1 := (offset + 1) % WORD];
        dirty := true;
        levels := CountLevels(offset);
      }
      if inodeblock[slot + 1] == 0 {
        status := WriteWrapped(ino, offset, nlevels, levels, superblock, inodeblock, block);
      } else {
        status := WriteGrown(ino, offset, nlevels, levels, superblock, inodeblock, dirty, block);
      }
    }

    /** One turn of `setup_freelist`: the words of free-list node `b`, with as many references as blocks remain. */
    static method FreelistNode(data: array<Word>, head: Word, b: Word, nblocks: Word) returns (next: Word)
      requires data.Length == R && b < nblocks
      modifies data
      ensures b < next <= nblocks && next <= b + R && (next < nblocks ==> next == b + R)
      ensures data[0] == head
      ensures forall i :: 0 < i < R ==> data[i] == if b + i < next then b + i else 0
    {
      data[0] := head;
      next := b + 1;
      var i := 1;
      while i < R && next < nblocks
        invariant 1 <= i <= R && next == b + i <= nblocks
        invariant data[0] == head && forall t :: 0 < t < i ==> data[t] == b + t
      {
        data[i] := next;
        next := next + 1;
        i := i + 1;
      }
      while i < R
        invariant next - b <= i <= R
        invariant data[0] == head && forall t :: 0 < t < i ==> data[t] == if b + t < next then b + t else 0
      {
        data[i] := 0;
        i := i + 1;
      }
    }

    /** `setup_freelist`: thread the blocks from `nextFree` up to `nblocks` into a list of full nodes. */
    method SetupFreelist(nextFree: Word, nblocks: Word) returns (head: Word)
      requires 0 < nextFree <= nblocks <= |below|
      modifies this`below, this`chain
      ensures |below| == old(|below|) && IsChain(below, head, chain)
      ensures OnceEach(Free(below, chain), nextFree, nblocks)
      ensures forall x :: 0 <= x < |below| && !(nextFree <= x < nblocks) ==> below[x] == old(below[x])
    {
      hide OnceEach, NonZero, IsChain, Free;
      var data := new Word[R](i => 0);
      var next: Word := nextFree;
      head := 0;
      chain := [];
      EmptyFreeList(below, nextFree);
      while next < nblocks
        invariant nextFree <= next <= nblocks && |below| == old(|below|)
        invariant IsChain(below, head, chain)
        invariant OnceEach(Free(below, chain), nextFree, next)
        invariant forall x :: 0 <= x < |below| && !(nextFree <= x < nblocks) ==> below[x] == old(below[x])
      {
        ghost var d0 := below;
        var b := next;
        next := FreelistNode(data, head, b, nblocks);
        below := below[b := data[..]];
        FreeListExtend(d0, head, chain, below, b, next - b - 1, nextFree);
        head := b;
        chain := [b] + chain;
      }
    }

    /** `treedisk_create`: a file system with room for `ninodes` files, unless the disk is too small or has one. */
    method Create(ninodes: Word) returns (r: int)
      requires |below| < WORD && logRpb == LOG_R
      modifies this`below, this`chain
      ensures |below| == old(|below|)
      ensures var n := (ninodes + INODES_PER_BLOCK - 1) / INODES_PER_BLOCK;
              && (r == 0 || r == -1)
              && (r == -1 <==> |below| < n + 2)
              && (r == -1 || old(below[0][0]) != 0 ==> below == old(below) && chain == old(chain))
              && (r == 0 && old(below[0][0]) == 0 ==>
                    && Valid() && InodeBlocks(below) == n
                    && |Free(below, chain)| == |below| - n - 1
                    && (n < WORD / INODES_PER_BLOCK ==> ninodes <= NInodes(below) < ninodes + INODES_PER_BLOCK)
                    && forall ino :: 0 <= ino < NInodes(below) ==> File(below, ino) == [])
    {
      hide OnceEach, NonZero, Free, IsChain, Trees, Flatten, Owned;
      var n := (ninodes + INODES_PER_BLOCK - 1) / INODES_PER_BLOCK;
      var nblocks := |below|;
      if nblocks < n + 2 { return -1; }
      if below[0][0] == 0 {
        var freeList := SetupFreelist(n + 1, nblocks);
        ghost var d0, chain0 := below, chain;
        below := below[0 := NullBlock()[0 := n][1 := freeList]];
        var i := 1;
        while i <= n
          invariant 1 <= i <= n + 1 && |below| == old(|below|) && chain == chain0
          invariant forall x :: n < x < |below| ==> below[x] == d0[x]
          invariant below[0] == NullBlock()[0 := n][1 := freeList]
          invariant forall x :: 1 <= x < i ==> below[x] == NullBlock()
        {
          below := below[i := NullBlock()];
          i := i + 1;
        }
        FreeListMoved(d0, below, freeList, chain, n + 1, |below|);
        FreshIsConsistent(below, chain);
      }
      r := 0;
    }

    /** Any sequence of writes, as `mkfs` issues them: the files end up as the abstract writes leave them,
        and ten free blocks for each write are enough. */
    method WriteAll(ops: seq<WriteOp>) returns (done: bool)
      requires Valid()
      requires forall i :: 0 <= i < |ops| ==> ops[i].offset != WORD - 1
      modifies this`below, this`chain
      ensures done ==> Valid() && Files(below) == Replay(old(Files(below)), ops)
      ensures old(|Free(below, chain)|) >= 10 * |ops| ==> done
    {
      hide Consistent, Files, File, Free, Cost, Written, Step;
      assert ops[..0] == [];
      for i := 0 to |ops|
        invariant Valid()
        invariant Files(below) == Replay(old(Files(below)), ops[..i])
        invariant old(|Free(below, chain)|) <= |Free(below, chain)| + 10 * i
      {
        var op := ops[i];
        ghost var d, chain0 := below, chain;
        if op.ino < NInodes(below) { CostAtMostTen(below, chain, op.ino, op.offset); }
        var status := Write(op.ino, op.offset, op.block);
        if status == Full { return false; }
        if status == Ok { WrittenStep(d, chain0, below, chain, op); } else { NoStep(Files(below), op); }
        assert ops[..i + 1][..i] == ops[..i] && ops[..i + 1][i] == op;
      }
      assert ops[..|ops|] == ops;
      done := true;
    }
  }
}
