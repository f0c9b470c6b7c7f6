/** What a whole write amounts to, once its steps are put together. */
module TreediskWrite {
  import opened Words
  import opened Radix
  import opened Blocks
  import opened BlockTree
  import opened TreediskLayout
  import opened TreediskSteps
  import opened TreediskTreeSteps
  import opened TreediskWalk

  /** The size field of an inode after a write at `off`: one more than the offset, in 32 bits. */
  function GrownSize(n: Word, off: Word): (n': Word) {
    if off >= n then (off + 1) % WORD else n
  }

  /** The size covers the block written except when adding one to the offset wraps around. */
  lemma GrownSizeCovers(n: Word, off: Word)
    ensures off != WORD - 1 <==> GrownSize(n, off) > off
    ensures off != WORD - 1 ==> GrownSize(n, off) == (if off < n then n else off + 1)
    ensures off == WORD - 1 ==> GrownSize(n, off) == 0
  {
  }

  /** The disk with the size field of file `ino` replaced. */
  ghost function SetSize(d: Disk, ino: nat, n: Word): (d': Disk)
    requires Shape(d) && ino < NInodes(d)
    ensures Shape(d') && NInodes(d') == NInodes(d) && |d'| == |d|
    ensures Size(d', ino) == n
    ensures forall j :: 0 <= j < NInodes(d) ==> Root(d', j) == Root(d, j) && (j != ino ==> Size(d', j) == Size(d, j))
    ensures forall x :: 0 <= x < |d| && x != InodeBlockOf(ino) ==> d'[x] == d[x]
  {
    var ib := InodeBlockOf(ino);
    d[ib := d[ib][SlotOf(ino) + 1 := n]]
  }

  lemma SetSizeSame(d: Disk, ino: nat)
    requires Shape(d) && ino < NInodes(d)
    ensures SetSize(d, ino, Size(d, ino)) == d
  {
    assert forall x :: 0 <= x < |d| ==> SetSize(d, ino, Size(d, ino))[x] == d[x];
  }

  lemma {:induction false} MissingFrame(d: Disk, d': Disk, b: nat, k: nat, off: nat)
    requires AgreeOn(d, d', Owned(d, b, k))
    ensures Missing(d', b, k, off) == Missing(d, b, k, off)
    decreases k
  {
    if k > 0 && 0 < b < |d| {
      var i := Digit(off, k - 1);
      assert d[b] == d'[b];
      KidOwned(d, b, k, i);
      MissingFrame(d, d', d[b][i], k - 1, off);
    }
  }

  /** Changing a size field alone moves no block and changes no read. */
  lemma SizeStep(d: Disk, d': Disk, hs: seq<nat>, chain: seq<nat>, ino: nat, n: Word, off: nat)
    requires Partition(d, hs, chain, multiset{}) && ino < |hs| && d' == SetSize(d, ino, n)
    ensures Partition(d', hs, chain, multiset{}) && Free(d', chain) == Free(d, chain)
    ensures SameReads(d, hs, d', hs, ino, off)
    ensures Missing(d', Root(d', ino), hs[ino], off) == Missing(d, Root(d, ino), hs[ino], off)
  {
    InodeInRange(d, ino);
    forall j | 0 <= j < |hs| ensures TreeKept(d, d', hs, j) {
      forall x | x in Owned(d, Root(d, j), hs[j]) && x < |d| ensures d[x] == d'[x] {
        OwnedAtMostOnce(d, hs, chain, multiset{}, j, x);
      }
    }
    KeptAll(d, d', hs, ino, off);
    FreeListKept(d, d', hs, chain, multiset{}, ino);
    assert TreeKept(d, d', hs, ino);
    MissingFrame(d, d', Root(d, ino), hs[ino], off);
  }

  /** Disk `d'` is disk `d` after block `blk` was stored at offset `off` of file `ino`. */
  ghost predicate Written(d: Disk, chain: seq<nat>, d': Disk, chain': seq<nat>, ino: nat, off: nat, blk: Block) {
    && Consistent(d, chain) && Consistent(d', chain')
    && ino < NInodes(d)
    && Files(d') == Files(d)[ino := Put(File(d, ino), off, blk)]
  }

  /** Everything the steps of a write establish, in terms of the heights before and after. */
  ghost predicate Updated(d: Disk, d': Disk, hs': seq<nat>, chain': seq<nat>, ino: nat, off: nat, blk: Block) {
    && Shape(d) && Shape(d') && ino < NInodes(d) == NInodes(d') == |hs'|
    && Partition(d', hs', chain', multiset{})
    && SameReads(d, Heights(d), d', hs', ino, off)
    && ReadAt(d', hs', ino, off) == blk
    && Size(d', ino) == (if off < Size(d, ino) then Size(d, ino) else off + 1)
    && Root(d', ino) != 0
    && (forall j :: 0 <= j < |hs'| && j != ino ==> Size(d', j) == Size(d, j) && Root(d', j) == Root(d, j))
    && hs' == Heights(d)[ino := Height(Size(d', ino))]
  }

  lemma UpdatedHeights(d: Disk, d': Disk, hs': seq<nat>, chain': seq<nat>, ino: nat, off: nat, blk: Block)
    requires Updated(d, d', hs', chain', ino, off, blk)
    ensures Heights(d') == hs'
  {
  }

  lemma UpdatedFileOk(d: Disk, chain: seq<nat>, d': Disk, hs': seq<nat>, chain': seq<nat>, ino: nat, off: nat, blk: Block, j: nat)
    requires Consistent(d, chain) && Updated(d, d', hs', chain', ino, off, blk) && j < |hs'|
    ensures FileOk(d', j)
  {
    hide Partition, Lookup;
    UpdatedHeights(d, d', hs', chain', ino, off, blk);
    assert FileOk(d, j);
    forall o: nat | Size(d', j) <= o ensures ReadAt(d', hs', j, o) == NullBlock() {
      assert ReadAt(d, Heights(d), j, o) == NullBlock();
    }
  }

  lemma UpdatedFile(d: Disk, chain: seq<nat>, d': Disk, hs': seq<nat>, chain': seq<nat>, ino: nat, off: nat, blk: Block, j: nat)
    requires Consistent(d, chain) && Updated(d, d', hs', chain', ino, off, blk) && j < |hs'|
    ensures File(d', j) == if j == ino then Put(File(d, ino), off, blk) else File(d, j)
  {
    hide Partition, Lookup;
    UpdatedHeights(d, d', hs', chain', ino, off, blk);
    assert FileOk(d, ino);
    var f, f' := File(d, j), File(d', j);
    var g := if j == ino then Put(f, off, blk) else f;
    forall o | 0 <= o < |f'| ensures f'[o] == g[o] {
      assert f'[o] == ReadAt(d', hs', j, o);
      if !(j == ino && o == off) {
        assert ReadAt(d', hs', j, o) == ReadAt(d, Heights(d), j, o);
      }
    }
  }

  lemma WriteDone(d: Disk, chain: seq<nat>, d': Disk, hs': seq<nat>, chain': seq<nat>, ino: nat, off: nat, blk: Block)
    requires Consistent(d, chain) && Updated(d, d', hs', chain', ino, off, blk)
    ensures Written(d, chain, d', chain', ino, off, blk)
  {
    hide Lookup, FileOk;
    UpdatedHeights(d, d', hs', chain', ino, off, blk);
    forall j | 0 <= j < |hs'| ensures FileOk(d', j) {
      UpdatedFileOk(d, chain, d', hs', chain', ino, off, blk, j);
    }
    var fs, fs' := Files(d)[ino := Put(File(d, ino), off, blk)], Files(d');
    forall j | 0 <= j < |hs'| ensures fs'[j] == fs[j] {
      UpdatedFile(d, chain, d', hs', chain', ino, off, blk, j);
    }
  }

  /** The height the tree needs for a write at `off`. */
  ghost function LevelsAfter(n: nat, off: nat): (k: nat) { if off < n then Height(n) else Levels(off) }

  lemma GrowthCost(d: Disk, ino: nat, off: nat)
    requires Shape(d) && ino < NInodes(d)
    ensures LevelsAfter(Size(d, ino), off) - Height(Size(d, ino)) <= Cost(d, ino, off)
  {
  }

  /** Up to the end of the growth loop: disk `v` has the new size, disk `vg` the new height as well. */
  ghost predicate Prepared(d: Disk, chain: seq<nat>, v: Disk, vg: Disk, chain': seq<nat>, ino: nat, off: nat) {
    && Consistent(d, chain) && ino < NInodes(d) && off < WORD - 1
    && v == SetSize(d, ino, GrownSize(Size(d, ino), off))
    && var k, k' := Height(Size(d, ino)), LevelsAfter(Size(d, ino), off);
       && Grown(v, Heights(d), chain, vg, Heights(d)[ino := k'], chain', ino, k, k', off)
       && (k' == k ==> vg == v)
  }

  /** What growing and walking take together is the cost of the write. */
  lemma PreparedCost(d: Disk, chain: seq<nat>, v: Disk, vg: Disk, chain': seq<nat>, ino: nat, off: nat)
    requires Prepared(d, chain, v, vg, chain', ino, off)
    ensures Free(v, chain) == Free(d, chain)
    ensures var k, k' := Height(Size(d, ino)), LevelsAfter(Size(d, ino), off);
            Cost(d, ino, off) == (k' - k) + Missing(vg, Root(vg, ino), k', off)
  {
    hide Flatten, Free, IsChain, Trees, OnceEach, Owned, ReadAt, FileOk, Missing;
    LevelsEnough(Size(d, ino), off);
    SizeStep(d, v, Heights(d), chain, ino, GrownSize(Size(d, ino), off), off);
  }

  lemma WriteInodes(d: Disk, v: Disk, vg: Disk, vw: Disk, d': Disk, ino: nat, n: Word, j: nat)
    requires Shape(d) && ino < NInodes(d) && v == SetSize(d, ino, n) && j < NInodes(d)
    requires InodesKept(v, vg, ino) && InodesKept(vg, vw, ino) && InodesKept(vw, d', ino)
    ensures Size(d', j) == (if j == ino then n else Size(d, j)) && (j != ino ==> Root(d', j) == Root(d, j))
  {
  }

  lemma WriteReads(d: Disk, chain: seq<nat>, v: Disk, vg: Disk, hs': seq<nat>, chain1: seq<nat>, vw: Disk, chain': seq<nat>, d': Disk, ino: nat, off: nat, b: nat, blk: Block)
    requires Prepared(d, chain, v, vg, chain1, ino, off)
    requires hs' == Heights(d)[ino := LevelsAfter(Size(d, ino), off)]
    requires Arrived(vg, hs', chain1, vw, chain', ino, off, b) && d' == vw[b := blk]
    ensures Partition(d', hs', chain', multiset{}) && Free(d', chain') == Free(vw, chain')
    ensures SameReads(d, Heights(d), d', hs', ino, off) && ReadAt(d', hs', ino, off) == blk
    ensures InodesKept(vw, d', ino) && Root(d', ino) != 0
  {
    hide Flatten, Free, IsChain, Trees, OnceEach, Owned, ReadAt, FileOk, Missing, SameReads, Lookup, Height, Levels;
    var hs := Heights(d);
    LevelsEnough(Size(d, ino), off);
    SizeStep(d, v, hs, chain, ino, GrownSize(Size(d, ino), off), off);
    StoreStep(vw, d', hs', chain', ino, off, b, blk);
    SameReadsTrans(d, hs, v, hs, vg, hs', ino, off);
    SameReadsTrans(d, hs, vg, hs', vw, hs', ino, off);
    SameReadsTrans(d, hs, vw, hs', d', hs', ino, off);
    RootOfPath(vw, Root(vw, ino), hs'[ino], off);
    InodesUntouched(vw, d', ino);
  }

  lemma WriteUpdates(d: Disk, chain: seq<nat>, v: Disk, vg: Disk, hs': seq<nat>, chain1: seq<nat>, vw: Disk, chain': seq<nat>, d': Disk, ino: nat, off: nat, b: nat, blk: Block)
    requires Prepared(d, chain, v, vg, chain1, ino, off)
    requires hs' == Heights(d)[ino := LevelsAfter(Size(d, ino), off)]
    requires Arrived(vg, hs', chain1, vw, chain', ino, off, b) && d' == vw[b := blk]
    ensures Updated(d, d', hs', chain', ino, off, blk)
    ensures Free(d', chain') == Free(vw, chain')
  {
    hide Flatten, Free, IsChain, Trees, OnceEach, Owned, ReadAt, FileOk, Missing, SameReads, PathAt, SetSize, InodesKept, Root, Size;
    WriteReads(d, chain, v, vg, hs', chain1, vw, chain', d', ino, off, b, blk);
    forall j | 0 <= j < |hs'|
      ensures Size(d', j) == (if j == ino then GrownSize(Size(d, ino), off) else Size(d, j)) && (j != ino ==> Root(d', j) == Root(d, j))
    {
      WriteInodes(d, v, vg, vw, d', ino, GrownSize(Size(d, ino), off), j);
    }
    LevelsEnough(Size(d, ino), off);
  }

  // ---- The last offset ----

  /** No tree yet: any height will do. */
  lemma NoTreeAnyHeight(d: Disk, hs: seq<nat>, chain: seq<nat>, ino: nat, k: nat)
    requires Partition(d, hs, chain, multiset{}) && ino < |hs| && Root(d, ino) == 0
    ensures Partition(d, hs[ino := k], chain, multiset{})
  {
    hide Flatten, Free, IsChain, OnceEach;
    assert Trees(d, hs[ino := k]) == Trees(d, hs);
  }

  lemma WrappedStart(d: Disk, chain: seq<nat>, v: Disk, ino: nat, k: nat)
    requires Consistent(d, chain) && ino < NInodes(d) && v == SetSize(d, ino, 0)
    requires Root(d, ino) == 0 || Height(Size(d, ino)) == k
    ensures Partition(v, Heights(d)[ino := k], chain, multiset{})
  {
    hide Flatten, Free, IsChain, Trees, OnceEach, Owned, FileOk;
    SizeStep(d, v, Heights(d), chain, ino, 0, 0);
    if Root(d, ino) == 0 {
      NoTreeAnyHeight(v, Heights(d), chain, ino, k);
    } else {
      assert Heights(d)[ino := k] == Heights(d);
    }
  }

  lemma WrappedReads(d: Disk, chain: seq<nat>, v: Disk, k: nat, vw: Disk, chain': seq<nat>, d': Disk, ino: nat, off: nat, b: nat, blk: Block, j: nat)
    requires Consistent(d, chain) && ino < NInodes(d) && v == SetSize(d, ino, 0) && off < Pow(k) && j < NInodes(d)
    requires Arrived(v, Heights(d)[ino := k], chain, vw, chain', ino, off, b) && d' == vw[b := blk]
    ensures Shape(d') && NInodes(d') == NInodes(d) && Size(d', j) == if j == ino then 0 else Size(d, j)
    ensures SameReads(v, Heights(d)[ino := k], d', Heights(d)[ino := k], ino, off) && SameReads(d, Heights(d), v, Heights(d), ino, off)
  {
    hide Flatten, Free, IsChain, Trees, OnceEach, Owned, FileOk, ReadAt, SameReads, Lookup, Missing, Pow, Height;
    var hs' := Heights(d)[ino := k];
    StoreStep(vw, d', hs', chain', ino, off, b, blk);
    SameReadsTrans(v, hs', vw, hs', d', hs', ino, off);
    InodesUntouched(vw, d', ino);
    SizeStep(d, v, Heights(d), chain, ino, 0, off);
    WriteInodes(d, v, v, vw, d', ino, 0, j);
  }

  /** A write at an offset whose size wraps to 0: the block is stored, and the file is empty. */
  lemma WrappedFile(d: Disk, chain: seq<nat>, v: Disk, k: nat, vw: Disk, chain': seq<nat>, d': Disk, ino: nat, off: nat, b: nat, blk: Block, j: nat)
    requires Consistent(d, chain) && ino < NInodes(d) && v == SetSize(d, ino, 0) && off < Pow(k) && j < NInodes(d)
    requires Arrived(v, Heights(d)[ino := k], chain, vw, chain', ino, off, b) && d' == vw[b := blk]
    ensures Shape(d') && NInodes(d') == NInodes(d)
    ensures File(d', j) == if j == ino then [] else File(d, j)
  {
    hide Partition, FileOk, Lookup, Arrived, Pow, Height;
    WrappedReads(d, chain, v, k, vw, chain', d', ino, off, b, blk, j);
    if j != ino {
      SameFile(d, v, d', Heights(d), Heights(d)[ino := k], ino, off, j);
    }
  }

  lemma SameFile(d: Disk, v: Disk, d': Disk, hs: seq<nat>, hs': seq<nat>, ino: nat, off: nat, j: nat)
    requires SameReads(d, hs, v, hs, ino, off) && SameReads(v, hs', d', hs', ino, off)
    requires hs == Heights(d) && j < |hs| == |hs'| && hs'[j] == hs[j] && j != ino && Size(d', j) == Size(d, j)
    ensures File(d', j) == File(d, j)
  {
    hide Lookup, Pow, Height;
    assert Heights(d')[j] == hs[j];
    forall o | 0 <= o < Size(d, j) ensures File(d', j)[o] == File(d, j)[o] {
      assert ReadAt(d', hs', j, o) == ReadAt(v, hs', j, o);
      assert ReadAt(v, hs, j, o) == ReadAt(d, hs, j, o);
    }
  }
}
