/** Each change an operation makes to the disk, and what it does to ownership and to the files. */
module TreediskSteps {
  import opened Words
  import opened Radix
  import opened Blocks
  import opened BlockTree
  import opened TreediskLayout

  // ---- Changes that leave trees alone ----

  lemma OwnedAtMostOnce(d: Disk, hs: seq<nat>, chain: seq<nat>, loose: multiset<nat>, j: nat, x: nat)
    requires Partition(d, hs, chain, loose) && j < |hs|
    ensures Owned(d, Root(d, j), hs[j])[x] + Free(d, chain)[x] + loose[x] <= 1
    ensures x in Owned(d, Root(d, j), hs[j]) || x in Free(d, chain) || x in loose ==> InodeBlocks(d) < x < |d|
  {
    var ts := Trees(d, hs);
    FlattenPart(ts, j, x);
    assert ts[j] == Owned(d, Root(d, j), hs[j]);
    assert (Flatten(ts) + Free(d, chain) + loose)[x] <= 1;
  }

  lemma TreesApart(d: Disk, hs: seq<nat>, chain: seq<nat>, loose: multiset<nat>, i: nat, j: nat, x: nat)
    requires Partition(d, hs, chain, loose) && i < |hs| && j < |hs| && i != j
    ensures !(x in Owned(d, Root(d, i), hs[i]) && x in Owned(d, Root(d, j), hs[j]))
  {
    var ts := Trees(d, hs);
    FlattenParts(ts, i, j, x);
    assert ts[i] == Owned(d, Root(d, i), hs[i]) && ts[j] == Owned(d, Root(d, j), hs[j]);
    assert (Flatten(ts) + Free(d, chain) + loose)[x] <= 1;
  }

  ghost predicate TreeKept(d: Disk, d': Disk, hs: seq<nat>, j: nat)
    requires Shape(d) && Shape(d') && |hs| == NInodes(d) == NInodes(d') && j < |hs|
  {
    Root(d', j) == Root(d, j) && AgreeOn(d, d', Owned(d, Root(d, j), hs[j]))
  }

  lemma KeptOwned(d: Disk, d': Disk, hs: seq<nat>, j: nat)
    requires Shape(d) && Shape(d') && |hs| == NInodes(d) == NInodes(d') && j < |hs|
    requires TreeKept(d, d', hs, j)
    ensures Owned(d', Root(d', j), hs[j]) == Owned(d, Root(d, j), hs[j])
    ensures forall o: nat :: ReadAt(d', hs, j, o) == ReadAt(d, hs, j, o)
  {
    OwnedFrame(d, d', Root(d, j), hs[j]);
    forall o: nat ensures ReadAt(d', hs, j, o) == ReadAt(d, hs, j, o) {
      LookupFrame(d, d', Root(d, j), hs[j], o);
    }
  }

  lemma KeptAll(d: Disk, d': Disk, hs: seq<nat>, ino: nat, off: nat)
    requires Shape(d) && Shape(d') && |hs| == NInodes(d) == NInodes(d')
    requires forall j :: 0 <= j < |hs| ==> TreeKept(d, d', hs, j)
    ensures Trees(d', hs) == Trees(d, hs)
    ensures SameReads(d, hs, d', hs, ino, off)
  {
    forall j | 0 <= j < |hs| ensures Trees(d', hs)[j] == Trees(d, hs)[j] {
      KeptOwned(d, d', hs, j);
    }
    forall j, o: nat | 0 <= j < |hs| ensures ReadAt(d', hs, j, o) == ReadAt(d, hs, j, o) {
      KeptOwned(d, d', hs, j);
    }
  }

  // ---- The free list ----

  lemma {:induction false} FreeFrame(d: Disk, d': Disk, head: nat, chain: seq<nat>)
    requires |d| == |d'| && forall x :: x in chain && x < |d| ==> d'[x] == d[x]
    ensures Free(d', chain) == Free(d, chain)
    ensures IsChain(d, head, chain) ==> IsChain(d', head, chain)
    decreases |chain|
  {
    if chain != [] {
      FreeFrame(d, d', if chain[0] < |d| then d[chain[0]][0] else 0, chain[1..]);
    }
  }

  lemma {:induction false} ChainIsFree(d: Disk, head: nat, chain: seq<nat>)
    requires IsChain(d, head, chain)
    ensures forall x :: x in chain ==> x in Free(d, chain) && 0 < x < |d|
    decreases |chain|
  {
    if chain != [] {
      ChainIsFree(d, d[head][0], chain[1..]);
      assert chain == [chain[0]] + chain[1..];
    }
  }

  lemma {:induction false} NonZeroClear(s: seq<Word>, i: nat)
    requires i < |s| && s[i] != 0
    ensures NonZero(s) == NonZero(s[i := 0]) + multiset{s[i]}
  {
    var n := |s| - 1;
    if i == n {
      assert s[i := 0][..n] == s[..n];
    } else {
      assert s[i := 0][..n] == s[..n][i := 0];
      NonZeroClear(s[..n], i);
    }
  }

  lemma {:induction false} NonZeroNone(s: seq<Word>)
    requires forall i :: 0 <= i < |s| ==> s[i] == 0
    ensures NonZero(s) == multiset{}
  {
    if s != [] {
      NonZeroNone(s[..|s| - 1]);
    }
  }

  /** The highest free reference of a free-list node below index `i`, or 0. */
  function TopRef(blk: Block, i: nat): (j: nat)
    requires i <= R
    ensures j < R && (j > 0 ==> j < i && blk[j] != 0)
    ensures forall t :: 0 < t < i && j < t ==> blk[t] == 0
  {
    if i <= 1 then 0 else if blk[i - 1] != 0 then i - 1 else TopRef(blk, i - 1)
  }

  /** An allocation hands out block `b` by rewriting block `at` as `blk`. */
  datatype Allocation = Allocation(b: Word, at: Word, blk: Block)

  function Allocate(d: Disk): (a: Allocation)
    requires d != [] && 0 < FreeList(d) < |d|
  {
    var h := FreeList(d);
    var i := TopRef(d[h], R);
    if i == 0 then Allocation(h, 0, d[0][1 := d[h][0]])
    else Allocation(d[h][i], h, d[h][i := 0])
  }

  /** The block handed out is the last reference of the first node, which is then cleared; or that node itself, once it
      has no reference left, and the list goes on with its successor. */
  lemma AllocateTakesLast(d: Disk)
    requires d != [] && 0 < FreeList(d) < |d|
    ensures var h, a := FreeList(d), Allocate(d);
            if forall t :: 0 < t < R ==> d[h][t] == 0
            then a.b == h && a.at == 0 && a.blk[1] == d[h][0] && forall t :: 0 <= t < R && t != 1 ==> a.blk[t] == d[0][t]
            else exists i :: && 0 < i < R && d[h][i] == a.b != 0 && a.at == h && a.blk[i] == 0
                             && (forall t :: i < t < R ==> d[h][t] == 0) && forall t :: 0 <= t < R && t != i ==> a.blk[t] == d[h][t]
  {
  }

  ghost function ChainAfter(d: Disk, chain: seq<nat>): (chain': seq<nat>)
    requires d != [] && IsChain(d, FreeList(d), chain) && FreeList(d) != 0
  {
    if TopRef(d[FreeList(d)], R) == 0 then chain[1..] else chain
  }

  /** Allocation on the list alone: exactly one block leaves it. */
  lemma AllocateFree(d: Disk, chain: seq<nat>)
    requires d != [] && IsChain(d, FreeList(d), chain) && FreeList(d) != 0
    requires forall x :: Free(d, chain)[x] <= 1
    ensures var a := Allocate(d);
            && a.at < |d| && (a.at == 0 || a.at in Free(d, chain))
            && IsChain(d[a.at := a.blk], FreeList(d[a.at := a.blk]), ChainAfter(d, chain))
            && Free(d, chain) == Free(d[a.at := a.blk], ChainAfter(d, chain)) + multiset{a.b}
  {
    var h, rest := FreeList(d), chain[1..];
    ChainIsFree(d, d[h][0], rest);
    assert Free(d, chain)[h] >= 1 + Free(d, rest)[h];
    if TopRef(d[h], R) == 0 {
      AllocateNode(d, chain);
    } else {
      AllocateRef(d, chain);
    }
  }

  /** The head node itself is handed out once it refers to no other free block. */
  lemma AllocateNode(d: Disk, chain: seq<nat>)
    requires d != [] && IsChain(d, FreeList(d), chain) && FreeList(d) != 0
    requires TopRef(d[FreeList(d)], R) == 0 && 0 !in chain[1..]
    ensures var a := Allocate(d);
            && IsChain(d[0 := a.blk], a.blk[1], chain[1..])
            && Free(d, chain) == Free(d[0 := a.blk], chain[1..]) + multiset{a.b}
  {
    var h, a := FreeList(d), Allocate(d);
    FreeFrame(d, d[0 := a.blk], d[h][0], chain[1..]);
    NonZeroNone(d[h][1..]);
  }

  /** Otherwise its highest reference is. */
  lemma AllocateRef(d: Disk, chain: seq<nat>)
    requires d != [] && IsChain(d, FreeList(d), chain) && FreeList(d) != 0
    requires TopRef(d[FreeList(d)], R) != 0 && FreeList(d) !in chain[1..]
    ensures var a := Allocate(d);
            && IsChain(d[FreeList(d) := a.blk], FreeList(d), chain)
            && Free(d, chain) == Free(d[FreeList(d) := a.blk], chain) + multiset{a.b}
  {
    var h, a, i := FreeList(d), Allocate(d), TopRef(d[FreeList(d)], R);
    var d' := d[h := a.blk];
    FreeFrame(d, d', d[h][0], chain[1..]);
    NonZeroClear(d[h][1..], i - 1);
    assert d'[h][1..] == d[h][1..][i - 1 := 0];
    assert Free(d', chain) == multiset{h} + NonZero(d'[h][1..]) + Free(d', chain[1..]);
  }

  lemma FreeAtMostOnce(d: Disk, hs: seq<nat>, chain: seq<nat>, loose: multiset<nat>)
    requires Partition(d, hs, chain, loose)
    ensures forall x :: Free(d, chain)[x] <= 1
    ensures forall x :: x in Free(d, chain) ==> InodeBlocks(d) < x < |d|
  {
    forall x ensures Free(d, chain)[x] <= 1 && (x in Free(d, chain) ==> InodeBlocks(d) < x < |d|) {
      assert (Flatten(Trees(d, hs)) + Free(d, chain) + loose)[x] <= 1;
    }
  }

  /** Rewriting a free block, or the superblock's list head, touches no tree. */
  lemma FreeWriteKeepsTrees(d: Disk, d': Disk, hs: seq<nat>, chain: seq<nat>, at: nat, blk: Block)
    requires Partition(d, hs, chain, multiset{})
    requires at in Free(d, chain) || (at == 0 && blk[0] == d[0][0])
    requires at < |d| && d' == d[at := blk]
    ensures Shape(d') && NInodes(d') == NInodes(d)
    ensures forall j :: 0 <= j < |hs| ==> TreeKept(d, d', hs, j)
    ensures Trees(d', hs) == Trees(d, hs)
  {
    FreeAtMostOnce(d, hs, chain, multiset{});
    forall j | 0 <= j < |hs| ensures TreeKept(d, d', hs, j) {
      InodeInRange(d, j);
      OwnedAtMostOnce(d, hs, chain, multiset{}, j, at);
    }
    KeptAll(d, d', hs, 0, 0);
  }

  ghost predicate AllocatesFrom(d: Disk, d': Disk, hs: seq<nat>, chain: seq<nat>, chain': seq<nat>, b: nat) {
    && Partition(d', hs, chain', multiset{b})
    && |d| == |d'| && InodeBlocks(d) == InodeBlocks(d') < b < |d|
    && Free(d, chain) == Free(d', chain') + multiset{b}
    && (forall j :: 0 <= j < |hs| ==> TreeKept(d, d', hs, j))
  }

  /** Allocation on the whole store: one free block is now in hand, and no tree changes. */
  lemma AllocateStep(d: Disk, d': Disk, hs: seq<nat>, chain: seq<nat>)
    requires Partition(d, hs, chain, multiset{}) && FreeList(d) != 0
    requires Allocate(d).at < |d| ==> d' == d[Allocate(d).at := Allocate(d).blk]
    ensures Allocate(d).at < |d|
    ensures Allocate(d).at == 0 || Allocate(d).at in Free(d, chain)
    ensures AllocatesFrom(d, d', hs, chain, ChainAfter(d, chain), Allocate(d).b)
  {
    hide Owned, Flatten, Trees, NonZero;
    var a := Allocate(d);
    FreeAtMostOnce(d, hs, chain, multiset{});
    AllocateFree(d, chain);
    assert a.b in Free(d, chain);
    FreeWriteKeepsTrees(d, d', hs, chain, a.at, a.blk);
    MoveOne(Flatten(Trees(d, hs)), Free(d, chain), Free(d', ChainAfter(d, chain)), a.b);
  }

  lemma MoveOne(t: multiset<nat>, f: multiset<nat>, f': multiset<nat>, b: nat)
    requires f == f' + multiset{b}
    ensures t + f' + multiset{b} == t + f + multiset{}
  {
  }

  // ---- Changes inside one tree ----

  /** Only blocks of file `ino`'s tree, blocks in hand and the inode itself may differ. */
  ghost predicate OnlyTree(d: Disk, d': Disk, hs: seq<nat>, loose: multiset<nat>, ino: nat)
    requires Shape(d) && |hs| == NInodes(d) && ino < |hs|
  {
    && |d| == |d'| && d[0] == d'[0]
    && (forall j :: 0 <= j < |hs| && j != ino ==> Root(d', j) == Root(d, j))
    && forall x :: InodeBlocks(d) < x < |d| && d'[x] != d[x] ==> x in Owned(d, Root(d, ino), hs[ino]) || x in loose
  }

  lemma OtherTreesKept(d: Disk, d': Disk, hs: seq<nat>, chain: seq<nat>, loose: multiset<nat>, ino: nat, j: nat)
    requires Partition(d, hs, chain, loose) && ino < |hs| && j < |hs| && j != ino
    requires OnlyTree(d, d', hs, loose, ino)
    ensures TreeKept(d, d', hs, j)
  {
    forall x | x in Owned(d, Root(d, j), hs[j]) && x < |d| ensures d[x] == d'[x] {
      OwnedAtMostOnce(d, hs, chain, loose, j, x);
      TreesApart(d, hs, chain, loose, ino, j, x);
    }
  }

  lemma FreeListKept(d: Disk, d': Disk, hs: seq<nat>, chain: seq<nat>, loose: multiset<nat>, ino: nat)
    requires Partition(d, hs, chain, loose) && ino < |hs|
    requires OnlyTree(d, d', hs, loose, ino)
    ensures Free(d', chain) == Free(d, chain) && IsChain(d', FreeList(d'), chain)
  {
    ChainIsFree(d, FreeList(d), chain);
    forall x | x in chain && x < |d| ensures d'[x] == d[x] {
      OwnedAtMostOnce(d, hs, chain, loose, ino, x);
    }
    FreeFrame(d, d', FreeList(d), chain);
  }

  lemma OtherReadsKept(d: Disk, d': Disk, hs: seq<nat>, k': nat, chain: seq<nat>, loose: multiset<nat>, ino: nat, j: nat)
    requires Partition(d, hs, chain, loose) && ino < |hs| && j < |hs| && j != ino
    requires OnlyTree(d, d', hs, loose, ino)
    ensures Trees(d', hs[ino := k'])[j] == Trees(d, hs)[j]
    ensures forall o: nat :: ReadAt(d', hs[ino := k'], j, o) == ReadAt(d, hs, j, o)
  {
    OtherTreesKept(d, d', hs, chain, loose, ino, j);
    KeptOwned(d, d', hs, j);
    forall o: nat ensures ReadAt(d', hs[ino := k'], j, o) == ReadAt(d, hs, j, o) {
      assert ReadAt(d', hs, j, o) == ReadAt(d, hs, j, o);
    }
  }

  /** What one tree takes from the blocks in hand keeps the partition. */
  lemma TreeStep(d: Disk, d': Disk, hs: seq<nat>, k': nat, chain: seq<nat>, loose: multiset<nat>, loose': multiset<nat>, ino: nat)
    requires Partition(d, hs, chain, loose) && ino < |hs|
    requires OnlyTree(d, d', hs, loose, ino)
    requires Owned(d', Root(d', ino), k') + loose' == Owned(d, Root(d, ino), hs[ino]) + loose
    ensures Partition(d', hs[ino := k'], chain, loose')
    ensures Free(d', chain) == Free(d, chain)
  {
    hide Owned, Flatten, IsChain, Free, NonZero;
    FreeListKept(d, d', hs, chain, loose, ino);
    var ts, ts' := Trees(d, hs), Trees(d', hs[ino := k']);
    forall j | 0 <= j < |hs| && j != ino ensures ts'[j] == ts[j] {
      OtherReadsKept(d, d', hs, k', chain, loose, ino, j);
    }
    assert ts' == ts[ino := ts'[ino]];
    FlattenUpdate(ts, ino, ts'[ino]);
    SumsAgree(Flatten(ts), Flatten(ts'), ts[ino], ts'[ino], Free(d, chain), loose, loose');
  }

  /** ... and changes no other file. */
  lemma TreeStepReads(d: Disk, d': Disk, hs: seq<nat>, hs': seq<nat>, chain: seq<nat>, loose: multiset<nat>, ino: nat, off: nat)
    requires Partition(d, hs, chain, loose) && ino < |hs| == |hs'| && hs' == hs[ino := hs'[ino]]
    requires OnlyTree(d, d', hs, loose, ino)
    requires forall o: nat :: o != off ==> ReadAt(d', hs', ino, o) == ReadAt(d, hs, ino, o)
    ensures SameReads(d, hs, d', hs', ino, off)
  {
    forall j, o: nat | 0 <= j < |hs| && j != ino
      ensures ReadAt(d', hs', j, o) == ReadAt(d, hs, j, o)
    {
      OtherReadsKept(d, d', hs, hs'[ino], chain, loose, ino, j);
    }
  }

  lemma SumsAgree(t: multiset<nat>, t': multiset<nat>, o: multiset<nat>, o': multiset<nat>, f: multiset<nat>, l: multiset<nat>, l': multiset<nat>)
    requires t' + o == t + o' && o' + l' == o + l
    ensures t' + f + l' == t + f + l
  {
    assert (t' + f + l') + (o + o') == (t' + o) + (o' + l') + f;
    assert (t + f + l) + (o + o') == (t + o') + (o + l) + f;
    Cancel(t' + f + l', t + f + l, o + o');
  }
}
