/** The states a write passes through while it holds a block in memory that is not on disk yet. */
module TreediskWalk {
  import opened Words
  import opened Radix
  import opened Blocks
  import opened BlockTree
  import opened TreediskLayout
  import opened TreediskSteps
  import opened TreediskTreeSteps

  lemma SameReadsTrans(d: Disk, hs: seq<nat>, d1: Disk, hs1: seq<nat>, d2: Disk, hs2: seq<nat>, ino: nat, off: nat)
    requires SameReads(d, hs, d1, hs1, ino, off) && SameReads(d1, hs1, d2, hs2, ino, off)
    ensures SameReads(d, hs, d2, hs2, ino, off)
  {
  }

  /** All inodes keep their sizes, and all but `ino` their roots. */
  ghost predicate InodesKept(d: Disk, d': Disk, ino: nat) {
    && Shape(d) && Shape(d') && NInodes(d) == NInodes(d')
    && forall j :: 0 <= j < NInodes(d) ==> Size(d', j) == Size(d, j) && (j != ino ==> Root(d', j) == Root(d, j))
  }

  /** A change away from the superblock's count and the inode blocks. */
  lemma InodesUntouched(d: Disk, d': Disk, ino: nat)
    requires Shape(d) && |d'| == |d| && d'[0][0] == d[0][0]
    requires forall x :: 0 < x <= InodeBlocks(d) ==> d'[x] == d[x]
    ensures InodesKept(d, d', ino)
    ensures forall j :: 0 <= j < NInodes(d) ==> Root(d', j) == Root(d, j)
  {
  }

  lemma {:induction false} PathFrame(d: Disk, d': Disk, b: nat, k: nat, off: nat, l: nat)
    requires l <= k && AgreeOn(d, d', Owned(d, b, k))
    ensures PathAt(d', b, k, off, l) == PathAt(d, b, k, off, l)
    decreases k
  {
    if l < k && 0 < b < |d| {
      var i := Digit(off, k - 1);
      assert d[b] == d'[b];
      KidOwned(d, b, k, i);
      PathFrame(d, d', d[b][i], k - 1, off, l);
    }
  }

  lemma {:induction false} PathStep(d: Disk, b: nat, k: nat, off: nat, l: nat)
    requires l < k && 0 < PathAt(d, b, k, off, l + 1) < |d|
    ensures PathAt(d, b, k, off, l) == d[PathAt(d, b, k, off, l + 1)][Digit(off, l)]
    decreases k
  {
    if l + 1 < k {
      PathStep(d, d[b][Digit(off, k - 1)], k - 1, off, l);
    } else {
      assert PathAt(d, d[b][Digit(off, l)], l, off, l) == d[b][Digit(off, l)];
    }
  }

  /** Every block number met on a walk is a block behind the inode blocks. */
  lemma OnPath(d: Disk, hs: seq<nat>, chain: seq<nat>, ino: nat, off: nat, l: nat)
    requires Partition(d, hs, chain, multiset{}) && ino < |hs| && l <= hs[ino]
    requires PathAt(d, Root(d, ino), hs[ino], off, l) != 0
    ensures InodeBlocks(d) < PathAt(d, Root(d, ino), hs[ino], off, l) < |d|
  {
    hide Flatten, Free, IsChain, Trees, OnceEach;
    var b := PathAt(d, Root(d, ino), hs[ino], off, l);
    PathOwned(d, Root(d, ino), hs[ino], off, l);
    assert b in Owned(d, b, l);
    assert Owned(d, b, l)[b] <= Owned(d, Root(d, ino), hs[ino])[b];
    OwnedAtMostOnce(d, hs, chain, multiset{}, ino, b);
  }

  /** A walk for `off` stands at height `l`: the reference to follow is entry `idx` of block `at`. */
  ghost predicate AtParent(d: Disk, hs: seq<nat>, ino: nat, off: nat, l: nat, at: nat, idx: nat)
    requires Shape(d) && |hs| == NInodes(d) && ino < |hs|
  {
    && l <= hs[ino] && idx < R && 0 < at < |d|
    && if l == hs[ino] then at == InodeBlockOf(ino) && idx == SlotOf(ino)
       else at == PathAt(d, Root(d, ino), hs[ino], off, l + 1) && InodeBlocks(d) < at && idx == Digit(off, l)
  }

  lemma ParentRefersTo(d: Disk, hs: seq<nat>, chain: seq<nat>, ino: nat, off: nat, l: nat, at: nat, idx: nat)
    requires Partition(d, hs, chain, multiset{}) && ino < |hs| && AtParent(d, hs, ino, off, l, at, idx)
    ensures d[at][idx] == PathAt(d, Root(d, ino), hs[ino], off, l)
    ensures d[at][idx] != 0 ==> InodeBlocks(d) < d[at][idx] < |d|
  {
    hide Flatten, Free, IsChain, Trees, OnceEach;
    if l < hs[ino] {
      PathStep(d, Root(d, ino), hs[ino], off, l);
    }
    if d[at][idx] != 0 {
      OnPath(d, hs, chain, ino, off, l);
    }
  }

  /** The parent's block is not free, so an allocation does not rewrite it. */
  lemma ParentNotFree(d: Disk, hs: seq<nat>, chain: seq<nat>, ino: nat, off: nat, l: nat, at: nat, idx: nat)
    requires Partition(d, hs, chain, multiset{}) && ino < |hs| && AtParent(d, hs, ino, off, l, at, idx)
    ensures at !in Free(d, chain)
  {
    hide Flatten, Free, IsChain, Trees, OnceEach;
    OwnedAtMostOnce(d, hs, chain, multiset{}, ino, at);
    if l == hs[ino] {
      InodeInRange(d, ino);
    } else {
      PathOwned(d, Root(d, ino), hs[ino], off, l + 1);
      assert at in Owned(d, at, l + 1);
      assert Owned(d, at, l + 1)[at] <= Owned(d, Root(d, ino), hs[ino])[at];
    }
  }

  lemma InodeNotFree(d: Disk, hs: seq<nat>, chain: seq<nat>, ino: nat)
    requires Partition(d, hs, chain, multiset{}) && ino < |hs|
    ensures 0 < InodeBlockOf(ino) < |d| && InodeBlockOf(ino) !in Free(d, chain)
  {
    InodeInRange(d, ino);
    FreeAtMostOnce(d, hs, chain, multiset{});
  }

  /** The disk after an allocation. */
  ghost function Allocated(d: Disk): (d': Disk)
    requires d != [] && 0 < FreeList(d) < |d|
    ensures |d'| == |d|
  {
    d[Allocate(d).at := Allocate(d).blk]
  }

  /** Disk `v` is disk `d` with block `at` as the write holds it in memory: allocating on one is
      allocating on the other, and leaves the held block alone. */
  lemma AllocateBehind(d: Disk, v: Disk, at: nat, chain: seq<nat>)
    requires 0 < at < |d| == |v| && v == d[at := v[at]]
    requires IsChain(v, FreeList(v), chain) && FreeList(v) != 0
    requires at !in Free(v, chain)
    ensures FreeList(d) == FreeList(v) < |d| && Allocate(d) == Allocate(v) && Allocate(d).at != at
    ensures Allocated(d)[at := v[at]] == Allocated(v)
  {
  }

  /** The allocation step for a write that holds block `at` in memory. */
  lemma AllocateHeld(d: Disk, v: Disk, hs: seq<nat>, chain: seq<nat>, at: nat)
    requires Partition(v, hs, chain, multiset{})
    requires 0 < at < |d| == |v| && v == d[at := v[at]] && at !in Free(v, chain)
    ensures FreeList(d) == FreeList(v) < |d|
    ensures FreeList(v) == 0 ==> Free(v, chain) == multiset{}
    ensures FreeList(v) != 0 ==>
              && Allocate(d) == Allocate(v)
              && AllocatesFrom(v, Allocated(v), hs, chain, ChainAfter(v, chain), Allocate(v).b)
              && (forall x :: 0 < x <= InodeBlocks(v) ==> Allocated(v)[x] == v[x])
              && Allocated(d)[at := v[at]] == Allocated(v) && Allocated(v)[at] == v[at] && Allocate(v).b != at
  {
    if FreeList(v) != 0 {
      FreeAtMostOnce(v, hs, chain, multiset{});
      AllocateBehind(d, v, at, chain);
      AllocateStep(v, Allocated(v), hs, chain);
    }
  }

  /** After an allocation the walk stands where it stood. */
  lemma ParentKept(d: Disk, d': Disk, hs: seq<nat>, ino: nat, off: nat, l: nat, at: nat, idx: nat)
    requires Shape(d) && Shape(d') && |hs| == NInodes(d) == NInodes(d') && ino < |hs|
    requires AtParent(d, hs, ino, off, l, at, idx) && TreeKept(d, d', hs, ino) && InodeBlocks(d') == InodeBlocks(d)
    ensures AtParent(d', hs, ino, off, l, at, idx)
  {
    if l < hs[ino] {
      PathFrame(d, d', Root(d, ino), hs[ino], off, l + 1);
    }
  }

  /** Entry `idx` of the parent now refers to block `b`, whose own content, if it is a node, is null. */
  ghost predicate Fills(d: Disk, d': Disk, l: nat, at: nat, idx: nat, b: nat) {
    && |d'| == |d| && 0 < at < |d| && at != b && 0 < b < |d| && b < WORD && idx < R
    && d[at][idx] == 0 && d'[at] == d[at][idx := b]
    && (l > 0 ==> d'[b] == NullBlock())
    && forall x :: 0 <= x < |d| && x != at && x != b ==> d'[x] == d[x]
  }

  ghost predicate Filled(d: Disk, d': Disk, hs: seq<nat>, chain: seq<nat>, ino: nat, off: nat, l: nat, b: nat) {
    && Partition(d', hs, chain, multiset{}) && ino < |hs| && l <= hs[ino]
    && Free(d', chain) == Free(d, chain)
    && SameReads(d, hs, d', hs, ino, off)
    && InodesKept(d, d', ino)
    && PathAt(d', Root(d', ino), hs[ino], off, l) == b
  }

  lemma FillRoot(d: Disk, d': Disk, hs: seq<nat>, chain: seq<nat>, ino: nat, off: nat, at: nat, idx: nat, b: nat)
    requires Partition(d, hs, chain, multiset{b}) && ino < |hs| && off < Pow(hs[ino]) && InodeBlocks(d) < b
    requires AtParent(d, hs, ino, off, hs[ino], at, idx) && Fills(d, d', hs[ino], at, idx, b)
    ensures Filled(d, d', hs, chain, ino, off, hs[ino], b)
  {
    hide Flatten, Free, IsChain, Trees, OnceEach, Owned;
    InodeInRange(d, ino);
    forall j | 0 <= j < |hs|
      ensures Size(d', j) == Size(d, j) && (j != ino ==> Root(d', j) == Root(d, j))
    {
      InodeInRange(d, j);
    }
    RootStep(d, d', hs, chain, ino, b, off);
  }

  lemma FillChild(d: Disk, d': Disk, hs: seq<nat>, chain: seq<nat>, ino: nat, off: nat, l: nat, at: nat, idx: nat, b: nat)
    requires Partition(d, hs, chain, multiset{b}) && ino < |hs| && off < Pow(hs[ino]) && InodeBlocks(d) < b && l < hs[ino]
    requires AtParent(d, hs, ino, off, l, at, idx) && Fills(d, d', l, at, idx, b)
    ensures Filled(d, d', hs, chain, ino, off, l, b)
  {
    hide Flatten, Free, IsChain, Trees, OnceEach, Owned;
    InodesUntouched(d, d', ino);
    assert LinksChild(d, d', hs, chain, ino, off, l, at, b);
    LinkStep(d, d', hs, chain, ino, off, l, at, b);
    LinkStepReads(d, d', hs, chain, ino, off, l, at, b);
    PathStep(d', Root(d', ino), hs[ino], off, l);
  }

  /** One hole of the walk, from the allocation to the link: disk `d1` is the one in between. */
  lemma FillHole(d: Disk, d1: Disk, d': Disk, hs: seq<nat>, chain: seq<nat>, chain': seq<nat>, ino: nat, off: nat, l: nat, at: nat, idx: nat, b: nat)
    requires Partition(d, hs, chain, multiset{}) && ino < |hs| && off < Pow(hs[ino])
    requires AtParent(d, hs, ino, off, l, at, idx)
    requires AllocatesFrom(d, d1, hs, chain, chain', b) && Fills(d1, d', l, at, idx, b)
    requires forall x :: 0 < x <= InodeBlocks(d) ==> d1[x] == d[x]
    ensures Partition(d', hs, chain', multiset{})
    ensures Free(d, chain) == Free(d', chain') + multiset{b}
    ensures SameReads(d, hs, d', hs, ino, off) && InodesKept(d, d', ino)
    ensures PathAt(d', Root(d', ino), hs[ino], off, l) == b
  {
    hide Flatten, Free, IsChain, Trees, OnceEach, Owned, PathAt;
    KeptAll(d, d1, hs, ino, off);
    InodesUntouched(d, d1, ino);
    ParentKept(d, d1, hs, ino, off, l, at, idx);
    if l == hs[ino] {
      FillRoot(d1, d', hs, chain', ino, off, at, idx, b);
    } else {
      FillChild(d1, d', hs, chain', ino, off, l, at, idx, b);
    }
    SameReadsTrans(d, hs, d1, hs, d', hs, ino, off);
  }

  /** One turn of the growth loop, from the allocation to the new root: disk `d1` is the one in between. */
  ghost predicate GrowsOnce(d: Disk, d1: Disk, d': Disk, hs: seq<nat>, chain: seq<nat>, chain': seq<nat>, ino: nat, b: nat) {
    && Partition(d, hs, chain, multiset{}) && ino < |hs|
    && AllocatesFrom(d, d1, hs, chain, chain', b)
    && (forall x :: 0 < x <= InodeBlocks(d) ==> d1[x] == d[x])
    && b < WORD && d' == SetRoot(d1, ino, b)[b := NullBlock()[0 := Root(d1, ino)]]
  }

  lemma GrowOnce(d: Disk, d1: Disk, d': Disk, hs: seq<nat>, hs': seq<nat>, chain: seq<nat>, chain': seq<nat>, ino: nat, b: nat, off: nat)
    requires GrowsOnce(d, d1, d', hs, chain, chain', ino, b) && hs' == hs[ino := hs[ino] + 1]
    ensures Partition(d', hs', chain', multiset{})
    ensures Free(d, chain) == Free(d', chain') + multiset{b}
    ensures SameReads(d, hs, d', hs', ino, off) && InodesKept(d, d', ino) && Root(d', ino) == b
    ensures Pow(hs[ino]) <= off < Pow(hs[ino] + 1) ==> Missing(d', b, hs[ino] + 1, off) == hs[ino] + 1
  {
    hide Flatten, Free, IsChain, Trees, OnceEach, Owned;
    KeptAll(d, d1, hs, ino, off);
    InodesUntouched(d, d1, ino);
    var d2, blk := SetRoot(d1, ino, b), NullBlock()[0 := Root(d1, ino)];
    GrowIsLocal(d1, d2, d', hs, ino, b, blk);
    GrowKeepsTree(d1, d', hs, chain', ino, b);
    InodeInRange(d1, ino);
    GrowStep(d1, d', hs, chain', ino, b);
    GrowStepReads(d1, d', hs, hs', chain', ino, b, off);
    NewRootLookup(d1, d', b, Root(d1, ino), hs[ino], off);
    SameReadsTrans(d, hs, d1, hs, d', hs', ino, off);
    InodesUntouched(d2, d', ino);
  }

  /** The tree of `ino` has grown from height `k0` to height `k`, at the cost of `k - k0` free blocks. */
  ghost predicate Grown(d: Disk, hs: seq<nat>, chain: seq<nat>, d': Disk, hs': seq<nat>, chain': seq<nat>, ino: nat, k0: nat, k: nat, off: nat) {
    && ino < |hs| && k0 <= k && hs' == hs[ino := k]
    && Partition(d', hs', chain', multiset{})
    && |Free(d, chain)| == |Free(d', chain')| + (k - k0)
    && SameReads(d, hs, d', hs', ino, off) && InodesKept(d, d', ino)
    && (k > k0 ==> Root(d', ino) != 0)
    && (k > k0 && Pow(k - 1) <= off < Pow(k) ==> Missing(d', Root(d', ino), k, off) == k)
  }

  lemma GrownNone(d: Disk, hs: seq<nat>, chain: seq<nat>, ino: nat, off: nat)
    requires Partition(d, hs, chain, multiset{}) && ino < |hs|
    ensures hs[ino := hs[ino]] == hs && Grown(d, hs, chain, d, hs, chain, ino, hs[ino], hs[ino], off)
  {
    hide Flatten, Free, IsChain, Trees, OnceEach, Owned, ReadAt;
  }

  lemma GrowTurn(d: Disk, hs: seq<nat>, chain: seq<nat>, d0: Disk, hs0: seq<nat>, chain0: seq<nat>, d1: Disk, d': Disk, chain': seq<nat>, ino: nat, k0: nat, k: nat, b: nat, off: nat)
    requires Grown(d, hs, chain, d0, hs0, chain0, ino, k0, k, off)
    requires GrowsOnce(d0, d1, d', hs0, chain0, chain', ino, b)
    ensures Grown(d, hs, chain, d', hs[ino := k + 1], chain', ino, k0, k + 1, off)
  {
    hide Flatten, Free, IsChain, Trees, OnceEach, Owned, ReadAt;
    var hs' := hs[ino := k + 1];
    assert hs' == hs0[ino := hs0[ino] + 1];
    GrowOnce(d0, d1, d', hs0, hs', chain0, chain', ino, b, off);
    SameReadsTrans(d, hs, d0, hs0, d', hs', ino, off);
  }

  /** The walk has come down to height `l`; what it still has to allocate makes up the cost of the write. */
  ghost predicate Walked(d: Disk, hs: seq<nat>, chain: seq<nat>, v: Disk, chain': seq<nat>, ino: nat, off: nat, l: nat, at: nat, idx: nat) {
    && Partition(v, hs, chain', multiset{}) && ino < |hs|
    && AtParent(v, hs, ino, off, l, at, idx)
    && SameReads(d, hs, v, hs, ino, off) && InodesKept(d, v, ino)
    && |Free(d, chain)| + Missing(v, v[at][idx], l, off) == |Free(v, chain')| + Missing(d, Root(d, ino), hs[ino], off)
  }

  /** The walk has reached the data block `b`. */
  ghost predicate Arrived(d: Disk, hs: seq<nat>, chain: seq<nat>, v: Disk, chain': seq<nat>, ino: nat, off: nat, b: nat) {
    && Partition(v, hs, chain', multiset{}) && ino < |hs|
    && b == PathAt(v, Root(v, ino), hs[ino], off, 0) && InodeBlocks(v) < b < |v|
    && SameReads(d, hs, v, hs, ino, off) && InodesKept(d, v, ino)
    && |Free(d, chain)| == |Free(v, chain')| + Missing(d, Root(d, ino), hs[ino], off)
  }

  lemma WalkStart(d: Disk, hs: seq<nat>, chain: seq<nat>, ino: nat, off: nat)
    requires Partition(d, hs, chain, multiset{}) && ino < |hs|
    ensures Walked(d, hs, chain, d, chain, ino, off, hs[ino], InodeBlockOf(ino), SlotOf(ino))
  {
  }

  lemma WalkDown(d: Disk, hs: seq<nat>, chain: seq<nat>, v: Disk, chain': seq<nat>, ino: nat, off: nat, l: nat, at: nat, idx: nat)
    requires Walked(d, hs, chain, v, chain', ino, off, l, at, idx) && v[at][idx] != 0
    ensures 0 < v[at][idx] < |v|
    ensures l > 0 ==> Walked(d, hs, chain, v, chain', ino, off, l - 1, v[at][idx], Digit(off, l - 1))
    ensures l == 0 ==> Arrived(d, hs, chain, v, chain', ino, off, v[at][idx])
  {
    hide Flatten, Free, IsChain, Trees, OnceEach, Owned, ReadAt;
    ParentRefersTo(v, hs, chain', ino, off, l, at, idx);
  }

  lemma WalkFill(d: Disk, hs: seq<nat>, chain: seq<nat>, v: Disk, chain0: seq<nat>, v1: Disk, v': Disk, chain': seq<nat>, ino: nat, off: nat, l: nat, at: nat, idx: nat, b: nat)
    requires Walked(d, hs, chain, v, chain0, ino, off, l, at, idx) && v[at][idx] == 0 && off < Pow(hs[ino])
    requires AllocatesFrom(v, v1, hs, chain0, chain', b) && Fills(v1, v', l, at, idx, b)
    requires forall x :: 0 < x <= InodeBlocks(v) ==> v1[x] == v[x]
    ensures l > 0 ==> Walked(d, hs, chain, v', chain', ino, off, l - 1, b, Digit(off, l - 1))
    ensures l == 0 ==> Arrived(d, hs, chain, v', chain', ino, off, b)
  {
    hide Flatten, Free, IsChain, Trees, OnceEach, Owned, ReadAt;
    FillHole(v, v1, v', hs, chain0, chain', ino, off, l, at, idx, b);
    SameReadsTrans(d, hs, v, hs, v', hs, ino, off);
    NewNode(v', b, l, off);
    OnPath(v', hs, chain', ino, off, l);
  }

  /** Disk `d` once a new block fills entry `idx` of the parent, whose block was held as `blk`. */
  ghost function LinkNew(d: Disk, l: nat, at: nat, idx: nat, blk: Block): (d': Disk)
    requires 0 < at < |d| && idx < R && 0 < FreeList(d) < |d| && Allocate(d).b < |d|
  {
    var b := Allocate(d).b;
    var d1 := Allocated(d)[at := blk[idx := b]];
    if l == 0 then d1 else d1[b := NullBlock()]
  }

  /** One hole of the walk: either the store is too full for this write, or the walk goes on. */
  lemma WalkHole(d: Disk, hs: seq<nat>, chain: seq<nat>, below: Disk, v: Disk, chain': seq<nat>, ino: nat, off: nat, l: nat, at: nat, idx: nat)
    requires Walked(d, hs, chain, v, chain', ino, off, l, at, idx) && v[at][idx] == 0 && off < Pow(hs[ino])
    requires |below| == |v| && v == below[at := v[at]]
    ensures FreeList(below) < |below|
    ensures FreeList(below) == 0 ==> |Free(d, chain)| < Missing(d, Root(d, ino), hs[ino], off)
    ensures FreeList(below) != 0 ==>
              && FreeList(v) != 0 && IsChain(v, FreeList(v), chain')
              && 0 < Allocate(below).b < |below| && Allocate(below).b != at
              && Allocate(below).at < |below| && Allocated(below)[0] == Allocated(v)[0]
              && (l > 0 ==> Walked(d, hs, chain, LinkNew(below, l, at, idx, v[at]), ChainAfter(v, chain'), ino, off, l - 1, Allocate(below).b, Digit(off, l - 1)))
              && (l == 0 ==> Arrived(d, hs, chain, LinkNew(below, l, at, idx, v[at]), ChainAfter(v, chain'), ino, off, Allocate(below).b))
  {
    hide Flatten, Free, Trees, OnceEach, Owned, ReadAt, PathAt, SameReads, InodesKept;
    ParentNotFree(v, hs, chain', ino, off, l, at, idx);
    AllocateHeld(below, v, hs, chain', at);
    if FreeList(v) != 0 {
      var b: nat := Allocate(below).b;
      var v' := LinkNew(below, l, at, idx, v[at]);
      WalkFill(d, hs, chain, v, chain', Allocated(v), v', ChainAfter(v, chain'), ino, off, l, at, idx, b);
    }
  }

  lemma RootOfPath(d: Disk, b: nat, k: nat, off: nat)
    requires PathAt(d, b, k, off, 0) != 0
    ensures b != 0
  {
  }

  /** The height a write works at is enough for its offset and never less than the old one. */
  lemma LevelsEnough(n: nat, off: nat)
    ensures off < n ==> off < Pow(Height(n))
    ensures off >= n ==> Height(n) <= Levels(off) && Height(off + 1) == Levels(off)
  {
    if 0 < n {
      if off < n {
        LevelsMonotone(off, n - 1);
        LevelsLeast(off, Height(n));
      } else {
        LevelsMonotone(n - 1, off);
      }
    }
  }
}
