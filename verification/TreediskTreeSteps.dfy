/** The three ways a write changes a tree: a new root on top, a new block below a hole, new leaf data. */
module TreediskTreeSteps {
  import opened Words
  import opened Radix
  import opened Blocks
  import opened BlockTree
  import opened TreediskLayout
  import opened TreediskSteps

  /** The disk with the root reference of file `ino` replaced. */
  ghost function SetRoot(d: Disk, ino: nat, b: Word): (d': Disk)
    requires Shape(d) && ino < NInodes(d)
    ensures Shape(d') && NInodes(d') == NInodes(d) && |d'| == |d|
    ensures Root(d', ino) == b && Size(d', ino) == Size(d, ino)
    ensures forall j :: 0 <= j < NInodes(d) && j != ino ==> Root(d', j) == Root(d, j) && Size(d', j) == Size(d, j)
    ensures forall x :: 0 <= x < |d| && x != InodeBlockOf(ino) ==> d'[x] == d[x]
  {
    var ib := InodeBlockOf(ino);
    d[ib := d[ib][SlotOf(ino) := b]]
  }

  lemma {:induction false} FlattenSingle(s: seq<multiset<nat>>, i: nat)
    requires i < |s| && forall j :: 0 <= j < |s| && j != i ==> s[j] == multiset{}
    ensures Flatten(s) == s[i]
  {
    FlattenEmpty(s[i := multiset{}]);
    FlattenUpdate(s, i, multiset{});
    assert Flatten(s) + multiset{} == Flatten(s);
  }

  // ---- Growing ----

  /** A node whose only child is the old tree. */
  lemma NewRootOwned(d: Disk, d': Disk, b: nat, root: Word, k: nat)
    requires 0 < b < |d| == |d'| && d'[b] == NullBlock()[0 := root]
    requires AgreeOn(d, d', Owned(d, root, k))
    ensures Owned(d', b, k + 1) + multiset{} == Owned(d, root, k) + multiset{b}
  {
    OwnedFrame(d, d', root, k);
    var kids := Kids(d', d'[b], k);
    assert forall j :: 0 <= j < R ==> kids[j] == Owned(d', d'[b][j], k);
    FlattenSingle(kids, 0);
    assert Owned(d', b, k + 1) == multiset{b} + Flatten(kids);
  }

  lemma NewRootLookup(d: Disk, d': Disk, b: nat, root: Word, k: nat, o: nat)
    requires 0 < b < |d| == |d'| && d'[b] == NullBlock()[0 := root]
    requires AgreeOn(d, d', Owned(d, root, k))
    ensures o < Pow(k) ==> Lookup(d', b, k + 1, o) == Lookup(d, root, k, o)
    ensures Pow(k) <= o < Pow(k + 1) ==> Lookup(d', b, k + 1, o) == NullBlock() && Missing(d', b, k + 1, o) == k + 1
  {
    if o < Pow(k) {
      DigitOfSmall(o, k);
      LookupFrame(d, d', root, k, o);
    } else if o < Pow(k + 1) {
      DigitOfLarge(o, k);
    }
  }

  /** The old tree, under its new root, is untouched. */
  lemma GrowKeepsTree(d: Disk, d': Disk, hs: seq<nat>, chain: seq<nat>, ino: nat, b: nat)
    requires Partition(d, hs, chain, multiset{b}) && ino < |hs|
    requires |d'| == |d| && forall x :: InodeBlocks(d) < x < |d| && x != b ==> d'[x] == d[x]
    ensures AgreeOn(d, d', Owned(d, Root(d, ino), hs[ino]))
  {
    forall x | x in Owned(d, Root(d, ino), hs[ino]) && x < |d| ensures d[x] == d'[x] {
      OwnedAtMostOnce(d, hs, chain, multiset{b}, ino, x);
    }
  }

  lemma GrowIsLocal(d: Disk, d1: Disk, d': Disk, hs: seq<nat>, ino: nat, b: nat, blk: Block)
    requires Shape(d) && |hs| == NInodes(d) && ino < |hs|
    requires InodeBlocks(d) < b < |d| && b < WORD && d1 == SetRoot(d, ino, b) && d' == d1[b := blk]
    ensures OnlyTree(d, d', hs, multiset{b}, ino) && Root(d', ino) == b
    ensures forall x :: InodeBlocks(d) < x < |d| && x != b ==> d'[x] == d[x]
  {
    InodeInRange(d, ino);
    forall j | 0 <= j < |hs| ensures Root(d', j) == Root(d1, j) {
      InodeInRange(d, j);
    }
  }

  ghost predicate Grows(d: Disk, d': Disk, hs: seq<nat>, chain: seq<nat>, ino: nat, b: nat) {
    && Partition(d, hs, chain, multiset{b}) && ino < |hs|
    && OnlyTree(d, d', hs, multiset{b}, ino)
    && InodeBlocks(d) < b < |d|
    && Root(d', ino) == b
    && d'[b] == NullBlock()[0 := Root(d, ino)]
    && AgreeOn(d, d', Owned(d, Root(d, ino), hs[ino]))
  }

  lemma GrowStep(d: Disk, d': Disk, hs: seq<nat>, chain: seq<nat>, ino: nat, b: nat)
    requires Grows(d, d', hs, chain, ino, b)
    ensures Partition(d', hs[ino := hs[ino] + 1], chain, multiset{})
    ensures Free(d', chain) == Free(d, chain)
  {
    hide Owned, Flatten, Free, IsChain, Trees, OnceEach;
    NewRootOwned(d, d', b, Root(d, ino), hs[ino]);
    TreeStep(d, d', hs, hs[ino] + 1, chain, multiset{b}, multiset{}, ino);
  }

  /** Inserting a root changes what no offset of any file reads. */
  lemma GrowStepReads(d: Disk, d': Disk, hs: seq<nat>, hs': seq<nat>, chain: seq<nat>, ino: nat, b: nat, off: nat)
    requires Grows(d, d', hs, chain, ino, b) && hs' == hs[ino := hs[ino] + 1]
    ensures SameReads(d, hs, d', hs', ino, off)
    ensures ReadAt(d', hs', ino, off) == ReadAt(d, hs, ino, off)
  {
    forall o: nat ensures ReadAt(d', hs', ino, o) == ReadAt(d, hs, ino, o) {
      GrowKeepsReads(d, d', hs, hs', chain, ino, b, o);
    }
    TreeStepReads(d, d', hs, hs', chain, multiset{b}, ino, off);
  }

  lemma GrowKeepsReads(d: Disk, d': Disk, hs: seq<nat>, hs': seq<nat>, chain: seq<nat>, ino: nat, b: nat, o: nat)
    requires Grows(d, d', hs, chain, ino, b) && hs' == hs[ino := hs[ino] + 1]
    ensures ReadAt(d', hs', ino, o) == ReadAt(d, hs, ino, o)
  {
    hide Owned, Flatten, Free, IsChain, Trees, OnceEach, Lookup, Missing;
    NewRootLookup(d, d', b, Root(d, ino), hs[ino], o);
    PowMonotone(hs[ino], hs[ino] + 1);
  }

  // ---- Filling a hole ----

  /** Node `p` of height `l + 1` gets a new child `b` in place of a hole, and `b` starts out empty. */
  ghost predicate Links(d: Disk, d': Disk, p: nat, l: nat, c: nat, b: nat) {
    && |d| == |d'| && c < R
    && 0 < p < |d| && 0 < b < |d| && b != p
    && d[p][c] == 0 && b < WORD && d'[p] == d[p][c := b]
    && (l > 0 ==> d'[b] == NullBlock())
    && (forall x :: 0 <= x < |d| && x != p && x != b ==> d'[x] == d[x])
  }

  lemma LinkSibling(d: Disk, d': Disk, p: nat, l: nat, c: nat, b: nat, i: nat)
    requires Links(d, d', p, l, c, b) && i < R && i != c
    requires b !in Owned(d, p, l + 1) && Owned(d, p, l + 1)[p] <= 1
    ensures d'[p][i] == d[p][i] && AgreeOn(d, d', Owned(d, d[p][i], l))
  {
    KidOwned(d, p, l + 1, i);
    assert Owned(d, d[p][i], l)[p] + 1 <= Owned(d, p, l + 1)[p];
  }

  lemma LinkOwned(d: Disk, d': Disk, p: nat, l: nat, c: nat, b: nat)
    requires Links(d, d', p, l, c, b)
    requires b !in Owned(d, p, l + 1) && Owned(d, p, l + 1)[p] <= 1
    ensures Owned(d', p, l + 1) == Owned(d, p, l + 1) + multiset{b}
  {
    forall i | 0 <= i < R && i != c ensures Owned(d', d'[p][i], l) == Owned(d, d[p][i], l) {
      LinkSibling(d, d', p, l, c, b, i);
      OwnedFrame(d, d', d[p][i], l);
    }
    NewNode(d', b, l, 0);
    NodeGrows(d, d', p, l + 1, c, multiset{b});
  }

  lemma NewNode(d: Disk, b: nat, l: nat, o: nat)
    requires 0 < b < |d| && (l > 0 ==> d[b] == NullBlock())
    ensures Owned(d, b, l) == multiset{b}
    ensures l > 0 ==> Lookup(d, b, l, o) == NullBlock()
    ensures Missing(d, b, l, o) == l
  {
    if l > 0 {
      EmptyNode(d, b, l, o);
    }
  }

  lemma LinkLookup(d: Disk, d': Disk, p: nat, l: nat, c: nat, b: nat, o: nat)
    requires Links(d, d', p, l, c, b)
    requires b !in Owned(d, p, l + 1) && Owned(d, p, l + 1)[p] <= 1
    ensures l > 0 || Digit(o, l) != c ==> Lookup(d', p, l + 1, o) == Lookup(d, p, l + 1, o)
  {
    var i := Digit(o, l);
    if i == c {
      NewNode(d', b, l, o);
    } else {
      LinkSibling(d, d', p, l, c, b, i);
      LookupFrame(d, d', d[p][i], l, o);
    }
  }

  /** Block `b`, in hand, fills the hole the walk for `off` meets at height `l` of file `ino`. */
  ghost predicate LinksChild(d: Disk, d': Disk, hs: seq<nat>, chain: seq<nat>, ino: nat, off: nat, l: nat, p: nat, b: nat) {
    && Partition(d, hs, chain, multiset{b}) && ino < |hs| && l < hs[ino]
    && p == PathAt(d, Root(d, ino), hs[ino], off, l + 1)
    && InodeBlocks(d) < p && InodeBlocks(d) < b
    && Links(d, d', p, l, Digit(off, l), b)
  }

  lemma LinkIsLocal(d: Disk, d': Disk, hs: seq<nat>, chain: seq<nat>, ino: nat, off: nat, l: nat, p: nat, b: nat)
    requires LinksChild(d, d', hs, chain, ino, off, l, p, b)
    ensures OnlyTree(d, d', hs, multiset{b}, ino)
    ensures Root(d', ino) == Root(d, ino)
  {
    hide Flatten, Free, IsChain, Trees, OnceEach;
    PathOwned(d, Root(d, ino), hs[ino], off, l + 1);
    assert p in Owned(d, p, l + 1);
    forall j | 0 <= j < |hs| ensures Root(d', j) == Root(d, j) {
      InodeInRange(d, j);
    }
  }

  lemma LinkIsReplacement(d: Disk, d': Disk, hs: seq<nat>, chain: seq<nat>, ino: nat, off: nat, l: nat, p: nat, b: nat)
    requires LinksChild(d, d', hs, chain, ino, off, l, p, b)
    ensures b !in Owned(d, p, l + 1) && Owned(d, p, l + 1)[p] <= 1
    ensures Replaces(d, d', Root(d, ino), hs[ino], off, l + 1, p, multiset{b})
  {
    hide Flatten, Free, IsChain, Trees, OnceEach;
    forall x ensures Owned(d, Root(d, ino), hs[ino])[x] + multiset{b}[x] <= 1 {
      OwnedAtMostOnce(d, hs, chain, multiset{b}, ino, x);
    }
    PathOwned(d, Root(d, ino), hs[ino], off, l + 1);
    assert Owned(d, p, l + 1)[b] <= Owned(d, Root(d, ino), hs[ino])[b];
    assert Owned(d, p, l + 1)[p] <= Owned(d, Root(d, ino), hs[ino])[p];
    assert p in Owned(d, p, l + 1);
    LinkOwned(d, d', p, l, Digit(off, l), b);
  }

  lemma LinkStep(d: Disk, d': Disk, hs: seq<nat>, chain: seq<nat>, ino: nat, off: nat, l: nat, p: nat, b: nat)
    requires LinksChild(d, d', hs, chain, ino, off, l, p, b)
    ensures Partition(d', hs, chain, multiset{})
    ensures Free(d', chain) == Free(d, chain)
    ensures Root(d', ino) == Root(d, ino)
    ensures PathAt(d', Root(d', ino), hs[ino], off, l + 1) == p
  {
    hide Owned, Flatten, Free, IsChain, Trees, OnceEach, PathAt;
    LinkIsLocal(d, d', hs, chain, ino, off, l, p, b);
    LinkIsReplacement(d, d', hs, chain, ino, off, l, p, b);
    ReplaceOwned(d, d', Root(d, ino), hs[ino], off, l + 1, p, multiset{b});
    assert Owned(d', Root(d', ino), hs[ino]) + multiset{} == Owned(d, Root(d, ino), hs[ino]) + multiset{b};
    TreeStep(d, d', hs, hs[ino], chain, multiset{b}, multiset{}, ino);
    assert hs[ino := hs[ino]] == hs;
  }

  /** Filling a hole changes at most the block being written, and that only at the bottom. */
  lemma LinkStepReads(d: Disk, d': Disk, hs: seq<nat>, chain: seq<nat>, ino: nat, off: nat, l: nat, p: nat, b: nat)
    requires LinksChild(d, d', hs, chain, ino, off, l, p, b) && off < Pow(hs[ino])
    ensures SameReads(d, hs, d', hs, ino, off)
  {
    hide Owned, Flatten, Free, IsChain, Trees, OnceEach, PathAt;
    LinkIsLocal(d, d', hs, chain, ino, off, l, p, b);
    forall o: nat | o != off ensures ReadAt(d', hs, ino, o) == ReadAt(d, hs, ino, o) {
      LinkKeepsReads(d, d', hs, chain, ino, off, l, p, b, o);
    }
    TreeStepReads(d, d', hs, hs, chain, multiset{b}, ino, off);
  }

  lemma LinkKeepsReads(d: Disk, d': Disk, hs: seq<nat>, chain: seq<nat>, ino: nat, off: nat, l: nat, p: nat, b: nat, o: nat)
    requires LinksChild(d, d', hs, chain, ino, off, l, p, b) && off < Pow(hs[ino]) && o != off
    ensures Shape(d') && NInodes(d') == |hs|
    ensures ReadAt(d', hs, ino, o) == ReadAt(d, hs, ino, o)
  {
    hide Owned, Flatten, Free, IsChain, Trees, OnceEach, PathAt, Lookup;
    var k, root := hs[ino], Root(d, ino);
    LinkIsLocal(d, d', hs, chain, ino, off, l, p, b);
    if o < Pow(k) {
      LinkIsReplacement(d, d', hs, chain, ino, off, l, p, b);
      ReplaceLookup(d, d', root, k, off, l + 1, p, multiset{b}, o);
      LinkLookup(d, d', p, l, Digit(off, l), b, o);
      DistinctBranch(o, off, l, k);
    }
  }

  lemma DistinctBranch(o: nat, off: nat, l: nat, k: nat)
    requires o < Pow(k) && off < Pow(k) && o != off && l < k
    ensures SameBranch(o, off, l + 1, k) ==> l > 0 || Digit(o, l) != Digit(off, l)
  {
    if l == 0 && Digit(o, 0) == Digit(off, 0) && SameBranch(o, off, 1, k) {
      BranchExtend(o, off, k);
      SameBranchMeansEqual(o, off, k);
      DivModUnique(o, Pow(k), 0, o);
      DivModUnique(off, Pow(k), 0, off);
    }
  }

  lemma {:induction false} BranchExtend(o: nat, off: nat, k: nat)
    requires 1 <= k && SameBranch(o, off, 1, k) && Digit(o, 0) == Digit(off, 0)
    ensures SameBranch(o, off, 0, k)
  {
    if k > 1 {
      BranchExtend(o, off, k - 1);
    } else {
      assert SameBranch(o, off, 0, 0);
    }
  }

  // ---- The first block of an empty tree ----

  ghost predicate LinksRoot(d: Disk, d': Disk, hs: seq<nat>, chain: seq<nat>, ino: nat, b: nat) {
    && Partition(d, hs, chain, multiset{b}) && ino < |hs|
    && OnlyTree(d, d', hs, multiset{b}, ino)
    && Root(d, ino) == 0 && Root(d', ino) == b
    && InodeBlocks(d) < b < |d|
    && (hs[ino] > 0 ==> d'[b] == NullBlock())
  }

  lemma RootStep(d: Disk, d': Disk, hs: seq<nat>, chain: seq<nat>, ino: nat, b: nat, off: nat)
    requires LinksRoot(d, d', hs, chain, ino, b) && off < Pow(hs[ino])
    ensures Partition(d', hs, chain, multiset{})
    ensures Free(d', chain) == Free(d, chain)
    ensures SameReads(d, hs, d', hs, ino, off)
  {
    hide Flatten, Free, IsChain, Trees, OnceEach;
    NewNode(d', b, hs[ino], 0);
    assert Owned(d', Root(d', ino), hs[ino]) + multiset{} == Owned(d, Root(d, ino), hs[ino]) + multiset{b};
    TreeStep(d, d', hs, hs[ino], chain, multiset{b}, multiset{}, ino);
    assert hs[ino := hs[ino]] == hs;
    forall o: nat | o != off ensures ReadAt(d', hs, ino, o) == ReadAt(d, hs, ino, o) {
      if 0 < hs[ino] {
        NewNode(d', b, hs[ino], o);
      }
    }
    TreeStepReads(d, d', hs, hs, chain, multiset{b}, ino, off);
  }

  // ---- The data itself ----

  ghost predicate Stores(d: Disk, d': Disk, hs: seq<nat>, chain: seq<nat>, ino: nat, off: nat, b: nat, blk: Block) {
    && Partition(d, hs, chain, multiset{}) && ino < |hs| && off < Pow(hs[ino])
    && b == PathAt(d, Root(d, ino), hs[ino], off, 0)
    && InodeBlocks(d) < b < |d| && d' == d[b := blk]
  }

  lemma StoreIsLocal(d: Disk, d': Disk, hs: seq<nat>, chain: seq<nat>, ino: nat, off: nat, b: nat, blk: Block)
    requires Stores(d, d', hs, chain, ino, off, b, blk)
    ensures OnlyTree(d, d', hs, multiset{}, ino) && Root(d', ino) == Root(d, ino)
    ensures Replaces(d, d', Root(d, ino), hs[ino], off, 0, b, multiset{})
  {
    hide Flatten, Free, IsChain, Trees, OnceEach;
    PathOwned(d, Root(d, ino), hs[ino], off, 0);
    assert b in Owned(d, b, 0);
    forall j | 0 <= j < |hs| ensures Root(d', j) == Root(d, j) {
      InodeInRange(d, j);
    }
    forall x ensures Owned(d, Root(d, ino), hs[ino])[x] <= 1 {
      OwnedAtMostOnce(d, hs, chain, multiset{}, ino, x);
    }
    assert Owned(d', b, 0) == Owned(d, b, 0) + multiset{};
  }

  lemma StoreStep(d: Disk, d': Disk, hs: seq<nat>, chain: seq<nat>, ino: nat, off: nat, b: nat, blk: Block)
    requires Stores(d, d', hs, chain, ino, off, b, blk)
    ensures Partition(d', hs, chain, multiset{})
    ensures Free(d', chain) == Free(d, chain)
    ensures SameReads(d, hs, d', hs, ino, off)
    ensures ReadAt(d', hs, ino, off) == blk
  {
    hide Owned, Flatten, Free, IsChain, Trees, OnceEach, PathAt;
    StoreIsLocal(d, d', hs, chain, ino, off, b, blk);
    ReplaceOwned(d, d', Root(d, ino), hs[ino], off, 0, b, multiset{});
    assert Owned(d', Root(d', ino), hs[ino]) + multiset{} == Owned(d, Root(d, ino), hs[ino]) + multiset{};
    TreeStep(d, d', hs, hs[ino], chain, multiset{}, multiset{}, ino);
    assert hs[ino := hs[ino]] == hs;
    forall o: nat | o != off ensures ReadAt(d', hs, ino, o) == ReadAt(d, hs, ino, o) {
      StoreReads(d, d', hs, chain, ino, off, b, blk, o);
    }
    StoreReads(d, d', hs, chain, ino, off, b, blk, off);
    TreeStepReads(d, d', hs, hs, chain, multiset{}, ino, off);
  }

  lemma StoreReads(d: Disk, d': Disk, hs: seq<nat>, chain: seq<nat>, ino: nat, off: nat, b: nat, blk: Block, o: nat)
    requires Stores(d, d', hs, chain, ino, off, b, blk)
    ensures Shape(d') && NInodes(d') == |hs|
    ensures ReadAt(d', hs, ino, o) == if o == off then blk else ReadAt(d, hs, ino, o)
  {
    hide Owned, Flatten, Free, IsChain, Trees, OnceEach, PathAt;
    StoreIsLocal(d, d', hs, chain, ino, off, b, blk);
    ReplaceLookup(d, d', Root(d, ino), hs[ino], off, 0, b, multiset{}, o);
    SameBranchMeansEqual(o, off, hs[ino]);
    if o < Pow(hs[ino]) {
      DivModUnique(o, Pow(hs[ino]), 0, o);
      DivModUnique(off, Pow(hs[ino]), 0, off);
    }
  }
}
