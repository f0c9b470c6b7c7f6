/** Building a file system: the free list of a fresh disk and its empty inodes. */
module TreediskCreate {
  import opened Words
  import opened Radix
  import opened Blocks
  import opened BlockTree
  import opened TreediskLayout
  import opened TreediskSteps

  /** A row of consecutive block numbers, padded with null references. */
  lemma {:induction false} NonZeroRun(s: seq<Word>, m: nat, first: nat)
    requires m <= |s| && first > 0
    requires forall i :: 0 <= i < m ==> s[i] == first + i
    requires forall i :: m <= i < |s| ==> s[i] == 0
    ensures OnceEach(NonZero(s), first, first + m)
  {
    if s != [] {
      var n := |s| - 1;
      NonZeroRun(s[..n], if m <= n then m else n, first);
      assert forall x :: NonZero(s)[x] == NonZero(s[..n])[x] + (if s[n] != 0 && x == s[n] then 1 else 0);
    }
  }

  lemma EmptyFreeList(d: Disk, lo: nat)
    ensures IsChain(d, 0, []) && OnceEach(Free(d, []), lo, lo)
  {
  }

  /** One node in front of the list: the node and its references extend the range the list covers. */
  lemma FreeListExtend(d: Disk, head: nat, chain: seq<nat>, d': Disk, b: nat, m: nat, lo: nat)
    requires lo <= b < |d| == |d'| && 0 < lo && m < R
    requires IsChain(d, head, chain) && OnceEach(Free(d, chain), lo, b)
    requires d' == d[b := d'[b]] && d'[b][0] == head
    requires forall i :: 0 < i < R ==> d'[b][i] == if i <= m then b + i else 0
    ensures IsChain(d', b, [b] + chain)
    ensures OnceEach(Free(d', [b] + chain), lo, b + m + 1)
  {
    hide NonZero;
    FreeListMoved(d, d', head, chain, lo, b);
    NonZeroRun(d'[b][1..], m, b + 1);
    assert ([b] + chain)[1..] == chain;
    assert Free(d', [b] + chain) == multiset{b} + NonZero(d'[b][1..]) + Free(d, chain);
    OnceEachJoin(Free(d, chain), NonZero(d'[b][1..]), lo, b, m);
  }

  /** A list whose blocks are left alone is the same list. */
  lemma FreeListMoved(d: Disk, d': Disk, head: nat, chain: seq<nat>, lo: nat, hi: nat)
    requires |d| == |d'| && IsChain(d, head, chain) && OnceEach(Free(d, chain), lo, hi)
    requires forall x :: lo <= x < hi && x < |d| ==> d'[x] == d[x]
    ensures IsChain(d', head, chain) && Free(d', chain) == Free(d, chain)
  {
    ChainIsFree(d, head, chain);
    FreeFrame(d, d', head, chain);
  }

  lemma OnceEachJoin(f: multiset<nat>, g: multiset<nat>, lo: nat, b: nat, m: nat)
    requires lo <= b && OnceEach(f, lo, b) && OnceEach(g, b + 1, b + 1 + m)
    ensures OnceEach(multiset{b} + g + f, lo, b + m + 1)
  {
  }

  lemma {:induction false} OnceEachSize(m: multiset<nat>, lo: nat, hi: nat)
    requires lo <= hi && OnceEach(m, lo, hi)
    ensures |m| == hi - lo
    decreases hi - lo
  {
    if lo == hi {
      assert m == multiset{};
    } else {
      var x: nat := hi - 1;
      var m' := m - multiset{x};
      assert m == m' + multiset{x};
      OnceEachSize(m', lo, hi - 1);
    }
  }

  /** A fresh disk: null inode blocks, and every other block on the free list. */
  lemma FreshIsConsistent(d: Disk, chain: seq<nat>)
    requires Shape(d) && IsChain(d, FreeList(d), chain)
    requires OnceEach(Free(d, chain), InodeBlocks(d) + 1, |d|)
    requires forall x :: 0 < x <= InodeBlocks(d) ==> d[x] == NullBlock()
    ensures Consistent(d, chain)
    ensures forall ino :: 0 <= ino < NInodes(d) ==> File(d, ino) == []
    ensures |Free(d, chain)| == |d| - InodeBlocks(d) - 1
  {
    var hs := Heights(d);
    forall ino | 0 <= ino < NInodes(d)
      ensures Root(d, ino) == 0 && Size(d, ino) == 0 && Trees(d, hs)[ino] == multiset{} && FileOk(d, ino)
    {
      InodeInRange(d, ino);
    }
    FlattenEmpty(Trees(d, hs));
    assert Flatten(Trees(d, hs)) + Free(d, chain) + multiset{} == Free(d, chain);
    OnceEachSize(Free(d, chain), InodeBlocks(d) + 1, |d|);
  }
}
