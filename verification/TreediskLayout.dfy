/** The on-disk layout of a treedisk file system and the invariant that ties its blocks together. */
module TreediskLayout {
  import opened Words
  import opened Radix
  import opened Blocks
  import opened BlockTree

  /** INODES_PER_BLOCK: an inode is a root reference followed by a size in blocks. */
  const INODES_PER_BLOCK: nat := 64

  /** Superblock fields. */
  function InodeBlocks(d: Disk): (n: Word)
    requires d != []
  {
    d[0][0]
  }

  function FreeList(d: Disk): (b: Word)
    requires d != []
  {
    d[0][1]
  }

  /** The inode count, as the 32-bit product the bound check computes. */
  function NInodes(d: Disk): (n: Word)
    requires d != []
  {
    (InodeBlocks(d) * INODES_PER_BLOCK) % WORD
  }

  /** The superblock, the inode blocks and at least one more block fit the disk. */
  predicate Shape(d: Disk) {
    2 <= |d| < WORD && InodeBlocks(d) + 2 <= |d|
  }

  function InodeBlockOf(ino: nat): (b: nat) { 1 + ino / INODES_PER_BLOCK }

  function SlotOf(ino: nat): (i: nat)
    ensures i + 1 < R
  {
    2 * (ino % INODES_PER_BLOCK)
  }

  lemma InodeInRange(d: Disk, ino: nat)
    requires Shape(d) && ino < NInodes(d)
    ensures 0 < InodeBlockOf(ino) <= InodeBlocks(d)
  {
  }

  function Root(d: Disk, ino: nat): (b: Word)
    requires Shape(d) && ino < NInodes(d)
  {
    d[InodeBlockOf(ino)][SlotOf(ino)]
  }

  function Size(d: Disk, ino: nat): (n: Word)
    requires Shape(d) && ino < NInodes(d)
  {
    d[InodeBlockOf(ino)][SlotOf(ino) + 1]
  }

  /** The height of the tree of a file of `n` blocks. */
  function Height(n: nat): (k: nat) { if n == 0 then 0 else Levels(n - 1) }

  // ---- The free list ----

  ghost function NonZero(s: seq<Word>): (m: multiset<nat>) {
    if s == [] then multiset{}
    else NonZero(s[..|s| - 1]) + (if s[|s| - 1] == 0 then multiset{} else multiset{s[|s| - 1]})
  }

  /** `chain` lists the free-list nodes from `head` on, linked through reference 0. */
  ghost predicate IsChain(d: Disk, head: nat, chain: seq<nat>)
    decreases |chain|
  {
    if chain == [] then head == 0
    else head == chain[0] && 0 < head < |d| && IsChain(d, d[head][0], chain[1..])
  }

  /** The free blocks: every node of the list, and every block a node refers to. */
  ghost function Free(d: Disk, chain: seq<nat>): (m: multiset<nat>) {
    if chain == [] then multiset{}
    else multiset{chain[0]} + (if chain[0] < |d| then NonZero(d[chain[0]][1..]) else multiset{}) + Free(d, chain[1..])
  }

  // ---- The whole store ----

  /** What each inode's tree owns, given the height of each tree. */
  ghost function Trees(d: Disk, hs: seq<nat>): (s: seq<multiset<nat>>)
    requires Shape(d) && |hs| == NInodes(d)
    ensures |s| == |hs|
  {
    seq(|hs|, i requires 0 <= i < |hs| => Owned(d, Root(d, i), hs[i]))
  }

  ghost predicate OnceEach(m: multiset<nat>, lo: nat, hi: nat) {
    forall x :: m[x] == if lo <= x < hi then 1 else 0
  }

  /** Every block behind the inode blocks is in exactly one place: at one position of one inode's
      tree, once on the free list, or among the `loose` blocks an operation has in hand. */
  ghost predicate Partition(d: Disk, hs: seq<nat>, chain: seq<nat>, loose: multiset<nat>) {
    && Shape(d) && |hs| == NInodes(d)
    && IsChain(d, FreeList(d), chain)
    && OnceEach(Flatten(Trees(d, hs)) + Free(d, chain) + loose, InodeBlocks(d) + 1, |d|)
  }

  /** Block `o` of file `ino`; past the reach of its tree there are only holes. */
  ghost function ReadAt(d: Disk, hs: seq<nat>, ino: nat, o: nat): (blk: Block)
    requires Shape(d) && |hs| == NInodes(d) && ino < |hs|
  {
    if o < Pow(hs[ino]) then Lookup(d, Root(d, ino), hs[ino], o) else NullBlock()
  }

  /** All files read the same, except perhaps block `off` of file `ino`. */
  ghost predicate SameReads(d: Disk, hs: seq<nat>, d': Disk, hs': seq<nat>, ino: nat, off: nat) {
    && Shape(d) && Shape(d') && |hs| == |hs'| == NInodes(d) == NInodes(d')
    && forall j, o: nat {:trigger ReadAt(d', hs', j, o)} :: 0 <= j < |hs| && !(j == ino && o == off) ==>
         ReadAt(d', hs', j, o) == ReadAt(d, hs, j, o)
  }

  ghost function Heights(d: Disk): (hs: seq<nat>)
    requires Shape(d)
    ensures |hs| == NInodes(d)
  {
    seq(NInodes(d), i requires 0 <= i < NInodes(d) => Height(Size(d, i)))
  }

  /** A file that is not empty has a root, and a file holds nothing past its size. */
  ghost predicate FileOk(d: Disk, ino: nat)
    requires Shape(d) && ino < NInodes(d)
  {
    && (Size(d, ino) == 0 <==> Root(d, ino) == 0)
    && forall o: nat :: Size(d, ino) <= o ==> ReadAt(d, Heights(d), ino, o) == NullBlock()
  }

  /** The invariant between operations. */
  ghost predicate Consistent(d: Disk, chain: seq<nat>) {
    && Shape(d)
    && Partition(d, Heights(d), chain, multiset{})
    && forall ino :: 0 <= ino < NInodes(d) ==> FileOk(d, ino)
  }

  // ---- The abstract file system: a sequence of blocks for each inode ----

  ghost function File(d: Disk, ino: nat): (f: seq<Block>)
    requires Shape(d) && ino < NInodes(d)
  {
    seq(Size(d, ino), o requires 0 <= o < Size(d, ino) => ReadAt(d, Heights(d), ino, o))
  }

  ghost function Files(d: Disk): (fs: seq<seq<Block>>)
    requires Shape(d)
    ensures |fs| == NInodes(d)
    ensures forall ino :: 0 <= ino < |fs| ==> fs[ino] == File(d, ino)
  {
    seq(NInodes(d), ino requires 0 <= ino < NInodes(d) => File(d, ino))
  }

  function Zeros(n: nat): (s: seq<Block>)
    ensures |s| == n
  {
    seq(n, i => NullBlock())
  }

  /** Writing one block of a sparse file: overwrite, or extend over a gap of null blocks. */
  function Put(f: seq<Block>, off: nat, blk: Block): (f': seq<Block>)
    ensures |f'| == if off < |f| then |f| else off + 1
    ensures f'[off] == blk
    ensures forall o :: 0 <= o < |f| && o != off ==> f'[o] == f[o]
    ensures forall o :: |f| <= o < off ==> f'[o] == NullBlock()
  {
    if off < |f| then f[off := blk] else f + Zeros(off - |f|) + [blk]
  }

  // ---- What a write costs ----

  /** Growing to height k' inserts k' - k roots and then a whole new branch of k' blocks. */
  ghost function Cost(d: Disk, ino: nat, off: nat): (n: nat)
    requires Shape(d) && ino < NInodes(d)
  {
    var k := Height(Size(d, ino));
    if Size(d, ino) <= off && k < Levels(off) then 2 * Levels(off) - k
    else Missing(d, Root(d, ino), k, off)
  }
}
