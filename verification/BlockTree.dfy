/** Sums of block multisets: the bookkeeping behind "every block is owned exactly once". */
module Blocks {

  ghost function Flatten(s: seq<multiset<nat>>): (m: multiset<nat>) {
    if s == [] then multiset{} else Flatten(s[..|s| - 1]) + s[|s| - 1]
  }

  lemma {:induction false} FlattenUpdate(s: seq<multiset<nat>>, i: nat, m: multiset<nat>)
    requires i < |s|
    ensures Flatten(s[i := m]) + s[i] == Flatten(s) + m
  {
    var n := |s| - 1;
    if i == n {
      assert s[i := m][..n] == s[..n];
    } else {
      assert s[i := m][..n] == s[..n][i := m];
      FlattenUpdate(s[..n], i, m);
      var before, after := Flatten(s[..n]), Flatten(s[..n][i := m]);
      assert after + s[n] + s[i] == after + s[i] + s[n];
      assert before + m + s[n] == before + s[n] + m;
    }
  }

  lemma FlattenGrow(s: seq<multiset<nat>>, s': seq<multiset<nat>>, i: nat, extra: multiset<nat>)
    requires i < |s| && |s| == |s'| && s'[i] == s[i] + extra
    requires forall j :: 0 <= j < |s| && j != i ==> s'[j] == s[j]
    ensures Flatten(s') == Flatten(s) + extra
  {
    assert s' == s[i := s'[i]];
    FlattenUpdate(s, i, s'[i]);
    Cancel(Flatten(s'), Flatten(s) + extra, s[i]);
  }

  lemma Cancel(a: multiset<nat>, b: multiset<nat>, c: multiset<nat>)
    requires a + c == b + c
    ensures a == b
  {
    assert a == (a + c) - c;
    assert b == (b + c) - c;
  }

  /** An element of one part is counted in the whole, on top of every other part. */
  lemma {:induction false} FlattenParts(s: seq<multiset<nat>>, i: nat, j: nat, x: nat)
    requires i < |s| && j < |s| && i != j
    ensures s[i][x] + s[j][x] <= Flatten(s)[x]
  {
    FlattenPart(s[i := multiset{}], j, x);
    FlattenUpdate(s, i, multiset{});
    assert (Flatten(s[i := multiset{}]) + s[i])[x] == (Flatten(s) + multiset{})[x];
  }

  lemma {:induction false} FlattenPart(s: seq<multiset<nat>>, i: nat, x: nat)
    requires i < |s|
    ensures s[i][x] <= Flatten(s)[x]
  {
    var n := |s| - 1;
    if i < n {
      FlattenPart(s[..n], i, x);
    }
  }

  lemma {:induction false} FlattenEmpty(s: seq<multiset<nat>>)
    requires forall i :: 0 <= i < |s| ==> s[i] == multiset{}
    ensures Flatten(s) == multiset{}
  {
    if s != [] {
      FlattenEmpty(s[..|s| - 1]);
    }
  }
}

/** Trees of blocks on a flat disk: what they own and what they hold. */
module BlockTree {
  import opened Words
  import opened Radix
  import opened Blocks

  /** A 512-byte block, read as the 128 words every block structure is a cast of. */
  type Block = b: seq<Word> | |b| == R witness seq(R, i => 0)

  type Disk = seq<Block>

  function NullBlock(): (b: Block)
    ensures forall i :: 0 <= i < R ==> b[i] == 0
  {
    seq(R, i => 0)
  }

  /** The blocks of the tree of height `k` rooted at block `b`; block number 0 is a hole. */
  ghost function Owned(d: Disk, b: nat, k: nat): (m: multiset<nat>)
    decreases k, 0
  {
    if b == 0 then multiset{}
    else if k == 0 || b >= |d| then multiset{b}
    else multiset{b} + Flatten(Kids(d, d[b], k - 1))
  }

  /** What each of a row of references owns. */
  ghost function Kids(d: Disk, refs: Block, k: nat): (s: seq<multiset<nat>>)
    ensures |s| == R
    decreases k, 1
  {
    seq(R, i requires 0 <= i < R => Owned(d, refs[i], k))
  }

  /** The block a walk for offset `off` from the root `b` of a tree of height `k` ends at. */
  ghost function Lookup(d: Disk, b: nat, k: nat, off: nat): (blk: Block)
    decreases k
  {
    if b == 0 || b >= |d| then NullBlock()
    else if k == 0 then d[b]
    else Lookup(d, d[b][Digit(off, k - 1)], k - 1, off)
  }

  /** The block number the walk for `off` meets at height `l`. */
  ghost function PathAt(d: Disk, b: nat, k: nat, off: nat, l: nat): (p: nat)
    requires l <= k
    decreases k
  {
    if k == l then b
    else if b == 0 || b >= |d| then 0
    else PathAt(d, d[b][Digit(off, k - 1)], k - 1, off, l)
  }

  /** How many blocks a write at `off` has to allocate below the reference `b`. */
  ghost function Missing(d: Disk, b: nat, k: nat, off: nat): (n: nat)
    ensures n <= k + 1
    ensures b != 0 ==> n <= k
    decreases k
  {
    if b == 0 then k + 1
    else if k == 0 || b >= |d| then 0
    else Missing(d, d[b][Digit(off, k - 1)], k - 1, off)
  }

  /** `x` and `y` take the same branch at every height from `k` down to `l`. */
  ghost predicate SameBranch(x: nat, y: nat, l: nat, k: nat)
    requires l <= k
    decreases k
  {
    k == l || (Digit(x, k - 1) == Digit(y, k - 1) && SameBranch(x, y, l, k - 1))
  }

  lemma {:induction false} SameBranchMeansEqual(x: nat, y: nat, k: nat)
    ensures SameBranch(x, y, 0, k) <==> x % Pow(k) == y % Pow(k)
  {
    if k > 0 {
      SameBranchMeansEqual(x, y, k - 1);
      SameDigits(x, y, k - 1);
    }
  }

  // ---- Ownership ----

  lemma KidOwned(d: Disk, b: nat, k: nat, i: nat)
    requires 0 < b < |d| && 0 < k && i < R
    ensures forall x :: Owned(d, d[b][i], k - 1)[x] + multiset{b}[x] <= Owned(d, b, k)[x]
  {
    var kids := Kids(d, d[b], k - 1);
    forall x ensures Owned(d, d[b][i], k - 1)[x] + multiset{b}[x] <= Owned(d, b, k)[x] {
      FlattenPart(kids, i, x);
      assert kids[i] == Owned(d, d[b][i], k - 1);
    }
  }

  lemma KidsDisjoint(d: Disk, b: nat, k: nat, i: nat, j: nat, x: nat)
    requires 0 < b < |d| && 0 < k && i < R && j < R && i != j
    requires Owned(d, b, k)[x] <= 1
    ensures !(x in Owned(d, d[b][i], k - 1) && x in Owned(d, d[b][j], k - 1))
  {
    var kids := Kids(d, d[b], k - 1);
    FlattenParts(kids, i, j, x);
    assert kids[i] == Owned(d, d[b][i], k - 1) && kids[j] == Owned(d, d[b][j], k - 1);
  }

  /** The path's subtree at height `l` lies inside the tree. */
  lemma {:induction false} PathOwned(d: Disk, b: nat, k: nat, off: nat, l: nat)
    requires l <= k
    ensures forall x :: Owned(d, PathAt(d, b, k, off, l), l)[x] <= Owned(d, b, k)[x]
    decreases k
  {
    if l < k && 0 < b < |d| {
      var i := Digit(off, k - 1);
      PathOwned(d, d[b][i], k - 1, off, l);
      KidOwned(d, b, k, i);
    }
  }

  ghost predicate AgreeOn(d: Disk, d': Disk, m: multiset<nat>) {
    |d| == |d'| && forall x :: x in m && x < |d| ==> d[x] == d'[x]
  }

  /** A tree is a function of the blocks it owns. */
  lemma {:induction false} OwnedFrame(d: Disk, d': Disk, b: nat, k: nat)
    requires AgreeOn(d, d', Owned(d, b, k))
    ensures Owned(d', b, k) == Owned(d, b, k)
    decreases k
  {
    if k > 0 && 0 < b < |d| {
      forall i | 0 <= i < R
        ensures Owned(d', d[b][i], k - 1) == Owned(d, d[b][i], k - 1)
      {
        KidOwned(d, b, k, i);
        OwnedFrame(d, d', d[b][i], k - 1);
      }
      assert d[b] == d'[b];
      assert Kids(d', d[b], k - 1) == Kids(d, d[b], k - 1);
    }
  }

  lemma {:induction false} LookupFrame(d: Disk, d': Disk, b: nat, k: nat, off: nat)
    requires AgreeOn(d, d', Owned(d, b, k))
    ensures Lookup(d', b, k, off) == Lookup(d, b, k, off)
    decreases k
  {
    if 0 < b < |d| {
      assert d[b] == d'[b];
      if k > 0 {
        KidOwned(d, b, k, Digit(off, k - 1));
        LookupFrame(d, d', d[b][Digit(off, k - 1)], k - 1, off);
      }
    }
  }

  /** An indirect block of holes. */
  lemma EmptyNode(d: Disk, b: nat, k: nat, off: nat)
    requires 0 < b < |d| && 0 < k && d[b] == NullBlock()
    ensures Owned(d, b, k) == multiset{b}
    ensures Lookup(d, b, k, off) == NullBlock()
    ensures Missing(d, b, k, off) == k
  {
    var kids := Kids(d, d[b], k - 1);
    assert forall i :: 0 <= i < R ==> kids[i] == Owned(d, d[b][i], k - 1);
    FlattenEmpty(kids);
  }

  // ---- Replacing the subtree at one path position ----

  /** The change happens inside the subtree rooted at `p`, at height `l` of the path for `off`; it adds `extra`. */
  ghost predicate Replaces(d: Disk, d': Disk, b: nat, k: nat, off: nat, l: nat, p: nat, extra: multiset<nat>)
    requires l <= k
  {
    && |d| == |d'|
    && p == PathAt(d, b, k, off, l)
    && p != 0
    && (forall x :: x in Owned(d, b, k) && x < |d| && x !in Owned(d, p, l) ==> d[x] == d'[x])
    && (forall x :: Owned(d, b, k)[x] <= 1)
    && Owned(d', p, l) == Owned(d, p, l) + extra
  }

  /** A node above the replaced position keeps its block, and hands the change on to one child. */
  lemma ReplaceDescend(d: Disk, d': Disk, b: nat, k: nat, off: nat, l: nat, p: nat, extra: multiset<nat>)
    requires l < k && Replaces(d, d', b, k, off, l, p, extra)
    ensures 0 < b < |d| && d[b] == d'[b]
    ensures Replaces(d, d', d[b][Digit(off, k - 1)], k - 1, off, l, p, extra)
  {
    hide Kids, Flatten, Digit, Lookup;
    var c := Digit(off, k - 1);
    KidOwned(d, b, k, c);
    PathOwned(d, d[b][c], k - 1, off, l);
    assert Owned(d, d[b][c], k - 1)[b] + 1 <= Owned(d, b, k)[b];
    assert b in Owned(d, b, k);
  }

  /** Its other children are left alone. */
  lemma ReplaceSibling(d: Disk, d': Disk, b: nat, k: nat, off: nat, l: nat, p: nat, extra: multiset<nat>, i: nat)
    requires l < k && Replaces(d, d', b, k, off, l, p, extra)
    requires i < R && i != Digit(off, k - 1)
    ensures 0 < b < |d| && AgreeOn(d, d', Owned(d, d[b][i], k - 1))
  {
    hide Kids, Flatten;
    var c := Digit(off, k - 1);
    KidOwned(d, b, k, i);
    PathOwned(d, d[b][c], k - 1, off, l);
    forall x | x in Owned(d, d[b][i], k - 1) && x < |d| ensures d[x] == d'[x] {
      KidsDisjoint(d, b, k, i, c, x);
    }
  }

  lemma {:induction false} ReplaceOwned(d: Disk, d': Disk, b: nat, k: nat, off: nat, l: nat, p: nat, extra: multiset<nat>)
    requires l <= k && Replaces(d, d', b, k, off, l, p, extra)
    ensures Owned(d', b, k) == Owned(d, b, k) + extra
    ensures PathAt(d', b, k, off, l) == p
    decreases k
  {
    if l < k {
      ReplaceDescend(d, d', b, k, off, l, p, extra);
      var c := Digit(off, k - 1);
      ReplaceOwned(d, d', d[b][c], k - 1, off, l, p, extra);
      forall i | 0 <= i < R && i != c ensures Owned(d', d[b][i], k - 1) == Owned(d, d[b][i], k - 1) {
        ReplaceSibling(d, d', b, k, off, l, p, extra, i);
        OwnedFrame(d, d', d[b][i], k - 1);
      }
      NodeGrows(d, d', b, k, c, extra);
    }
  }

  lemma NodeGrows(d: Disk, d': Disk, b: nat, k: nat, c: nat, extra: multiset<nat>)
    requires 0 < k && |d| == |d'| && 0 < b < |d| && c < R
    requires forall i :: 0 <= i < R && i != c ==> Owned(d', d'[b][i], k - 1) == Owned(d, d[b][i], k - 1)
    requires Owned(d', d'[b][c], k - 1) == Owned(d, d[b][c], k - 1) + extra
    ensures Owned(d', b, k) == Owned(d, b, k) + extra
  {
    var kids, kids' := Kids(d, d[b], k - 1), Kids(d', d'[b], k - 1);
    FlattenGrow(kids, kids', c, extra);
  }

  /** Offsets that branch away above the replaced position read as before; the others read the new subtree. */
  lemma {:induction false} ReplaceLookup(d: Disk, d': Disk, b: nat, k: nat, off: nat, l: nat, p: nat, extra: multiset<nat>, o: nat)
    requires l <= k && Replaces(d, d', b, k, off, l, p, extra)
    ensures SameBranch(o, off, l, k) ==>
              && Lookup(d, b, k, o) == Lookup(d, p, l, o)
              && Lookup(d', b, k, o) == Lookup(d', p, l, o)
    ensures !SameBranch(o, off, l, k) ==> Lookup(d', b, k, o) == Lookup(d, b, k, o)
    decreases k
  {
    if l < k {
      hide Owned, Replaces, Digit;
      ReplaceDescend(d, d', b, k, off, l, p, extra);
      var c := Digit(o, k - 1);
      if c == Digit(off, k - 1) {
        ReplaceLookup(d, d', d[b][c], k - 1, off, l, p, extra, o);
      } else {
        ReplaceSibling(d, d', b, k, off, l, p, extra, c);
        LookupFrame(d, d', d[b][c], k - 1, o);
      }
    }
  }
}
