/** Sv32 identity mappings: the page-table builder against the translation algorithm of the architecture.
    Shifts and low-bit masks of unsigned words are written as division and remainder; `|` is written out. */
module PageTable {
  import opened Words
  import opened Layout
  import Radix

  const NENTRIES: nat := 1024

  /** Memory that holds page tables, by physical page number and word index. */
  type Ram = (nat, nat) -> Word

  /** The outcome of a translation: the physical address and the low ten bits of the leaf entry. */
  datatype Translation = Translation(pa: nat, flags: nat)

  /** Bitwise or. */
  function Or(x: nat, y: nat): (r: nat) {
    if x == 0 && y == 0 then 0 else 2 * Or(x / 2, y / 2) + (if x % 2 == 1 || y % 2 == 1 then 1 else 0)
  }

  function Bit(x: nat, k: nat): (b: bool) {
    if k == 0 then x % 2 == 1 else Bit(x / 2, k - 1)
  }

  /** Or with bits that are all clear is addition. */
  lemma {:induction false} OrIsSum(x: nat, y: nat, k: nat)
    requires y < Radix.Pow2(k)
    ensures Or(x * Radix.Pow2(k), y) == x * Radix.Pow2(k) + y
  {
    if k == 0 {
      OrZero(x);
    } else {
      var p := Radix.Pow2(k - 1);
      assert x * Radix.Pow2(k) == 2 * (x * p);
      OrIsSum(x, y / 2, k - 1);
      assert x * Radix.Pow2(k) / 2 == x * p;
      assert Or(x * Radix.Pow2(k), y) == 2 * Or(x * p, y / 2) + y % 2;
    }
  }

  lemma {:induction false} OrZero(x: nat)
    ensures Or(x, 0) == x
  {
    if x > 0 {
      OrZero(x / 2);
    }
  }

  /** Low bits of a sum whose upper part has them clear. */
  lemma {:induction false} LowBit(x: nat, y: nat, k: nat, b: nat)
    requires b < k
    ensures Bit(x * Radix.Pow2(k) + y, b) == Bit(y, b)
    decreases k
  {
    var p := Radix.Pow2(k - 1);
    assert x * Radix.Pow2(k) == 2 * (x * p);
    if b > 0 {
      LowBit(x, y / 2, k - 1, b - 1);
      assert (2 * (x * p) + y) / 2 == x * p + y / 2;
    }
  }

  function Write(ram: Ram, ppn: nat, i: nat, e: Word): (ram': Ram)
    ensures forall p: nat, j: nat :: ram'(p, j) == if p == ppn && j == i then e else ram(p, j)
  {
    (p: nat, j: nat) => if p == ppn && j == i then e else ram(p, j)
  }

  /** `memset` of a page. */
  function Clear(ram: Ram, ppn: nat): (ram': Ram)
    ensures forall p: nat, j: nat :: ram'(p, j) == if p == ppn then 0 else ram(p, j)
  {
    (p: nat, j: nat) => if p == ppn then 0 else ram(p, j)
  }

  // ---- The translation algorithm, section 4.3.2 of the RISC-V privileged architecture, version 1.10 ----

  /** Step 3: not valid, or writable without being readable. */
  predicate Invalid(e: Word) { !Bit(e, 0) || (!Bit(e, 1) && Bit(e, 2)) }

  /** Step 4: readable or executable. */
  predicate IsLeaf(e: Word) { Bit(e, 1) || Bit(e, 3) }

  /** A leaf entry in the root table maps 4 MB and must be aligned to that; one in a second-level table maps a page. */
  function Walk(ram: Ram, root: nat, va: Word): (r: Option<Translation>) {
    var e1 := ram(root, va / 0x40_0000);
    if Invalid(e1) then None
    else if IsLeaf(e1) then
      if (e1 / 1024) % 1024 != 0 then None
      else Some(Translation(e1 / 1024 * PAGE_SIZE + va % 0x40_0000, e1 % 1024))
    else
      var e0 := ram(e1 / 1024, va / PAGE_SIZE % NENTRIES);
      if Invalid(e0) || !IsLeaf(e0) then None
      else Some(Translation(e0 / 1024 * PAGE_SIZE + va % PAGE_SIZE, e0 % 1024))
  }

  // ---- What the builder keeps ----

  /** Flags of a leaf entry: valid, and not writable without being readable. */
  predicate LeafFlags(f: nat) { f < 1024 && !Invalid(f) && IsLeaf(f) }

  /** The entry that points at the table on page `ppn`. */
  function Pointer(ppn: nat): (e: nat) { ppn * 1024 + 1 }

  /** The entry that maps page `vpn` to itself. */
  function Identity(vpn: nat, f: nat): (e: nat) { vpn * 1024 + f }

  /** `leaves` gives the leaf table of each root entry in use, `pages` the flags of each page mapped. */
  ghost predicate Represents(ram: Ram, root: nat, leaves: map<nat, nat>, pages: map<nat, nat>) {
    && (forall v1: nat :: v1 < NENTRIES ==> ram(root, v1) == if v1 in leaves then Pointer(leaves[v1]) else 0)
    && (forall v1: nat :: v1 in leaves ==> v1 < NENTRIES && leaves[v1] != root && leaves[v1] < 0x10_0000)
    && (forall v1: nat, w1: nat :: v1 in leaves && w1 in leaves && v1 != w1 ==> leaves[v1] != leaves[w1])
    && (forall v1: nat, v0: nat :: v1 in leaves && v0 < NENTRIES ==> ram(leaves[v1], v0) == EntryFor(pages, v1 * NENTRIES + v0))
    && (forall vpn: nat :: vpn in pages ==> vpn / NENTRIES in leaves && LeafFlags(pages[vpn]))
  }

  ghost function EntryFor(pages: map<nat, nat>, vpn: nat): (e: nat) {
    if vpn in pages then Identity(vpn, pages[vpn]) else 0
  }

  lemma EntryBits(x: nat, f: nat)
    requires f < 1024 && x * 1024 + f < WORD
    ensures Invalid(x * 1024 + f) == Invalid(f) && IsLeaf(x * 1024 + f) == IsLeaf(f)
    ensures (x * 1024 + f) / 1024 == x && (x * 1024 + f) % 1024 == f
  {
    assert Radix.Pow2(10) == 1024;
    LowBit(x, f, 10, 0);
    LowBit(x, f, 10, 1);
    LowBit(x, f, 10, 2);
    LowBit(x, f, 10, 3);
  }

  /** Exactly the mapped pages translate, each to itself, with its own flags. */
  lemma WalkIsIdentity(ram: Ram, root: nat, leaves: map<nat, nat>, pages: map<nat, nat>, va: Word)
    requires Represents(ram, root, leaves, pages)
    ensures Walk(ram, root, va) == if va / PAGE_SIZE in pages then Some(Translation(va, pages[va / PAGE_SIZE])) else None
  {
    hide Bit;
    var v1, v0, vpn := va / 0x40_0000, va / PAGE_SIZE % NENTRIES, va / PAGE_SIZE;
    assert vpn == v1 * NENTRIES + v0 && vpn / NENTRIES == v1;
    SpecialEntries();
    if v1 in leaves {
      EntryBits(leaves[v1], 1);
      assert ram(leaves[v1], v0) == EntryFor(pages, v1 * NENTRIES + v0);
      if vpn in pages {
        EntryBits(vpn, pages[vpn]);
      }
    }
  }

  lemma SpecialEntries()
    ensures Invalid(0) && !Invalid(1) && !IsLeaf(1)
  {
  }

  // ---- The builder ----

  /** A cleared page becomes the leaf table of root entry `v1`. */
  lemma AddLeaf(ram: Ram, root: nat, leaves: map<nat, nat>, pages: map<nat, nat>, v1: nat, ppn: nat)
    requires Represents(ram, root, leaves, pages) && v1 !in leaves && v1 < NENTRIES
    requires ppn != root && ppn < 0x10_0000 && forall w1 :: w1 in leaves ==> leaves[w1] != ppn
    ensures Represents(Write(Clear(ram, ppn), root, v1, Pointer(ppn)), root, leaves[v1 := ppn], pages)
  {
    hide LeafFlags, Identity;
    var ram', leaves' := Write(Clear(ram, ppn), root, v1, Pointer(ppn)), leaves[v1 := ppn];
    forall w1: nat | w1 < NENTRIES ensures ram'(root, w1) == if w1 in leaves' then Pointer(leaves'[w1]) else 0 {
      assert ram(root, w1) == if w1 in leaves then Pointer(leaves[w1]) else 0;
    }
    forall w1: nat, v0: nat | w1 in leaves' && v0 < NENTRIES ensures ram'(leaves'[w1], v0) == EntryFor(pages, w1 * NENTRIES + v0) {
      if w1 == v1 {
        assert (v1 * NENTRIES + v0) / NENTRIES == v1;
      } else {
        assert ram'(leaves[w1], v0) == ram(leaves[w1], v0);
      }
    }
  }

  /** An entry in a leaf table maps one page. */
  lemma AddPage(ram: Ram, root: nat, leaves: map<nat, nat>, pages: map<nat, nat>, v1: nat, v0: nat, f: nat)
    requires Represents(ram, root, leaves, pages) && v1 in leaves && v0 < NENTRIES && LeafFlags(f)
    ensures Represents(Write(ram, leaves[v1], v0, Identity(v1 * NENTRIES + v0, f)), root, leaves, pages[v1 * NENTRIES + v0 := f])
  {
    assert f < 1024;
    hide LeafFlags;
    var vpn := v1 * NENTRIES + v0;
    var ram', pages' := Write(ram, leaves[v1], v0, Identity(vpn, f)), pages[vpn := f];
    forall w1: nat, w0: nat | w1 in leaves && w0 < NENTRIES ensures ram'(leaves[w1], w0) == EntryFor(pages', w1 * NENTRIES + w0) {
      assert ram(leaves[w1], w0) == EntryFor(pages, w1 * NENTRIES + w0);
      SamePage(v1, v0, w1, w0);
    }
  }

  lemma SamePage(v1: nat, v0: nat, w1: nat, w0: nat)
    requires v0 < NENTRIES && w0 < NENTRIES
    ensures v1 * NENTRIES + v0 == w1 * NENTRIES + w0 <==> v1 == w1 && v0 == w0
  {
  }

  datatype Region = Region(addr: Word, npages: nat, flag: nat)

  /** The pages of a region. */
  predicate InRegion(vpn: nat, r: Region) {
    r.addr / PAGE_SIZE <= vpn < r.addr / PAGE_SIZE + r.npages
  }

  /** A region that starts on a page boundary, does not run past its leaf table and has the flags of a mapping. */
  predicate GoodRegion(r: Region) {
    r.addr % PAGE_SIZE == 0 && r.addr / PAGE_SIZE % NENTRIES + r.npages <= NENTRIES && LeafFlags(r.flag)
  }

  /** `pages'` is `pages` with the pages of region `r` mapped on top. */
  ghost predicate Covers(pages: map<nat, nat>, pages': map<nat, nat>, r: Region) {
    && (forall vpn: nat :: vpn in pages' <==> vpn in pages || InRegion(vpn, r))
    && (forall vpn: nat :: vpn in pages' ==> pages'[vpn] == if InRegion(vpn, r) then r.flag else pages[vpn])
  }

  /** The words the builder computes, as the entries they are. */
  lemma PointerWord(leaf: Word)
    requires leaf % PAGE_SIZE == 0
    ensures Or(leaf / 4, 1) == Pointer(leaf / PAGE_SIZE) < WORD
  {
    TenBits();
    assert leaf / 4 == leaf / PAGE_SIZE * 1024;
    OrIsSum(leaf / PAGE_SIZE, 1, 10);
  }

  lemma PointerAddress(ppn: nat)
    requires ppn < 0x10_0000
    ensures Bit(Pointer(ppn), 0) && Pointer(ppn) * 4 % WORD / PAGE_SIZE == ppn
  {
  }

  lemma IdentityWord(r: Region, i: nat)
    requires GoodRegion(r) && i < r.npages
    ensures var a := (r.addr + i * PAGE_SIZE) % WORD;
            Or(a / 4, r.flag) == Identity(r.addr / PAGE_SIZE + i, r.flag) < WORD
  {
    hide Or, Radix.Pow2;
    RegionAddress(r.addr, r.npages, i);
    TenBits();
    OrIsSum(r.addr / PAGE_SIZE + i, r.flag, 10);
  }

  lemma TenBits()
    ensures Radix.Pow2(10) == 1024
  {
  }

  /** Page `i` of a region lies in the 32-bit address space. */
  lemma RegionAddress(addr: Word, npages: nat, i: nat)
    requires addr % PAGE_SIZE == 0 && addr / PAGE_SIZE % NENTRIES + npages <= NENTRIES && i < npages
    ensures var vpn := addr / PAGE_SIZE + i;
            vpn < 0x10_0000 && (addr + i * PAGE_SIZE) % WORD / 4 == vpn * 1024
  {
    var v := addr / PAGE_SIZE;
    var v1, v0 := v / NENTRIES, v % NENTRIES;
    assert v == v1 * NENTRIES + v0 && v1 < NENTRIES;
    assert addr + i * PAGE_SIZE == (v + i) * PAGE_SIZE < WORD;
  }

  class IdentityMap {
    var ram: Ram
    const root: nat
    ghost var leaves: map<nat, nat>
    ghost var pages: map<nat, nat>

    ghost predicate Valid()
      reads this
    {
      Represents(ram, root, leaves, pages)
    }

    /** A page boundary, on a page that holds no table yet. */
    ghost predicate Unused(frame: Word)
      reads this
    {
      frame % PAGE_SIZE == 0 && frame / PAGE_SIZE != root && forall v1 :: v1 in leaves ==> leaves[v1] != frame / PAGE_SIZE
    }

    /** The leaf tables are as before, but for one that may have been put on the page at `frame`. */
    ghost predicate LeavesKept(leaves0: map<nat, nat>, frame: Word)
      reads this
    {
      forall v1 :: v1 in leaves ==> (v1 in leaves0 && leaves[v1] == leaves0[v1]) || leaves[v1] == frame / PAGE_SIZE
    }

    /** The start of `pagetable_identity_mapping`: a cleared root table. */
    constructor (ram: Ram, rootAddr: Word)
      ensures Valid() && pages == map[] && leaves == map[] && root == rootAddr / PAGE_SIZE
    {
      root := rootAddr / PAGE_SIZE;
      this.ram := Clear(ram, rootAddr / PAGE_SIZE);
      leaves, pages := map[], map[];
    }

    /** The first half of `setup_identity_region`: find or make the leaf table; `frame` is the page `mmu_alloc` would return. */
    method FindLeaf(addr: Word, frame: Word) returns (leaf: Word)
      requires Valid() && Unused(frame)
      modifies this`ram, this`leaves
      ensures Valid() && LeavesKept(old(leaves), frame)
      ensures addr / 0x40_0000 in leaves && leaves[addr / 0x40_0000] == leaf / PAGE_SIZE
    {
      hide Bit, Or;
      var vpn1 := addr / 0x40_0000;
      if vpn1 in leaves {
        PointerAddress(leaves[vpn1]);
      }
      NoBit(0);
      if Bit(ram(root, vpn1), 0) {
        leaf := ram(root, vpn1) * 4 % WORD / PAGE_SIZE * PAGE_SIZE;
      } else {
        leaf := frame;
        PointerWord(leaf);
        AddLeaf(ram, root, leaves, pages, vpn1, leaf / PAGE_SIZE);
        ram := Clear(ram, leaf / PAGE_SIZE);
        ram := Write(ram, root, vpn1, Or(leaf / 4, 1));
        leaves := leaves[vpn1 := leaf / PAGE_SIZE];
      }
    }

    /** `setup_identity_region`: the pages of the region map to themselves, and all others stay as they were. */
    method SetupIdentityRegion(r: Region, frame: Word)
      requires Valid() && GoodRegion(r) && Unused(frame)
      modifies this
      ensures Valid() && LeavesKept(old(leaves), frame)
      ensures Covers(old(pages), pages, r)
    {
      hide Represents, Or, LeafFlags;
      var leaf := FindLeaf(r.addr, frame);
      var vpn1, vpn0 := r.addr / 0x40_0000, r.addr / PAGE_SIZE % NENTRIES;
      var i := 0;
      while i < r.npages
        invariant 0 <= i <= r.npages && Valid() && LeavesKept(old(leaves), frame)
        invariant vpn1 in leaves && leaves[vpn1] == leaf / PAGE_SIZE
        invariant Covers(old(pages), pages, r.(npages := i))
      {
        IdentityWord(r, i);
        assert vpn1 * NENTRIES + (vpn0 + i) == r.addr / PAGE_SIZE + i;
        AddPage(ram, root, leaves, pages, vpn1, vpn0 + i, r.flag);
        ram := Write(ram, leaf / PAGE_SIZE, vpn0 + i, Or((r.addr + i * PAGE_SIZE) % WORD / 4, r.flag));
        pages := pages[r.addr / PAGE_SIZE + i := r.flag];
        i := i + 1;
      }
    }
  }

  // ---- Any sequence of regions ----

  /** The last region that has page `vpn`, or -1. */
  function LastRegion(rs: seq<Region>, vpn: nat): (k: int)
    ensures -1 <= k < |rs|
    ensures k >= 0 ==> InRegion(vpn, rs[k])
    ensures forall j :: k < j < |rs| ==> !InRegion(vpn, rs[j])
  {
    if rs == [] then -1 else if InRegion(vpn, rs[|rs| - 1]) then |rs| - 1 else LastRegion(rs[..|rs| - 1], vpn)
  }

  /** The pages mapped are those of the regions, each with the flags given last. */
  ghost predicate MapsRegions(pages: map<nat, nat>, rs: seq<Region>) {
    forall vpn: nat :: (vpn in pages <==> LastRegion(rs, vpn) >= 0) && (vpn in pages ==> pages[vpn] == rs[LastRegion(rs, vpn)].flag)
  }

  lemma MapsOneMore(pages: map<nat, nat>, pages': map<nat, nat>, rs: seq<Region>)
    requires rs != [] && MapsRegions(pages, rs[..|rs| - 1]) && Covers(pages, pages', rs[|rs| - 1])
    ensures MapsRegions(pages', rs)
  {
  }

  /** Builds an identity mapping of the given regions; frame `k` is there for region `k` should it need a leaf table. */
  method MapAll(tables: IdentityMap, rs: seq<Region>, frames: seq<Word>)
    requires tables.Valid() && tables.pages == map[] && tables.leaves == map[]
    requires |frames| == |rs| && forall k :: 0 <= k < |rs| ==> GoodRegion(rs[k])
    requires forall k :: 0 <= k < |rs| ==> frames[k] % PAGE_SIZE == 0 && frames[k] / PAGE_SIZE != tables.root
    requires forall j, k :: 0 <= j < k < |rs| ==> frames[j] != frames[k]
    modifies tables
    ensures tables.Valid() && MapsRegions(tables.pages, rs)
    ensures forall va: Word ::
              Walk(tables.ram, tables.root, va) ==
              if LastRegion(rs, va / PAGE_SIZE) >= 0 then Some(Translation(va, rs[LastRegion(rs, va / PAGE_SIZE)].flag)) else None
  {
    hide Represents, GoodRegion, LastRegion, Walk;
    var n := 0;
    NoRegions(tables.pages);
    assert rs[..0] == [];
    while n < |rs|
      invariant 0 <= n <= |rs| && tables.Valid()
      invariant MapsRegions(tables.pages, rs[..n])
      invariant forall v1 :: v1 in tables.leaves ==> exists k :: 0 <= k < n && tables.leaves[v1] == frames[k] / PAGE_SIZE
    {
      assert tables.Unused(frames[n]);
      ghost var pages0 := tables.pages;
      tables.SetupIdentityRegion(rs[n], frames[n]);
      n := n + 1;
      assert rs[..n][..n - 1] == rs[..n - 1];
      MapsOneMore(pages0, tables.pages, rs[..n]);
    }
    assert rs[..n] == rs;
    forall va: Word
      ensures Walk(tables.ram, tables.root, va) ==
              if LastRegion(rs, va / PAGE_SIZE) >= 0 then Some(Translation(va, rs[LastRegion(rs, va / PAGE_SIZE)].flag)) else None
    {
      WalkIsIdentity(tables.ram, tables.root, tables.leaves, tables.pages, va);
    }
  }

  lemma NoRegions(pages: map<nat, nat>)
    requires pages == map[]
    ensures MapsRegions(pages, [])
  {
  }

  const OS_RWX: nat := 0xF

  /** Valid, readable, writable and executable, and not for user mode. */
  predicate SupervisorFlags(f: nat) { Bit(f, 0) && Bit(f, 1) && Bit(f, 2) && Bit(f, 3) && forall k :: 4 <= k < 10 ==> !Bit(f, k) }

  lemma SupervisorRwx()
    ensures SupervisorFlags(OS_RWX)
  {
    assert Bit(OS_RWX, 3) == Bit(7, 2) == Bit(3, 1) == Bit(1, 0);
    forall k: nat ensures !Bit(0, k) { NoBit(k); }
    forall k: nat | k >= 4 ensures Bit(OS_RWX, k) == Bit(0, k - 4) {
      assert Bit(OS_RWX, k) == Bit(7, k - 1) == Bit(3, k - 2) == Bit(1, k - 3) == Bit(0, k - 4);
    }
  }

  lemma {:induction false} NoBit(k: nat)
    ensures !Bit(0, k)
  {
    if k > 0 {
      NoBit(k - 1);
    }
  }

  /** The regions of `pagetable_identity_mapping`, for the addresses of the platform's UART and SPI devices. */
  function BootRegions(uart: Word, spi: Word): (rs: seq<Region>)
    ensures |rs| == 14
  {
    [Region(0x0200_0000, 16, OS_RWX), Region(uart, 1, OS_RWX), Region(spi, 1, OS_RWX),
     Region(0x2040_0000, 1024, OS_RWX), Region(0x2080_0000, 1024, OS_RWX), Region(0x8000_0000, 1024, OS_RWX)]
    + seq(8, i requires 0 <= i < 8 => Region(0x0800_0000 + i * 0x40_0000, 1024, OS_RWX))
  }

  lemma BootRegionsGood(uart: Word, spi: Word, k: nat)
    requires uart % PAGE_SIZE == 0 && spi % PAGE_SIZE == 0
    requires k < |BootRegions(uart, spi)|
    ensures GoodRegion(BootRegions(uart, spi)[k]) && BootRegions(uart, spi)[k].flag == OS_RWX
  {
  }

  /** The pages of the machine the kernel uses: CLINT, UART, SPI, boot ROM and disk image, DTIM, and 32 MB of ITIM. */
  predicate BootPage(uart: Word, spi: Word, vpn: nat) {
    || 0x2000 <= vpn < 0x2010 || vpn == uart / PAGE_SIZE || vpn == spi / PAGE_SIZE
    || 0x2_0400 <= vpn < 0x2_0C00 || 0x8_0000 <= vpn < 0x8_0400 || 0x8000 <= vpn < 0xA000
  }

  lemma BootRegionAt(uart: Word, spi: Word, k: nat, vpn: nat)
    requires k < |BootRegions(uart, spi)| && InRegion(vpn, BootRegions(uart, spi)[k])
    ensures BootPage(uart, spi, vpn)
  {
  }

  lemma BootRegionOf(uart: Word, spi: Word, vpn: nat) returns (k: nat)
    requires BootPage(uart, spi, vpn)
    ensures k < |BootRegions(uart, spi)| && InRegion(vpn, BootRegions(uart, spi)[k])
  {
    k := if 0x8000 <= vpn < 0xA000 then 6 + (vpn - 0x8000) / 0x400
         else if 0x2000 <= vpn < 0x2010 then 0
         else if vpn == uart / PAGE_SIZE then 1
         else if vpn == spi / PAGE_SIZE then 2
         else if 0x2_0400 <= vpn < 0x2_0800 then 3
         else if 0x2_0800 <= vpn < 0x2_0C00 then 4 else 5;
  }

  /** `pagetable_identity_mapping`: exactly the pages in use translate, each to itself, readable, writable and executable. */
  method PagetableIdentityMapping(ram: Ram, rootAddr: Word, frames: seq<Word>, uart: Word, spi: Word) returns (tables: IdentityMap)
    requires uart % PAGE_SIZE == 0 && spi % PAGE_SIZE == 0 && |frames| == 14
    requires forall k :: 0 <= k < 14 ==> frames[k] % PAGE_SIZE == 0 && frames[k] / PAGE_SIZE != rootAddr / PAGE_SIZE
    requires forall j, k :: 0 <= j < k < 14 ==> frames[j] != frames[k]
    ensures tables.Valid() && tables.root == rootAddr / PAGE_SIZE
    ensures forall va: Word ::
              Walk(tables.ram, tables.root, va) == if BootPage(uart, spi, va / PAGE_SIZE) then Some(Translation(va, OS_RWX)) else None
    ensures forall va: Word :: Walk(tables.ram, tables.root, va).Some? ==> SupervisorFlags(Walk(tables.ram, tables.root, va).value.flags)
  {
    SupervisorRwx();
    tables := new IdentityMap(ram, rootAddr);
    var rs := BootRegions(uart, spi);
    hide Represents, GoodRegion, LastRegion, Walk, BootPage, InRegion, BootRegions, SupervisorFlags;
    forall k | 0 <= k < |rs| ensures GoodRegion(rs[k]) && rs[k].flag == OS_RWX {
      BootRegionsGood(uart, spi, k);
    }
    MapAll(tables, rs, frames);
    forall va: Word ensures LastRegion(rs, va / PAGE_SIZE) >= 0 <==> BootPage(uart, spi, va / PAGE_SIZE) {
      var vpn: nat := va / PAGE_SIZE;
      if LastRegion(rs, vpn) >= 0 {
        BootRegionAt(uart, spi, LastRegion(rs, vpn), vpn);
      }
      if BootPage(uart, spi, vpn) {
        var k := BootRegionOf(uart, spi, vpn);
      }
    }
  }
}
