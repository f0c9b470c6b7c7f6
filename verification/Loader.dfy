/** Loading an executable: the memory a new process finds when it is first mapped in. */
module Loader {
  import opened Words
  import opened Layout
  import opened Paging
  import opened SoftTlb

  const APPS_ENTRY_PAGE: nat := APPS_ENTRY / PAGE_SIZE
  const APPS_NPAGES: nat := 3
  const STACK_PAGE: nat := APPS_ARG / PAGE_SIZE

  /** Where the argument strings start: behind argc and the argv array. */
  const ARGS: nat := 4 + 4 * CMD_NARGS

  /** The executable file, by block. */
  type Reader = nat -> Sector

  function FileByte(reader: Reader, n: nat): (b: Byte) { reader(n / BLOCK_SIZE)[n % BLOCK_SIZE] }

  datatype Segment = Segment(offset: Word, filesz: Word)

  /** The segment's bytes as the loader finds them: from the start of the block its offset is in. */
  function SegmentByte(reader: Reader, seg: Segment, i: nat): (b: Byte) {
    FileByte(reader, seg.offset / BLOCK_SIZE * BLOCK_SIZE + i)
  }

  /** The memory image of the segment: its file bytes, then zeros. */
  function ImageByte(reader: Reader, seg: Segment, i: nat): (b: Byte) {
    if i < seg.filesz then SegmentByte(reader, seg, i) else 0
  }

  /** The image holds the segment's own bytes exactly when the segment starts on a block boundary of the file. */
  lemma AlignedSegment(seg: Segment)
    ensures seg.offset % BLOCK_SIZE == 0 <==> forall reader: Reader, i: nat :: SegmentByte(reader, seg, i) == FileByte(reader, seg.offset + i)
  {
    if seg.offset % BLOCK_SIZE != 0 {
      var r: Reader := (n: nat) => seq(BLOCK_SIZE, i requires 0 <= i < BLOCK_SIZE => i % 256);
      var s: Reader := (n: nat) => seq(BLOCK_SIZE, i requires 0 <= i < BLOCK_SIZE => i / 256);
      assert FileByte(r, seg.offset) != SegmentByte(r, seg, 0) || FileByte(s, seg.offset) != SegmentByte(s, seg, 0);
      assert SegmentByte(r, seg, 0) != FileByte(r, seg.offset + 0) || SegmentByte(s, seg, 0) != FileByte(s, seg.offset + 0);
    }
  }

  /** Pages that `n` bytes touch. */
  function PagesOf(n: nat): (k: nat) { (n + PAGE_SIZE - 1) / PAGE_SIZE }

  /** Pages the code segment takes: what the file needs, and never fewer than APPS_SIZE. */
  function CodePages(filesz: nat): (n: nat)
    ensures n == APPS_NPAGES <==> filesz <= APPS_NPAGES * PAGE_SIZE
  {
    if PagesOf(filesz) < APPS_NPAGES then APPS_NPAGES else PagesOf(filesz)
  }

  // ---- Little-endian words ----

  function PutBytes(p: Page, at: nat, bs: seq<Byte>): (p': Page)
    requires at + |bs| <= PAGE_SIZE
    ensures forall i :: 0 <= i < PAGE_SIZE ==> p'[i] == if at <= i < at + |bs| then bs[i - at] else p[i]
  {
    p[..at] + bs + p[at + |bs|..]
  }

  function BytesOf(w: Word): (bs: seq<Byte>)
    ensures |bs| == 4 && WordOf(bs[0], bs[1], bs[2], bs[3]) == w
  {
    var x := w / 256;
    var y := x / 256;
    [w % 256, x % 256, y % 256, y / 256]
  }

  function WordOf(a: int, b: int, c: int, d: int): (w: int) { a + 256 * b + 65536 * c + 16777216 * d }

  function StoreWord(p: Page, at: nat, w: Word): (p': Page)
    requires at + 4 <= PAGE_SIZE
    ensures forall i :: 0 <= i < PAGE_SIZE && !(at <= i < at + 4) ==> p'[i] == p[i]
    ensures LoadWord(p', at) == w
  {
    PutBytes(p, at, BytesOf(w))
  }

  function LoadWord(p: Page, at: nat): (w: Word)
    requires at + 4 <= PAGE_SIZE
  {
    WordOf(p[at], p[at + 1], p[at + 2], p[at + 3])
  }

  function Zeros(n: nat): (bs: seq<Byte>)
    ensures |bs| == n && forall i :: 0 <= i < n ==> bs[i] == 0
  {
    seq(n, i => 0)
  }

  // ---- The image, as far as it has been loaded ----

  /** Page `j` of the segment is right in the segment's first `n` bytes. */
  ghost predicate PageLoaded(page: Page, reader: Reader, seg: Segment, j: nat, n: nat) {
    forall b: nat :: b < PAGE_SIZE && j * PAGE_SIZE + b < n ==> page[b] == SegmentByte(reader, seg, j * PAGE_SIZE + b)
  }

  /** Page `j` of the image. */
  ghost predicate PageOfImage(page: Page, reader: Reader, seg: Segment, j: nat) {
    forall b: nat :: b < PAGE_SIZE ==> page[b] == ImageByte(reader, seg, j * PAGE_SIZE + b)
  }

  ghost predicate CodeKeys(m: map<nat, Page>, pages: nat) {
    forall p: nat :: p in m <==> APPS_ENTRY_PAGE <= p < APPS_ENTRY_PAGE + pages
  }

  /** Process memory `m` is `pages` code pages, right in their first `n` bytes. */
  ghost predicate Loaded(m: map<nat, Page>, reader: Reader, seg: Segment, pages: nat, n: nat) {
    CodeKeys(m, pages) && forall p: nat :: p in m && p >= APPS_ENTRY_PAGE ==> PageLoaded(m[p], reader, seg, p - APPS_ENTRY_PAGE, n)
  }

  /** Process memory `m` is the first `pages` pages of the image. */
  ghost predicate Image(m: map<nat, Page>, reader: Reader, seg: Segment, pages: nat) {
    CodeKeys(m, pages) && forall p: nat :: p in m && p >= APPS_ENTRY_PAGE ==> PageOfImage(m[p], reader, seg, p - APPS_ENTRY_PAGE)
  }

  lemma LoadPage(m: map<nat, Page>, reader: Reader, seg: Segment, pages: nat, page: Page)
    requires Loaded(m, reader, seg, pages, pages * PAGE_SIZE)
    ensures Loaded(m[APPS_ENTRY_PAGE + pages := page], reader, seg, pages + 1, pages * PAGE_SIZE)
  {
    hide SegmentByte;
  }

  /** One block read into its place in the page. */
  lemma LoadBlockInPage(page: Page, reader: Reader, seg: Segment, j: nat, n: nat)
    requires PageLoaded(page, reader, seg, j, n) && n % BLOCK_SIZE == 0 && j * PAGE_SIZE <= n < (j + 1) * PAGE_SIZE
    ensures n % PAGE_SIZE == n - j * PAGE_SIZE <= PAGE_SIZE - BLOCK_SIZE
    ensures PageLoaded(PutBytes(page, n % PAGE_SIZE, reader(seg.offset / BLOCK_SIZE + n / BLOCK_SIZE)), reader, seg, j, n + BLOCK_SIZE)
  {
    BlockPlace(j, n);
    var blk := reader(seg.offset / BLOCK_SIZE + n / BLOCK_SIZE);
    var page' := PutBytes(page, n % PAGE_SIZE, blk);
    hide PutBytes;
    forall b: nat | b < PAGE_SIZE && j * PAGE_SIZE + b < n + BLOCK_SIZE
      ensures page'[b] == SegmentByte(reader, seg, j * PAGE_SIZE + b)
    {
      var i := j * PAGE_SIZE + b;
      if i >= n {
        BlockByte(seg, n, i);
      }
    }
  }

  lemma BlockPlace(j: nat, n: nat)
    requires n % BLOCK_SIZE == 0 && j * PAGE_SIZE <= n < (j + 1) * PAGE_SIZE
    ensures n % PAGE_SIZE == n - j * PAGE_SIZE <= PAGE_SIZE - BLOCK_SIZE
  {
    var m := n / BLOCK_SIZE;
    assert n == m * BLOCK_SIZE && m < (j + 1) * BLOCKS_PER_PAGE;
    DivModUnique(n, PAGE_SIZE, j, n - j * PAGE_SIZE);
  }

  lemma BlockByte(seg: Segment, n: nat, i: nat)
    requires n % BLOCK_SIZE == 0 && n <= i < n + BLOCK_SIZE
    ensures var j := seg.offset / BLOCK_SIZE * BLOCK_SIZE + i;
            j / BLOCK_SIZE == seg.offset / BLOCK_SIZE + n / BLOCK_SIZE && j % BLOCK_SIZE == i - n
  {
  }

  lemma LoadBlock(m: map<nat, Page>, reader: Reader, seg: Segment, pages: nat, n: nat)
    requires Loaded(m, reader, seg, pages, n) && n % BLOCK_SIZE == 0 && 0 < pages && (pages - 1) * PAGE_SIZE <= n < pages * PAGE_SIZE
    ensures n % PAGE_SIZE <= PAGE_SIZE - BLOCK_SIZE
    ensures var p := APPS_ENTRY_PAGE + pages - 1;
            Loaded(m[p := PutBytes(m[p], n % PAGE_SIZE, reader(seg.offset / BLOCK_SIZE + n / BLOCK_SIZE))], reader, seg, pages, n + BLOCK_SIZE)
  {
    hide SegmentByte, PutBytes;
    LoadBlockInPage(m[APPS_ENTRY_PAGE + pages - 1], reader, seg, pages - 1, n);
    forall p: nat | p in m && APPS_ENTRY_PAGE <= p < APPS_ENTRY_PAGE + pages - 1
      ensures PageLoaded(m[p], reader, seg, p - APPS_ENTRY_PAGE, n + BLOCK_SIZE)
    {
    }
  }

  lemma FullPage(page: Page, reader: Reader, seg: Segment, j: nat, n: nat)
    requires PageLoaded(page, reader, seg, j, n) && (j + 1) * PAGE_SIZE <= seg.filesz <= n
    ensures PageOfImage(page, reader, seg, j)
  {
    hide SegmentByte;
  }

  lemma LastPage(page: Page, reader: Reader, seg: Segment, j: nat, n: nat)
    requires PageLoaded(page, reader, seg, j, n) && seg.filesz <= n
    requires seg.filesz % PAGE_SIZE != 0 && j == seg.filesz / PAGE_SIZE
    ensures PageOfImage(PutBytes(page, seg.filesz % PAGE_SIZE, Zeros(PAGE_SIZE - seg.filesz % PAGE_SIZE)), reader, seg, j)
  {
    hide SegmentByte;
  }

  /** All blocks are in, and the rest of the last page is cleared. */
  lemma ClearTail(m: map<nat, Page>, m': map<nat, Page>, reader: Reader, seg: Segment, pages: nat, n: nat)
    requires Loaded(m, reader, seg, pages, n) && n >= seg.filesz && pages == PagesOf(seg.filesz)
    requires seg.filesz % PAGE_SIZE == 0 ==> m' == m
    requires seg.filesz % PAGE_SIZE != 0 ==>
               var p, k := APPS_ENTRY_PAGE + pages - 1, seg.filesz % PAGE_SIZE;
               m' == m[p := PutBytes(m[p], k, Zeros(PAGE_SIZE - k))]
    ensures Image(m', reader, seg, pages)
  {
    hide SegmentByte, PageLoaded, PageOfImage, PutBytes, Zeros;
    forall p: nat | p in m' && p >= APPS_ENTRY_PAGE ensures PageOfImage(m'[p], reader, seg, p - APPS_ENTRY_PAGE) {
      var j := p - APPS_ENTRY_PAGE;
      if (j + 1) * PAGE_SIZE <= seg.filesz {
        FullPage(m[p], reader, seg, j, n);
      } else {
        LastPage(m[p], reader, seg, j, n);
      }
    }
  }

  lemma AddZeroPage(m: map<nat, Page>, reader: Reader, seg: Segment, pages: nat, page: Page)
    requires Image(m, reader, seg, pages) && seg.filesz <= pages * PAGE_SIZE
    requires forall b :: 0 <= b < PAGE_SIZE ==> page[b] == 0
    ensures Image(m[APPS_ENTRY_PAGE + pages := page], reader, seg, pages + 1)
  {
  }

  // ---- Frames left ----

  /** Frames not in use. */
  function Unused(table: seq<Mapping>): (n: nat)
    ensures n <= |table|
    ensures n > 0 <==> exists i :: 0 <= i < |table| && !table[i].used
  {
    if table == [] then 0 else (if table[0].used then 0 else 1) + Unused(table[1..])
  }

  lemma {:induction false} UnusedAfter(table: seq<Mapping>, f: nat, m: Mapping)
    requires f < |table| && m.used
    ensures Unused(table[f := m]) == Unused(table) - if table[f].used then 0 else 1
  {
    if f == 0 {
      assert table[f := m][1..] == table[1..];
    } else {
      assert table[f := m][1..] == table[1..][f - 1 := m];
      UnusedAfter(table[1..], f - 1, m);
    }
  }

  // ---- Arguments ----

  /** `argv`: absent, or an array of CMD_ARG_LEN-byte strings. */
  datatype Argv = NoArgv | Argv(bytes: seq<Byte>)

  /** What main finds through argc and argv: the i-th pointer leads to the i-th string, clear of the system call area. */
  ghost predicate ArgsPage(page: Page, argc: nat, argv: Argv)
    requires argc <= CMD_NARGS && (argv.Argv? ==> |argv.bytes| == argc * CMD_ARG_LEN)
  {
    && LoadWord(page, 0) == argc
    && forall i: nat :: i < argc ==> ArgAt(page, LoadWord(page, 4 + 4 * i), argv, i)
  }

  ghost predicate ArgAt(page: Page, addr: int, argv: Argv, i: nat)
    requires argv.Argv? ==> (i + 1) * CMD_ARG_LEN <= |argv.bytes|
  {
    && APPS_ARG < addr && addr + CMD_ARG_LEN <= SYSCALL_ARG
    && (argv.Argv? ==> page[addr - APPS_ARG..addr - APPS_ARG + CMD_ARG_LEN] == argv.bytes[i * CMD_ARG_LEN..(i + 1) * CMD_ARG_LEN])
  }

  method FillArgs(base: Page, argc: nat, argv: Argv) returns (page: Page)
    requires argc <= CMD_NARGS && (argv.Argv? ==> |argv.bytes| == argc * CMD_ARG_LEN)
    ensures ArgsPage(page, argc, argv)
  {
    hide StoreWord, PutBytes, BytesOf, WordOf;
    page := StoreWord(base, 0, argc);
    if argv.Argv? {
      page := PutBytes(page, ARGS, argv.bytes);
    }
    var i := 0;
    while i < argc
      invariant 0 <= i <= argc
      invariant LoadWord(page, 0) == argc
      invariant forall j: nat :: j < i ==> LoadWord(page, 4 + 4 * j) == APPS_ARG + ARGS + j * CMD_ARG_LEN
      invariant argv.Argv? ==> forall k: nat :: k < |argv.bytes| ==> page[ARGS + k] == argv.bytes[k]
    {
      page := StoreWord(page, 4 + 4 * i, APPS_ARG + ARGS + i * CMD_ARG_LEN);
      i := i + 1;
    }
  }

  // ---- While the loader waits for a block ----

  /** What other processes can do meanwhile: switch among themselves and store to their memory. Frames are
      allocated, mapped and freed by the process server alone, and that is the process waiting here. */
  predicate ByOthers(op: Op, pid: int) {
    match op
    case Switch(q) => q != 0 && q != pid
    case Store(_, _) => true
    case _ => false
  }

  predicate AllByOthers(ops: seq<Op>, pid: int) { forall i :: 0 <= i < |ops| ==> ByOthers(ops[i], pid) }

  /** The process mapped in and the memories. */
  datatype View = View(curr: int, ms: Memories)

  /** What that does to their own memories. */
  ghost function Others(v: View, ops: seq<Op>): (v': View) {
    if ops == [] then v else
      var u := Others(v, ops[..|ops| - 1]);
      match ops[|ops| - 1]
      case Switch(q) => u.(curr := q)
      case Store(p, page) => if p in u.ms(u.curr) then u.(ms := At(u.ms, u.curr, u.ms(u.curr)[p := page])) else u
      case _ => u
  }

  /** To all processes but `pid`, the machine looks like `v`. */
  ghost predicate OthersSee(tlb: Tlb, pid: int, v: View)
    requires tlb.Valid()
    reads tlb, tlb.dev, tlb.dev.slots, tlb.dev.pages, tlb.table
  {
    tlb.currVmPid == v.curr && forall q: int :: q != 0 && q != pid ==> tlb.Memory(q) == v.ms(q)
  }

  lemma {:induction false} OthersAllowed(b: Book, ops: seq<Op>, pid: int)
    requires AllByOthers(ops, pid) && b.curr != pid && b.curr != 0
    ensures AllAllowed(b, ops) && NeverFull(b, ops) && AllForeign(b, ops, pid)
    ensures After(b, ops).table == b.table && After(b, ops).curr != pid && After(b, ops).curr != 0
  {
    if ops != [] {
      OthersAllowed(b, ops[..|ops| - 1], pid);
    }
  }

  lemma {:induction false} OthersEffects(a: Machine, ops: seq<Op>, found: seq<Page>, v: View, pid: int)
    requires AllByOthers(ops, pid) && a.book.curr != pid && a.book.curr != 0 && |found| == |ops|
    requires a.book.curr == v.curr && forall q: int :: q != 0 && q != pid ==> a.ms(q) == v.ms(q)
    ensures AllAllowed(a.book, ops)
    ensures var a', v' := Effects(a, ops, found), Others(v, ops);
            a'.book.curr == v'.curr && forall q: int :: q != 0 && q != pid ==> a'.ms(q) == v'.ms(q)
  {
    OthersAllowed(a.book, ops, pid);
    if ops != [] {
      var n := |ops| - 1;
      OthersAllowed(a.book, ops[..n], pid);
      OthersEffects(a, ops[..n], found[..n], v, pid);
    }
  }

  lemma {:induction false} OthersJoin(v: View, xs: seq<Op>, ys: seq<Op>)
    ensures Others(v, xs + ys) == Others(Others(v, xs), ys)
  {
    if ys == [] {
      assert xs + ys == xs;
    } else {
      assert (xs + ys)[..|xs + ys| - 1] == xs + ys[..|ys| - 1];
      OthersJoin(v, xs, ys[..|ys| - 1]);
    }
  }

  /** All that happens while `n` blocks are read. */
  ghost function Meanwhile(others: nat -> seq<Op>, first: nat, n: nat): (ops: seq<Op>) {
    if n == 0 then [] else Meanwhile(others, first, n - 1) + others(first + n - 1)
  }

  ghost function Contents(fs: seq<Page>): (g: int -> Page)
    ensures forall f :: 0 <= f < |fs| ==> g(f) == fs[f]
  {
    (f: int) => PageAt(fs, f)
  }

  ghost function PageAt(fs: seq<Page>, f: int): (p: Page) { if 0 <= f < |fs| then fs[f] else BlankPage() }

  /** The other processes go on; the one being loaded is not touched. */
  method RunOthers(tlb: Tlb, pid: int, ops: seq<Op>, ghost v: View, ghost held: bool)
    requires tlb.Valid() && pid != 0 && pid != tlb.currVmPid && AllByOthers(ops, pid)
    requires held ==> OthersSee(tlb, pid, v)
    modifies tlb`currVmPid, tlb`mem, tlb.dev`card, tlb.dev.slots, tlb.dev.pages, tlb.table
    ensures tlb.Valid() && pid != tlb.currVmPid && tlb.table[..] == old(tlb.table[..])
    ensures tlb.Memory(pid).Keys == old(tlb.Memory(pid).Keys)
    ensures held ==> tlb.Memory(pid) == old(tlb.Memory(pid)) && OthersSee(tlb, pid, Others(v, ops))
  {
    ghost var t, fs, curr, mem := tlb.table[..], tlb.dev.Frames(), tlb.currVmPid, tlb.mem;
    ghost var ms, loose := At(v.ms, pid, tlb.Memory(pid)), Contents(fs);
    ghost var a := Machine(Book(curr, t, {}), ms, loose);
    ghost var found, held';
    var done;
    OthersAllowed(a.book, ops, pid);
    done, found, held' := tlb.Run(ops, ms, loose, held);
    SameKeys(t, fs, curr, mem, tlb.dev.Frames(), tlb.currVmPid, tlb.mem, pid);
    if held {
      OthersEffects(a, ops, found, v, pid);
    }
  }

  // ---- The loader ----

  /** The memory of a loaded process: the image, the arguments, one more page of stack, and nothing else. */
  ghost predicate AppMemory(m: map<nat, Page>, reader: Reader, seg: Segment, argc: nat, argv: Argv)
    requires argc <= CMD_NARGS && (argv.Argv? ==> |argv.bytes| == argc * CMD_ARG_LEN)
  {
    && STACK_PAGE in m && ArgsPage(m[STACK_PAGE], argc, argv)
    && STACK_PAGE + 1 in m
    && Image(m - {STACK_PAGE, STACK_PAGE + 1}, reader, seg, CodePages(seg.filesz))
  }

  /** `base` points at the page `pageNo` of `pid`. */
  ghost predicate Open(tlb: Tlb, pid: int, pageNo: Word, frame: nat, at: nat)
    reads tlb, tlb.dev, tlb.dev.slots, tlb.table
  {
    && tlb.dev.Holds(at, frame) && at < tlb.dev.pages.Length
    && frame < tlb.table.Length && tlb.table[frame] == Mapping(true, pid, pageNo)
  }

  lemma OpenPage(tlb: Tlb, pid: int, pageNo: Word, frame: nat, at: nat)
    requires tlb.Valid() && Open(tlb, pid, pageNo, frame, at) && pid != 0 && pid != tlb.currVmPid
    ensures pageNo in tlb.Memory(pid) && tlb.Memory(pid)[pageNo] == tlb.dev.pages[at]
  {
    hide CachedFrames;
    FrameIs(tlb.table[..], frame, pid, pageNo);
    if tlb.dev.arty {
      CachedAt(tlb.dev.slots[..], tlb.dev.pages[..], tlb.dev.card, at);
    }
  }

  lemma NotMapped(tlb: Tlb, pid: int, pageNo: Word)
    requires tlb.Valid() && pageNo < NPAGES && pageNo !in tlb.Memory(pid)
    ensures FrameOf(tlb.table[..], pid, pageNo) == NFRAMES
  {
  }

  lemma FreeIfUnused(table: seq<Mapping>)
    ensures Unused(table) > 0 <==> FirstFree(table) < |table|
  {
  }

  /** `mmu_alloc` and `mmu_map` of one new page. */
  method NewPage(tlb: Tlb, pid: int, pageNo: Word) returns (ok: bool, frame: nat, at: nat)
    requires tlb.Valid() && pid != 0 && pid != tlb.currVmPid && pageNo < NPAGES && pageNo !in tlb.Memory(pid)
    modifies tlb.dev`card, tlb.dev.slots, tlb.dev.pages, tlb.table
    ensures tlb.Valid() && (ok <==> old(Unused(tlb.table[..])) > 0)
    ensures ok ==> Unused(tlb.table[..]) == old(Unused(tlb.table[..])) - 1
    ensures ok ==> Open(tlb, pid, pageNo, frame, at)
    ensures ok ==> tlb.Memory(pid) == old(tlb.Memory(pid))[pageNo := tlb.dev.pages[at]]
    ensures forall q: int :: q != 0 && q != pid ==> tlb.Memory(q) == old(tlb.Memory(q))
  {
    hide Tlb.Valid, Tlb.Memory, PagingDevice.Valid, PagingDevice.Frames, FrameOf, FirstFree, Unused;
    ghost var t := tlb.table[..];
    FreeIfUnused(t);
    ok, frame, at := tlb.MmuAlloc();
    if !ok { return; }
    UnusedAfter(t, frame, tlb.table[frame]);
    NotMapped(tlb, pid, pageNo);
    ghost var t' := tlb.table[..];
    tlb.SoftTlbMap(pid, pageNo, frame);
    UnusedAfter(t', frame, tlb.table[frame]);
  }

  lemma PagesAre(n: nat, k: nat)
    requires k * PAGE_SIZE < n + PAGE_SIZE && n <= k * PAGE_SIZE
    ensures PagesOf(n) == k
  {
  }

  lemma NextBlock(off: nat, blocks: nat)
    requires off == blocks * BLOCK_SIZE
    ensures off % PAGE_SIZE == 0 ==> PagesOf(off) * PAGE_SIZE == off && PagesOf(off + BLOCK_SIZE) == PagesOf(off) + 1
    ensures off % PAGE_SIZE != 0 ==> PagesOf(off + BLOCK_SIZE) == PagesOf(off)
    ensures 0 < PagesOf(off + BLOCK_SIZE)
    ensures (PagesOf(off + BLOCK_SIZE) - 1) * PAGE_SIZE <= off < PagesOf(off + BLOCK_SIZE) * PAGE_SIZE
  {
    var j, r := blocks / BLOCKS_PER_PAGE, blocks % BLOCKS_PER_PAGE;
    assert off == j * PAGE_SIZE + r * BLOCK_SIZE;
    PagesAre(off, if r == 0 then j else j + 1);
    PagesAre(off + BLOCK_SIZE, j + 1);
  }

  lemma LastBlock(off: nat, blocks: nat, n: nat)
    requires off == blocks * BLOCK_SIZE
    ensures off < n ==> PagesOf(off + BLOCK_SIZE) <= PagesOf(n)
    ensures n <= off < n + BLOCK_SIZE ==> PagesOf(n) == PagesOf(off)
    ensures n <= off < n + BLOCK_SIZE ==> blocks == BlocksOf(n)
  {
    NextBlock(off, blocks);
    if n <= off < n + BLOCK_SIZE {
      BlocksAre(n, blocks);
      if blocks > 0 {
        NextBlock(off - BLOCK_SIZE, blocks - 1);
        PagesAre(n, PagesOf(off));
      }
    }
  }

  /** Blocks that `n` bytes touch. */
  function BlocksOf(n: nat): (k: nat) { (n + BLOCK_SIZE - 1) / BLOCK_SIZE }

  lemma BlocksAre(n: nat, k: nat)
    requires k * BLOCK_SIZE < n + BLOCK_SIZE && n <= k * BLOCK_SIZE
    ensures BlocksOf(n) == k
  {
  }

  /** `pages` code pages are there; if all stores went where they should, the pages are right in their first `n`
      bytes, and the last of them is open. */
  ghost predicate Loading(tlb: Tlb, pid: int, reader: Reader, seg: Segment, pages: nat, n: nat, frame: nat, at: nat, held: bool)
    requires tlb.Valid()
    reads tlb, tlb.dev, tlb.dev.slots, tlb.dev.pages, tlb.table
  {
    && pages <= NFRAMES && CodeKeys(tlb.Memory(pid), pages) && (0 < pages ==> at < tlb.dev.pages.Length)
    && (held ==> Loaded(tlb.Memory(pid), reader, seg, pages, n) && (0 < pages ==> Open(tlb, pid, APPS_ENTRY_PAGE + pages - 1, frame, at)))
  }

  lemma NothingLoading(tlb: Tlb, pid: int, reader: Reader, seg: Segment)
    requires tlb.Valid() && tlb.Memory(pid) == map[]
    ensures Loading(tlb, pid, reader, seg, 0, 0, 0, 0, true) && PagesOf(0) == 0
  {
  }

  /** The first block of a page: the page is new. */
  method NextPage(tlb: Tlb, pid: int, reader: Reader, seg: Segment, pages: nat, ghost frame0: nat, ghost at0: nat, ghost held: bool)
    returns (ok: bool, frame: nat, at: nat)
    requires tlb.Valid() && pid != 0 && pid != tlb.currVmPid
    requires Loading(tlb, pid, reader, seg, pages, pages * PAGE_SIZE, frame0, at0, held) && Unused(tlb.table[..]) + pages <= NFRAMES
    modifies tlb.dev`card, tlb.dev.slots, tlb.dev.pages, tlb.table
    ensures tlb.Valid() && (ok <==> old(Unused(tlb.table[..])) > 0)
    ensures ok ==> Unused(tlb.table[..]) == old(Unused(tlb.table[..])) - 1
    ensures ok ==> Loading(tlb, pid, reader, seg, pages + 1, pages * PAGE_SIZE, frame, at, held)
    ensures forall q: int :: q != 0 && q != pid ==> tlb.Memory(q) == old(tlb.Memory(q))
  {
    hide Tlb.Valid, Tlb.Memory, PagingDevice.Valid, PagingDevice.Frames, PageLoaded;
    ghost var m := tlb.Memory(pid);
    ok, frame, at := NewPage(tlb, pid, APPS_ENTRY_PAGE + pages);
    if !ok { return; }
    if held {
      LoadPage(m, reader, seg, pages, tlb.dev.pages[at]);
    }
  }

  /** One block, read into the open page once the other processes have had their turn. */
  method ReadBlock(tlb: Tlb, pid: int, reader: Reader, others: nat -> seq<Op>, seg: Segment, pages: nat, off: nat, ghost blocks: nat,
                   block: nat, frame: nat, at: nat, ghost v: View, ghost held: bool)
    returns (ghost held': bool)
    requires tlb.Valid() && pid != 0 && pid != tlb.currVmPid && AllByOthers(others(block), pid)
    requires 0 < pages && (pages - 1) * PAGE_SIZE <= off < pages * PAGE_SIZE && off == blocks * BLOCK_SIZE
    requires Loading(tlb, pid, reader, seg, pages, off, frame, at, held) && block == seg.offset / BLOCK_SIZE + blocks
    requires held ==> OthersSee(tlb, pid, v)
    modifies tlb`currVmPid, tlb`mem, tlb.dev`card, tlb.dev.slots, tlb.dev.pages, tlb.table
    ensures tlb.Valid() && pid != tlb.currVmPid && tlb.table[..] == old(tlb.table[..])
    ensures Loading(tlb, pid, reader, seg, pages, off + BLOCK_SIZE, frame, at, held')
    ensures held' ==> OthersSee(tlb, pid, Others(v, others(block)))
    ensures held && (!tlb.dev.arty || others(block) == []) ==> held'
  {
    hide Tlb.Valid, Tlb.Memory, PagingDevice.Valid, PagingDevice.Frames, Loaded, Others;
    if others(block) != [] {
      RunOthers(tlb, pid, others(block), v, held);
    } else {
      NoneRan(v);
    }
    held' := held && tlb.dev.Holds(at, frame);
    StoreBlock(tlb, pid, reader, seg, pages, off, blocks, block, frame, at, held');
  }

  lemma NoneRan(v: View)
    ensures Others(v, []) == v
  {
  }

  method StoreBlock(tlb: Tlb, pid: int, reader: Reader, seg: Segment, pages: nat, off: nat, ghost blocks: nat, block: nat, frame: nat, at: nat, ghost held: bool)
    requires tlb.Valid() && pid != 0 && pid != tlb.currVmPid
    requires 0 < pages && (pages - 1) * PAGE_SIZE <= off < pages * PAGE_SIZE && off == blocks * BLOCK_SIZE
    requires Loading(tlb, pid, reader, seg, pages, off, frame, at, held) && block == seg.offset / BLOCK_SIZE + blocks
    modifies tlb.dev.pages
    ensures tlb.Valid() && Loading(tlb, pid, reader, seg, pages, off + BLOCK_SIZE, frame, at, held)
    ensures held ==> forall q: int :: q != 0 && q != pid ==> tlb.Memory(q) == old(tlb.Memory(q))
  {
    hide Tlb.Valid, Tlb.Memory, PagingDevice.Valid, PagingDevice.Frames, PageLoaded, PutBytes;
    BlockPlace(pages - 1, off);
    if held {
      OpenPage(tlb, pid, APPS_ENTRY_PAGE + pages - 1, frame, at);
      LoadBlock(tlb.Memory(pid), reader, seg, pages, off);
    }
    tlb.Poke(frame, at, PutBytes(tlb.dev.pages[at], off % PAGE_SIZE, reader(block)));
  }

  /** The rest of the last page is cleared. */
  method ClearRest(tlb: Tlb, pid: int, reader: Reader, seg: Segment, pages: nat, off: nat, frame: nat, at: nat, ghost held: bool)
    requires tlb.Valid() && pid != 0 && pid != tlb.currVmPid
    requires Loading(tlb, pid, reader, seg, pages, off, frame, at, held) && seg.filesz <= off && pages == PagesOf(seg.filesz)
    modifies tlb.dev.pages
    ensures tlb.Valid() && CodeKeys(tlb.Memory(pid), pages)
    ensures held ==> Image(tlb.Memory(pid), reader, seg, pages) && forall q: int :: q != 0 && q != pid ==> tlb.Memory(q) == old(tlb.Memory(q))
  {
    hide Tlb.Valid, Tlb.Memory, PagingDevice.Valid, PagingDevice.Frames, PageLoaded, PutBytes, Zeros, Image;
    var filled := seg.filesz % PAGE_SIZE;
    ghost var m := tlb.Memory(pid);
    if filled != 0 {
      if held { OpenPage(tlb, pid, APPS_ENTRY_PAGE + pages - 1, frame, at); }
      tlb.Poke(frame, at, PutBytes(tlb.dev.pages[at], filled, Zeros(PAGE_SIZE - filled)));
    }
    if held { ClearTail(m, tlb.Memory(pid), reader, seg, pages, off); }
  }

  /** One turn of the loop over the blocks of the file. */
  method LoadNext(tlb: Tlb, pid: int, reader: Reader, others: nat -> seq<Op>, seg: Segment, pages0: nat, off: nat, ghost blocks: nat,
                  block: nat, frame0: nat, at0: nat, ghost v: View, ghost held: bool)
    returns (ok: bool, pages: nat, frame: nat, at: nat, ghost held': bool)
    requires tlb.Valid() && pid != 0 && pid != tlb.currVmPid && Unused(tlb.table[..]) + pages0 <= NFRAMES && AllByOthers(others(block), pid)
    requires off == blocks * BLOCK_SIZE && block == seg.offset / BLOCK_SIZE + blocks
    requires pages0 == PagesOf(off) && Loading(tlb, pid, reader, seg, pages0, off, frame0, at0, held)
    requires held ==> OthersSee(tlb, pid, v)
    modifies tlb`currVmPid, tlb`mem, tlb.dev`card, tlb.dev.slots, tlb.dev.pages, tlb.table
    ensures tlb.Valid() && pid != tlb.currVmPid && (ok <==> PagesOf(off + BLOCK_SIZE) - pages0 <= old(Unused(tlb.table[..])))
    ensures ok ==> pages == PagesOf(off + BLOCK_SIZE) && Loading(tlb, pid, reader, seg, pages, off + BLOCK_SIZE, frame, at, held')
    ensures ok ==> Unused(tlb.table[..]) + pages == old(Unused(tlb.table[..])) + pages0
    ensures ok && held' ==> OthersSee(tlb, pid, Others(v, others(block)))
    ensures held && (!tlb.dev.arty || others(block) == []) ==> held'
  {
    hide Tlb.Valid, Tlb.Memory, Loading, Unused, PagesOf, Others;
    NextBlock(off, blocks);
    ok, pages, frame, at, held' := true, pages0, frame0, at0, held;
    if off % PAGE_SIZE == 0 {
      ok, frame, at := NextPage(tlb, pid, reader, seg, pages, frame, at, held);
      if !ok { return; }
      pages := pages + 1;
    }
    held' := ReadBlock(tlb, pid, reader, others, seg, pages, off, blocks, block, frame, at, v, held);
  }

  lemma MeanwhileStep(v: View, others: nat -> seq<Op>, first: nat, n: nat)
    ensures Others(Others(v, Meanwhile(others, first, n)), others(first + n)) == Others(v, Meanwhile(others, first, n + 1))
  {
    OthersJoin(v, Meanwhile(others, first, n), others(first + n));
  }

  /** The pages that hold file bytes, the last one cleared behind them. */
  method LoadSegment(tlb: Tlb, pid: int, reader: Reader, others: nat -> seq<Op>, seg: Segment, ghost v: View)
    returns (ok: bool, pages: nat, ghost held: bool)
    requires tlb.Valid() && pid != 0 && pid != tlb.currVmPid && tlb.Memory(pid) == map[]
    requires OthersSee(tlb, pid, v) && forall b: nat :: AllByOthers(others(b), pid)
    modifies tlb`currVmPid, tlb`mem, tlb.dev`card, tlb.dev.slots, tlb.dev.pages, tlb.table
    ensures tlb.Valid() && pid != tlb.currVmPid && (ok <==> PagesOf(seg.filesz) <= old(Unused(tlb.table[..])))
    ensures ok ==> pages == PagesOf(seg.filesz) <= NFRAMES && CodeKeys(tlb.Memory(pid), pages)
    ensures ok ==> Unused(tlb.table[..]) == old(Unused(tlb.table[..])) - pages
    ensures ok && held ==> Image(tlb.Memory(pid), reader, seg, pages)
    ensures ok && held ==> OthersSee(tlb, pid, Others(v, Meanwhile(others, seg.offset / BLOCK_SIZE, BlocksOf(seg.filesz))))
    ensures !tlb.dev.arty || (forall b: nat :: others(b) == []) ==> held
  {
    hide Tlb.Valid, Tlb.Memory, Loading, Image, Unused, PagesOf, BlocksOf, Others, AllByOthers, CodeKeys;
    NothingLoading(tlb, pid, reader, seg);
    var off, block, frame, at := 0, seg.offset / BLOCK_SIZE, 0, 0;
    ghost var blocks: nat, u := 0, v;
    pages, held := 0, true;
    assert u == Others(v, Meanwhile(others, seg.offset / BLOCK_SIZE, 0)) by { NoOthers(v, others, seg.offset / BLOCK_SIZE); }
    while off < seg.filesz
      invariant tlb.Valid() && pid != tlb.currVmPid && Unused(tlb.table[..]) + pages == old(Unused(tlb.table[..]))
      invariant off == blocks * BLOCK_SIZE < seg.filesz + BLOCK_SIZE && block == seg.offset / BLOCK_SIZE + blocks
      invariant pages == PagesOf(off) && Loading(tlb, pid, reader, seg, pages, off, frame, at, held)
      invariant u == Others(v, Meanwhile(others, seg.offset / BLOCK_SIZE, blocks)) && (held ==> OthersSee(tlb, pid, u))
      invariant !tlb.dev.arty || (forall b: nat :: others(b) == []) ==> held
    {
      LastBlock(off, blocks, seg.filesz);
      MeanwhileStep(v, others, seg.offset / BLOCK_SIZE, blocks);
      ok, pages, frame, at, held := LoadNext(tlb, pid, reader, others, seg, pages, off, blocks, block, frame, at, u, held);
      if !ok { return; }
      u := Others(u, others(block));
      block := block + 1;
      off := off + BLOCK_SIZE;
      blocks := blocks + 1;
    }
    ok := true;
    LastBlock(off, blocks, seg.filesz);
    ClearRest(tlb, pid, reader, seg, pages, off, frame, at, held);
  }

  lemma NoOthers(v: View, others: nat -> seq<Op>, first: nat)
    ensures Others(v, Meanwhile(others, first, 0)) == v
  {
  }

  /** Whole pages of zeros up to APPS_SIZE. */
  method ZeroPages(tlb: Tlb, pid: int, reader: Reader, seg: Segment, filled: nat, ghost held: bool) returns (ok: bool)
    requires tlb.Valid() && pid != 0 && pid != tlb.currVmPid && filled == PagesOf(seg.filesz)
    requires CodeKeys(tlb.Memory(pid), filled) && (held ==> Image(tlb.Memory(pid), reader, seg, filled))
    modifies tlb.dev`card, tlb.dev.slots, tlb.dev.pages, tlb.table
    ensures tlb.Valid() && (ok <==> CodePages(seg.filesz) - filled <= old(Unused(tlb.table[..])))
    ensures ok ==> CodeKeys(tlb.Memory(pid), CodePages(seg.filesz)) && (held ==> Image(tlb.Memory(pid), reader, seg, CodePages(seg.filesz)))
    ensures ok ==> Unused(tlb.table[..]) == old(Unused(tlb.table[..])) - (CodePages(seg.filesz) - filled)
    ensures forall q: int :: q != 0 && q != pid ==> tlb.Memory(q) == old(tlb.Memory(q))
  {
    hide Tlb.Valid, Tlb.Memory, PagingDevice.Valid, PagingDevice.Frames, PageOfImage, Zeros, SegmentByte, TableOk, Unused;
    var pages := filled;
    while pages < APPS_NPAGES
      invariant tlb.Valid() && filled <= pages && (pages <= APPS_NPAGES || pages == filled)
      invariant Unused(tlb.table[..]) + pages == old(Unused(tlb.table[..])) + filled
      invariant CodeKeys(tlb.Memory(pid), pages) && (held ==> Image(tlb.Memory(pid), reader, seg, pages))
      invariant forall q: int :: q != 0 && q != pid ==> tlb.Memory(q) == old(tlb.Memory(q))
    {
      var frame, at;
      ghost var m := tlb.Memory(pid);
      ok, frame, at := NewPage(tlb, pid, APPS_ENTRY_PAGE + pages);
      if !ok { return; }
      tlb.Poke(frame, at, Zeros(PAGE_SIZE));
      if held { AddZeroPage(m, reader, seg, pages, Zeros(PAGE_SIZE)); }
      assert tlb.Memory(pid) == m[APPS_ENTRY_PAGE + pages := Zeros(PAGE_SIZE)];
      pages := pages + 1;
    }
    ok := true;
  }

  /** The page of the arguments and one more page of stack. */
  method LoadStack(tlb: Tlb, pid: int, reader: Reader, argc: nat, argv: Argv, seg: Segment, ghost held: bool) returns (ok: bool)
    requires tlb.Valid() && pid != 0 && pid != tlb.currVmPid && CodePages(seg.filesz) <= NFRAMES
    requires CodeKeys(tlb.Memory(pid), CodePages(seg.filesz)) && (held ==> Image(tlb.Memory(pid), reader, seg, CodePages(seg.filesz)))
    requires argc <= CMD_NARGS && (argv.Argv? ==> |argv.bytes| == argc * CMD_ARG_LEN)
    modifies tlb.dev`card, tlb.dev.slots, tlb.dev.pages, tlb.table
    ensures tlb.Valid() && (ok <==> 2 <= old(Unused(tlb.table[..])))
    ensures ok && held ==> AppMemory(tlb.Memory(pid), reader, seg, argc, argv)
    ensures ok ==> Unused(tlb.table[..]) == old(Unused(tlb.table[..])) - 2
    ensures forall q: int :: q != 0 && q != pid ==> tlb.Memory(q) == old(tlb.Memory(q))
  {
    hide Tlb.Valid, Tlb.Memory, PagingDevice.Valid, PagingDevice.Frames, PageOfImage, ArgsPage, TableOk, Unused;
    ghost var m := tlb.Memory(pid);
    var frame, at;
    ok, frame, at := NewPage(tlb, pid, STACK_PAGE);
    if !ok { return; }
    var page := FillArgs(tlb.dev.pages[at], argc, argv);
    tlb.Poke(frame, at, page);
    ok, frame, at := NewPage(tlb, pid, STACK_PAGE + 1);
    if !ok { return; }
    assert tlb.Memory(pid) - {STACK_PAGE, STACK_PAGE + 1} == m;
  }

  /** `load_app`, with a reader during which other processes run: succeeds exactly when enough frames are free. Then
      the process has its image and arguments and nothing else, and to the others it is as if they had been left to
      themselves. It holds (`held`) unless a page is evicted under the loader's pointer: never on QEMU, and not on
      the Arty if reading a block runs nobody else. */
  method LoadApp(tlb: Tlb, pid: int, reader: Reader, others: nat -> seq<Op>, argc: nat, argv: Argv, seg: Segment, ghost ms: Memories)
    returns (ok: bool, ghost held: bool)
    requires tlb.Valid() && pid != 0 && pid != tlb.currVmPid && tlb.Memory(pid) == map[]
    requires OthersSee(tlb, pid, View(tlb.currVmPid, ms)) && forall b: nat :: AllByOthers(others(b), pid)
    requires argc <= CMD_NARGS && (argv.Argv? ==> |argv.bytes| == argc * CMD_ARG_LEN)
    modifies tlb`currVmPid, tlb`mem, tlb.dev`card, tlb.dev.slots, tlb.dev.pages, tlb.table
    ensures tlb.Valid() && (ok <==> CodePages(seg.filesz) + 2 <= old(Unused(tlb.table[..])))
    ensures ok ==> Unused(tlb.table[..]) == old(Unused(tlb.table[..])) - CodePages(seg.filesz) - 2
    ensures ok && held ==> AppMemory(tlb.Memory(pid), reader, seg, argc, argv)
    ensures ok && held ==>
              OthersSee(tlb, pid, Others(View(old(tlb.currVmPid), ms), Meanwhile(others, seg.offset / BLOCK_SIZE, BlocksOf(seg.filesz))))
    ensures !tlb.dev.arty || (forall b: nat :: others(b) == []) ==> held
  {
    hide Tlb.Valid, Tlb.Memory, PagingDevice.Valid, PagingDevice.Frames, Image, PageOfImage, CodeKeys, Others, Unused, AllByOthers;
    var pages;
    ghost var v := View(tlb.currVmPid, ms);
    ok, pages, held := LoadSegment(tlb, pid, reader, others, seg, v);
    if !ok { return; }
    ok := ZeroPages(tlb, pid, reader, seg, pages, held);
    if !ok { return; }
    ok := LoadStack(tlb, pid, reader, argc, argv, seg, held);
  }
}
