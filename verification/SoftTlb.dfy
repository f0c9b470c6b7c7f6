/** The software TLB: one physical user address space, swapped between processes by copying frames. */
module SoftTlb {
  import opened Words
  import opened Paging

  /** Page numbers of the 32-bit address space. */
  const NPAGES: nat := 0x10_0000

  datatype Mapping = Mapping(used: bool, pid: int, pageNo: Word)

  const NOT_MAPPED: Mapping := Mapping(false, 0, 0)

  /** The user address space, page by page. */
  type UserSpace = nat -> Page

  /** Frame `i` is mapped by process `pid` at page `p`. */
  predicate MapsTo(m: Mapping, pid: int, p: nat) {
    m.used && m.pid == pid && m.pageNo == p
  }

  /** The first frame that process `pid` maps at page `p`, or the table's length. */
  function FrameOf(table: seq<Mapping>, pid: int, p: nat): (i: nat)
    ensures i <= |table|
    ensures i < |table| ==> MapsTo(table[i], pid, p)
    ensures forall j :: 0 <= j < i ==> !MapsTo(table[j], pid, p)
  {
    if table == [] then 0 else if MapsTo(table[0], pid, p) then 0 else 1 + FrameOf(table[1..], pid, p)
  }

  /** Unused entries are blank, and no process maps a page twice. Frames of pid 0 are allocated but not mapped. */
  ghost predicate TableOk(table: seq<Mapping>) {
    && |table| == NFRAMES
    && (forall i :: 0 <= i < |table| ==> !table[i].used ==> table[i].pid == 0)
    && (forall i :: 0 <= i < |table| ==> table[i].pid != 0 ==> table[i].pageNo < NPAGES)
    && forall i, j :: 0 <= i < j < |table| && table[i].pid == table[j].pid != 0 ==> table[i].pageNo != table[j].pageNo
  }

  /** The private memory of a process: its pages live in the address space while it is mapped in, and in frames otherwise. */
  ghost function Space(table: seq<Mapping>, frames: seq<Page>, curr: int, mem: UserSpace, pid: int): (s: map<nat, Page>)
    requires |frames| == |table|
  {
    map p: nat | p < NPAGES && FrameOf(table, pid, p) < |table| ::
      if pid == curr then mem(p) else frames[FrameOf(table, pid, p)]
  }

  /** Which pages a process has is up to the table alone. */
  lemma SameKeys(table: seq<Mapping>, frames: seq<Page>, curr: int, mem: UserSpace, frames': seq<Page>, curr': int, mem': UserSpace, pid: int)
    requires |frames| == |frames'| == |table|
    ensures Space(table, frames', curr', mem', pid).Keys == Space(table, frames, curr, mem, pid).Keys
  {
    hide FrameOf;
    assert forall p: nat :: p in Space(table, frames', curr', mem', pid) <==> p in Space(table, frames, curr, mem, pid);
  }

  lemma FrameIs(table: seq<Mapping>, i: nat, pid: int, p: nat)
    requires TableOk(table) && pid != 0 && i < |table| && MapsTo(table[i], pid, p)
    ensures FrameOf(table, pid, p) == i
  {
  }

  // ---- Switching address spaces ----

  /** The frames once the pages of `curr` are saved. */
  ghost predicate SavedUpTo(table: seq<Mapping>, frames: seq<Page>, frames': seq<Page>, curr: int, mem: UserSpace, n: nat)
    requires |frames| == |frames'| == |table| && n <= |table|
  {
    forall i :: 0 <= i < |table| ==>
      frames'[i] == if i < n && table[i].used && table[i].pid == curr then mem(table[i].pageNo) else frames[i]
  }

  /** The address space once the pages of `pid` are brought in. */
  ghost predicate LoadedUpTo(table: seq<Mapping>, frames: seq<Page>, mem: UserSpace, mem': UserSpace, pid: int, n: nat)
    requires |frames| == |table| && n <= |table|
  {
    && (forall i :: 0 <= i < n ==> table[i].used && table[i].pid == pid ==> mem'(table[i].pageNo) == frames[i])
    && forall p: nat :: p < NPAGES && FrameOf(table, pid, p) >= n ==> mem'(p) == mem(p)
  }

  /** A switch changes no process's private memory. */
  lemma SwitchKeepsSpaces(table: seq<Mapping>, frames: seq<Page>, frames': seq<Page>, curr: int, mem: UserSpace, mem': UserSpace, pid: int, q: int)
    requires TableOk(table) && |frames| == |frames'| == |table| && pid != curr
    requires SavedUpTo(table, frames, frames', curr, mem, |table|)
    requires LoadedUpTo(table, frames', mem, mem', pid, |table|)
    ensures Space(table, frames', pid, mem', q) == Space(table, frames, curr, mem, q)
  {
  }

  function SetPage(mem: UserSpace, p: nat, page: Page): (mem': UserSpace)
    ensures mem'(p) == page && forall q: nat :: q != p ==> mem'(q) == mem(q)
  {
    (q: nat) => if q == p then page else mem(q)
  }

  lemma LoadStep(table: seq<Mapping>, frames: seq<Page>, mem: UserSpace, mem': UserSpace, mem'': UserSpace, pid: int, n: nat)
    requires TableOk(table) && |frames| == |table| && n < |table| && pid != 0
    requires LoadedUpTo(table, frames, mem, mem', pid, n)
    requires mem'' == if table[n].used && table[n].pid == pid then SetPage(mem', table[n].pageNo, frames[n]) else mem'
    ensures LoadedUpTo(table, frames, mem, mem'', pid, n + 1)
  {
  }

  // ---- The other steps, on the table and frames ----

  /** Changing a frame that process `q` has not mapped. */
  lemma OtherFrame(table: seq<Mapping>, frames: seq<Page>, curr: int, mem: UserSpace, f: nat, page: Page, q: int)
    requires |frames| == |table| && f < |table| && table[f].pid != q
    ensures Space(table, frames[f := page], curr, mem, q) == Space(table, frames, curr, mem, q)
  {
  }

  /** Changing a table entry that process `q` has no part in, before or after. */
  lemma {:induction false} OtherEntry(table: seq<Mapping>, f: nat, m: Mapping, q: int, p: nat)
    requires f < |table| && !MapsTo(table[f], q, p) && !MapsTo(m, q, p)
    ensures FrameOf(table[f := m], q, p) == FrameOf(table, q, p)
  {
    if f == 0 {
      assert table[f := m][1..] == table[1..];
    } else {
      assert table[f := m][1..] == table[1..][f - 1 := m];
      OtherEntry(table[1..], f - 1, m, q, p);
    }
  }

  lemma EntryKeepsSpace(table: seq<Mapping>, frames: seq<Page>, curr: int, mem: UserSpace, f: nat, m: Mapping, q: int)
    requires |frames| == |table| && f < |table|
    requires !(table[f].used && table[f].pid == q) && !(m.used && m.pid == q)
    ensures Space(table[f := m], frames, curr, mem, q) == Space(table, frames, curr, mem, q)
  {
    forall p: nat ensures FrameOf(table[f := m], q, p) == FrameOf(table, q, p) {
      OtherEntry(table, f, m, q, p);
    }
  }

  lemma NoFrames(table: seq<Mapping>, frames: seq<Page>, curr: int, mem: UserSpace, pid: int)
    requires |frames| == |table|
    requires forall i :: 0 <= i < |table| ==> !(table[i].used && table[i].pid == pid)
    ensures Space(table, frames, curr, mem, pid) == map[]
  {
  }

  /** A store by the process that is mapped in reaches its own memory only. */
  lemma StoreOwnPage(table: seq<Mapping>, frames: seq<Page>, curr: int, mem: UserSpace, p: nat, page: Page, q: int)
    requires |frames| == |table|
    ensures var s := Space(table, frames, curr, mem, q);
            Space(table, frames, curr, SetPage(mem, p, page), q) == if q == curr && p in s then s[p := page] else s
  {
  }

  /** A frame rewritten while its owner is not mapped in is that page of the owner's memory. */
  lemma PokeOwnPage(table: seq<Mapping>, frames: seq<Page>, curr: int, mem: UserSpace, f: nat, page: Page)
    requires TableOk(table) && |frames| == |table| && f < |table|
    requires table[f].used && table[f].pid != 0 && table[f].pid != curr
    ensures Space(table, frames[f := page], curr, mem, table[f].pid) == Space(table, frames, curr, mem, table[f].pid)[table[f].pageNo := page]
  {
  }

  /** Frame `f` may become page `p` of process `pid`: the frame is allocated and not mapped yet, the page is new. */
  ghost predicate MayMap(table: seq<Mapping>, pid: int, p: nat, f: nat) {
    Loose(table, f) && pid != 0 && p < NPAGES && FrameOf(table, pid, p) == |table|
  }

  /** Frame `f` is allocated and not mapped yet. */
  predicate Loose(table: seq<Mapping>, f: nat) { f < |table| && table[f].used && table[f].pid == 0 }

  lemma NewPageOk(table: seq<Mapping>, pid: int, p: nat, f: nat)
    requires TableOk(table) && MayMap(table, pid, p, f)
    ensures TableOk(table[f := Mapping(true, pid, p)])
  {
    forall i | 0 <= i < |table| && table[i].pid == pid ensures table[i].pageNo != p {
      assert !MapsTo(table[i], pid, p);
    }
  }

  /** Mapping a frame adds that page to the process's memory: with the frame's content, or if the process is mapped
      in with what the address space has there. */
  lemma MapAddsPage(table: seq<Mapping>, frames: seq<Page>, curr: int, mem: UserSpace, f: nat, pid: int, p: nat)
    requires TableOk(table) && |frames| == |table| && MayMap(table, pid, p, f)
    ensures TableOk(table[f := Mapping(true, pid, p)])
    ensures Space(table[f := Mapping(true, pid, p)], frames, curr, mem, pid) ==
            Space(table, frames, curr, mem, pid)[p := if pid == curr then mem(p) else frames[f]]
  {
    var m := Mapping(true, pid, p);
    var t := table[f := m];
    NewPageOk(table, pid, p, f);
    FrameIs(t, f, pid, p);
    hide FrameOf, TableOk;
    forall q: nat | q != p ensures FrameOf(t, pid, q) == FrameOf(table, pid, q) {
      OtherEntry(table, f, m, pid, q);
    }
  }

  /** A page mapped twice breaks the invariant, so these conditions are what mapping needs. */
  lemma MapNeedsNewPage(table: seq<Mapping>, f: nat, pid: int, p: Word)
    requires TableOk(table) && Loose(table, f) && pid != 0
    ensures TableOk(table[f := Mapping(true, pid, p)]) <==> p < NPAGES && FrameOf(table, pid, p) == |table|
  {
    var i, t := FrameOf(table, pid, p), table[f := Mapping(true, pid, p)];
    if i < |table| {
      assert t[i].pid == t[f].pid && t[i].pageNo == t[f].pageNo && i != f;
    } else if p < NPAGES {
      MapAddsPage(table, seq(|table|, j => BlankPage()), 0, (q: nat) => BlankPage(), f, pid, p);
    } else {
      assert t[f].pageNo == p;
    }
  }

  // ---- Runs, as each process sees them ----

  /** `Poke` is a store through the pointer that `Alloc` gave for the frame. */
  datatype Op =
    | Alloc
    | Map(pid: int, pageNo: Word, frame: nat)
    | Poke(frame: nat, page: Page)
    | Switch(pid: int)
    | Store(pageNo: Word, page: Page)
    | Free(pid: int)

  /** One private memory per process. */
  type Memories = int -> map<nat, Page>

  /** Who is mapped in, which frame is whose, and for which frames there is a pointer. */
  datatype Book = Book(curr: int, table: seq<Mapping>, known: set<nat>)

  /** The machine as processes see it: their memories, and the frames that are not part of one yet. */
  datatype Machine = Machine(book: Book, ms: Memories, loose: int -> Page)

  /** The first unused frame, or the table's length. */
  function FirstFree(table: seq<Mapping>): (f: nat)
    ensures f <= |table|
    ensures f < |table| ==> !table[f].used
    ensures forall j :: 0 <= j < f ==> table[j].used
  {
    if table == [] then 0 else if !table[0].used then 0 else 1 + FirstFree(table[1..])
  }

  function FreeTable(table: seq<Mapping>, pid: int): (t: seq<Mapping>)
    ensures |t| == |table|
    ensures forall i :: 0 <= i < |table| ==> t[i] == if table[i].used && table[i].pid == pid then NOT_MAPPED else table[i]
  {
    seq(|table|, i requires 0 <= i < |table| => if table[i].used && table[i].pid == pid then NOT_MAPPED else table[i])
  }

  /** What callers keep to: a process gets its pages while it is not mapped in, each of them once, and is written
      to from outside only then. */
  ghost predicate Allowed(b: Book, op: Op) {
    match op
    case Alloc => true
    case Map(pid, pageNo, frame) => pid != b.curr && MayMap(b.table, pid, pageNo, frame)
    case Poke(frame, _) => frame in b.known && frame < |b.table| && b.table[frame].used && b.table[frame].pid != b.curr
    case Switch(pid) => pid != 0
    case Store(_, _) => true
    case Free(pid) => pid != 0
  }

  ghost function Next(b: Book, op: Op): (b': Book)
    ensures |b'.table| == |b.table|
  {
    match op
    case Alloc =>
      var f := FirstFree(b.table);
      if f == |b.table| then b else b.(table := b.table[f := Mapping(true, 0, b.table[f].pageNo)], known := b.known + {f})
    case Map(pid, pageNo, frame) => if frame < |b.table| then b.(table := b.table[frame := Mapping(true, pid, pageNo)]) else b
    case Poke(_, _) => b
    case Switch(pid) => b.(curr := pid)
    case Store(_, _) => b
    case Free(pid) => b.(table := FreeTable(b.table, pid))
  }

  /** The effect of an operation; `found` is what an allocated frame happens to hold. */
  ghost function Effect(a: Machine, op: Op, found: Page): (a': Machine)
    requires Allowed(a.book, op)
    ensures a'.book == Next(a.book, op)
  {
    var t, ms := a.book.table, a.ms;
    var a1 := a.(book := Next(a.book, op));
    match op
    case Alloc => a1.(loose := At(a.loose, FirstFree(t), found))
    case Map(pid, pageNo, frame) => a1.(ms := At(ms, pid, ms(pid)[pageNo := a.loose(frame)]))
    case Poke(frame, page) =>
      if t[frame].pid == 0 then a1.(loose := At(a.loose, frame, page))
      else a1.(ms := At(ms, t[frame].pid, ms(t[frame].pid)[t[frame].pageNo := page]))
    case Switch(_) => a1
    case Store(pageNo, page) =>
      if pageNo in ms(a.book.curr) then a1.(ms := At(ms, a.book.curr, ms(a.book.curr)[pageNo := page])) else a1
    case Free(pid) => a1.(ms := At(ms, pid, map[]))
  }

  ghost function After(b: Book, ops: seq<Op>): (b': Book) {
    if ops == [] then b else Next(After(b, ops[..|ops| - 1]), ops[|ops| - 1])
  }

  ghost predicate AllAllowed(b: Book, ops: seq<Op>) {
    ops == [] || (AllAllowed(b, ops[..|ops| - 1]) && Allowed(After(b, ops[..|ops| - 1]), ops[|ops| - 1]))
  }

  /** No allocation finds every frame in use. */
  ghost predicate NeverFull(b: Book, ops: seq<Op>) {
    || ops == []
    || (&& NeverFull(b, ops[..|ops| - 1])
        && (ops[|ops| - 1].Alloc? ==> FirstFree(After(b, ops[..|ops| - 1]).table) < |b.table|))
  }

  lemma {:induction false} Prefixes(b: Book, ops: seq<Op>, n: nat)
    requires n <= |ops|
    ensures AllAllowed(b, ops) ==> AllAllowed(b, ops[..n])
    ensures NeverFull(b, ops) ==> NeverFull(b, ops[..n])
  {
    if n < |ops| {
      assert ops[..|ops| - 1][..n] == ops[..n];
      Prefixes(b, ops[..|ops| - 1], n);
    } else {
      assert ops[..n] == ops;
    }
  }

  ghost function Effects(a: Machine, ops: seq<Op>, found: seq<Page>): (a': Machine)
    requires AllAllowed(a.book, ops) && |found| == |ops|
    ensures a'.book == After(a.book, ops)
  {
    if ops == [] then a else
      var n := |ops| - 1;
      Effect(Effects(a, ops[..n], found[..n]), ops[n], found[n])
  }

  /** An operation that acts for a process other than `pid`. */
  ghost predicate Foreign(b: Book, op: Op, pid: int)
    requires Allowed(b, op)
  {
    match op
    case Alloc => true
    case Map(q, _, _) => q != pid
    case Poke(frame, _) => b.table[frame].pid != pid
    case Switch(_) => true
    case Store(_, _) => b.curr != pid
    case Free(q) => q != pid
  }

  ghost predicate AllForeign(b: Book, ops: seq<Op>, pid: int)
    requires AllAllowed(b, ops)
  {
    ops == [] || (AllForeign(b, ops[..|ops| - 1], pid) && Foreign(After(b, ops[..|ops| - 1]), ops[|ops| - 1], pid))
  }

  lemma {:induction false} Isolation(a: Machine, ops: seq<Op>, found: seq<Page>, pid: int)
    requires AllAllowed(a.book, ops) && |found| == |ops| && AllForeign(a.book, ops, pid)
    ensures Effects(a, ops, found).ms(pid) == a.ms(pid)
  {
    if ops != [] {
      Isolation(a, ops[..|ops| - 1], found[..|ops| - 1], pid);
    }
  }

  /** Frame `f`, if it is one, belongs to process `pid`. */
  predicate OwnsFrame(table: seq<Mapping>, pid: int, f: int) { 0 <= f < |table| && table[f].used && table[f].pid == pid }

  class Tlb {
    const dev: PagingDevice
    /** The frame table. */
    const table: array<Mapping>
    var currVmPid: int
    /** The user address space. */
    var mem: UserSpace

    ghost predicate Valid()
      reads this, dev, dev.slots, dev.pages, table
      ensures Valid() ==> table.Length == NFRAMES && dev.Valid()
    {
      dev.Valid() && table.Length == NFRAMES && TableOk(table[..]) && currVmPid != 0
    }

    /** The private memory of process `pid`. */
    ghost function Memory(pid: int): (s: map<nat, Page>)
      requires Valid()
      reads this, dev, dev.slots, dev.pages, table
    {
      Space(table[..], dev.Frames(), currVmPid, mem, pid)
    }

    constructor (dev: PagingDevice, mem: UserSpace)
      requires dev.Valid()
      ensures Valid() && this.dev == dev && fresh(table)
      ensures forall pid: int :: pid != 0 ==> Memory(pid) == map[]
    {
      this.dev := dev;
      this.mem := mem;
      currVmPid := -1;
      table := new Mapping[NFRAMES](i => NOT_MAPPED);
    }

    /** `mmu_alloc`: the first unused frame. Failing to find one is fatal. */
    method MmuAlloc() returns (ok: bool, frame: nat, at: nat)
      requires Valid()
      modifies dev`card, dev.slots, dev.pages, table
      ensures Valid()
      ensures frame == old(FirstFree(table[..])) && (ok <==> frame < NFRAMES)
      ensures ok ==> dev.Holds(at, frame) && at < dev.pages.Length && dev.pages[at] == dev.Frames()[frame]
      ensures table[..] == if ok then old(table[..])[frame := Mapping(true, 0, old(table[frame].pageNo))] else old(table[..])
      ensures dev.Frames() == if ok then old(dev.Frames())[frame := dev.Frames()[frame]] else old(dev.Frames())
      ensures forall pid: int :: pid != 0 ==> Memory(pid) == old(Memory(pid))
    {
      var i := 0;
      while i < NFRAMES
        invariant 0 <= i <= NFRAMES
        invariant forall t :: 0 <= t < i ==> table[t].used
      {
        if !table[i].used {
          frame := i;
          ghost var fs := dev.Frames();
          at := dev.PagingRead(i, true);
          table[i] := table[i].(used := true);
          assert table[..] == old(table[..])[i := Mapping(true, 0, old(table[i].pageNo))];
          forall pid: int | pid != 0 ensures Memory(pid) == old(Memory(pid)) {
            OtherFrame(old(table[..]), fs, currVmPid, mem, i, dev.Frames()[i], pid);
            EntryKeepsSpace(old(table[..]), dev.Frames(), currVmPid, mem, i, table[i], pid);
          }
          return true, frame, at;
        }
        i := i + 1;
      }
      ok, frame, at := false, NFRAMES, 0;
    }

    /** `soft_tlb_map`: a frame just allocated becomes page `pageNo` of a process. */
    method SoftTlbMap(pid: int, pageNo: Word, frame: nat)
      requires Valid() && frame < NFRAMES
      modifies table
      ensures table[..] == old(table[..])[frame := Mapping(old(table[frame].used), pid, pageNo)]
      ensures old(MayMap(table[..], pid, pageNo, frame)) ==>
                && Valid() && Memory(pid) == old(Memory(pid))[pageNo := if pid == currVmPid then mem(pageNo) else dev.Frames()[frame]]
                && forall q: int :: q != 0 && q != pid ==> Memory(q) == old(Memory(q))
    {
      hide CachedFrames;
      ghost var t0 := table[..];
      table[frame] := table[frame].(pid := pid);
      table[frame] := table[frame].(pageNo := pageNo);
      assert table[..] == t0[frame := Mapping(t0[frame].used, pid, pageNo)];
      if MayMap(t0, pid, pageNo, frame) {
        MapAddsPage(t0, dev.Frames(), currVmPid, mem, frame, pid, pageNo);
        forall q: int | q != 0 && q != pid ensures Memory(q) == old(Memory(q)) {
          EntryKeepsSpace(t0, dev.Frames(), currVmPid, mem, frame, table[frame], q);
        }
      }
    }

    /** The first loop of `soft_tlb_switch`: save the pages of the process mapped in. */
    method SavePages()
      requires Valid()
      modifies dev`card, dev.slots, dev.pages
      ensures Valid()
      ensures SavedUpTo(table[..], old(dev.Frames()), dev.Frames(), currVmPid, mem, NFRAMES)
    {
      hide CachedFrames;
      ghost var fs := dev.Frames();
      var i := 0;
      while i < NFRAMES
        invariant 0 <= i <= NFRAMES && Valid()
        invariant SavedUpTo(table[..], fs, dev.Frames(), currVmPid, mem, i)
      {
        if table[i].used && table[i].pid == currVmPid {
          dev.PagingWrite(i, mem(table[i].pageNo % NPAGES));
        }
        i := i + 1;
      }
    }

    /** The second loop: bring in the pages of `pid`. */
    method LoadPages(pid: int)
      requires Valid() && pid != 0
      modifies this`mem, dev`card, dev.slots, dev.pages
      ensures Valid() && dev.Frames() == old(dev.Frames())
      ensures LoadedUpTo(table[..], dev.Frames(), old(mem), mem, pid, NFRAMES)
    {
      hide CachedFrames, FrameOf;
      ghost var fs := dev.Frames();
      var i := 0;
      while i < NFRAMES
        invariant 0 <= i <= NFRAMES && Valid() && dev.Frames() == fs && currVmPid == old(currVmPid)
        invariant LoadedUpTo(table[..], fs, old(mem), mem, pid, i)
      {
        ghost var mem1 := mem;
        if table[i].used && table[i].pid == pid {
          var at := dev.PagingRead(i, false);
          mem := SetPage(mem, table[i].pageNo % NPAGES, dev.pages[at]);
        }
        LoadStep(table[..], fs, old(mem), mem1, mem, pid, i);
        i := i + 1;
      }
    }

    /** `soft_tlb_switch`: to every process its memory is what it was, and `pid` now finds its own in the address space. */
    method SoftTlbSwitch(pid: int)
      requires Valid() && pid != 0
      modifies this`currVmPid, this`mem, dev`card, dev.slots, dev.pages
      ensures Valid() && currVmPid == pid
      ensures forall q: int :: Memory(q) == old(Memory(q))
      ensures forall p: nat :: p in Memory(pid) ==> mem(p) == old(Memory(pid))[p]
      ensures forall f :: 0 <= f < NFRAMES && Loose(table[..], f) ==> dev.Frames()[f] == old(dev.Frames())[f]
    {
      if pid == currVmPid { return; }
      hide CachedFrames, FrameOf;
      ghost var t, fs, curr, mem0 := table[..], dev.Frames(), currVmPid, mem;
      SavePages();
      LoadPages(pid);
      forall q: int ensures Space(t, dev.Frames(), pid, mem, q) == Space(t, fs, curr, mem0, q) {
        SwitchKeepsSpaces(t, fs, dev.Frames(), curr, mem0, mem, pid, q);
      }
      currVmPid := pid;
    }

    /** `mmu_free`: a process's frames become unused, and the cache slots that held them empty. */
    method MmuFree(pid: int)
      requires Valid() && pid != 0
      modifies dev.slots, table
      ensures Valid() && Memory(pid) == map[]
      ensures forall q: int :: q != 0 && q != pid ==> Memory(q) == old(Memory(q))
      ensures table[..] == FreeTable(old(table[..]), pid)
      ensures forall j :: 0 <= j < NSLOTS ==> dev.slots[j] == if old(OwnsFrame(table[..], pid, dev.slots[j])) then -1 else old(dev.slots[j])
      ensures forall f :: 0 <= f < NFRAMES && Loose(table[..], f) ==> dev.Frames()[f] == old(dev.Frames())[f]
    {
      hide FrameOf, CachedFrames, PagingDevice.Frames, Space;
      var i := 0;
      while i < NFRAMES
        invariant 0 <= i <= NFRAMES && Valid()
        invariant forall j :: 0 <= j < NFRAMES ==> table[j] == if j < i && old(table[j].used && table[j].pid == pid) then NOT_MAPPED else old(table[j])
        invariant forall q: int :: q != 0 && q != pid ==> Memory(q) == old(Memory(q))
        invariant forall j :: 0 <= j < NSLOTS ==> dev.slots[j] == if old(dev.slots[j]) < i && old(OwnsFrame(table[..], pid, dev.slots[j])) then -1 else old(dev.slots[j])
        invariant forall f :: 0 <= f < NFRAMES && Loose(table[..], f) ==> dev.Frames()[f] == old(dev.Frames())[f]
      {
        if table[i].used && table[i].pid == pid {
          ghost var t, fs := table[..], dev.Frames();
          dev.InvalidateCache(i);
          table[i] := NOT_MAPPED;
          assert table[..] == t[i := NOT_MAPPED];
          forall q: int | q != 0 && q != pid ensures Memory(q) == Space(t, fs, currVmPid, mem, q) {
            OtherFrame(t, fs, currVmPid, mem, i, dev.Frames()[i], q);
            EntryKeepsSpace(t, dev.Frames(), currVmPid, mem, i, NOT_MAPPED, q);
          }
        }
        i := i + 1;
      }
      NoFrames(table[..], dev.Frames(), currVmPid, mem, pid);
    }

    /** A store by the process that is mapped in. */
    method UserStore(pageNo: nat, page: Page)
      requires Valid()
      modifies this`mem
      ensures Valid()
      ensures pageNo in old(Memory(currVmPid)) ==> Memory(currVmPid) == old(Memory(currVmPid))[pageNo := page]
      ensures pageNo !in old(Memory(currVmPid)) ==> Memory(currVmPid) == old(Memory(currVmPid))
      ensures forall q: int :: q != currVmPid ==> Memory(q) == old(Memory(q))
    {
      hide CachedFrames, FrameOf;
      ghost var mem0 := mem;
      mem := SetPage(mem, pageNo, page);
      forall q: int
        ensures Memory(q) == if q == currVmPid && pageNo in old(Memory(q)) then old(Memory(q))[pageNo := page] else old(Memory(q))
      {
        StoreOwnPage(table[..], dev.Frames(), currVmPid, mem0, pageNo, page, q);
      }
    }

    /** A store through the pointer `mmu_alloc` returned: as long as the frame is still kept there, and its process is
        not mapped in, a store to that page of the process. */
    method Poke(frame: nat, at: nat, page: Page)
      requires Valid() && at < dev.pages.Length
      modifies dev.pages
      ensures Valid() && dev.pages[at] == page
      ensures forall q: int :: Memory(q).Keys == old(Memory(q).Keys)
      ensures dev.Holds(at, frame) ==> dev.Frames() == old(dev.Frames())[frame := page]
      ensures dev.Holds(at, frame) && table[frame].used && table[frame].pid != currVmPid ==>
                forall q: int :: q != 0 ==>
                  Memory(q) == if q == table[frame].pid then old(Memory(q))[table[frame].pageNo := page] else old(Memory(q))
    {
      hide CachedFrames;
      ghost var fs := dev.Frames();
      if dev.arty && dev.Holds(at, frame) {
        WriteSlot(dev.slots[..], dev.pages[..], dev.card, at, page);
      }
      dev.pages[at] := page;
      assert dev.pages[..] == old(dev.pages[..])[at := page];
      forall q: int ensures Memory(q).Keys == old(Memory(q).Keys) {
        SameKeys(table[..], fs, currVmPid, mem, dev.Frames(), currVmPid, mem, q);
      }
      if dev.Holds(at, frame) && table[frame].used && table[frame].pid != currVmPid {
        forall q: int | q != 0
          ensures Memory(q) == if q == table[frame].pid then old(Memory(q))[table[frame].pageNo := page] else old(Memory(q))
        {
          if q == table[frame].pid {
            PokeOwnPage(table[..], fs, currVmPid, mem, frame, page);
          } else {
            OtherFrame(table[..], fs, currVmPid, mem, frame, page, q);
          }
        }
      }
    }

    /** The bookkeeping is as in `b`. */
    ghost predicate Books(b: Book)
      reads this, table
    {
      b.curr == currVmPid && b.table == table[..]
    }

    /** Processes see what `a` says. */
    ghost predicate Sees(a: Machine)
      requires Valid()
      reads this, dev, dev.slots, dev.pages, table
    {
      && Books(a.book)
      && (forall pid: int :: pid != 0 ==> Memory(pid) == a.ms(pid))
      && forall f :: 0 <= f < NFRAMES && Loose(table[..], f) ==> dev.Frames()[f] == a.loose(f)
    }

    /** There is a pointer for each frame in `known`. */
    ghost predicate Pointers(known: set<nat>, base: map<nat, nat>)
      reads this
    {
      known == base.Keys && forall f :: f in base ==> base[f] < dev.pages.Length && (!dev.arty ==> base[f] == f)
    }

    /** One operation; `base` has the pointers. Allocation fails when every frame is in use. The operation is right,
        unless it is a store through a pointer that does not lead to the frame any more. */
    method Perform(op: Op, base: map<nat, nat>, ghost a: Machine, ghost held: bool)
      returns (done: bool, base': map<nat, nat>, ghost found: Page, ghost held': bool)
      requires Valid() && Books(a.book) && Allowed(a.book, op) && Pointers(a.book.known, base) && (held ==> Sees(a))
      modifies this`currVmPid, this`mem, dev`card, dev.slots, dev.pages, table
      ensures Valid() && (done <==> op.Alloc? ==> FirstFree(a.book.table) < NFRAMES)
      ensures done ==> Books(Next(a.book, op)) && Pointers(Next(a.book, op).known, base')
      ensures held' <==> held && (op.Poke? ==> old(dev.Holds(base[op.frame], op.frame)))
      ensures done && held' ==> Sees(Effect(a, op, found))
    {
      hide Valid, Memory, PagingDevice.Valid, PagingDevice.Frames, FrameOf, FirstFree, FreeTable;
      done, base', found, held' := true, base, BlankPage(), held;
      match op {
        case Alloc =>
          var ok, frame, at := MmuAlloc();
          if !ok { return false, base, found, held; }
          base' := base[frame := at];
          found := dev.Frames()[frame];
        case Map(pid, pageNo, frame) =>
          SoftTlbMap(pid, pageNo, frame);
        case Poke(frame, page) =>
          held' := held && dev.Holds(base[frame], frame);
          Poke(frame, base[frame], page);
        case Switch(pid) =>
          SoftTlbSwitch(pid);
        case Store(pageNo, page) =>
          UserStore(pageNo, page);
        case Free(pid) =>
          MmuFree(pid);
      }
    }

    /** Every run of operations, in whatever order, refines private memories: each process finds what it or its loader
        last put in its pages, and a process for which none of the operations acts finds its memory as it was. It
        holds (`held`) as long as stores go through pointers that still lead to their frames: on QEMU always. */
    method Run(ops: seq<Op>, ghost ms: Memories, ghost loose: int -> Page, ghost held0: bool)
      returns (done: bool, ghost found: seq<Page>, ghost held: bool)
      requires Valid() && AllAllowed(Book(currVmPid, table[..], {}), ops)
      requires held0 ==> Sees(Machine(Book(currVmPid, table[..], {}), ms, loose))
      modifies this`currVmPid, this`mem, dev`card, dev.slots, dev.pages, table
      ensures Valid() && (done <==> old(NeverFull(Book(currVmPid, table[..], {}), ops)))
      ensures done ==> Books(After(Book(old(currVmPid), old(table[..]), {}), ops))
      ensures held ==> held0
      ensures held0 && (!dev.arty || forall i :: 0 <= i < |ops| ==> !ops[i].Poke?) ==> held
      ensures done && held ==>
                && |found| == |ops| && Sees(Effects(Machine(Book(old(currVmPid), old(table[..]), {}), ms, loose), ops, found))
                && forall pid: int :: pid != 0 && AllForeign(Book(old(currVmPid), old(table[..]), {}), ops, pid) ==> Memory(pid) == old(Memory(pid))
    {
      hide Valid, Memory, PagingDevice.Valid, PagingDevice.Frames, Allowed, Next, Effect, Sees, Foreign, NeverFull, AllForeign;
      ghost var a0 := Machine(Book(currVmPid, table[..], {}), ms, loose);
      var base: map<nat, nat> := map[];
      found, held := [], held0;
      var i := 0;
      RunStart(a0);
      forall pid: int | pid != 0 && held0 ensures Memory(pid) == ms(pid) { SeesMemory(a0, pid); }
      while i < |ops|
        invariant 0 <= i <= |ops| && |found| == i && Valid() && AllAllowed(a0.book, ops[..i]) && NeverFull(a0.book, ops[..i])
        invariant Books(After(a0.book, ops[..i])) && Pointers(After(a0.book, ops[..i]).known, base)
        invariant (held ==> held0 && Sees(Effects(a0, ops[..i], found)))
        invariant held0 && (!dev.arty || forall j :: 0 <= j < i ==> !ops[j].Poke?) ==> held
      {
        RunStep(a0.book, ops, i);
        ghost var page, a := BlankPage(), Effects(a0, ops[..i], found);
        done, base, page, held := Perform(ops[i], base, a, held);
        if !done { return; }
        assert (found + [page])[..i] == found;
        found := found + [page];
        i := i + 1;
      }
      assert ops[..i] == ops;
      forall pid: int | pid != 0 && held && AllForeign(a0.book, ops, pid) ensures Memory(pid) == old(Memory(pid)) {
        Isolation(a0, ops, found, pid);
        SeesMemory(Effects(a0, ops, found), pid);
      }
      done := true;
    }

    lemma SeesMemory(a: Machine, pid: int)
      requires Valid() && Sees(a) && pid != 0
      ensures Memory(pid) == a.ms(pid)
    {
    }
  }

  lemma RunStart(a: Machine)
    ensures AllAllowed(a.book, []) && NeverFull(a.book, []) && After(a.book, []) == a.book && Effects(a, [], []) == a
  {
  }

  lemma RunStep(b: Book, ops: seq<Op>, i: nat)
    requires i < |ops| && AllAllowed(b, ops) && AllAllowed(b, ops[..i]) && NeverFull(b, ops[..i])
    ensures ops[..i + 1][..i] == ops[..i] && ops[..i + 1][i] == ops[i]
    ensures AllAllowed(b, ops[..i + 1]) && Allowed(After(b, ops[..i]), ops[i]) && After(b, ops[..i + 1]) == Next(After(b, ops[..i]), ops[i])
    ensures NeverFull(b, ops[..i + 1]) <==> (ops[i].Alloc? ==> FirstFree(After(b, ops[..i]).table) < |b.table|)
    ensures NeverFull(b, ops) ==> NeverFull(b, ops[..i + 1])
  {
    Prefixes(b, ops, i + 1);
    assert ops[..i + 1][..i] == ops[..i];
  }
}
