/** The paging device: 256 frames, on Arty a write-back cache of 28 slots over the first megabyte of the disk. */
module Paging {
  import opened Words
  import opened Layout

  const BLOCK_SIZE: nat := 512
  const BLOCKS_PER_PAGE: nat := 8
  const NFRAMES: nat := 256
  const NSLOTS: nat := 28

  type Byte = x: int | 0 <= x < 256
  type Page = p: seq<Byte> | |p| == PAGE_SIZE witness seq(PAGE_SIZE, i => 0)
  type Sector = s: seq<Byte> | |s| == BLOCK_SIZE witness seq(BLOCK_SIZE, i => 0)

  /** The contents of a disk that has every block number. */
  type Card = nat -> Sector

  /** The block a frame number is written to: a 32-bit product divided by the block size. */
  function BlockOf(frame: int): (b: nat)
    ensures 0 <= frame < NFRAMES ==> b == frame * BLOCKS_PER_PAGE
  {
    (frame % WORD) * PAGE_SIZE % WORD / BLOCK_SIZE
  }

  /** The empty-slot marker -1 wraps to a block far behind the paging area and the disk image. */
  lemma EmptySlotBlock()
    ensures BlockOf(-1) == 8388600
  {
  }

  function BlankPage(): (p: Page) { seq(PAGE_SIZE, i => 0) }

  /** `disk_read` of the eight blocks of a page. */
  function CardPage(card: Card, b: nat): (p: Page) {
    seq(PAGE_SIZE, i requires 0 <= i < PAGE_SIZE => card(b + i / BLOCK_SIZE)[i % BLOCK_SIZE])
  }

  function Sub(p: Page, k: nat): (s: Sector)
    requires k < BLOCKS_PER_PAGE
  {
    p[k * BLOCK_SIZE..(k + 1) * BLOCK_SIZE]
  }

  /** `disk_write` of the eight blocks of a page. */
  function StorePage(card: Card, b: nat, p: Page): (card': Card)
    ensures forall n: nat :: !(b <= n < b + BLOCKS_PER_PAGE) ==> card'(n) == card(n)
    ensures forall k :: 0 <= k < BLOCKS_PER_PAGE ==> card'(b + k) == Sub(p, k)
  {
    (n: nat) => if b <= n < b + BLOCKS_PER_PAGE then Sub(p, n - b) else card(n)
  }

  lemma StoredPageReadsBack(card: Card, b: nat, p: Page)
    ensures CardPage(StorePage(card, b, p), b) == p
  {
  }

  lemma StoredPageElsewhere(card: Card, b: nat, p: Page, c: nat)
    requires c + BLOCKS_PER_PAGE <= b || b + BLOCKS_PER_PAGE <= c
    ensures CardPage(StorePage(card, b, p), c) == CardPage(card, c)
  {
  }

  // ---- What the cache stands for ----

  /** The first slot that holds frame `f`, or NSLOTS. */
  function SlotOf(slots: seq<int>, f: int): (i: nat)
    ensures i <= |slots|
    ensures i < |slots| ==> slots[i] == f
    ensures forall j :: 0 <= j < i ==> slots[j] != f
  {
    if slots == [] then 0 else if slots[0] == f then 0 else 1 + SlotOf(slots[1..], f)
  }

  /** Slots are empty or hold a frame, and no frame is in two slots. */
  ghost predicate SlotsOk(slots: seq<int>) {
    && |slots| == NSLOTS
    && (forall i :: 0 <= i < |slots| ==> -1 <= slots[i] < NFRAMES)
    && forall i, j :: 0 <= i < j < |slots| ==> slots[i] == slots[j] ==> slots[i] == -1
  }

  /** The content of frame `f`: its slot if it is cached, its disk blocks otherwise. */
  ghost function CachedFrame(slots: seq<int>, pages: seq<Page>, card: Card, f: nat): (p: Page)
    requires |pages| == |slots|
  {
    if SlotOf(slots, f) < |slots| then pages[SlotOf(slots, f)] else CardPage(card, BlockOf(f))
  }

  ghost function CachedFrames(slots: seq<int>, pages: seq<Page>, card: Card): (fs: seq<Page>)
    requires |pages| == |slots|
    ensures |fs| == NFRAMES
  {
    seq(NFRAMES, f requires 0 <= f < NFRAMES => CachedFrame(slots, pages, card, f))
  }

  lemma SlotIs(slots: seq<int>, i: nat, f: nat)
    requires SlotsOk(slots) && i < |slots| && slots[i] == f
    ensures SlotOf(slots, f) == i
  {
  }

  lemma NotCached(slots: seq<int>, f: int)
    requires forall i :: 0 <= i < |slots| ==> slots[i] != f
    ensures SlotOf(slots, f) == |slots|
  {
  }

  lemma FirstEmpty(slots: seq<int>, i: nat)
    requires i < |slots| && slots[i] == -1 && forall j :: 0 <= j < i ==> slots[j] != -1
    ensures SlotOf(slots, -1) == i
  {
  }

  lemma CachedAt(slots: seq<int>, pages: seq<Page>, card: Card, i: nat)
    requires SlotsOk(slots) && |pages| == |slots| && i < |slots| && slots[i] >= 0
    ensures CachedFrames(slots, pages, card)[slots[i]] == pages[i]
  {
  }

  /** Writing a slot back changes no frame: whichever slot is chosen, empty ones included. */
  lemma WriteBackKeepsFrames(slots: seq<int>, pages: seq<Page>, card: Card, idx: nat)
    requires SlotsOk(slots) && |pages| == |slots| && idx < |slots|
    ensures var card' := StorePage(card, BlockOf(slots[idx]), pages[idx]);
            && CachedFrames(slots, pages, card') == CachedFrames(slots, pages, card)
            && (slots[idx] >= 0 ==> CardPage(card', BlockOf(slots[idx])) == pages[idx])
  {
    var card' := StorePage(card, BlockOf(slots[idx]), pages[idx]);
    EmptySlotBlock();
    StoredPageReadsBack(card, BlockOf(slots[idx]), pages[idx]);
    forall f | 0 <= f < NFRAMES ensures CachedFrame(slots, pages, card', f) == CachedFrame(slots, pages, card, f) {
      if SlotOf(slots, f) == |slots| {
        StoredPageElsewhere(card, BlockOf(slots[idx]), pages[idx], BlockOf(f));
      }
    }
  }

  /** Handing slot `idx`, already written back, to frame `f`: only frame `f` changes, to the slot's new page. */
  lemma ReplaceSlot(slots: seq<int>, pages: seq<Page>, card: Card, idx: nat, f: nat, p: Page)
    requires SlotsOk(slots) && |pages| == |slots| && idx < |slots| && f < NFRAMES
    requires SlotOf(slots, f) == |slots|
    requires slots[idx] >= 0 ==> CardPage(card, BlockOf(slots[idx])) == pages[idx]
    ensures SlotsOk(slots[idx := f])
    ensures CachedFrames(slots[idx := f], pages[idx := p], card) == CachedFrames(slots, pages, card)[f := p]
    ensures CachedFrames(slots, pages, card)[f] == CardPage(card, BlockOf(f))
  {
    var slots', pages' := slots[idx := f], pages[idx := p];
    var fs, fs' := CachedFrames(slots, pages, card), CachedFrames(slots', pages', card);
    forall g | 0 <= g < NFRAMES ensures fs'[g] == fs[f := p][g] {
      var i := SlotOf(slots, g);
      if g == f {
        SlotIs(slots', idx, g);
      } else if i < |slots| && i != idx {
        SlotIs(slots', i, g);
      } else {
        assert SlotOf(slots', g) == |slots|;
      }
    }
  }

  /** Overwriting the page of a cached frame. */
  lemma WriteSlot(slots: seq<int>, pages: seq<Page>, card: Card, idx: nat, p: Page)
    requires SlotsOk(slots) && |pages| == |slots| && idx < |slots| && slots[idx] >= 0
    ensures CachedFrames(slots, pages[idx := p], card) == CachedFrames(slots, pages, card)[slots[idx] := p]
  {
  }

  /** Dropping a frame from the cache: other frames keep their content. */
  lemma DropSlot(slots: seq<int>, pages: seq<Page>, card: Card, slots': seq<int>, f: nat)
    requires SlotsOk(slots) && |pages| == |slots| == |slots'| && f < NFRAMES
    requires forall i :: 0 <= i < |slots| ==> slots'[i] == if slots[i] == f then -1 else slots[i]
    ensures SlotsOk(slots')
    ensures var fs := CachedFrames(slots, pages, card);
            CachedFrames(slots', pages, card) == fs[f := CardPage(card, BlockOf(f))]
  {
  }

  // ---- The device ----

  // ---- What a pointer into the cache is good for ----

  /** `paging_read` of frame `f` leaves it in slot `at`: where it was, or else in the first empty slot, or else in
      one that was evicted. */
  ghost predicate ReadGoes(slots: seq<int>, pages: seq<Page>, slots': seq<int>, pages': seq<Page>, f: nat, at: nat) {
    && |slots| == |pages| && at < |slots| && slots' == slots[at := f] && |pages'| == |pages| && pages' == pages[at := pages'[at]]
    && (SlotOf(slots, f) < |slots| ==> at == SlotOf(slots, f) && pages' == pages)
    && (SlotOf(slots, f) == |slots| && SlotOf(slots, -1) < |slots| ==> at == SlotOf(slots, -1))
  }

  /** `paging_write` of frame `f` puts it in slot `at`: where it was, or else in whichever slot was evicted. */
  ghost predicate WriteGoes(slots: seq<int>, pages: seq<Page>, slots': seq<int>, pages': seq<Page>, f: nat, src: Page, at: nat) {
    && |slots| == |pages| && at < |slots| && slots' == slots[at := f] && pages' == pages[at := src]
    && (SlotOf(slots, f) < |slots| ==> at == SlotOf(slots, f))
  }

  /** The frames after a store of a whole page through a pointer to slot `at`. */
  ghost function AfterStore(slots: seq<int>, pages: seq<Page>, card: Card, at: nat, page: Page): (fs: seq<Page>)
    requires |pages| == |slots| && at < |slots|
    ensures |fs| == NFRAMES
  {
    CachedFrames(slots, pages[at := page], card)
  }

  /** A store goes to whatever frame is in the slot by then, if any. */
  lemma StoreLands(slots: seq<int>, pages: seq<Page>, card: Card, at: nat, page: Page)
    requires SlotsOk(slots) && |pages| == |slots| && at < |slots|
    ensures var fs := CachedFrames(slots, pages, card);
            AfterStore(slots, pages, card, at, page) == if slots[at] >= 0 then fs[slots[at] := page] else fs
  {
    if slots[at] >= 0 {
      WriteSlot(slots, pages, card, at, page);
    } else {
      var fs, fs' := CachedFrames(slots, pages, card), AfterStore(slots, pages, card, at, page);
      assert forall g :: 0 <= g < NFRAMES ==> fs'[g] == fs[g];
    }
  }

  /** Stores through the pointer are stores to frame `f` exactly as long as the slot holds that frame. */
  lemma PointerGood(slots: seq<int>, pages: seq<Page>, card: Card, at: nat, f: nat)
    requires SlotsOk(slots) && |pages| == |slots| && at < |slots| && f < NFRAMES
    ensures slots[at] == f <==>
              forall page: Page :: AfterStore(slots, pages, card, at, page) == CachedFrames(slots, pages, card)[f := page]
  {
    hide CachedFrames, AfterStore;
    var fs := CachedFrames(slots, pages, card);
    forall page: Page
      ensures AfterStore(slots, pages, card, at, page) == if slots[at] >= 0 then fs[slots[at] := page] else fs
    {
      StoreLands(slots, pages, card, at, page);
    }
    if slots[at] != f {
      var page := OtherPage(fs[f]);
      assert AfterStore(slots, pages, card, at, page)[f] != fs[f := page][f];
    }
  }

  function OtherPage(p: Page): (p': Page)
    ensures p' != p
  {
    var p' := p[0 := if p[0] == 0 then 1 else 0];
    assert p'[0] != p[0];
    p'
  }

  /** It can stop being good. A process with 28 frames fills the cache; frame 28 is allocated and slot 5 is
      evicted for it; saving the process's frame 5 misses and evicts slot 5 in turn. A store through the pointer
      to frame 28 now changes frame 5, and frame 28 is as it was. */
  lemma EvictedUnderPointer(pages: seq<Page>, card: Card, src: Page, page: Page)
    requires |pages| == NSLOTS
    ensures var slots := seq(NSLOTS, i => i);
            var slots1, card1 := slots[5 := 28], StorePage(card, BlockOf(5), pages[5]);
            var slots2, pages2, card2 := slots1[5 := 5], pages[5 := src], StorePage(card1, BlockOf(28), pages[5]);
            && ReadGoes(slots, pages, slots1, pages, 28, 5) && WriteGoes(slots1, pages, slots2, pages2, 5, src, 5)
            && AfterStore(slots2, pages2, card2, 5, page)[5] == page
            && AfterStore(slots2, pages2, card2, 5, page)[28] == CachedFrames(slots1, pages, card1)[28] == pages[5]
  {
    var slots := seq(NSLOTS, i => i);
    var slots1, card1 := slots[5 := 28], StorePage(card, BlockOf(5), pages[5]);
    var slots2, pages2, card2 := slots1[5 := 5], pages[5 := src], StorePage(card1, BlockOf(28), pages[5]);
    NotCached(slots, 28);
    NotCached(slots, -1);
    NotCached(slots1, 5);
    CachedAt(slots1, pages, card1, 5);
    StoreLands(slots2, pages2, card2, 5, page);
    NotCached(slots2, 28);
    StoredPageReadsBack(card1, BlockOf(28), pages[5]);
  }

  class PagingDevice {
    const arty: bool
    /** `cache_slots` */
    const slots: array<int>
    /** The pages at FRAME_CACHE_START: the slots' pages on Arty, the frames themselves elsewhere. */
    const pages: array<Page>
    var card: Card

    ghost predicate Valid()
      reads this, slots, pages
    {
      && slots.Length == NSLOTS && SlotsOk(slots[..])
      && pages.Length == (if arty then NSLOTS else NFRAMES)
    }

    /** The 256 frames the device stands for. */
    ghost function Frames(): (fs: seq<Page>)
      requires Valid()
      reads this, slots, pages
      ensures |fs| == NFRAMES
    {
      if arty then CachedFrames(slots[..], pages[..], card) else pages[..]
    }

    /** Page `at` of the device's memory is where frame `f` is being kept. */
    ghost predicate Holds(at: nat, f: nat)
      reads this, slots
    {
      f < NFRAMES && if arty then at < slots.Length && slots[at] == f else at == f
    }

    /** Disk blocks of the boot image and of the file system. */
    ghost predicate ImageKept(card': Card)
      reads this
    {
      forall n: nat :: 2048 <= n < 8192 ==> card'(n) == card(n)
    }

    /** `paging_init`: all slots empty. */
    constructor (arty: bool, card: Card)
      ensures Valid() && fresh(slots) && fresh(pages)
      ensures this.arty == arty && this.card == card
      ensures forall i :: 0 <= i < NSLOTS ==> slots[i] == -1
    {
      this.arty := arty;
      this.card := card;
      slots := new int[NSLOTS](i => -1);
      pages := new Page[if arty then NSLOTS else NFRAMES](i => BlankPage());
    }

    /** `cache_eviction`: write back a slot picked at random, empty or not. */
    method CacheEviction() returns (idx: nat)
      requires Valid() && arty
      modifies this`card
      ensures Valid() && idx < NSLOTS
      ensures Frames() == old(Frames())
      ensures slots[idx] >= 0 ==> CardPage(card, BlockOf(slots[idx])) == pages[idx]
      ensures ImageKept(old(card))
    {
      var rand: nat := *;
      idx := rand % NSLOTS;
      WriteBackKeepsFrames(slots[..], pages[..], card, idx);
      EmptySlotBlock();
      card := StorePage(card, BlockOf(slots[idx]), pages[idx]);
    }

    /** `paging_invalidate_cache`. */
    method InvalidateCache(frame: nat)
      requires Valid() && frame < NFRAMES
      modifies slots
      ensures Valid()
      ensures Frames() == old(Frames())[frame := Frames()[frame]]
      ensures forall i :: 0 <= i < NSLOTS ==> slots[i] == if old(slots[i]) == frame then -1 else old(slots[i])
    {
      var j := 0;
      while j < NSLOTS
        invariant 0 <= j <= NSLOTS
        invariant forall i :: 0 <= i < j ==> slots[i] == if old(slots[i]) == frame then -1 else old(slots[i])
        invariant forall i :: j <= i < NSLOTS ==> slots[i] == old(slots[i])
      {
        if slots[j] == frame { slots[j] := -1; }
        j := j + 1;
      }
      if arty {
        DropSlot(old(slots[..]), pages[..], card, slots[..], frame);
      }
    }

    /** `paging_write`: frame := source page. A miss evicts a random slot even when there is an empty one. */
    method PagingWrite(frame: nat, src: Page)
      requires Valid() && frame < NFRAMES
      modifies this`card, slots, pages
      ensures Valid()
      ensures Frames() == old(Frames())[frame := src]
      ensures ImageKept(old(card))
      ensures arty ==> exists at :: WriteGoes(old(slots[..]), old(pages[..]), slots[..], pages[..], frame, src, at)
    {
      if !arty {
        pages[frame] := src;
        return;
      }
      var i := 0;
      while i < NSLOTS
        invariant 0 <= i <= NSLOTS
        invariant forall t :: 0 <= t < i ==> slots[t] != frame
      {
        if slots[i] == frame {
          WriteSlot(slots[..], pages[..], card, i, src);
          pages[i] := src;
          assert pages[..] == old(pages[..])[i := src] && slots[..] == slots[..][i := frame];
          SlotIs(slots[..], i, frame);
          assert WriteGoes(old(slots[..]), old(pages[..]), slots[..], pages[..], frame, src, i);
          return;
        }
        i := i + 1;
      }
      var freeIdx := CacheEviction();
      NotCached(slots[..], frame);
      ReplaceSlot(slots[..], pages[..], card, freeIdx, frame, src);
      slots[freeIdx] := frame;
      pages[freeIdx] := src;
      assert slots[..] == old(slots[..])[freeIdx := frame] && pages[..] == old(pages[..])[freeIdx := src];
      assert WriteGoes(old(slots[..]), old(pages[..]), slots[..], pages[..], frame, src, freeIdx);
    }

    /** `paging_read`: where frame `frame` is kept. With `allocOnly` its old content is not brought in. */
    method PagingRead(frame: nat, allocOnly: bool) returns (at: nat)
      requires Valid() && frame < NFRAMES
      modifies this`card, slots, pages
      ensures Valid() && Holds(at, frame) && at < pages.Length && pages[at] == Frames()[frame]
      ensures Frames() == old(Frames())[frame := Frames()[frame]]
      ensures !allocOnly ==> Frames() == old(Frames())
      ensures ImageKept(old(card))
      ensures arty ==> ReadGoes(old(slots[..]), old(pages[..]), slots[..], pages[..], frame, at)
      ensures allocOnly ==> pages[..] == old(pages[..])
    {
      hide CardPage, BlockOf, CachedFrames, SlotOf;
      if !arty { return frame; }
      var freeIdx := -1;
      var i := 0;
      while i < NSLOTS
        invariant 0 <= i <= NSLOTS && -1 <= freeIdx < NSLOTS
        invariant freeIdx >= 0 ==> slots[freeIdx] == -1 && forall t :: 0 <= t < freeIdx ==> slots[t] != -1
        invariant freeIdx == -1 ==> forall t :: 0 <= t < i ==> slots[t] != -1
        invariant forall t :: 0 <= t < i ==> slots[t] != frame
      {
        if slots[i] == -1 && freeIdx == -1 { freeIdx := i; }
        if slots[i] == frame {
          CachedAt(slots[..], pages[..], card, i);
          SlotIs(slots[..], i, frame);
          assert slots[..] == slots[..][i := frame] && pages[..] == pages[..][i := pages[i]];
          return i;
        }
        i := i + 1;
      }
      if freeIdx == -1 {
        NotCached(slots[..], -1);
        freeIdx := CacheEviction();
      } else {
        FirstEmpty(slots[..], freeIdx);
      }
      at := freeIdx;
      var page := if allocOnly then pages[at] else CardPage(card, BlockOf(frame));
      NotCached(slots[..], frame);
      ReplaceSlot(slots[..], pages[..], card, at, frame, page);
      slots[at] := frame;
      pages[at] := page;
      assert slots[..] == old(slots[..])[at := frame] && pages[..] == old(pages[..])[at := page];
      CachedAt(slots[..], pages[..], card, at);
    }
  }
}
