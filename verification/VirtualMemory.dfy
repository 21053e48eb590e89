// mini-computer-arch/src/virtual_memory.c: demand paging with a frame bitmap and FIFO replacement.
//
// The page table is read as the list of its mappings (page, frame) in load order.
module VirtualMemory {
  import opened Arithmetic
  import opened Collections

  const FRAMES: nat := 16384
  const WORDS: nat := 512
  const MAX_PAGES: nat := 65536
  const TWO_32: nat := 0x1_0000_0000
  const NO_ADDRESS: nat := 0xFFFF_FFFF

  // ---------------------------------------------------------------- bitmap words

  // 1u << b
  function Mask(b: nat): bv32
    requires b < 32
  {
    (1 as bv32) << (b as bv32)
  }

  lemma ShiftsDisjoint(b: bv32, c: bv32)
    requires b < 32 && c < 32 && b != c
    ensures ((1 as bv32) << b) & ((1 as bv32) << c) == 0
  {
  }

  lemma ShiftNonZero(b: bv32)
    requires b < 32
    ensures ((1 as bv32) << b) != 0
  {
  }

  lemma AsBits(b: nat)
    requires b < 32
    ensures (b as bv32) < 32 && (b as bv32) as int == b
  {
    var x := b as bv5;
    assert x as bv32 < 32 && x as int == b;
  }

  lemma ShiftAmount(b: nat) returns (x: bv32)
    requires b < 32
    ensures x < 32 && x as int == b && Mask(b) == (1 as bv32) << x
  {
    AsBits(b);
    x := b as bv32;
  }

  lemma MasksDisjoint(b: nat, c: nat)
    requires b < 32 && c < 32 && b != c
    ensures Mask(b) & Mask(c) == 0
  {
    var x := ShiftAmount(b);
    var y := ShiftAmount(c);
    ShiftsDisjoint(x, y);
  }

  lemma MaskNonZero(b: nat)
    requires b < 32
    ensures Mask(b) != 0
  {
    var x := ShiftAmount(b);
    ShiftNonZero(x);
  }

  // word & mask, word |= mask and word &= ~mask
  predicate Test(w: bv32, m: bv32) {
    w & m != 0
  }

  function Set(w: bv32, m: bv32): bv32 {
    w | m
  }

  function Reset(w: bv32, m: bv32): bv32 {
    w & !m
  }

  lemma WriteOther(w: bv32, m: bv32, n: bv32)
    requires m & n == 0
    ensures Set(w, m) & n == w & n && Reset(w, m) & n == w & n
  {
  }

  lemma TestOther(w: bv32, m: bv32, n: bv32)
    requires m & n == 0
    ensures Test(Set(w, m), n) == Test(w, n)
    ensures Test(Reset(w, m), n) == Test(w, n)
  {
    hide Set, Reset;
    WriteOther(w, m, n);
    assert Set(w, m) & n == w & n;
    assert Reset(w, m) & n == w & n;
  }

  lemma TestSame(w: bv32, m: bv32)
    requires m != 0
    ensures Test(Set(w, m), m) && !Test(Reset(w, m), m)
  {
  }

  // Bit i of the bitmap: bit i % 32 of word i / 32.
  predicate BitAt(words: seq<bv32>, i: nat)
    requires |words| == WORDS && i < FRAMES
  {
    Test(words[i / 32], Mask(i % 32))
  }

  function WithBit(words: seq<bv32>, i: nat, b: bool): (r: seq<bv32>)
    requires |words| == WORDS && i < FRAMES
    ensures |r| == WORDS
  {
    words[i / 32 := if b then Set(words[i / 32], Mask(i % 32)) else Reset(words[i / 32], Mask(i % 32))]
  }

  // Writing a bit changes that bit only.
  lemma BitWritten(words: seq<bv32>, i: nat, b: bool, j: nat)
    requires |words| == WORDS && i < FRAMES && j < FRAMES
    ensures BitAt(WithBit(words, i, b), j) == if j == i then b else BitAt(words, j)
  {
    hide Mask, Test, Set, Reset;
    if i == j {
      MaskNonZero(i % 32);
      TestSame(words[i / 32], Mask(i % 32));
    } else if i / 32 == j / 32 {
      MasksDisjoint(i % 32, j % 32);
      TestOther(words[i / 32], Mask(i % 32), Mask(j % 32));
    }
  }

  // Number of clear entries.
  function Clear(bits: seq<bool>): nat {
    if bits == [] then 0 else Clear(bits[..|bits| - 1]) + if bits[|bits| - 1] then 0 else 1
  }

  lemma {:induction false} ClearUpdate(bits: seq<bool>, i: nat, b: bool)
    requires i < |bits|
    ensures Clear(bits[i := b]) + (if bits[i] then 0 else 1) == Clear(bits) + (if b then 0 else 1)
  {
    var n := |bits| - 1;
    if i == n {
      assert bits[i := b][..n] == bits[..n];
    } else {
      assert bits[i := b][..n] == bits[..n][i := b];
      ClearUpdate(bits[..n], i, b);
    }
  }

  lemma {:induction false} ClearNone(bits: seq<bool>)
    ensures Clear(bits) == 0 <==> forall i :: 0 <= i < |bits| ==> bits[i]
  {
    if bits != [] {
      ClearNone(bits[..|bits| - 1]);
    }
  }

  lemma {:induction false} ClearAll(bits: seq<bool>)
    requires forall i :: 0 <= i < |bits| ==> !bits[i]
    ensures Clear(bits) == |bits|
  {
    if bits != [] {
      ClearAll(bits[..|bits| - 1]);
    }
  }

  // ---------------------------------------------------------------- resident mappings

  datatype Mapping = Mapping(page: nat, frame: nat)

  // Pages and frames are in one-to-one correspondence.
  ghost predicate OneToOne(ms: seq<Mapping>) {
    (forall i :: 0 <= i < |ms| ==> ms[i].frame < FRAMES) &&
    forall i, j :: 0 <= i < j < |ms| ==> ms[i].page != ms[j].page && ms[i].frame != ms[j].frame
  }

  function Pages(ms: seq<Mapping>): (r: seq<nat>)
    ensures |r| == |ms| && forall i :: 0 <= i < |ms| ==> r[i] == ms[i].page
  {
    seq(|ms|, i requires 0 <= i < |ms| => ms[i].page)
  }

  function FramesOf(ms: seq<Mapping>): (r: seq<nat>)
    ensures |r| == |ms| && forall i :: 0 <= i < |ms| ==> r[i] == ms[i].frame
  {
    seq(|ms|, i requires 0 <= i < |ms| => ms[i].frame)
  }

  // The mapping of a page, or |ms| when it is not resident.
  function Find(ms: seq<Mapping>, page: nat): (k: nat)
    ensures k <= |ms| && (k < |ms| ==> ms[k].page == page)
    ensures k == |ms| ==> forall i :: 0 <= i < |ms| ==> ms[i].page != page
  {
    if ms == [] || ms[0].page == page then 0 else 1 + Find(ms[1..], page)
  }

  // One reference to a page: a resident page stays; otherwise a free frame is taken, or the mapping
  // loaded first gives up its frame.
  ghost predicate Referenced(ms: seq<Mapping>, page: nat, ms': seq<Mapping>) {
    if Find(ms, page) < |ms| then ms' == ms
    else if |ms| < FRAMES then
      exists f :: IsLowestFree(ms, f) && ms' == ms + [Mapping(page, f)]
    else ms' == ms[1..] + [Mapping(page, ms[0].frame)]
  }

  ghost predicate IsLowestFree(ms: seq<Mapping>, f: nat) {
    f < FRAMES && f !in FramesOf(ms) && forall g :: 0 <= g < f ==> g in FramesOf(ms)
  }

  // A translated reference: the mappings follow Referenced, a load is logged exactly when the page was
  // not resident, and the address is that of the page's frame.
  ghost predicate Translated(ms: seq<Mapping>, loads: seq<nat>, ms': seq<Mapping>, loads': seq<nat>,
                             virtualAddress: nat, pageSize: nat, address: nat)
    requires pageSize > 0
  {
    var page := virtualAddress / pageSize;
    Referenced(ms, page, ms') && loads' == (if Find(ms, page) < |ms| then loads else loads + [page]) &&
    Find(ms', page) < |ms'| && address == Physical(ms'[Find(ms', page)].frame, virtualAddress % pageSize, pageSize)
  }

  lemma ResidentStays(ms: seq<Mapping>, page: nat)
    requires Find(ms, page) < |ms|
    ensures Referenced(ms, page, ms)
  {
  }

  lemma ReferenceKeeps(ms: seq<Mapping>, page: nat, ms': seq<Mapping>)
    requires OneToOne(ms) && |ms| <= FRAMES && Referenced(ms, page, ms')
    ensures OneToOne(ms') && |ms'| <= FRAMES
  {
    if Find(ms, page) == |ms| && |ms| < FRAMES {
      var f :| IsLowestFree(ms, f) && ms' == ms + [Mapping(page, f)];
      forall i | 0 <= i < |ms| ensures ms[i].frame != f {
        assert FramesOf(ms)[i] == ms[i].frame;
      }
    }
  }

  // The resident pages are the most recently loaded ones, oldest load first: the log of loads ends
  // with them, and only a full memory forgets a load.
  ghost predicate LoadOrder(ms: seq<Mapping>, loads: seq<nat>) {
    |ms| == (if |loads| < FRAMES then |loads| else FRAMES) && Pages(ms) == loads[|loads| - |ms|..]
  }

  lemma ReferenceKeepsLoadOrder(ms: seq<Mapping>, page: nat, ms': seq<Mapping>, loads: seq<nat>)
    requires LoadOrder(ms, loads) && Referenced(ms, page, ms')
    ensures LoadOrder(ms', if Find(ms, page) < |ms| then loads else loads + [page])
  {
    if Find(ms, page) == |ms| {
      var l := loads + [page];
      if |ms| < FRAMES {
        assert Pages(ms') == Pages(ms) + [page];
      } else {
        assert Pages(ms') == Pages(ms)[1..] + [page];
        assert l[|l| - FRAMES..] == loads[|loads| - FRAMES..][1..] + [page];
      }
    }
  }

  // The last load of the i-th resident page.
  lemma LastLoadOfResident(ms: seq<Mapping>, loads: seq<nat>, i: nat)
    requires OneToOne(ms) && LoadOrder(ms, loads) && i < |ms|
    ensures |ms| <= |loads| && LastIndex(loads, ms[i].page) == |loads| - |ms| + i
  {
    var k := |loads| - |ms| + i;
    forall j | i <= j < |ms| ensures loads[|loads| - |ms| + j] == ms[j].page {
      assert Pages(ms)[j] == ms[j].page;
    }
    forall j | k < j < |loads| ensures loads[j] != ms[i].page {
      assert loads[j] == ms[j - (|loads| - |ms|)].page;
    }
    LastIndexIs(loads, ms[i].page, k);
  }

  // The victim is the resident page loaded longest ago: every other one was last loaded after it.
  lemma VictimLoadedFirst(ms: seq<Mapping>, loads: seq<nat>, i: nat)
    requires OneToOne(ms) && LoadOrder(ms, loads) && 0 < i < |ms|
    ensures 0 <= LastIndex(loads, ms[0].page) < LastIndex(loads, ms[i].page)
  {
    LastLoadOfResident(ms, loads, 0);
    LastLoadOfResident(ms, loads, i);
  }

  // Loads go through the frames in turn: the page of the k-th load sits in frame k modulo the number
  // of frames.
  ghost predicate FramesInTurn(ms: seq<Mapping>, loads: seq<nat>) {
    |ms| <= |loads| && forall i :: 0 <= i < |ms| ==> ms[i].frame == (|loads| - |ms| + i) % FRAMES
  }

  lemma LowestFreeIsNext(ms: seq<Mapping>, f: nat)
    requires |ms| < FRAMES && IsLowestFree(ms, f) && forall i :: 0 <= i < |ms| ==> ms[i].frame == i
    ensures f == |ms|
  {
    assert forall i :: 0 <= i < |ms| ==> FramesOf(ms)[i] == i;
    forall g | 0 <= g < |ms| ensures g in FramesOf(ms) {
      assert FramesOf(ms)[g] == g;
    }
    assert |ms| !in FramesOf(ms);
  }

  lemma TurnsAppend(ms: seq<Mapping>, loads: seq<nat>, page: nat, f: nat)
    requires FramesInTurn(ms, loads) && |ms| == |loads| < FRAMES && IsLowestFree(ms, f)
    ensures FramesInTurn(ms + [Mapping(page, f)], loads + [page])
  {
    forall i | 0 <= i < |ms| ensures ms[i].frame == i {
      RemainderIs(i, FRAMES, 0, i);
    }
    LowestFreeIsNext(ms, f);
    RemainderIs(f, FRAMES, 0, f);
  }

  lemma SameTurn(k: nat)
    ensures (k + FRAMES) % FRAMES == k % FRAMES
  {
  }

  lemma TurnsRotate(ms: seq<Mapping>, loads: seq<nat>, page: nat)
    requires FramesInTurn(ms, loads) && |ms| == FRAMES
    ensures FramesInTurn(ms[1..] + [Mapping(page, ms[0].frame)], loads + [page])
  {
    var n, l := ms[1..] + [Mapping(page, ms[0].frame)], loads + [page];
    SameTurn(|loads| - FRAMES);
    forall i | 0 <= i < |n| ensures n[i].frame == (|l| - |n| + i) % FRAMES {
      if i < FRAMES - 1 {
        assert n[i] == ms[i + 1];
        assert |loads| - |ms| + (i + 1) == |l| - |n| + i;
      }
    }
  }

  lemma ReferenceKeepsTurns(ms: seq<Mapping>, page: nat, ms': seq<Mapping>, loads: seq<nat>)
    requires LoadOrder(ms, loads) && FramesInTurn(ms, loads) && Referenced(ms, page, ms')
    ensures FramesInTurn(ms', if Find(ms, page) < |ms| then loads else loads + [page])
  {
    hide FramesInTurn, IsLowestFree;
    if Find(ms, page) == |ms| {
      if |ms| < FRAMES {
        var f :| IsLowestFree(ms, f) && ms' == ms + [Mapping(page, f)];
        TurnsAppend(ms, loads, page, f);
      } else {
        TurnsRotate(ms, loads, page);
      }
    }
  }

  // The log of loads of a run: states[k] are the mappings before reference k.
  ghost function LoadsOf(pages: seq<nat>, states: seq<seq<Mapping>>, n: nat): seq<nat>
    requires n <= |pages| < |states|
  {
    if n == 0 then []
    else
      var before := LoadsOf(pages, states, n - 1);
      if Find(states[n - 1], pages[n - 1]) < |states[n - 1]| then before else before + [pages[n - 1]]
  }

  // Every run of references from an empty memory: pages and frames in one-to-one correspondence, the
  // resident pages the latest loads in order, each in the frame its load number names.
  lemma {:induction false} RunKeeps(pages: seq<nat>, states: seq<seq<Mapping>>, n: nat)
    requires n <= |pages| < |states| && states[0] == []
    requires forall k :: 0 <= k < |pages| ==> Referenced(states[k], pages[k], states[k + 1])
    ensures OneToOne(states[n]) && LoadOrder(states[n], LoadsOf(pages, states, n))
    ensures FramesInTurn(states[n], LoadsOf(pages, states, n))
  {
    hide OneToOne, LoadOrder, FramesInTurn, Referenced, Find;
    if n == 0 {
      NothingLoaded();
    } else {
      RunKeeps(pages, states, n - 1);
      var ms, loads := states[n - 1], LoadsOf(pages, states, n - 1);
      assert Referenced(states[n - 1], pages[n - 1], states[n - 1 + 1]);
      ResidentBound(ms, loads);
      ReferenceKeeps(ms, pages[n - 1], states[n]);
      ReferenceKeepsLoadOrder(ms, pages[n - 1], states[n], loads);
      ReferenceKeepsTurns(ms, pages[n - 1], states[n], loads);
    }
  }

  lemma NothingLoaded()
    ensures OneToOne([]) && LoadOrder([], []) && FramesInTurn([], [])
  {
  }

  lemma ResidentBound(ms: seq<Mapping>, loads: seq<nat>)
    requires LoadOrder(ms, loads)
    ensures |ms| <= FRAMES
  {
  }

  // ---------------------------------------------------------------- physical addresses

  // frame * page_size + offset in 32-bit arithmetic.
  function Physical(frame: nat, offset: nat, pageSize: nat): nat {
    (frame * pageSize + offset) % TWO_32
  }

  lemma PlaceValue(f: nat, o: nat, g: nat, p: nat, n: nat)
    requires o < n && p < n && f * n + o == g * n + p
    ensures f == g && o == p
  {
    QuotientIs(f * n + o, n, f, o);
    QuotientIs(f * n + o, n, g, p);
  }

  lemma WithinMemory(f: nat, o: nat, n: nat)
    requires f < FRAMES && o < n && FRAMES * n <= TWO_32
    ensures f * n + o < TWO_32
  {
    MulMonotone(f + 1, FRAMES, n);
    Distribute(f, -1, n);
  }

  // Distinct frame and offset pairs have distinct physical addresses exactly when physical memory
  // fits in 32 bits; for larger pages some two frames collide.
  ghost predicate AddressesDistinct(pageSize: nat) {
    forall f, o, g, p | 0 <= f < FRAMES && 0 <= g < FRAMES && 0 <= o < pageSize && 0 <= p < pageSize ::
      Physical(f, o, pageSize) == Physical(g, p, pageSize) ==> f == g && o == p
  }

  lemma InjectiveInMemory(f: nat, o: nat, g: nat, p: nat, n: nat)
    requires f < FRAMES && g < FRAMES && o < n && p < n && FRAMES * n <= TWO_32
    requires Physical(f, o, n) == Physical(g, p, n)
    ensures f == g && o == p
  {
    hide Physical;
    PhysicalFits(f, o, n);
    PhysicalFits(g, p, n);
    PlaceValue(f, o, g, p, n);
  }

  lemma PhysicalFits(f: nat, o: nat, n: nat)
    requires f < FRAMES && o < n && FRAMES * n <= TWO_32
    ensures Physical(f, o, n) == f * n + o
  {
    WithinMemory(f, o, n);
    SmallModulus(f * n + o);
  }

  lemma SmallModulus(x: nat)
    requires x < TWO_32
    ensures x % TWO_32 == x
  {
  }

  // The pair that wraps around to the first physical address.
  lemma Wrapping(n: nat) returns (f: nat, o: nat)
    requires n > 0 && FRAMES * n > TWO_32
    ensures f < FRAMES && o < n && Physical(f, o, n) == 0 && (f > 0 || o > 0)
  {
    f, o := TWO_32 / n, TWO_32 % n;
    DivisionLaw(TWO_32, n);
    if f >= FRAMES {
      MulMonotone(FRAMES, f, n);
    }
    if f == 0 {
      assert f * n == 0;
    }
  }

  lemma AddressesDistinctIff(pageSize: nat)
    requires pageSize > 0
    ensures AddressesDistinct(pageSize) <==> FRAMES * pageSize <= TWO_32
  {
    hide Physical;
    if FRAMES * pageSize <= TWO_32 {
      forall f, o, g, p | 0 <= f < FRAMES && 0 <= g < FRAMES && 0 <= o < pageSize && 0 <= p < pageSize
        && Physical(f, o, pageSize) == Physical(g, p, pageSize)
        ensures f == g && o == p
      {
        InjectiveInMemory(f, o, g, p, pageSize);
      }
    } else {
      var f, o := Wrapping(pageSize);
      FirstAddress(pageSize);
      assert Physical(f, o, pageSize) == Physical(0, 0, pageSize);
    }
  }

  lemma FirstAddress(n: nat)
    ensures Physical(0, 0, n) == 0
  {
  }

  // Two resident pages never share a physical address.
  lemma NoSharing(ms: seq<Mapping>, i: nat, j: nat, o: nat, p: nat, pageSize: nat)
    requires OneToOne(ms) && i < |ms| && j < |ms| && o < pageSize && p < pageSize && FRAMES * pageSize <= TWO_32
    requires (ms[i].page, o) != (ms[j].page, p)
    ensures Physical(ms[i].frame, o, pageSize) != Physical(ms[j].frame, p, pageSize)
  {
    hide Physical;
    if Physical(ms[i].frame, o, pageSize) == Physical(ms[j].frame, p, pageSize) {
      InjectiveInMemory(ms[i].frame, o, ms[j].frame, p, pageSize);
    }
  }

  // ---------------------------------------------------------------- the page table

  datatype PageTableEntry = PageTableEntry(valid: bool, frameNumber: nat, present: bool, dirty: bool, accessed: bool)

  // The present pages are exactly the mapped ones, each with its frame.
  ghost predicate Maps(entries: seq<PageTableEntry>, ms: seq<Mapping>) {
    (forall i :: 0 <= i < |ms| ==> ms[i].page < |entries| && entries[ms[i].page].present &&
                                   entries[ms[i].page].frameNumber == ms[i].frame) &&
    (forall v :: 0 <= v < |entries| && entries[v].present ==> v in Pages(ms)) &&
    forall v :: 0 <= v < |entries| ==> entries[v].valid == entries[v].present
  }

  // The allocated frames are exactly the mapped ones.
  ghost predicate Allocates(bits: seq<bool>, ms: seq<Mapping>) {
    |bits| == FRAMES && forall f :: 0 <= f < FRAMES ==> (bits[f] <==> f in FramesOf(ms))
  }

  lemma ZeroWords(words: seq<bv32>)
    requires |words| == WORDS && forall k :: 0 <= k < WORDS ==> words[k] == 0
    ensures forall i :: 0 <= i < FRAMES ==> !BitAt(words, i)
  {
    forall i | 0 <= i < FRAMES ensures !BitAt(words, i) {
      ZeroWord(i % 32);
    }
  }

  lemma EmptyTable(entries: seq<PageTableEntry>, bits: seq<bool>)
    requires |bits| == FRAMES && forall i :: 0 <= i < FRAMES ==> !bits[i]
    requires forall i :: 0 <= i < |entries| ==> !entries[i].present && !entries[i].valid
    ensures OneToOne([]) && LoadOrder([], []) && Allocates(bits, []) && Maps(entries, [])
  {
  }

  class PageTable {
    const numPages: nat
    const pageSize: nat
    const entries: array<PageTableEntry>
    const frameBitmap: array<bv32>
    const fifoQueue: array<nat>
    var freeFrames: nat
    var fifoHead: nat
    var fifoCount: nat

    // The resident mappings in load order, and the log of all loads.
    ghost var mappings: seq<Mapping>
    ghost var loads: seq<nat>

    ghost predicate Shaped()
      reads this`fifoHead, this`fifoCount
    {
      frameBitmap as object != entries && frameBitmap as object != fifoQueue && entries as object != fifoQueue &&
      pageSize > 0 && entries.Length == numPages && frameBitmap.Length == WORDS && fifoQueue.Length == FRAMES &&
      fifoHead < FRAMES && fifoCount <= FRAMES
    }

    ghost function Bits(): (b: seq<bool>)
      requires frameBitmap.Length == WORDS
      reads frameBitmap
      ensures |b| == FRAMES && forall i :: 0 <= i < FRAMES ==> b[i] == BitAt(frameBitmap[..], i)
    {
      var words := frameBitmap[..];
      seq(FRAMES, i requires 0 <= i < FRAMES => BitAt(words, i))
    }

    ghost function Fifo(): (q: seq<nat>)
      requires Shaped()
      reads this`fifoHead, this`fifoCount, fifoQueue
      ensures |q| == fifoCount && forall i :: 0 <= i < fifoCount ==> q[i] == fifoQueue[Slot(fifoHead, i, FRAMES)]
    {
      var q, head, n := fifoQueue[..], fifoHead, fifoCount;
      seq(n, i requires 0 <= i < n => q[Slot(head, i, FRAMES)])
    }

    // The counter equals the number of clear bits.
    ghost predicate Counted()
      reads this, frameBitmap
    {
      Shaped() && freeFrames == Clear(Bits())
    }

    ghost predicate Valid()
      reads this, frameBitmap, fifoQueue, entries
    {
      Counted() && OneToOne(mappings) && Fifo() == FramesOf(mappings) && Allocates(Bits(), mappings) &&
      Maps(entries[..], mappings) && LoadOrder(mappings, loads) && freeFrames + |mappings| == FRAMES
    }

    constructor (numPages: nat, pageSize: nat)
      requires pageSize > 0
      ensures Valid() && mappings == [] && loads == [] && this.pageSize == pageSize
      ensures this.numPages == if numPages > MAX_PAGES then MAX_PAGES else numPages
      ensures fresh(entries) && fresh(frameBitmap) && fresh(fifoQueue)
    {
      var pages := if numPages > MAX_PAGES then MAX_PAGES else numPages;
      this.numPages, this.pageSize := pages, pageSize;
      entries := new PageTableEntry[pages](i => PageTableEntry(false, 0, false, false, false));
      frameBitmap := new bv32[WORDS](i => 0);
      fifoQueue := new nat[FRAMES](i => 0);
      freeFrames, fifoHead, fifoCount := FRAMES, 0, 0;
      mappings, loads := [], [];
      new;
      hide Clear, BitAt, Maps, Allocates, OneToOne, LoadOrder, Slot, Valid, Bits, Fifo, Counted;
      EmptyIsValid();
    }

    lemma EmptyIsValid()
      requires Shaped() && mappings == [] && loads == [] && fifoCount == 0 && freeFrames == FRAMES
      requires forall k :: 0 <= k < WORDS ==> frameBitmap[k] == 0
      requires forall k :: 0 <= k < numPages ==> !entries[k].present && !entries[k].valid
      ensures Valid()
    {
      hide Clear, BitAt, Maps, Allocates, OneToOne, LoadOrder, Slot;
      ZeroWords(frameBitmap[..]);
      ClearAll(Bits());
      EmptyTable(entries[..], Bits());
      assert Fifo() == [] && FramesOf(mappings) == [];
    }

    // Takes the lowest free frame, or, with none left, falls back on the page-fault handler.
    method AllocateFrame() returns (frame: nat)
      requires Valid()
      modifies this`freeFrames, this`fifoHead, this`fifoCount, frameBitmap, fifoQueue, entries
      ensures Counted() && frame < FRAMES
      ensures old(freeFrames) > 0 ==> Taken(frame)
      ensures old(freeFrames) == 0 ==> Evicted(frame)
      decreases if freeFrames == 0 then 2 else 0
    {
      if freeFrames == 0 {
        frame := HandlePageFault(NO_ADDRESS);
      } else {
        frame := TakeFree();
      }
    }

    // The first clear bit of the bitmap.
    method FirstClear() returns (i: nat)
      requires Counted() && freeFrames > 0
      ensures i < FRAMES && !Bits()[i] && forall k :: 0 <= k < i ==> Bits()[k]
    {
      i := 0;
      while i < FRAMES && Test(frameBitmap[i / 32], Mask(i % 32))
        invariant i <= FRAMES && forall k :: 0 <= k < i ==> Bits()[k]
      {
        i := i + 1;
      }
      ClearNone(Bits());
    }

    // Claims the first clear bit.
    method TakeFree() returns (frame: nat)
      requires Counted() && freeFrames > 0
      modifies this`freeFrames, frameBitmap
      ensures Counted() && frame < FRAMES && Taken(frame)
    {
      hide BitAt, Clear;
      frame := FirstClear();
      ghost var bits := Bits();
      SetBit(frame);
      freeFrames := freeFrames - 1;
      ClearUpdate(bits, frame, true);
      assert bits == old(Bits()) && Fifo() == old(Fifo()) && entries[..] == old(entries[..]);
    }

    method SetBit(i: nat)
      requires Shaped() && i < FRAMES
      modifies frameBitmap
      ensures Shaped() && Bits() == old(Bits())[i := true]
    {
      ghost var words := frameBitmap[..];
      frameBitmap[i / 32] := Set(frameBitmap[i / 32], Mask(i % 32));
      assert frameBitmap[..] == WithBit(words, i, true);
      forall j | 0 <= j < FRAMES ensures Bits()[j] == old(Bits())[i := true][j] {
        BitWritten(words, i, true, j);
      }
    }

    // The frame was free and is the lowest such; nothing else changed.
    twostate predicate Taken(frame: nat)
      requires old(Shaped()) && Shaped() && frame < FRAMES
      reads this, frameBitmap, fifoQueue, entries
    {
      !old(Bits())[frame] && (forall k :: 0 <= k < frame ==> old(Bits())[k]) &&
      Bits() == old(Bits())[frame := true] && freeFrames == old(freeFrames) - 1 &&
      Fifo() == old(Fifo()) && entries[..] == old(entries[..])
    }

    // The frame at the head of the FIFO was taken from its page and queued again at the tail.
    twostate predicate Evicted(frame: nat)
      requires old(Shaped()) && Shaped()
      reads this, frameBitmap, fifoQueue, entries
    {
      old(Fifo()) != [] && frame == old(Fifo())[0] && Fifo() == old(Fifo())[1..] + [frame] &&
      Bits() == old(Bits()) && freeFrames == old(freeFrames) &&
      entries[..] == Unmapped(old(entries[..]), frame)
    }

    // With a free frame left, allocates; otherwise evicts the mapping loaded first.
    method HandlePageFault(virtualAddress: nat) returns (victim: nat)
      requires Valid()
      modifies this`freeFrames, this`fifoHead, this`fifoCount, frameBitmap, fifoQueue, entries
      ensures Counted() && victim < FRAMES
      ensures old(freeFrames) > 0 ==> Taken(victim)
      ensures old(freeFrames) == 0 ==> Evicted(victim)
      decreases 1
    {
      if freeFrames > 0 {
        victim := AllocateFrame();
      } else {
        AllocatedAll();
        victim := EvictOldest();
      }
    }

    // With no free frame the FIFO is full.
    ghost method AllocatedAll()
      requires Valid() && freeFrames == 0
      ensures fifoCount == FRAMES && Fifo()[0] < FRAMES
    {
      assert Fifo()[0] == mappings[0].frame;
    }

    // Takes the frame at the head of the FIFO from its page and queues it again.
    method EvictOldest() returns (victim: nat)
      requires Counted() && fifoCount > 0
      modifies this`fifoHead, this`fifoCount, fifoQueue, entries
      ensures Counted() && Evicted(victim)
    {
      hide BitAt, Clear, Unmapped;
      victim := PopOldest();
      UnmapFrame(victim);
      if fifoCount < FRAMES {
        Append(victim);
      }
      assert Bits() == old(Bits()) && Fifo() == old(Fifo())[1..] + [victim];
    }

    method PopOldest() returns (frame: nat)
      requires Shaped() && fifoCount > 0
      modifies this`fifoHead, this`fifoCount
      ensures Shaped() && frame == old(Fifo())[0] && Fifo() == old(Fifo())[1..]
      ensures Bits() == old(Bits()) && fifoCount == old(fifoCount) - 1
    {
      hide BitAt, Slot;
      ghost var q, head := Fifo(), fifoHead;
      SlotIs(head, 0, FRAMES);
      frame := fifoQueue[fifoHead];
      fifoHead := (fifoHead + 1) % FRAMES;
      fifoCount := fifoCount - 1;
      forall i | 0 <= i < fifoCount ensures Fifo()[i] == q[1..][i] {
        SlotNext(head, i, FRAMES);
      }
    }

    // Adds a frame at the tail of the FIFO.
    method Append(frame: nat)
      requires Shaped() && fifoCount < FRAMES
      modifies this`fifoCount, fifoQueue
      ensures Shaped() && Fifo() == old(Fifo()) + [frame]
    {
      ghost var q := Fifo();
      var tail := (fifoHead + fifoCount) % FRAMES;
      forall i | 0 <= i < fifoCount ensures Slot(fifoHead, i, FRAMES) != tail {
        SlotsDistinct(fifoHead, i, fifoCount, FRAMES);
      }
      fifoQueue[tail] := frame;
      fifoCount := fifoCount + 1;
      assert Fifo() == q + [frame];
    }

    // Makes a page present, loading it when it is not, and marks it accessed.
    method Reference(vpn: nat)
      requires Valid() && vpn < numPages
      modifies this, frameBitmap, fifoQueue, entries
      ensures Valid() && Referenced(old(mappings), vpn, mappings)
      ensures loads == if Find(old(mappings), vpn) < |old(mappings)| then old(loads) else old(loads) + [vpn]
      ensures Find(mappings, vpn) < |mappings| && entries[vpn].frameNumber == mappings[Find(mappings, vpn)].frame
      ensures entries[vpn].present && entries[vpn].valid && entries[vpn].accessed
    {
      hide Clear, BitAt, Bits, Fifo, LoadOrder, Referenced, Find, Maps, OneToOne, Allocates, FramesOf;
      EnsurePresent(vpn);
      MarkAccessed(vpn);
      PresentIff(entries[..], mappings, vpn);
    }

    method EnsurePresent(vpn: nat)
      requires Valid() && vpn < numPages
      modifies this, frameBitmap, fifoQueue, entries
      ensures Valid() && Referenced(old(mappings), vpn, mappings)
      ensures loads == if Find(old(mappings), vpn) < |old(mappings)| then old(loads) else old(loads) + [vpn]
      ensures Find(mappings, vpn) < |mappings|
    {
      hide Clear, BitAt, Bits, Fifo, LoadOrder, Referenced, Find, Maps, OneToOne, Allocates, FramesOf;
      ghost var ms := mappings;
      PresentIff(entries[..], mappings, vpn);
      if !entries[vpn].present {
        LoadPage(vpn);
        ReferenceKeepsLoadOrder(ms, vpn, mappings, loads);
        loads := loads + [vpn];
      } else {
        ResidentStays(ms, vpn);
      }
    }

    // Translates a virtual address, loading its page when it is not present.
    method Translate(virtualAddress: nat) returns (address: nat)
      requires Valid()
      modifies this, frameBitmap, fifoQueue, entries
      ensures Valid()
      ensures virtualAddress / pageSize >= numPages ==>
        address == NO_ADDRESS && mappings == old(mappings) && loads == old(loads)
      ensures virtualAddress / pageSize < numPages ==>
        Translated(old(mappings), old(loads), mappings, loads, virtualAddress, pageSize, address)
    {
      hide Clear, BitAt, LoadOrder, Referenced, Find, Maps, OneToOne, Allocates, Physical;
      var vpn, offset := virtualAddress / pageSize, virtualAddress % pageSize;
      if vpn >= numPages {
        return NO_ADDRESS;
      }
      Reference(vpn);
      address := AddressOf(vpn, offset);
    }

    method AddressOf(vpn: nat, offset: nat) returns (address: nat)
      requires vpn < entries.Length
      ensures address == Physical(entries[vpn].frameNumber, offset, pageSize)
    {
      address := (entries[vpn].frameNumber * pageSize + offset) % TWO_32;
    }

    method MarkAccessed(vpn: nat)
      requires vpn < entries.Length && Maps(entries[..], mappings)
      modifies entries
      ensures Maps(entries[..], mappings) && entries[..] == old(entries[..])[vpn := old(entries[vpn]).(accessed := true)]
    {
      ghost var e := entries[..];
      entries[vpn] := entries[vpn].(accessed := true);
      assert entries[..] == e[vpn := e[vpn].(accessed := true)];
      MapsIgnoresFlags(e, mappings, vpn, e[vpn].(accessed := true));
    }

    // The page-fault path: a frame for the page, its entry, and its place in the FIFO.
    method LoadPage(vpn: nat)
      requires Valid() && vpn < numPages && Find(mappings, vpn) == |mappings|
      modifies this`freeFrames, this`fifoHead, this`fifoCount, this`mappings, frameBitmap, fifoQueue, entries
      ensures Counted() && OneToOne(mappings) && Fifo() == FramesOf(mappings) && Allocates(Bits(), mappings) &&
              Maps(entries[..], mappings) && freeFrames + |mappings| == FRAMES
      ensures Referenced(old(mappings), vpn, mappings)
      ensures Find(mappings, vpn) < |mappings|
    {
      hide Clear, BitAt, LoadOrder, Unmapped, Find, Maps, Allocates;
      ghost var ms, e, bits := mappings, entries[..], Bits();
      var frame := AllocateFrame();
      if frame >= FRAMES {
        assert false;
      }
      ghost var e1 := entries[..];
      var entry := PageTableEntry(true, frame, true, false, true);
      entries[vpn] := entry;
      assert entries[..] == e1[vpn := entry];
      if fifoCount < FRAMES {
        assert old(freeFrames) > 0;
        Append(frame);
        LoadFree(e, bits, ms, vpn, frame, entry);
        mappings := ms + [Mapping(vpn, frame)];
        assert FramesOf(mappings) == FramesOf(ms) + [frame];
      } else {
        assert old(freeFrames) == 0;
        LoadEvict(e, bits, ms, vpn, entry);
        mappings := ms[1..] + [Mapping(vpn, frame)];
        assert FramesOf(mappings) == FramesOf(ms)[1..] + [frame];
      }
      ReferenceKeeps(ms, vpn, mappings);
      FindAt(mappings, vpn, |mappings| - 1);
    }

    // Returns a frame to the pool without touching the mappings; so the page table stays consistent
    // exactly when the frame was not allocated.
    method FreeFrame(frame: nat)
      requires Counted()
      modifies this`freeFrames, frameBitmap
      ensures Counted()
      ensures Bits() == if frame < FRAMES then old(Bits())[frame := false] else old(Bits())
      ensures old(Valid()) ==> (Valid() <==> frame >= FRAMES || !old(Bits())[frame])
    {
      hide Clear, BitAt, Maps, LoadOrder;
      if frame >= FRAMES {
        return;
      }
      ghost var bits := Bits();
      if Test(frameBitmap[frame / 32], Mask(frame % 32)) {
        TestIsBit(frameBitmap[..], frame);
        ClearBit(frame);
        ClearUpdate(bits, frame, false);
        freeFrames := freeFrames + 1;
      } else {
        TestIsBit(frameBitmap[..], frame);
      }
    }

    method ClearBit(i: nat)
      requires Shaped() && i < FRAMES
      modifies frameBitmap
      ensures Shaped() && Bits() == old(Bits())[i := false]
    {
      ghost var words := frameBitmap[..];
      frameBitmap[i / 32] := Reset(frameBitmap[i / 32], Mask(i % 32));
      assert frameBitmap[..] == WithBit(words, i, false);
      forall j | 0 <= j < FRAMES ensures Bits()[j] == old(Bits())[i := false][j] {
        BitWritten(words, i, false, j);
      }
    }

    // Clears the first present entry that holds the frame.
    method UnmapFrame(frame: nat)
      requires entries.Length == numPages
      modifies entries
      ensures entries[..] == Unmapped(old(entries[..]), frame)
    {
      for i := 0 to numPages
        invariant entries[..] == old(entries[..])
        invariant forall k :: 0 <= k < i ==> !(entries[k].present && entries[k].frameNumber == frame)
      {
        if entries[i].present && entries[i].frameNumber == frame {
          HolderIs(entries[..], frame, i);
          entries[i] := entries[i].(present := false, valid := false);
          assert entries[..] == Unmapped(old(entries[..]), frame);
          return;
        }
      }
      HolderIs(entries[..], frame, numPages);
    }
  }

  // The first present entry that holds the frame, or the number of entries.
  function Holder(entries: seq<PageTableEntry>, frame: nat): (k: nat)
    ensures k <= |entries| && (k < |entries| ==> entries[k].present && entries[k].frameNumber == frame)
    ensures forall i :: 0 <= i < k ==> !(entries[i].present && entries[i].frameNumber == frame)
  {
    if entries == [] || (entries[0].present && entries[0].frameNumber == frame) then 0 else 1 + Holder(entries[1..], frame)
  }

  lemma HolderIs(entries: seq<PageTableEntry>, frame: nat, k: nat)
    requires k <= |entries| && (k < |entries| ==> entries[k].present && entries[k].frameNumber == frame)
    requires forall i :: 0 <= i < k ==> !(entries[i].present && entries[i].frameNumber == frame)
    ensures Holder(entries, frame) == k
  {
  }

  function Unmapped(entries: seq<PageTableEntry>, frame: nat): (r: seq<PageTableEntry>)
    ensures |r| == |entries|
  {
    var k := Holder(entries, frame);
    if k < |entries| then entries[k := entries[k].(present := false, valid := false)] else entries
  }

  lemma TestIsBit(words: seq<bv32>, i: nat)
    requires |words| == WORDS && i < FRAMES
    ensures Test(words[i / 32], Mask(i % 32)) == BitAt(words, i)
  {
  }

  lemma FindAt(ms: seq<Mapping>, page: nat, k: nat)
    requires k < |ms| && ms[k].page == page
    ensures Find(ms, page) < |ms|
  {
  }

  // A page is present exactly when it is mapped, and then its entry holds the mapped frame.
  lemma PresentIff(entries: seq<PageTableEntry>, ms: seq<Mapping>, page: nat)
    requires Maps(entries, ms) && page < |entries|
    ensures entries[page].present <==> Find(ms, page) < |ms|
    ensures Find(ms, page) < |ms| ==> entries[page].frameNumber == ms[Find(ms, page)].frame
  {
    hide Find;
    if entries[page].present {
      var i :| 0 <= i < |ms| && Pages(ms)[i] == page;
      FindAt(ms, page, i);
    }
  }

  lemma MapsIgnoresFlags(entries: seq<PageTableEntry>, ms: seq<Mapping>, page: nat, entry: PageTableEntry)
    requires Maps(entries, ms) && page < |entries|
    requires entry.present == entries[page].present == entry.valid && entry.frameNumber == entries[page].frameNumber
    ensures Maps(entries[page := entry], ms)
  {
  }

  // Mapping an absent page to a free frame.
  lemma LoadFree(entries: seq<PageTableEntry>, bits: seq<bool>, ms: seq<Mapping>, page: nat, frame: nat, entry: PageTableEntry)
    requires Maps(entries, ms) && Allocates(bits, ms) && Find(ms, page) == |ms| && page < |entries|
    requires frame < FRAMES && !bits[frame] && forall k :: 0 <= k < frame ==> bits[k]
    requires entry.present && entry.valid && entry.frameNumber == frame
    ensures IsLowestFree(ms, frame)
    ensures Maps(entries[page := entry], ms + [Mapping(page, frame)])
    ensures Allocates(bits[frame := true], ms + [Mapping(page, frame)])
  {
    hide Find;
    var ms' := ms + [Mapping(page, frame)];
    assert Pages(ms') == Pages(ms) + [page];
    assert FramesOf(ms') == FramesOf(ms) + [frame];
  }

  // Mapping an absent page to the frame of the first mapping, which is dropped.
  lemma LoadEvict(entries: seq<PageTableEntry>, bits: seq<bool>, ms: seq<Mapping>, page: nat, entry: PageTableEntry)
    requires Maps(entries, ms) && Allocates(bits, ms) && OneToOne(ms) && Find(ms, page) == |ms| && page < |entries|
    requires ms != [] && entry.present && entry.valid && entry.frameNumber == ms[0].frame
    ensures Maps(Unmapped(entries, ms[0].frame)[page := entry], ms[1..] + [Mapping(page, ms[0].frame)])
    ensures Allocates(bits, ms[1..] + [Mapping(page, ms[0].frame)])
  {
    hide Find, Maps, Allocates;
    RemapFirst(entries, ms, page, entry);
    RotateFrames(bits, ms, page);
  }

  lemma RotateFrames(bits: seq<bool>, ms: seq<Mapping>, page: nat)
    requires Allocates(bits, ms) && ms != []
    ensures Allocates(bits, ms[1..] + [Mapping(page, ms[0].frame)])
  {
    var ms' := ms[1..] + [Mapping(page, ms[0].frame)];
    assert FramesOf(ms') == FramesOf(ms)[1..] + [ms[0].frame];
    assert FramesOf(ms) == [ms[0].frame] + FramesOf(ms)[1..];
  }

  lemma RemapFirst(entries: seq<PageTableEntry>, ms: seq<Mapping>, page: nat, entry: PageTableEntry)
    requires Maps(entries, ms) && OneToOne(ms) && Find(ms, page) == |ms| && page < |entries|
    requires ms != [] && entry.present && entry.valid && entry.frameNumber == ms[0].frame
    ensures Maps(Unmapped(entries, ms[0].frame)[page := entry], ms[1..] + [Mapping(page, ms[0].frame)])
  {
    hide Find, Holder;
    var f := ms[0].frame;
    var ms', w := ms[1..] + [Mapping(page, f)], Unmapped(entries, f)[page := entry];
    assert Pages(ms') == Pages(ms)[1..] + [page];
    OnlyHolder(entries, ms);
    forall v | 0 <= v < |entries| && w[v].present ensures v in Pages(ms') {
      if v == page {
        assert Pages(ms')[|ms| - 1] == v;
      } else {
        var i :| 0 <= i < |ms| && Pages(ms)[i] == v;
        assert i != 0;
        assert Pages(ms')[i - 1] == v;
      }
    }
    forall i | 0 <= i < |ms'|
      ensures ms'[i].page < |w| && w[ms'[i].page].present && w[ms'[i].page].frameNumber == ms'[i].frame
    {
      if i < |ms| - 1 {
        assert ms'[i] == ms[i + 1];
      }
    }
  }

  // The first present entry with the first mapping's frame is that mapping's page.
  lemma OnlyHolder(entries: seq<PageTableEntry>, ms: seq<Mapping>)
    requires Maps(entries, ms) && OneToOne(ms) && ms != []
    ensures Holder(entries, ms[0].frame) == ms[0].page
  {
    var k := Holder(entries, ms[0].frame);
    if k < |entries| {
      assert k in Pages(ms);
      var i :| 0 <= i < |ms| && Pages(ms)[i] == k;
      assert ms[i].frame == ms[0].frame;
    }
  }

  lemma ZeroWord(b: nat)
    requires b < 32
    ensures !Test(0, Mask(b))
  {
  }
}
