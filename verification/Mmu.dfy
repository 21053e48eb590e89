// mini-cpu-arch/src/memory_system.c: address translation through a TLB in front of a page table.
module Mmu {
  import opened Collections

  const TLB_ENTRIES: nat := 64
  const PAGE_SIZE: nat := 4096
  const TWO_32: nat := 0x1_0000_0000
  const UINT32_MAX: nat := 0xFFFF_FFFF

  datatype Policy = TLB_REPLACE_LRU | TLB_REPLACE_FIFO | TLB_REPLACE_RANDOM

  datatype PageTableEntry = PageTableEntry(valid: bool, readable: bool, writable: bool, executable: bool,
                                           userAccessible: bool, accessed: bool, dirty: bool, pfn: nat)

  datatype TlbEntry = TlbEntry(valid: bool, vpn: nat, pfn: nat, asid: nat, globalPage: bool,
                               accessOrder: nat, accessCount: nat)

  // ---------------------------------------------------------------- the page table

  // The bare page walk.
  function Walk(table: seq<PageTableEntry>, vpn: nat): Option<nat> {
    if vpn < |table| && table[vpn].valid then Some(table[vpn].pfn) else None
  }

  function MappedEntry(pfn: nat, writable: bool, executable: bool, user: bool): PageTableEntry {
    PageTableEntry(true, true, writable, executable, user, false, false, pfn)
  }

  const EmptyEntry := PageTableEntry(false, false, false, false, false, false, false, 0)

  function Mapped(table: seq<PageTableEntry>, vpn: nat, e: PageTableEntry): seq<PageTableEntry> {
    if vpn < |table| then table[vpn := e] else table
  }

  // (pfn << 12) | offset in 32 bits
  function Compose(pfn: nat, vaddr: nat): nat {
    (pfn * PAGE_SIZE) % TWO_32 + vaddr % PAGE_SIZE
  }

  // The offset survives translation and the page number modulo 2^20, whatever the page; so two physical
  // addresses are equal exactly when both parts are.
  lemma ComposeSplits(pfn: nat, vaddr: nat)
    ensures var p := Compose(pfn, vaddr);
      p < TWO_32 && p % 4096 == vaddr % 4096 && p / 4096 == pfn % 1048576
  {
    var q, r := pfn / 1048576, pfn % 1048576;
    assert pfn * 4096 == TWO_32 * q + r * 4096;
    assert (pfn * 4096) % TWO_32 == r * 4096;
  }

  lemma ComposeEqualIff(pfn: nat, vaddr: nat, pfn': nat, vaddr': nat)
    ensures Compose(pfn, vaddr) == Compose(pfn', vaddr') <==>
            pfn % 1048576 == pfn' % 1048576 && vaddr % 4096 == vaddr' % 4096
  {
    ComposeSplits(pfn, vaddr);
    ComposeSplits(pfn', vaddr');
  }

  function PhysicalOf(pfn: Option<nat>, vaddr: nat): Option<nat> {
    if pfn.Some? then Some(Compose(pfn.value, vaddr)) else None
  }

  // ---------------------------------------------------------------- TLB operations as functions

  predicate Matches(e: TlbEntry, vpn: nat, asid: nat) {
    e.valid && e.vpn == vpn && (e.globalPage || e.asid == asid)
  }

  // The first matching entry from i on, or the number of entries.
  function FirstMatch(es: seq<TlbEntry>, vpn: nat, asid: nat, i: nat): (k: nat)
    requires i <= |es|
    ensures i <= k <= |es| && (k < |es| ==> Matches(es[k], vpn, asid))
    ensures forall j :: i <= j < k ==> !Matches(es[j], vpn, asid)
    decreases |es| - i
  {
    if i == |es| || Matches(es[i], vpn, asid) then i else FirstMatch(es, vpn, asid, i + 1)
  }

  function FirstInvalid(es: seq<TlbEntry>, i: nat): (k: nat)
    requires i <= |es|
    ensures i <= k <= |es| && (k < |es| ==> !es[k].valid) && forall j :: i <= j < k ==> es[j].valid
    decreases |es| - i
  {
    if i == |es| || !es[i].valid then i else FirstInvalid(es, i + 1)
  }

  // Among the first n entries, the non-global one used longest ago; |es| when all are global.
  function Oldest(es: seq<TlbEntry>, n: nat): (k: nat)
    requires n <= |es|
    ensures k == |es| || (k < n && !es[k].globalPage)
    ensures k == |es| ==> forall j :: 0 <= j < n ==> es[j].globalPage
    ensures k < |es| ==> forall j :: 0 <= j < n && !es[j].globalPage ==> es[k].accessOrder <= es[j].accessOrder
  {
    if n == 0 then |es| else
      var k := Oldest(es, n - 1);
      if !es[n - 1].globalPage && (k == |es| || es[n - 1].accessOrder < es[k].accessOrder) then n - 1 else k
  }

  // The slot for a new translation: an invalid one, else the policy's victim.
  function SlotFor(es: seq<TlbEntry>, policy: Policy, random: nat): (k: nat)
    requires es != []
    ensures k < |es|
  {
    if FirstInvalid(es, 0) < |es| then FirstInvalid(es, 0)
    else if policy == TLB_REPLACE_RANDOM then random % |es|
    else if Oldest(es, |es|) < |es| then Oldest(es, |es|) else 0
  }

  function Used(e: TlbEntry, clock: nat): TlbEntry {
    e.(accessOrder := clock, accessCount := e.accessCount + 1)
  }

  function Inserted(es: seq<TlbEntry>, clock: nat, vpn: nat, pfn: nat, asid: nat, isGlobal: bool, policy: Policy, random: nat)
    : (r: seq<TlbEntry>)
    requires es != []
    ensures |r| == |es|
  {
    var m := FirstMatch(es, vpn, asid, 0);
    if m < |es| then es[m := Used(es[m].(pfn := pfn), clock)]
    else es[SlotFor(es, policy, random) := TlbEntry(true, vpn, pfn, asid, isGlobal, clock, 1)]
  }

  function Flushed(es: seq<TlbEntry>): (r: seq<TlbEntry>)
    ensures |r| == |es|
  {
    seq(|es|, i requires 0 <= i < |es| => if es[i].globalPage then es[i] else es[i].(valid := false))
  }

  // ---------------------------------------------------------------- the MMU as a state machine

  // A use of a page: a hit, or the fill after a miss.
  datatype Use = Use(page: nat, fill: bool)

  // `uses` logs the uses, one for each clock value.
  datatype State = State(entries: seq<TlbEntry>, clock: nat, table: seq<PageTableEntry>, uses: seq<Use>)

  datatype Op = Map(vpn: nat, pfn: nat, writable: bool, executable: bool, user: bool)
              | Unmap(vpn: nat)
              | Flush
              | Translate(vaddr: nat, random: nat)

  function Lookup(es: seq<TlbEntry>, vpn: nat): Option<nat> {
    var m := FirstMatch(es, vpn, 0, 0);
    if m < |es| then Some(es[m].pfn) else None
  }

  // The physical page mmu_translate answers with.
  function Answer(s: State, vpn: nat): Option<nat> {
    if Lookup(s.entries, vpn).Some? then Lookup(s.entries, vpn) else Walk(s.table, vpn)
  }

  function Translated(s: State, vpn: nat, policy: Policy, random: nat): State
    requires s.entries != []
  {
    var m := FirstMatch(s.entries, vpn, 0, 0);
    if m < |s.entries| then
      s.(entries := s.entries[m := Used(s.entries[m], s.clock)], clock := s.clock + 1, uses := s.uses + [Use(vpn, false)])
    else if Walk(s.table, vpn).Some? then
      s.(entries := Inserted(s.entries, s.clock, vpn, Walk(s.table, vpn).value, 0, false, policy, random),
         clock := s.clock + 1, uses := s.uses + [Use(vpn, true)])
    else s
  }

  function Next(s: State, op: Op, policy: Policy): (r: State)
    requires s.entries != []
    ensures |r.entries| == |s.entries|
  {
    match op
    case Map(vpn, pfn, w, x, u) => s.(table := Mapped(s.table, vpn, MappedEntry(pfn, w, x, u)))
    case Unmap(vpn) => s.(table := Mapped(s.table, vpn, EmptyEntry))
    case Flush => s.(entries := Flushed(s.entries))
    case Translate(vaddr, random) => Translated(s, vaddr / PAGE_SIZE, policy, random)
  }

  // Installing entry e changes the translation of a page the TLB holds.
  predicate ChangesCached(s: State, vpn: nat, e: PageTableEntry) {
    vpn < |s.table| && Lookup(s.entries, vpn).Some? && !(e.valid && Walk(s.table, vpn) == Some(e.pfn))
  }

  predicate NeedsFlush(s: State, op: Op) {
    match op
    case Map(vpn, pfn, w, x, u) => ChangesCached(s, vpn, MappedEntry(pfn, w, x, u))
    case Unmap(vpn) => ChangesCached(s, vpn, EmptyEntry)
    case _ => false
  }

  // ---------------------------------------------------------------- invariants

  // The MMU only inserts private entries of address space 0, one for each page.
  ghost predicate Private(es: seq<TlbEntry>) {
    (forall i :: 0 <= i < |es| ==> !es[i].globalPage && es[i].asid == 0) &&
    forall i, j :: 0 <= i < j < |es| && es[i].valid && es[j].valid ==> es[i].vpn != es[j].vpn
  }

  // Every valid entry agrees with the page walk.
  ghost predicate Consistent(es: seq<TlbEntry>, table: seq<PageTableEntry>) {
    forall i :: 0 <= i < |es| && es[i].valid ==> Walk(table, es[i].vpn) == Some(es[i].pfn)
  }

  // The time of the last use of a page, or -1.
  function LastUse(uses: seq<Use>, page: nat): (t: int)
    ensures -1 <= t < |uses| && (t >= 0 ==> uses[t].page == page)
    ensures forall k :: t < k < |uses| ==> uses[k].page != page
  {
    if uses == [] then -1 else if uses[|uses| - 1].page == page then |uses| - 1 else LastUse(uses[..|uses| - 1], page)
  }

  // The time a page was last filled, or -1.
  function LastFill(uses: seq<Use>, page: nat): (t: int)
    ensures -1 <= t < |uses| && (t >= 0 ==> uses[t] == Use(page, true))
    ensures forall k :: t < k < |uses| ==> uses[k] != Use(page, true)
  {
    LastIndex(uses, Use(page, true))
  }

  // The stamp of an entry is the time of the last use of its page.
  ghost predicate Stamped(s: State) {
    |s.uses| == s.clock &&
    forall i :: 0 <= i < |s.entries| && s.entries[i].valid ==> s.entries[i].accessOrder == LastUse(s.uses, s.entries[i].vpn)
  }

  // Every cached page was filled.
  ghost predicate Filled(s: State) {
    forall i :: 0 <= i < |s.entries| && s.entries[i].valid ==> LastFill(s.uses, s.entries[i].vpn) >= 0
  }

  // The uses of a page from its last fill on.
  function UsesSinceFill(uses: seq<Use>, page: nat): nat {
    if uses == [] then 0 else
      var last, before := uses[|uses| - 1], uses[..|uses| - 1];
      if last == Use(page, true) then 1 else (if last.page == page then 1 else 0) + UsesSinceFill(before, page)
  }

  // The counter of an entry is the number of uses of its page since it was filled.
  ghost predicate Counted(s: State) {
    forall i :: 0 <= i < |s.entries| && s.entries[i].valid ==>
      s.entries[i].accessCount == UsesSinceFill(s.uses, s.entries[i].vpn)
  }

  lemma StepCounts(s: State, op: Op, policy: Policy)
    requires s.entries != [] && Private(s.entries) && Counted(s)
    ensures Counted(Next(s, op, policy))
  {
    var n := Next(s, op, policy);
    forall i | 0 <= i < |n.entries| && n.entries[i].valid
      ensures n.entries[i].accessCount == UsesSinceFill(n.uses, n.entries[i].vpn)
    {
      if n.uses != s.uses {
        assert n.uses[..|n.uses| - 1] == s.uses;
        if n.entries[i] == s.entries[i] && s.entries[i].vpn == op.vaddr / PAGE_SIZE {
          assert Matches(s.entries[i], op.vaddr / PAGE_SIZE, 0);
        }
      }
    }
  }

  lemma TranslateKeeps(s: State, vpn: nat, policy: Policy, random: nat)
    requires s.entries != [] && Private(s.entries)
    ensures var n := Translated(s, vpn, policy, random);
      Private(n.entries) && n.table == s.table && (Consistent(s.entries, s.table) ==> Consistent(n.entries, n.table))
  {
  }

  lemma TranslateStamps(s: State, vpn: nat, policy: Policy, random: nat)
    requires s.entries != [] && Private(s.entries) && Stamped(s)
    ensures Stamped(Translated(s, vpn, policy, random))
  {
    var n := Translated(s, vpn, policy, random);
    forall i | 0 <= i < |n.entries| && n.entries[i].valid
      ensures n.entries[i].accessOrder == LastUse(n.uses, n.entries[i].vpn)
    {
      if n.uses != s.uses {
        assert n.uses[..|n.uses| - 1] == s.uses;
        if n.entries[i] == s.entries[i] && s.entries[i].vpn == vpn {
          assert Matches(s.entries[i], vpn, 0);
        }
      }
    }
  }

  lemma FlushKeeps(s: State)
    requires Private(s.entries)
    ensures Private(Flushed(s.entries)) && Consistent(Flushed(s.entries), s.table)
    ensures Stamped(s) ==> Stamped(s.(entries := Flushed(s.entries)))
  {
  }

  // Installing an entry, or clearing one, without a flush keeps the TLB consistent exactly when the
  // page is not cached or keeps its translation.
  lemma MapKeepsIff(s: State, vpn: nat, e: PageTableEntry)
    requires Private(s.entries) && Consistent(s.entries, s.table)
    ensures Consistent(s.entries, Mapped(s.table, vpn, e)) <==> !ChangesCached(s, vpn, e)
  {
    var m := FirstMatch(s.entries, vpn, 0, 0);
    if m < |s.entries| {
      assert s.entries[m].valid && s.entries[m].vpn == vpn;
    } else {
      forall i | 0 <= i < |s.entries| && s.entries[i].valid ensures s.entries[i].vpn != vpn {
        assert !Matches(s.entries[i], vpn, 0);
      }
    }
  }

  // What a caller may expect after a remap or unmap without a flush: every page is answered as the
  // walk answers if and only if the page was not cached or keeps its translation.
  lemma RemapAgreesIff(s: State, vpn: nat, e: PageTableEntry)
    requires Private(s.entries) && Consistent(s.entries, s.table) && vpn < |s.table|
    ensures var n := s.(table := Mapped(s.table, vpn, e));
      (forall v :: Answer(n, v) == Walk(n.table, v)) <==>
      Lookup(s.entries, vpn).None? || (e.valid && Walk(s.table, vpn) == Some(e.pfn))
  {
    var n := s.(table := Mapped(s.table, vpn, e));
    MapKeepsIff(s, vpn, e);
    if ChangesCached(s, vpn, e) {
      var m := FirstMatch(s.entries, vpn, 0, 0);
      assert s.entries[m].valid && s.entries[m].vpn == vpn;
      assert Answer(n, vpn) != Walk(n.table, vpn);
    } else {
      forall v ensures Answer(n, v) == Walk(n.table, v) {
        ConsistentAnswers(n, v);
      }
    }
  }

  // In particular mapping a page that was not mapped needs no flush.
  lemma FreshMapKeeps(s: State, vpn: nat, e: PageTableEntry)
    requires Private(s.entries) && Consistent(s.entries, s.table) && Walk(s.table, vpn).None?
    ensures !ChangesCached(s, vpn, e) && Consistent(s.entries, Mapped(s.table, vpn, e))
  {
    MapKeepsIff(s, vpn, e);
  }

  // A remap without a flush: a page in the TLB keeps its old translation.
  lemma StaleWithoutFlush(s: State, vpn: nat, e: PageTableEntry)
    requires vpn < |s.table| && Consistent(s.entries, s.table) && Lookup(s.entries, vpn).Some?
    requires e.valid && Walk(s.table, vpn) != Some(e.pfn)
    ensures var n := s.(table := Mapped(s.table, vpn, e));
      Answer(n, vpn) == Walk(s.table, vpn) && Answer(n, vpn) != Walk(n.table, vpn)
  {
    var m := FirstMatch(s.entries, vpn, 0, 0);
    assert s.entries[m].valid && s.entries[m].vpn == vpn;
  }

  lemma ConsistentAnswers(s: State, vpn: nat)
    requires Consistent(s.entries, s.table)
    ensures Answer(s, vpn) == Walk(s.table, vpn)
  {
    var m := FirstMatch(s.entries, vpn, 0, 0);
    if m < |s.entries| {
      assert s.entries[m].valid;
    }
  }

  // The walk sees a mapping, and no longer sees one that was removed; other pages are as before.
  lemma MapIsSeen(table: seq<PageTableEntry>, vpn: nat, pfn: nat, w: bool, x: bool, u: bool, v: nat)
    requires vpn < |table|
    ensures Walk(Mapped(table, vpn, MappedEntry(pfn, w, x, u)), v) == if v == vpn then Some(pfn) else Walk(table, v)
    ensures Walk(Mapped(table, vpn, EmptyEntry), v) == if v == vpn then None else Walk(table, v)
  {
  }

  // A flush drops exactly the private entries.
  lemma FlushDropsPrivate(es: seq<TlbEntry>, i: nat, vpn: nat, asid: nat)
    requires i < |es|
    ensures Matches(Flushed(es)[i], vpn, asid) <==> Matches(es[i], vpn, asid) && es[i].globalPage
  {
  }

  // An insertion is found again; when the page was there already it takes no other slot.
  lemma InsertedIsFound(es: seq<TlbEntry>, clock: nat, vpn: nat, pfn: nat, asid: nat, isGlobal: bool, policy: Policy, random: nat)
    requires es != []
    ensures var r := Inserted(es, clock, vpn, pfn, asid, isGlobal, policy, random);
      var k := FirstMatch(r, vpn, asid, 0);
      k < |r| && (FirstMatch(es, vpn, asid, 0) < |es| ==> r[k].pfn == pfn && forall i :: 0 <= i < |es| && i != k ==> r[i] == es[i])
  {
    var r := Inserted(es, clock, vpn, pfn, asid, isGlobal, policy, random);
    var m := FirstMatch(es, vpn, asid, 0);
    var slot := if m < |es| then m else SlotFor(es, policy, random);
    assert Matches(r[slot], vpn, asid);
    assert FirstMatch(r, vpn, asid, 0) <= slot;
  }

  // A random replacement can take any slot of a full TLB.
  lemma RandomTakesAny(es: seq<TlbEntry>, k: nat)
    requires k < |es| && FirstInvalid(es, 0) == |es|
    ensures SlotFor(es, TLB_REPLACE_RANDOM, k) == k
  {
  }

  lemma LookupFinds(es: seq<TlbEntry>, vpn: nat, i: nat)
    requires Private(es) && i < |es|
    ensures Lookup(es, vpn) == Some(es[i].pfn) || !(es[i].valid && es[i].vpn == vpn)
    ensures Lookup(es, vpn).None? ==> !(es[i].valid && es[i].vpn == vpn)
  {
    if es[i].valid && es[i].vpn == vpn {
      assert Matches(es[i], vpn, 0);
    }
  }

  // A translated page is cached, so the next translation of it is a hit with the same answer; another
  // page keeps its answer or is dropped, and none is dropped while a slot is free.
  lemma TranslationIsCached(s: State, vpn: nat, policy: Policy, random: nat, v: nat)
    requires s.entries != [] && Private(s.entries) && Answer(s, vpn).Some?
    ensures var n := Translated(s, vpn, policy, random);
      Lookup(n.entries, vpn) == Answer(s, vpn) &&
      (v != vpn ==> Lookup(n.entries, v) == Lookup(s.entries, v) || Lookup(n.entries, v).None?) &&
      (v != vpn && FirstInvalid(s.entries, 0) < |s.entries| ==> Lookup(n.entries, v) == Lookup(s.entries, v))
  {
    var n := Translated(s, vpn, policy, random);
    TranslateKeeps(s, vpn, policy, random);
    var m := FirstMatch(s.entries, vpn, 0, 0);
    var slot := if m < |s.entries| then m else SlotFor(s.entries, policy, random);
    LookupFinds(n.entries, vpn, slot);
    var a, b := FirstMatch(s.entries, v, 0, 0), FirstMatch(n.entries, v, 0, 0);
    if v != vpn {
      if a < |s.entries| {
        LookupFinds(n.entries, v, a);
      }
      if b < |n.entries| {
        assert n.entries[b] == s.entries[b];
        LookupFinds(s.entries, v, b);
      }
    }
  }

  // With a consistent TLB an address translates exactly when its page is mapped, to the same offset of the
  // mapped page, whose number keeps 20 bits.
  lemma TranslatesToMappedPage(s: State, vaddr: nat)
    requires Consistent(s.entries, s.table)
    ensures var page := Walk(s.table, vaddr / 4096); var physical := PhysicalOf(Answer(s, vaddr / 4096), vaddr);
      if page.None? then physical.None?
      else physical.Some? && physical.value % 4096 == vaddr % 4096 && physical.value / 4096 == page.value % 1048576
  {
    ConsistentAnswers(s, vaddr / 4096);
    if Walk(s.table, vaddr / 4096).Some? {
      ComposeSplits(Walk(s.table, vaddr / 4096).value, vaddr);
    }
  }

  // ---------------------------------------------------------------- whole runs

  // Whether translations are unsafe after an operation: a change to a cached page needs a flush.
  function Dirty(s: State, dirty: bool, op: Op): bool {
    if op.Flush? then false else dirty || NeedsFlush(s, op)
  }

  // Every translation comes after a flush of any earlier change to a cached page.
  ghost predicate Disciplined(s: State, ops: seq<Op>, policy: Policy, dirty: bool)
    requires s.entries != []
    decreases |ops|
  {
    ops == [] ||
    ((ops[0].Translate? ==> !dirty) && Disciplined(Next(s, ops[0], policy), ops[1..], policy, Dirty(s, dirty, ops[0])))
  }

  // The answers of mmu_translate, and of the page walk at the same moments.
  function Answers(s: State, ops: seq<Op>, policy: Policy): seq<Option<nat>>
    requires s.entries != []
    decreases |ops|
  {
    if ops == [] then [] else
      (if ops[0].Translate? then [PhysicalOf(Answer(s, ops[0].vaddr / PAGE_SIZE), ops[0].vaddr)] else []) +
      Answers(Next(s, ops[0], policy), ops[1..], policy)
  }

  function Walks(s: State, ops: seq<Op>, policy: Policy): seq<Option<nat>>
    requires s.entries != []
    decreases |ops|
  {
    if ops == [] then [] else
      (if ops[0].Translate? then [PhysicalOf(Walk(s.table, ops[0].vaddr / PAGE_SIZE), ops[0].vaddr)] else []) +
      Walks(Next(s, ops[0], policy), ops[1..], policy)
  }

  lemma StepKeeps(s: State, op: Op, policy: Policy, dirty: bool)
    requires s.entries != [] && Private(s.entries) && (!dirty ==> Consistent(s.entries, s.table))
    ensures var n := Next(s, op, policy);
      Private(n.entries) && (!Dirty(s, dirty, op) ==> Consistent(n.entries, n.table)) && (Stamped(s) ==> Stamped(n))
  {
    match op {
      case Map(vpn, pfn, w, x, u) =>
        if !Dirty(s, dirty, op) {
          MapKeepsIff(s, vpn, MappedEntry(pfn, w, x, u));
        }
      case Unmap(vpn) =>
        if !Dirty(s, dirty, op) {
          MapKeepsIff(s, vpn, EmptyEntry);
        }
      case Flush =>
        FlushKeeps(s);
      case Translate(vaddr, random) =>
        TranslateKeeps(s, vaddr / PAGE_SIZE, policy, random);
        if Stamped(s) {
          TranslateStamps(s, vaddr / PAGE_SIZE, policy, random);
        }
    }
  }

  // Over every disciplined run the MMU answers exactly what the bare page walk answers.
  lemma {:induction false} RunAgrees(s: State, ops: seq<Op>, policy: Policy, dirty: bool)
    requires s.entries != [] && Private(s.entries) && (!dirty ==> Consistent(s.entries, s.table))
    requires Disciplined(s, ops, policy, dirty)
    ensures Answers(s, ops, policy) == Walks(s, ops, policy)
    decreases |ops|
  {
    if ops != [] {
      hide Next, Private, Consistent, Answer, Walk, Dirty;
      StepKeeps(s, ops[0], policy, dirty);
      RunAgrees(Next(s, ops[0], policy), ops[1..], policy, Dirty(s, dirty, ops[0]));
      if ops[0].Translate? {
        ConsistentAnswers(s, ops[0].vaddr / PAGE_SIZE);
      }
    }
  }

  // The state after a run.
  function Run(s: State, ops: seq<Op>, policy: Policy): (r: State)
    requires s.entries != []
    ensures |r.entries| == |s.entries|
  {
    if ops == [] then s else Next(Run(s, ops[..|ops| - 1], policy), ops[|ops| - 1], policy)
  }

  lemma StepFills(s: State, op: Op, policy: Policy)
    requires s.entries != [] && Filled(s)
    ensures Filled(Next(s, op, policy))
  {
    var n := Next(s, op, policy);
    forall i | 0 <= i < |n.entries| && n.entries[i].valid ensures LastFill(n.uses, n.entries[i].vpn) >= 0 {
      var page := n.entries[i].vpn;
      if s.entries[i].valid && page == s.entries[i].vpn {
        assert LastFill(s.uses, page) >= 0;
        assert n.uses[LastFill(s.uses, page)] == Use(page, true);
      } else {
        assert n.uses[|n.uses| - 1] == Use(page, true);
      }
    }
  }

  // Over every run, flushed or not: cached pages are distinct, each filled before, stamped with its last
  // use and counted since its fill.
  lemma {:induction false} RunKeeps(s: State, ops: seq<Op>, policy: Policy)
    requires s.entries != [] && Private(s.entries) && Stamped(s) && Filled(s) && Counted(s)
    ensures var r := Run(s, ops, policy); Private(r.entries) && Stamped(r) && Filled(r) && Counted(r)
  {
    if ops != [] {
      hide Next, Private, Stamped, Filled, Counted;
      RunKeeps(s, ops[..|ops| - 1], policy);
      var r := Run(s, ops[..|ops| - 1], policy);
      StepKeeps(r, ops[|ops| - 1], policy, true);
      StepFills(r, ops[|ops| - 1], policy);
      StepCounts(r, ops[|ops| - 1], policy);
    }
  }

  // ---------------------------------------------------------------- working sets

  // The pages the TLB holds.
  ghost function Cached(es: seq<TlbEntry>): set<nat> {
    set i | 0 <= i < |es| && es[i].valid :: es[i].vpn
  }

  // A full TLB of distinct pages holds as many pages as it has entries.
  lemma {:induction false} FullSize(es: seq<TlbEntry>)
    requires Private(es) && forall i :: 0 <= i < |es| ==> es[i].valid
    ensures |Cached(es)| == |es|
  {
    if es != [] {
      var n := |es| - 1;
      FullSize(es[..n]);
      assert Cached(es) == Cached(es[..n]) + {es[n].vpn};
      assert es[n].vpn !in Cached(es[..n]);
    }
  }

  lemma TranslateCaches(s: State, vpn: nat, policy: Policy, random: nat)
    requires s.entries != [] && Private(s.entries) && Answer(s, vpn).Some?
    requires vpn in Cached(s.entries) || FirstInvalid(s.entries, 0) < |s.entries|
    ensures Cached(Translated(s, vpn, policy, random).entries) == Cached(s.entries) + {vpn}
  {
    var es, rs := s.entries, Translated(s, vpn, policy, random).entries;
    var m := FirstMatch(es, vpn, 0, 0);
    if i :| 0 <= i < |es| && es[i].valid && es[i].vpn == vpn {
      LookupFinds(es, vpn, i);
    }
    var slot := if m < |es| then m else FirstInvalid(es, 0);
    assert rs[slot].valid && rs[slot].vpn == vpn && forall i :: 0 <= i < |es| && i != slot ==> rs[i] == es[i];
    forall p | p in Cached(es) ensures p in Cached(rs) {
      var i :| 0 <= i < |es| && es[i].valid && es[i].vpn == p;
      assert rs[i].valid && rs[i].vpn == p;
    }
  }

  function PagesOf(ops: seq<Op>): set<nat> {
    set k | 0 <= k < |ops| && ops[k].Translate? :: ops[k].vaddr / PAGE_SIZE
  }

  lemma SubsetSize(a: set<nat>, b: set<nat>)
    requires a <= b
    ensures |a| <= |b|
  {
    assert b == a + (b - a);
  }

  // While the pages, one not cached among them, are no more than the entries, a slot is free.
  lemma RoomLeft(es: seq<TlbEntry>, vpn: nat)
    requires Private(es) && vpn !in Cached(es) && |Cached(es) + {vpn}| <= |es|
    ensures FirstInvalid(es, 0) < |es|
  {
    if FirstInvalid(es, 0) == |es| {
      FullSize(es);
    }
  }

  // A run of translations whose pages, with those cached before, are no more than the TLB has entries
  // evicts nothing: every page of it is cached from its first use on, under every policy.
  lemma {:induction false} WorkingSetStays(s: State, ops: seq<Op>, policy: Policy)
    requires s.entries != [] && Private(s.entries) && Consistent(s.entries, s.table)
    requires forall k :: 0 <= k < |ops| ==> ops[k].Translate? && Walk(s.table, ops[k].vaddr / PAGE_SIZE).Some?
    requires |Cached(s.entries) + PagesOf(ops)| <= |s.entries|
    ensures var r := Run(s, ops, policy);
      Private(r.entries) && Consistent(r.entries, r.table) && r.table == s.table &&
      Cached(r.entries) == Cached(s.entries) + PagesOf(ops)
  {
    hide Private, Consistent, Walk, Cached, PagesOf, Translated, Answer;
    if ops == [] {
      NoPages();
    } else {
      var n := |ops| - 1;
      var vpn := ops[n].vaddr / PAGE_SIZE;
      LastPage(ops);
      SubsetSize(Cached(s.entries) + PagesOf(ops[..n]), Cached(s.entries) + PagesOf(ops));
      WorkingSetStays(s, ops[..n], policy);
      var r := Run(s, ops[..n], policy);
      ConsistentAnswers(r, vpn);
      assert Cached(r.entries) + {vpn} == Cached(s.entries) + PagesOf(ops);
      if vpn !in Cached(r.entries) {
        RoomLeft(r.entries, vpn);
      }
      TranslateCaches(r, vpn, policy, ops[n].random);
      TranslateKeeps(r, vpn, policy, ops[n].random);
    }
  }

  lemma NoPages()
    ensures PagesOf([]) == {}
  {
  }

  lemma LastPage(ops: seq<Op>)
    requires ops != [] && ops[|ops| - 1].Translate?
    ensures PagesOf(ops) == PagesOf(ops[..|ops| - 1]) + {ops[|ops| - 1].vaddr / PAGE_SIZE}
  {
  }

  // ---------------------------------------------------------------- replacement

  // When a full TLB replaces an entry by age, the victim's page was used before every other cached
  // page was last used.
  lemma VictimIsLeastRecent(s: State, random: nat, policy: Policy, j: nat)
    requires s.entries != [] && Private(s.entries) && Stamped(s) && policy != TLB_REPLACE_RANDOM
    requires FirstInvalid(s.entries, 0) == |s.entries|
    requires j < |s.entries| && j != SlotFor(s.entries, policy, random)
    ensures LastUse(s.uses, s.entries[SlotFor(s.entries, policy, random)].vpn) < LastUse(s.uses, s.entries[j].vpn)
  {
    var es := s.entries;
    var k := Oldest(es, |es|);
    assert !es[j].globalPage && es[k].valid && es[j].valid && es[k].vpn != es[j].vpn;
  }

  // The FIFO policy runs the same scan over the same stamps, so it too replaces the least recently
  // used entry, not the first inserted one.
  lemma FifoIsLru(es: seq<TlbEntry>, random: nat)
    requires es != []
    ensures SlotFor(es, TLB_REPLACE_FIFO, random) == SlotFor(es, TLB_REPLACE_LRU, random)
  {
  }

  // The page in slot f was filled before every other cached page was.
  ghost predicate FilledFirst(s: State, f: nat) {
    f < |s.entries| &&
    forall j :: 0 <= j < |s.entries| && j != f ==>
      LastFill(s.uses, s.entries[f].vpn) < LastFill(s.uses, s.entries[j].vpn)
  }

  // The page in slot f was last used before every other cached page was.
  ghost predicate UsedFirst(s: State, f: nat) {
    f < |s.entries| &&
    forall j :: 0 <= j < |s.entries| && j != f ==> LastUse(s.uses, s.entries[f].vpn) < LastUse(s.uses, s.entries[j].vpn)
  }

  // A full TLB has an entry that was filled first: among the first n, by induction.
  lemma {:induction false} SomeFilledFirst(s: State, n: nat) returns (f: nat)
    requires 0 < n <= |s.entries| && Private(s.entries) && Filled(s) && forall i :: 0 <= i < |s.entries| ==> s.entries[i].valid
    ensures f < n && forall j :: 0 <= j < n && j != f ==>
      LastFill(s.uses, s.entries[f].vpn) < LastFill(s.uses, s.entries[j].vpn)
  {
    f := 0;
    if n > 1 {
      f := SomeFilledFirst(s, n - 1);
      assert s.entries[f].vpn != s.entries[n - 1].vpn;
      if LastFill(s.uses, s.entries[n - 1].vpn) < LastFill(s.uses, s.entries[f].vpn) {
        f := n - 1;
      }
    }
  }

  lemma VictimUsedFirst(s: State, random: nat, policy: Policy)
    requires s.entries != [] && Private(s.entries) && Stamped(s) && policy != TLB_REPLACE_RANDOM
    requires FirstInvalid(s.entries, 0) == |s.entries|
    ensures UsedFirst(s, SlotFor(s.entries, policy, random))
  {
    forall j | 0 <= j < |s.entries| && j != SlotFor(s.entries, policy, random)
      ensures LastUse(s.uses, s.entries[SlotFor(s.entries, policy, random)].vpn) < LastUse(s.uses, s.entries[j].vpn)
    {
      VictimIsLeastRecent(s, random, policy, j);
    }
  }

  // ... and replaces the entry filled first if and only if that entry was also last used first.
  lemma FifoOrderIff(s: State, random: nat)
    requires s.entries != [] && Private(s.entries) && Stamped(s) && Filled(s)
    requires FirstInvalid(s.entries, 0) == |s.entries|
    ensures FilledFirst(s, SlotFor(s.entries, TLB_REPLACE_FIFO, random)) <==>
            forall f: nat :: FilledFirst(s, f) ==> UsedFirst(s, f)
  {
    var k := SlotFor(s.entries, TLB_REPLACE_FIFO, random);
    var f := SomeFilledFirst(s, |s.entries|);
    assert FilledFirst(s, f);
    VictimUsedFirst(s, random, TLB_REPLACE_FIFO);
    hide SlotFor, LastFill, LastUse;
    OnlyOneFirst(s);
  }

  lemma OnlyOneFirst(s: State)
    ensures forall f: nat, g: nat :: FilledFirst(s, f) && FilledFirst(s, g) ==> f == g
    ensures forall f: nat, g: nat :: UsedFirst(s, f) && UsedFirst(s, g) ==> f == g
  {
    forall f: nat, g: nat | FilledFirst(s, f) && FilledFirst(s, g) ensures f == g {
      var first, second := LastFill(s.uses, s.entries[f].vpn), LastFill(s.uses, s.entries[g].vpn);
    }
    forall f: nat, g: nat | UsedFirst(s, f) && UsedFirst(s, g) ensures f == g {
      var first, second := LastUse(s.uses, s.entries[f].vpn), LastUse(s.uses, s.entries[g].vpn);
    }
  }

  // An entry filled first and not hit since is the victim.
  lemma UnhitIsReplaced(s: State, f: nat, random: nat)
    requires s.entries != [] && Private(s.entries) && Stamped(s) && FirstInvalid(s.entries, 0) == |s.entries|
    requires FilledFirst(s, f) && LastFill(s.uses, s.entries[f].vpn) == LastUse(s.uses, s.entries[f].vpn)
    ensures SlotFor(s.entries, TLB_REPLACE_FIFO, random) == f
  {
    VictimUsedFirst(s, random, TLB_REPLACE_FIFO);
    forall j | 0 <= j < |s.entries| && j != f ensures LastUse(s.uses, s.entries[f].vpn) < LastUse(s.uses, s.entries[j].vpn) {
      assert LastFill(s.uses, s.entries[j].vpn) <= LastUse(s.uses, s.entries[j].vpn);
    }
    assert UsedFirst(s, f);
    OnlyOneFirst(s);
  }

  // ---------------------------------------------------------------- a run against first-in-first-out

  // The state after reset, with some page table.
  ghost predicate Empty(s: State) {
    |s.entries| == TLB_ENTRIES && (forall i :: 0 <= i < TLB_ENTRIES ==> s.entries[i] == TlbEntry(false, 0, 0, 0, false, 0, 0)) &&
    s.clock == 0 && s.uses == []
  }

  // Translations of the pages 0..k-1, in order.
  function Sweep(k: nat): (ops: seq<Op>)
    ensures |ops| == k && forall v :: 0 <= v < k ==> ops[v] == Translate(v * PAGE_SIZE, 0)
  {
    seq(k, v requires 0 <= v < k => Translate(v * PAGE_SIZE, 0))
  }

  ghost predicate Swept(s: State, r: State, k: nat) {
    |r.entries| == |s.entries| && r.clock == |r.uses| == k && r.table == s.table &&
    (forall v :: 0 <= v < k ==> r.uses[v] == Use(v, true)) &&
    forall i :: 0 <= i < |r.entries| ==>
      if i < k then r.entries[i].valid && r.entries[i].vpn == r.entries[i].accessOrder == i && !r.entries[i].globalPage &&
                    r.entries[i].asid == 0
      else !r.entries[i].valid
  }

  lemma SweepStep(s: State, r: State, k: nat, policy: Policy)
    requires s.entries != [] && Swept(s, r, k) && k < |s.entries| && Walk(s.table, k).Some?
    ensures Swept(s, Next(r, Translate(k * PAGE_SIZE, 0), policy), k + 1)
  {
    assert (k * PAGE_SIZE) / PAGE_SIZE == k;
    assert FirstMatch(r.entries, k, 0, 0) == |r.entries|;
    assert !r.entries[k].valid;
    var j := FirstInvalid(r.entries, 0);
    assert j == k;
  }

  // The first sweep fills the slots in order.
  lemma {:induction false} SweepFills(s: State, k: nat, policy: Policy)
    requires Empty(s) && k <= TLB_ENTRIES && forall v :: 0 <= v < k ==> Walk(s.table, v).Some?
    ensures Swept(s, Run(s, Sweep(k), policy), k)
  {
    if k > 0 {
      SweepFills(s, k - 1, policy);
      assert Sweep(k)[..k - 1] == Sweep(k - 1);
      SweepStep(s, Run(s, Sweep(k - 1), policy), k - 1, policy);
    }
  }

  // Page 0 is hit again after the sweep.
  ghost predicate HitAgain(r: State) {
    |r.entries| == TLB_ENTRIES && r.clock == |r.uses| == TLB_ENTRIES + 1 && r.uses[TLB_ENTRIES] == Use(0, false) &&
    (forall v :: 0 <= v < TLB_ENTRIES ==> r.uses[v] == Use(v, true)) &&
    forall i :: 0 <= i < TLB_ENTRIES ==>
      r.entries[i].valid && r.entries[i].vpn == i && !r.entries[i].globalPage && r.entries[i].asid == 0 &&
      r.entries[i].accessOrder == if i == 0 then TLB_ENTRIES else i
  }

  lemma HitPageZero(s: State, r: State, policy: Policy)
    requires |s.entries| == TLB_ENTRIES && Swept(s, r, TLB_ENTRIES)
    ensures HitAgain(Next(r, Translate(0, 0), policy)) && Next(r, Translate(0, 0), policy).table == s.table
  {
    assert FirstMatch(r.entries, 0, 0, 0) == 0;
  }

  lemma ReplacesPageOne(r: State, random: nat)
    requires HitAgain(r) && Walk(r.table, TLB_ENTRIES).Some?
    ensures FilledFirst(r, 0) && SlotFor(r.entries, TLB_REPLACE_FIFO, random) == 1
    ensures var n := Next(r, Translate(TLB_ENTRIES * PAGE_SIZE, random), TLB_REPLACE_FIFO);
      Lookup(n.entries, 1).None? && Lookup(n.entries, 0).Some?
  {
    forall i | 0 <= i < TLB_ENTRIES ensures LastFill(r.uses, r.entries[i].vpn) == i {
      LastIndexIs(r.uses, Use(i, true), i);
    }
    assert FirstInvalid(r.entries, 0) == TLB_ENTRIES;
    assert Oldest(r.entries, |r.entries|) == 1 by {
      assert !r.entries[1].globalPage;
    }
    assert FirstMatch(r.entries, TLB_ENTRIES, 0, 0) == TLB_ENTRIES;
    var n := Next(r, Translate(TLB_ENTRIES * PAGE_SIZE, random), TLB_REPLACE_FIFO);
    assert n.entries[0] == r.entries[0] && Matches(n.entries[0], 0, 0);
    assert FirstMatch(n.entries, 1, 0, 0) == TLB_ENTRIES;
  }

  // From reset: pages 0..63 fill the TLB in order, page 0 is hit again, and page 64 then replaces
  // page 1, though page 0 was filled first.
  lemma FifoCounterexample(s: State, random: nat)
    requires Empty(s) && forall v :: 0 <= v <= TLB_ENTRIES ==> Walk(s.table, v).Some?
    ensures var r := Run(s, Sweep(TLB_ENTRIES) + [Translate(0, 0)], TLB_REPLACE_FIFO);
      FilledFirst(r, 0) && r.entries[0].vpn == 0 && SlotFor(r.entries, TLB_REPLACE_FIFO, random) == 1 &&
      Private(r.entries) && Consistent(r.entries, r.table) &&
      var n := Next(r, Translate(TLB_ENTRIES * PAGE_SIZE, random), TLB_REPLACE_FIFO);
      Lookup(n.entries, 1).None? && Lookup(n.entries, 0).Some?
  {
    SweepFills(s, TLB_ENTRIES, TLB_REPLACE_FIFO);
    var ops := Sweep(TLB_ENTRIES) + [Translate(0, 0)];
    assert ops[..|ops| - 1] == Sweep(TLB_ENTRIES);
    var w := Run(s, Sweep(TLB_ENTRIES), TLB_REPLACE_FIFO);
    HitPageZero(s, w, TLB_REPLACE_FIFO);
    ReplacesPageOne(Run(s, ops, TLB_REPLACE_FIFO), random);
    TranslationsKeepConsistent(s, ops, TLB_REPLACE_FIFO);
  }

  // Translations alone keep the TLB consistent.
  lemma {:induction false} TranslationsKeepConsistent(s: State, ops: seq<Op>, policy: Policy)
    requires s.entries != [] && Private(s.entries) && Consistent(s.entries, s.table)
    requires forall i :: 0 <= i < |ops| ==> ops[i].Translate?
    ensures var r := Run(s, ops, policy); Private(r.entries) && Consistent(r.entries, r.table)
  {
    if ops != [] {
      TranslationsKeepConsistent(s, ops[..|ops| - 1], policy);
      StepKeeps(Run(s, ops[..|ops| - 1], policy), ops[|ops| - 1], policy, false);
    }
  }

  // ---------------------------------------------------------------- the objects

  class PageTable {
    const entries: array<PageTableEntry>

    constructor (numEntries: nat)
      ensures fresh(entries) && entries.Length == numEntries
      ensures forall i :: 0 <= i < numEntries ==> entries[i] == EmptyEntry
    {
      entries := new PageTableEntry[numEntries](i => EmptyEntry);
    }

    method MapPage(vpn: nat, pfn: nat, writable: bool, executable: bool, user: bool)
      modifies entries
      ensures entries[..] == Mapped(old(entries[..]), vpn, MappedEntry(pfn, writable, executable, user))
      ensures vpn < entries.Length ==> var e := entries[vpn];
        e.valid && e.pfn == pfn && e.readable && e.writable == writable && e.executable == executable &&
        e.userAccessible == user && !e.accessed && !e.dirty
    {
      if vpn >= entries.Length {
        return;
      }
      entries[vpn] := MappedEntry(pfn, writable, executable, user);
    }

    method UnmapPage(vpn: nat)
      modifies entries
      ensures entries[..] == Mapped(old(entries[..]), vpn, EmptyEntry)
    {
      if vpn >= entries.Length {
        return;
      }
      entries[vpn] := EmptyEntry;
    }

    method LookupPage(vpn: nat) returns (pfn: Option<nat>)
      ensures pfn == Walk(entries[..], vpn)
    {
      if vpn >= entries.Length || !entries[vpn].valid {
        return None;
      }
      return Some(entries[vpn].pfn);
    }
  }

  class Tlb {
    const entries: array<TlbEntry>
    const policy: Policy
    var clock: nat
    var accesses: nat
    var hits: nat
    var misses: nat
    var evictions: nat

    // The uses so far, one for each clock value.
    ghost var uses: seq<Use>

    ghost predicate Shaped()
      reads this, entries
    {
      entries.Length == TLB_ENTRIES && clock < UINT32_MAX && accesses == hits + misses &&
      forall i :: 0 <= i < TLB_ENTRIES ==> entries[i].accessOrder < UINT32_MAX
    }

    constructor (policy: Policy)
      ensures Shaped() && this.policy == policy && clock == 0 && uses == [] && fresh(entries)
      ensures Private(entries[..]) && forall i :: 0 <= i < TLB_ENTRIES ==> !entries[i].valid
      ensures accesses == hits == misses == evictions == 0
    {
      this.policy := policy;
      entries := new TlbEntry[TLB_ENTRIES](i => TlbEntry(false, 0, 0, 0, false, 0, 0));
      clock, accesses, hits, misses, evictions := 0, 0, 0, 0, 0;
      uses := [];
    }

    // A hit refreshes the stamp of the matching entry.
    method LookupEntry(vpn: nat, asid: nat) returns (pfn: Option<nat>)
      requires Shaped() && clock + 1 < UINT32_MAX
      modifies this, entries
      ensures Shaped()
      ensures var es := old(entries[..]); var m := FirstMatch(es, vpn, asid, 0);
        if m < TLB_ENTRIES then
          pfn == Some(es[m].pfn) && entries[..] == es[m := Used(es[m], old(clock))] && clock == old(clock) + 1 &&
          uses == old(uses) + [Use(vpn, false)]
        else pfn == None && entries[..] == es && clock == old(clock) && uses == old(uses)
      ensures accesses == old(accesses) + 1 && hits == old(hits) + (if pfn.Some? then 1 else 0) && evictions == old(evictions)
    {
      accesses := accesses + 1;
      ghost var es := entries[..];
      for i := 0 to TLB_ENTRIES
        invariant entries[..] == es && FirstMatch(es, vpn, asid, 0) == FirstMatch(es, vpn, asid, i)
        invariant clock == old(clock) && uses == old(uses) && accesses == hits + misses + 1
        invariant accesses == old(accesses) + 1 && hits == old(hits) && evictions == old(evictions)
      {
        if Matches(entries[i], vpn, asid) {
          hits := hits + 1;
          entries[i] := Used(entries[i], clock);
          clock := clock + 1;
          uses := uses + [Use(vpn, false)];
          return Some(entries[i].pfn);
        }
      }
      misses := misses + 1;
      return None;
    }

    // The scan for the least recently stamped private entry.
    method FindOldest() returns (slot: nat)
      requires Shaped()
      ensures slot == if Oldest(entries[..], TLB_ENTRIES) < TLB_ENTRIES then Oldest(entries[..], TLB_ENTRIES) else 0
    {
      var found, oldest := TLB_ENTRIES, UINT32_MAX;
      for i := 0 to TLB_ENTRIES
        invariant found == Oldest(entries[..], i)
        invariant oldest == if found < TLB_ENTRIES then entries[found].accessOrder else UINT32_MAX
      {
        if !entries[i].globalPage && entries[i].accessOrder < oldest {
          oldest := entries[i].accessOrder;
          found := i;
        }
      }
      slot := if found == TLB_ENTRIES then 0 else found;
    }

    // The slot for a new translation.
    method FindSlot(random: nat) returns (slot: nat)
      requires Shaped()
      modifies this`evictions
      ensures slot == SlotFor(entries[..], policy, random)
      ensures evictions == old(evictions) + if FirstInvalid(entries[..], 0) == TLB_ENTRIES then 1 else 0
    {
      slot := 0;
      while slot < TLB_ENTRIES && entries[slot].valid
        invariant slot <= TLB_ENTRIES && FirstInvalid(entries[..], 0) == FirstInvalid(entries[..], slot)
      {
        slot := slot + 1;
      }
      if slot == TLB_ENTRIES {
        evictions := evictions + 1;
        if policy == TLB_REPLACE_RANDOM {
          slot := random % TLB_ENTRIES;
        } else {
          slot := FindOldest();
        }
      }
    }

    // Installs a translation: an existing entry is updated, otherwise a slot is found.
    method InsertEntry(vpn: nat, pfn: nat, asid: nat, isGlobal: bool, random: nat)
      requires Shaped() && clock + 1 < UINT32_MAX
      modifies this, entries
      ensures Shaped() && clock == old(clock) + 1
      ensures uses == old(uses) + [Use(vpn, FirstMatch(old(entries[..]), vpn, asid, 0) == TLB_ENTRIES)]
      ensures entries[..] == Inserted(old(entries[..]), old(clock), vpn, pfn, asid, isGlobal, policy, random)
      ensures accesses == old(accesses) && hits == old(hits)
      ensures evictions == old(evictions) +
        if FirstMatch(old(entries[..]), vpn, asid, 0) == FirstInvalid(old(entries[..]), 0) == TLB_ENTRIES then 1 else 0
    {
      ghost var es := entries[..];
      var m := 0;
      while m < TLB_ENTRIES && !Matches(entries[m], vpn, asid)
        invariant m <= TLB_ENTRIES && FirstMatch(es, vpn, asid, 0) == FirstMatch(es, vpn, asid, m)
      {
        m := m + 1;
      }
      if m < TLB_ENTRIES {
        entries[m] := Used(entries[m].(pfn := pfn), clock);
      } else {
        var slot := FindSlot(random);
        entries[slot] := TlbEntry(true, vpn, pfn, asid, isGlobal, clock, 1);
      }
      clock := clock + 1;
      uses := uses + [Use(vpn, m == TLB_ENTRIES)];
    }

    method FlushEntries()
      requires Shaped()
      modifies entries
      ensures Shaped() && entries[..] == Flushed(old(entries[..]))
    {
      for i := 0 to TLB_ENTRIES
        invariant forall k :: 0 <= k < TLB_ENTRIES ==>
          entries[k] == if k < i && !old(entries[k]).globalPage then old(entries[k]).(valid := false) else old(entries[k])
      {
        if !entries[i].globalPage {
          entries[i] := entries[i].(valid := false);
        }
      }
      assert entries[..] == Flushed(old(entries[..]));
    }
  }

  ghost function View(tlb: Tlb, pt: PageTable): State
    reads tlb, tlb.entries, pt.entries
  {
    State(tlb.entries[..], tlb.clock, pt.entries[..], tlb.uses)
  }

  // mmu_translate: the TLB first, then the page walk, whose answer is cached.
  method TranslateAddress(tlb: Tlb, pt: PageTable, vaddr: nat, random: nat) returns (paddr: Option<nat>)
    requires tlb.Shaped() && tlb.clock + 1 < UINT32_MAX && tlb.entries as object != pt.entries
    modifies tlb, tlb.entries
    ensures tlb.Shaped()
    ensures paddr == PhysicalOf(Answer(old(View(tlb, pt)), vaddr / PAGE_SIZE), vaddr)
    ensures View(tlb, pt) == Translated(old(View(tlb, pt)), vaddr / PAGE_SIZE, tlb.policy, random)
    ensures tlb.accesses == old(tlb.accesses) + 1
    ensures tlb.hits == old(tlb.hits) + if Lookup(old(tlb.entries[..]), vaddr / PAGE_SIZE).Some? then 1 else 0
  {
    var vpn := vaddr / PAGE_SIZE;
    var pfn := tlb.LookupEntry(vpn, 0);
    if pfn.Some? {
      return Some(Compose(pfn.value, vaddr));
    }
    var pte := pt.LookupPage(vpn);
    if pte.None? {
      return None;
    }
    tlb.InsertEntry(vpn, pte.value, 0, false, random);
    return Some(Compose(pte.value, vaddr));
  }
}
