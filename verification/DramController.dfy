// mini-computer-arch/src/dram_controller.c: the cycle-stepped DRAM controller.
//
// The controller's fields are read as a State; a cycle is a step on States, and the properties of
// runs are proved about those steps.
module DramController {
  import opened Arithmetic

  const QUEUE_SIZE: nat := 64
  const BANKS: nat := 16
  const BATCH_AGE: nat := 500
  const BATCH_PRIORITY: nat := 3

  datatype Timing = Timing(tRCD: nat, tRP: nat, tRFC: nat, tREFI: nat)

  datatype Policy = SCHED_FCFS | SCHED_FR_FCFS | SCHED_STFM | SCHED_PARBS | SCHED_ATLAS | SCHED_TCM | SCHED_BLISS

  datatype BankState = BANK_IDLE | BANK_ACTIVATING | BANK_ACTIVE | BANK_PRECHARGING | BANK_REFRESHING

  datatype Bank = Bank(state: BankState, openRow: nat, rowValid: bool, readyTime: nat,
                       activeCount: nat, rowMissCount: nat, rowHitCount: nat)

  datatype Request = Request(address: nat, bank: nat, row: nat, col: nat, rank: nat, isWrite: bool,
                             arrivalTime: nat, deadline: nat, priority: nat, id: nat)

  // Row, bank, column and rank bits of an address.
  function Decode(addr: nat, isWrite: bool, cycles: nat, id: nat): (r: Request)
    ensures r.bank < BANKS
  {
    var bg, ba := (addr / 16384) % 4, (addr / 4096) % 4;
    Request(addr, bg * 4 + ba, (addr / 65536) % 65536, (addr / 4) % 1024, (addr / 4294967296) % 2,
            isWrite, cycles, cycles + 1000, 0, id)
  }

  // The parts an address is made up of come back from it: byte, column, bank, row, rank; higher bits are lost.
  lemma PartsOfAddress(rest: nat, rank: nat, row: nat, bank: nat, col: nat, byte: nat, isWrite: bool, cycles: nat, id: nat)
    requires rank < 2 && row < 65536 && bank < 16 && col < 1024 && byte < 4
    ensures var addr := rest * 8589934592 + rank * 4294967296 + row * 65536 + bank * 4096 + col * 4 + byte;
      var r := Decode(addr, isWrite, cycles, id);
      r.rank == rank && r.row == row && r.bank == bank && r.col == col && r.isWrite == isWrite && r.id == id &&
      r.arrivalTime == cycles && r.deadline == cycles + 1000
  {
    var top := rest * 2 + rank;
    var addr := top * 4294967296 + row * 65536 + bank * 4096 + col * 4 + byte;
    var bg, ba := bank / 4, bank % 4;
    QuotientIs(addr, 16384, top * 262144 + row * 4 + bg, ba * 4096 + col * 4 + byte);
    RemainderIs(top * 262144 + row * 4 + bg, 4, top * 65536 + row, bg);
    QuotientIs(addr, 4096, top * 1048576 + row * 16 + bank, col * 4 + byte);
    RemainderIs(top * 1048576 + row * 16 + bank, 4, top * 262144 + row * 4 + bg, ba);
    QuotientIs(addr, 65536, top * 65536 + row, bank * 4096 + col * 4 + byte);
    RemainderIs(top * 65536 + row, 65536, top, row);
    QuotientIs(addr, 4, top * 1073741824 + row * 16384 + bank * 1024 + col, byte);
    RemainderIs(top * 1073741824 + row * 16384 + bank * 1024 + col, 1024, top * 1048576 + row * 16 + bank, col);
    QuotientIs(addr, 4294967296, top, row * 65536 + bank * 4096 + col * 4 + byte);
    RemainderIs(top, 2, rest, rank);
  }

  // The controller's fields; `accepted` and `served` record the requests enqueued and popped.
  datatype State = State(
    banks: seq<Bank>, pending: seq<Request>, cycles: nat,
    totalReads: nat, totalWrites: nat, rowHits: nat, rowConflicts: nat, refreshCycles: nat, stallCycles: nat,
    accepted: seq<Request>, served: seq<Request>)

  ghost predicate WellFormed(s: State) {
    |s.banks| == BANKS && |s.pending| <= QUEUE_SIZE && (forall i :: 0 <= i < |s.pending| ==> s.pending[i].bank < BANKS) &&
    (forall i :: 0 <= i < |s.pending| ==> s.pending[i].arrivalTime <= s.cycles)
  }

  // ---------------------------------------------------------------- ranking

  predicate RowHit(banks: seq<Bank>, r: Request)
    requires r.bank < |banks|
  {
    banks[r.bank].rowValid && banks[r.bank].openRow == r.row
  }

  // The comparison of the batch scheduler: a must be swapped with a later b.
  predicate SwapNeeded(banks: seq<Bank>, a: Request, b: Request)
    requires a.bank < |banks| && b.bank < |banks|
  {
    a.priority < b.priority ||
    (a.priority == b.priority &&
     ((!RowHit(banks, a) && RowHit(banks, b)) ||
      (RowHit(banks, a) == RowHit(banks, b) && a.arrivalTime > b.arrivalTime)))
  }

  // Row hits first, then age.
  function FrfcfsRank(banks: seq<Bank>, a: Request, b: Request): int
    requires a.bank < |banks| && b.bank < |banks|
  {
    if RowHit(banks, a) && !RowHit(banks, b) then -1
    else if !RowHit(banks, a) && RowHit(banks, b) then 1
    else if a.arrivalTime < b.arrivalTime then -1
    else if a.arrivalTime > b.arrivalTime then 1
    else 0
  }

  // At equal priority the two schedulers order requests alike.
  lemma RanksAgree(banks: seq<Bank>, a: Request, b: Request)
    requires a.bank < |banks| && b.bank < |banks| && a.priority == b.priority
    ensures SwapNeeded(banks, a, b) <==> FrfcfsRank(banks, a, b) > 0
    ensures FrfcfsRank(banks, a, b) == -FrfcfsRank(banks, b, a)
  {
  }

  lemma InOrderTransitive(banks: seq<Bank>, a: Request, b: Request, c: Request)
    requires a.bank < |banks| && b.bank < |banks| && c.bank < |banks|
    requires !SwapNeeded(banks, a, b) && !SwapNeeded(banks, b, c)
    ensures !SwapNeeded(banks, a, c)
  {
  }

  ghost predicate InBanks(w: seq<Request>) {
    forall i :: 0 <= i < |w| ==> w[i].bank < BANKS
  }

  // Priority down, row hits first, arrival up.
  ghost predicate Ranked(banks: seq<Bank>, w: seq<Request>)
    requires forall i :: 0 <= i < |w| ==> w[i].bank < |banks|
  {
    forall i, j :: 0 <= i < j < |w| ==> !SwapNeeded(banks, w[i], w[j])
  }

  // Requests waiting longer than the batch age move to the top priority.
  function Aged(r: Request, cycles: nat): Request {
    if cycles - r.arrivalTime > BATCH_AGE then r.(priority := BATCH_PRIORITY) else r
  }

  function Batched(w: seq<Request>, cycles: nat): (r: seq<Request>)
    ensures |r| == |w| && forall i :: 0 <= i < |w| ==> r[i] == Aged(w[i], cycles)
  {
    seq(|w|, i requires 0 <= i < |w| => Aged(w[i], cycles))
  }

  predicate Ranks(p: Policy) {
    p == SCHED_FR_FCFS || p == SCHED_PARBS
  }

  // The queue the scheduler works on: re-ranked by the two ranking policies, left alone by the others.
  ghost predicate RankedQueue(p: Policy, s: State, w: seq<Request>)
    requires WellFormed(s)
  {
    if Ranks(p) then
      multiset(w) == multiset(Batched(s.pending, s.cycles)) && InBanks(w) &&
      Ranked(s.banks, w)
    else w == s.pending
  }

  // ---------------------------------------------------------------- one cycle

  function RefreshedBank(b: Bank, cycle: nat, t: Timing): Bank {
    b.(state := BANK_REFRESHING, readyTime := cycle + t.tRFC)
  }

  function SettledBank(b: Bank, cycle: nat): Bank {
    if b.state == BANK_ACTIVATING && cycle >= b.readyTime then b.(state := BANK_ACTIVE)
    else if b.state == BANK_PRECHARGING && cycle >= b.readyTime then b.(state := BANK_IDLE)
    else b
  }

  function Refreshed(s: State, t: Timing, configured: nat): (r: State)
    requires configured <= |s.banks|
    ensures |r.banks| == |s.banks|
  {
    s.(refreshCycles := s.refreshCycles + t.tRFC, stallCycles := s.stallCycles + t.tRFC,
       banks := seq(|s.banks|, i requires 0 <= i < |s.banks| =>
         if i < configured then RefreshedBank(s.banks[i], s.cycles, t) else s.banks[i]))
  }

  function Settled(s: State, configured: nat): (r: State)
    requires configured <= |s.banks|
    ensures |r.banks| == |s.banks|
  {
    s.(banks := seq(|s.banks|, i requires 0 <= i < |s.banks| =>
         if i < configured then SettledBank(s.banks[i], s.cycles) else s.banks[i]))
  }

  // Time moves on, a refresh may start, banks settle.
  function Advanced(s: State, t: Timing, configured: nat): (r: State)
    requires configured <= |s.banks| && t.tREFI > 0
    ensures |r.banks| == |s.banks|
  {
    var n := s.(cycles := s.cycles + 1);
    var m := if n.cycles % t.tREFI == 0 then Refreshed(n, t, configured) else n;
    Settled(m, configured)
  }

  function Activated(b: Bank, row: nat, cycle: nat, t: Timing): Bank {
    b.(state := BANK_ACTIVATING, openRow := row, rowValid := true, readyTime := cycle + t.tRCD,
       activeCount := b.activeCount + 1)
  }

  function Precharged(b: Bank, cycle: nat, t: Timing): Bank {
    b.(state := BANK_PRECHARGING, rowValid := false, readyTime := cycle + t.tRP)
  }

  // The command for the head of the queue.
  function Issued(s: State, t: Timing): State
    requires s.pending != [] ==> s.pending[0].bank < |s.banks|
  {
    if s.pending == [] then s else
      var r := s.pending[0];
      var b := s.banks[r.bank];
      if s.cycles < b.readyTime then s.(stallCycles := s.stallCycles + 1)
      else if !b.rowValid then
        var a := Activated(b, r.row, s.cycles, t);
        s.(banks := s.banks[r.bank := a.(rowMissCount := a.rowMissCount + 1)])
      else if b.openRow != r.row then
        var p := Precharged(b, s.cycles, t);
        s.(banks := s.banks[r.bank := p.(rowMissCount := p.rowMissCount + 1)], rowConflicts := s.rowConflicts + 1)
      else
        s.(banks := s.banks[r.bank := b.(rowHitCount := b.rowHitCount + 1)], rowHits := s.rowHits + 1,
           pending := s.pending[1..], served := s.served + [r])
  }

  // A cycle under any policy: the queue is ranked after time has moved on, then its head is served.
  ghost predicate Cycle(p: Policy, t: Timing, configured: nat, s: State, s': State)
    requires WellFormed(s) && configured <= BANKS && t.tREFI > 0
  {
    exists w: seq<Request> ::
      RankedQueue(p, Advanced(s, t, configured), w) &&
      (w != [] ==> w[0].bank < BANKS) && s' == Issued(Advanced(s, t, configured).(pending := w), t)
  }

  function Enqueued(s: State, addr: nat, isWrite: bool, id: nat): State {
    if |s.pending| >= QUEUE_SIZE then s else
      var r := Decode(addr, isWrite, s.cycles, id);
      s.(pending := s.pending + [r], accepted := s.accepted + [r],
         totalWrites := s.totalWrites + if isWrite then 1 else 0,
         totalReads := s.totalReads + if isWrite then 0 else 1)
  }

  // ---------------------------------------------------------------- conservation, under every policy

  // A request up to its priority, which batching may raise.
  function Core(r: Request): Request {
    r.(priority := 0)
  }

  function Cores(w: seq<Request>): (r: seq<Request>)
    ensures |r| == |w| && forall i :: 0 <= i < |w| ==> r[i] == Core(w[i])
  {
    seq(|w|, i requires 0 <= i < |w| => Core(w[i]))
  }

  // Every accepted request is pending or was served, exactly once; the counters agree.
  ghost predicate Conserved(s: State) {
    multiset(Cores(s.accepted)) == multiset(Cores(s.served)) + multiset(Cores(s.pending)) &&
    s.rowHits == |s.served| && s.totalReads + s.totalWrites == |s.accepted| &&
    s.totalReads + s.totalWrites == s.rowHits + |s.pending|
  }

  lemma CoresWithout(b: seq<Request>, k: nat)
    requires k < |b|
    ensures var r := b[..k] + b[k + 1..];
      multiset(b) == multiset(r) + multiset{b[k]} && multiset(Cores(b)) == multiset(Cores(r)) + multiset{Core(b[k])}
  {
    hide Cores, Core;
    CoresAppend(b[..k], b[k]);
    CoresConcat(b[..k], b[k + 1..]);
    CoresConcat(b[..k] + [b[k]], b[k + 1..]);
    assert b == b[..k] + [b[k]] + b[k + 1..];
  }

  lemma {:induction false} CoresOfPermutation(a: seq<Request>, b: seq<Request>)
    requires multiset(a) == multiset(b)
    ensures multiset(Cores(a)) == multiset(Cores(b)) && |a| == |b|
    decreases |a|
  {
    hide Cores, Core;
    assert |multiset(a)| == |a| && |multiset(b)| == |b|;
    if a == [] {
      assert b == [];
    } else {
      var x := a[0];
      assert x in multiset(b) by {
        assert x in multiset(a);
      }
      var k :| 0 <= k < |b| && b[k] == x;
      var a', b' := a[..0] + a[1..], b[..k] + b[k + 1..];
      CoresWithout(a, 0);
      CoresWithout(b, k);
      RemoveOne(multiset(a'), multiset(b'), x);
      CoresOfPermutation(a', b');
    }
  }

  lemma RemoveOne(a: multiset<Request>, b: multiset<Request>, x: Request)
    requires a + multiset{x} == b + multiset{x}
    ensures a == b
  {
    assert a == (a + multiset{x}) - multiset{x};
    assert b == (b + multiset{x}) - multiset{x};
  }

  lemma RankingKeepsCores(p: Policy, s: State, w: seq<Request>)
    requires WellFormed(s) && RankedQueue(p, s, w)
    ensures multiset(Cores(w)) == multiset(Cores(s.pending)) && |w| == |s.pending|
    ensures forall i :: 0 <= i < |w| ==> w[i].bank < BANKS && w[i].arrivalTime <= s.cycles
  {
    if Ranks(p) {
      var b := Batched(s.pending, s.cycles);
      CoresOfPermutation(w, b);
      assert Cores(b) == Cores(s.pending);
      forall i | 0 <= i < |w| ensures w[i].bank < BANKS && w[i].arrivalTime <= s.cycles {
        assert w[i] in multiset(b);
        var j :| 0 <= j < |b| && b[j] == w[i];
      }
    }
  }

  lemma CoresAppend(w: seq<Request>, r: Request)
    ensures multiset(Cores(w + [r])) == multiset(Cores(w)) + multiset{Core(r)}
  {
    assert Cores(w + [r]) == Cores(w) + [Core(r)];
  }

  lemma CoresTail(w: seq<Request>)
    requires w != []
    ensures multiset(Cores(w)) == multiset(Cores(w[1..])) + multiset{Core(w[0])}
  {
    assert w == [w[0]] + w[1..];
    assert Cores(w) == [Core(w[0])] + Cores(w[1..]);
  }

  lemma IssueKeeps(s: State, t: Timing)
    requires WellFormed(s) && Conserved(s)
    ensures WellFormed(Issued(s, t)) && Conserved(Issued(s, t))
  {
    hide Cores, Core, Activated, Precharged;
    var w, n := s.pending, Issued(s, t);
    if n.served != s.served {
      CoresTail(w);
      CoresAppend(s.served, w[0]);
    }
  }

  lemma AdvanceKeeps(s: State, t: Timing, configured: nat)
    requires WellFormed(s) && configured <= BANKS && t.tREFI > 0
    ensures var a := Advanced(s, t, configured);
      WellFormed(a) && a.accepted == s.accepted && a.served == s.served && a.pending == s.pending &&
      a.cycles == s.cycles + 1 && (Conserved(s) ==> Conserved(a))
  {
    hide Cores;
  }

  lemma CycleKeeps(p: Policy, t: Timing, configured: nat, s: State, s': State)
    requires WellFormed(s) && configured <= BANKS && t.tREFI > 0 && Conserved(s) && Cycle(p, t, configured, s, s')
    ensures WellFormed(s') && Conserved(s')
  {
    hide Issued, Cores, Advanced, RankedQueue;
    var a := Advanced(s, t, configured);
    AdvanceKeeps(s, t, configured);
    var w: seq<Request> :| RankedQueue(p, a, w) && (w != [] ==> w[0].bank < BANKS) && s' == Issued(a.(pending := w), t);
    RankingKeepsCores(p, a, w);
    IssueKeeps(a.(pending := w), t);
  }

  lemma EnqueueKeeps(s: State, addr: nat, isWrite: bool, id: nat)
    requires WellFormed(s) && Conserved(s)
    ensures WellFormed(Enqueued(s, addr, isWrite, id)) && Conserved(Enqueued(s, addr, isWrite, id))
  {
    hide Cores, Core;
    var r := Decode(addr, isWrite, s.cycles, id);
    CoresAppend(s.pending, r);
    CoresAppend(s.accepted, r);
  }

  lemma IssuedServes(s: State, t: Timing)
    requires s.pending != [] && s.pending[0].bank < |s.banks| && Issued(s, t).served != s.served
    ensures Issued(s, t).served == s.served + [s.pending[0]] && RowHit(s.banks, s.pending[0])
  {
  }

  lemma HeadOutranks(banks: seq<Bank>, w: seq<Request>, b: seq<Request>, q: Request)
    requires InBanks(w) && |banks| == BANKS && Ranked(banks, w) && w != [] && multiset(w) == multiset(b) && q in b
    ensures q.bank < BANKS && !SwapNeeded(banks, w[0], q)
  {
    assert q in multiset(b) && q in multiset(w);
    var j :| 0 <= j < |w| && w[j] == q;
  }

  // Under a ranking policy the request served is one that no pending request outranks.
  lemma ServedIsBest(p: Policy, t: Timing, configured: nat, s: State, s': State)
    requires WellFormed(s) && configured <= BANKS && t.tREFI > 0 && Cycle(p, t, configured, s, s')
    requires p == SCHED_FR_FCFS || p == SCHED_PARBS
    requires s'.served != s.served
    ensures var a := Advanced(s, t, configured); var r := s'.served[|s'.served| - 1];
      s'.served == s.served + [r] && r.bank < BANKS && RowHit(a.banks, r) &&
      forall q :: q in Batched(s.pending, a.cycles) ==> q.bank < BANKS && !SwapNeeded(a.banks, r, q)
  {
    hide Advanced, SwapNeeded, Ranked, Batched, RowHit;
    var a := Advanced(s, t, configured);
    AdvanceKeeps(s, t, configured);
    var w: seq<Request> :| RankedQueue(p, a, w) && (w != [] ==> w[0].bank < BANKS) && s' == Issued(a.(pending := w), t);
    IssuedServes(a.(pending := w), t);
    forall q | q in Batched(s.pending, a.cycles) ensures q.bank < BANKS && !SwapNeeded(a.banks, w[0], q) {
      HeadOutranks(a.banks, w, Batched(s.pending, a.cycles), q);
    }
  }

  // ---------------------------------------------------------------- bounded bypass, under the ranking policies

  predicate IsAged(r: Request, cycles: nat) {
    cycles - r.arrivalTime > BATCH_AGE
  }

  // Only requests that waited past the batch age have the batch priority; others have none.
  predicate Earned(r: Request, cycles: nat) {
    r.priority == 0 || (r.priority == BATCH_PRIORITY && IsAged(r, cycles))
  }

  ghost predicate PrioritiesEarned(s: State) {
    forall i :: 0 <= i < |s.pending| ==> Earned(s.pending[i], s.cycles)
  }

  lemma RankedEarned(w: seq<Request>, pending: seq<Request>, cycles: nat)
    requires multiset(w) == multiset(Batched(pending, cycles + 1))
    requires forall i :: 0 <= i < |pending| ==> Earned(pending[i], cycles)
    ensures forall i :: 0 <= i < |w| ==> Earned(w[i], cycles + 1)
  {
    var b := Batched(pending, cycles + 1);
    forall i | 0 <= i < |w| ensures Earned(w[i], cycles + 1) {
      assert w[i] in multiset(b);
      var j :| 0 <= j < |b| && b[j] == w[i];
      assert w[i] == Aged(pending[j], cycles + 1);
    }
  }

  lemma IssuedKeepsQueue(s: State, t: Timing)
    requires s.pending != [] ==> s.pending[0].bank < |s.banks|
    ensures var n := Issued(s, t);
      n.cycles == s.cycles && n.accepted == s.accepted &&
      if n.served == s.served then n.pending == s.pending
      else s.pending != [] && n.served == s.served + [s.pending[0]] && n.pending == s.pending[1..]
  {
  }

  lemma IssuedEarns(s: State, t: Timing)
    requires (s.pending != [] ==> s.pending[0].bank < |s.banks|) && PrioritiesEarned(s)
    ensures PrioritiesEarned(Issued(s, t))
    ensures Issued(s, t).served == s.served || (s.pending != [] && Earned(s.pending[0], s.cycles))
  {
    hide Issued, Earned;
    IssuedKeepsQueue(s, t);
  }

  lemma RankedQueueEarned(p: Policy, s: State, a: State, w: seq<Request>)
    requires WellFormed(a) && a.pending == s.pending && a.cycles == s.cycles + 1
    requires RankedQueue(p, a, w) && PrioritiesEarned(s)
    ensures forall i :: 0 <= i < |w| ==> Earned(w[i], a.cycles)
  {
    hide Ranked, InBanks, Batched;
    if Ranks(p) {
      RankedEarned(w, s.pending, s.cycles);
    }
  }

  lemma CycleEarns(p: Policy, t: Timing, configured: nat, s: State, s': State)
    requires WellFormed(s) && configured <= BANKS && t.tREFI > 0 && Cycle(p, t, configured, s, s')
    requires PrioritiesEarned(s)
    ensures PrioritiesEarned(s') && s'.cycles == s.cycles + 1 && s'.accepted == s.accepted
    ensures s'.served == s.served ||
            (|s'.served| == |s.served| + 1 && s'.served[..|s.served|] == s.served && Earned(s'.served[|s.served|], s'.cycles))
  {
    hide Advanced, RankedQueue, Issued, Earned;
    var a := Advanced(s, t, configured);
    AdvanceKeeps(s, t, configured);
    var w: seq<Request> :| RankedQueue(p, a, w) && (w != [] ==> w[0].bank < BANKS) && s' == Issued(a.(pending := w), t);
    RankedQueueEarned(p, s, a, w);
    var before := a.(pending := w);
    assert PrioritiesEarned(before);
    IssuedEarns(before, t);
    IssuedKeepsQueue(before, t);
  }

  // While an aged request waits, whatever is served has aged too.
  lemma OnlyAgedPass(p: Policy, t: Timing, configured: nat, s: State, s': State, q: Request)
    requires WellFormed(s) && configured <= BANKS && t.tREFI > 0 && Cycle(p, t, configured, s, s')
    requires p == SCHED_FR_FCFS || p == SCHED_PARBS
    requires PrioritiesEarned(s) && q in s.pending && IsAged(q, s.cycles) && s'.served != s.served
    ensures |s'.served| == |s.served| + 1 && s'.served[..|s.served|] == s.served
    ensures IsAged(s'.served[|s.served|], s'.cycles)
  {
    hide Advanced, Ranked, RowHit, Cycle;
    CycleEarns(p, t, configured, s, s');
    ServedIsBest(p, t, configured, s, s');
    var a := Advanced(s, t, configured);
    AdvanceKeeps(s, t, configured);
    var i :| 0 <= i < |s.pending| && s.pending[i] == q;
    var b := Batched(s.pending, a.cycles);
    assert b[i] == Aged(q, a.cycles) && b[i] in b && b[i].priority == BATCH_PRIORITY;
    assert !SwapNeeded(a.banks, s'.served[|s.served|], b[i]);
  }

  // ---------------------------------------------------------------- runs from the empty controller

  // One step of a run: a cycle, or an arrival.
  ghost predicate Moves(p: Policy, t: Timing, configured: nat, s: State, s': State)
    requires WellFormed(s) && configured <= BANKS && t.tREFI > 0
  {
    Cycle(p, t, configured, s, s') || exists addr, isWrite, id :: s' == Enqueued(s, addr, isWrite, id)
  }

  const IDLE_BANK: Bank := Bank(BANK_IDLE, 0, false, 0, 0, 0, 0)

  // The controller before its first cycle.
  function Initial(): State {
    State(seq(BANKS, i => IDLE_BANK), [], 0, 0, 0, 0, 0, 0, 0, [], [])
  }

  function Max(a: nat, b: nat): nat {
    if a <= b then b else a
  }

  // The last refresh up to the given cycle.
  function LastRefresh(cycles: nat, t: Timing): nat
    requires t.tREFI > 0
  {
    cycles - cycles % t.tREFI
  }

  // Banks are busy with a command just given or with the last refresh, and no longer.
  ghost predicate ReadySoon(s: State, t: Timing)
    requires t.tREFI > 0
  {
    forall i :: 0 <= i < |s.banks| ==>
      s.banks[i].readyTime <= s.cycles + Max(t.tRP, t.tRCD) || s.banks[i].readyTime <= LastRefresh(s.cycles, t) + t.tRFC
  }

  ghost predicate Sound(s: State, t: Timing)
    requires t.tREFI > 0
  {
    WellFormed(s) && Conserved(s) && PrioritiesEarned(s) && ReadySoon(s, t)
  }

  lemma AdvanceReady(s: State, t: Timing, configured: nat)
    requires |s.banks| == BANKS && configured <= BANKS && t.tREFI > 0 && ReadySoon(s, t)
    ensures ReadySoon(Advanced(s, t, configured), t)
  {
    NextRemainder(s.cycles, t.tREFI);
  }

  lemma IssueReady(s: State, t: Timing)
    requires s.pending != [] ==> s.pending[0].bank < |s.banks|
    requires t.tREFI > 0 && ReadySoon(s, t)
    ensures ReadySoon(Issued(s, t), t)
  {
    hide LastRefresh;
  }

  lemma CycleReady(p: Policy, t: Timing, configured: nat, s: State, s': State)
    requires WellFormed(s) && configured <= BANKS && t.tREFI > 0 && Cycle(p, t, configured, s, s') && ReadySoon(s, t)
    ensures ReadySoon(s', t)
  {
    hide Advanced, Issued, RankedQueue, LastRefresh;
    var a := Advanced(s, t, configured);
    AdvanceKeeps(s, t, configured);
    AdvanceReady(s, t, configured);
    var w: seq<Request> :| RankedQueue(p, a, w) && (w != [] ==> w[0].bank < BANKS) && s' == Issued(a.(pending := w), t);
    IssueReady(a.(pending := w), t);
  }

  lemma CycleSound(p: Policy, t: Timing, configured: nat, s: State, s': State)
    requires configured <= BANKS && t.tREFI > 0 && Sound(s, t) && Cycle(p, t, configured, s, s')
    ensures Sound(s', t) && s.served <= s'.served && s'.cycles == s.cycles + 1
  {
    hide Cycle, Conserved, WellFormed, PrioritiesEarned, ReadySoon;
    CycleKeeps(p, t, configured, s, s');
    CycleEarns(p, t, configured, s, s');
    CycleReady(p, t, configured, s, s');
  }

  lemma ArrivalSound(s: State, t: Timing, addr: nat, isWrite: bool, id: nat)
    requires t.tREFI > 0 && Sound(s, t)
    ensures var n := Enqueued(s, addr, isWrite, id); Sound(n, t) && n.served == s.served && n.cycles == s.cycles
  {
    hide Conserved, WellFormed, LastRefresh, Decode;
    EnqueueKeeps(s, addr, isWrite, id);
    Fresh(addr, isWrite, s.cycles, id);
  }

  // Every step keeps the invariants, and what was served stays served.
  lemma MoveKeeps(p: Policy, t: Timing, configured: nat, s: State, s': State)
    requires configured <= BANKS && t.tREFI > 0 && Sound(s, t) && Moves(p, t, configured, s, s')
    ensures Sound(s', t) && s.served <= s'.served && s.cycles <= s'.cycles <= s.cycles + 1
  {
    hide Cycle, Enqueued, Conserved, PrioritiesEarned, ReadySoon;
    if Cycle(p, t, configured, s, s') {
      CycleSound(p, t, configured, s, s');
    } else {
      var addr, isWrite, id :| s' == Enqueued(s, addr, isWrite, id);
      ArrivalSound(s, t, addr, isWrite, id);
    }
  }

  // A run from the empty controller, under any policy.
  ghost predicate IsRun(p: Policy, t: Timing, configured: nat, states: seq<State>) {
    configured <= BANKS && t.tREFI > 0 && states != [] && states[0] == Initial() &&
    forall k :: 0 <= k < |states| - 1 && WellFormed(states[k]) ==> Moves(p, t, configured, states[k], states[k + 1])
  }

  lemma InitialSound(t: Timing)
    requires t.tREFI > 0
    ensures Sound(Initial(), t)
  {
    hide LastRefresh;
    assert Cores([]) == [];
  }

  // Every run keeps the queue well formed, requests conserved, priorities earned and banks ready in time.
  lemma {:induction false} RunKeeps(p: Policy, t: Timing, configured: nat, states: seq<State>, n: nat)
    requires IsRun(p, t, configured, states) && n < |states|
    ensures Sound(states[n], t)
  {
    hide Moves, Conserved, PrioritiesEarned, ReadySoon, Initial;
    if n == 0 {
      InitialSound(t);
    } else {
      RunKeeps(p, t, configured, states, n - 1);
      assert Moves(p, t, configured, states[n - 1], states[n - 1 + 1]);
      MoveKeeps(p, t, configured, states[n - 1], states[n]);
    }
  }

  // ---------------------------------------------------------------- timing safety, under every policy

  // A step gives bank b a command: its row is opened, or closed, or a request of its is served.
  ghost predicate Commands(s: State, s': State, b: nat)
    requires b < |s.banks| && b < |s'.banks|
  {
    s'.banks[b].rowValid != s.banks[b].rowValid ||
    (|s'.served| > |s.served| && s'.served[|s.served|].bank == b)
  }

  ghost predicate Opens(s: State, s': State, b: nat)
    requires b < |s.banks| && b < |s'.banks|
  {
    !s.banks[b].rowValid && s'.banks[b].rowValid
  }

  ghost predicate Closes(s: State, s': State, b: nat)
    requires b < |s.banks| && b < |s'.banks|
  {
    s.banks[b].rowValid && !s'.banks[b].rowValid
  }

  // What the command phase does to one bank.
  lemma IssuedBank(s: State, t: Timing, b: nat)
    requires |s.banks| == BANKS && b < BANKS && (s.pending != [] ==> s.pending[0].bank < BANKS)
    ensures var n := Issued(s, t);
      |n.banks| == BANKS &&
      (s.cycles < s.banks[b].readyTime ==> n.banks[b] == s.banks[b] && !Commands(s, n, b)) &&
      (s.cycles >= s.banks[b].readyTime ==> n.banks[b].readyTime >= s.banks[b].readyTime) &&
      (Opens(s, n, b) ==> n.banks[b].readyTime == s.cycles + t.tRCD) &&
      (Closes(s, n, b) ==> n.banks[b].readyTime == s.cycles + t.tRP)
  {
  }

  // Time moves no row; a refresh makes a configured bank busy for tRFC, and nothing else moves its wait.
  lemma AdvancedBank(s: State, t: Timing, configured: nat, b: nat)
    requires |s.banks| == BANKS && b < BANKS && configured <= BANKS && t.tREFI > 0
    ensures var a := Advanced(s, t, configured);
      a.served == s.served && a.banks[b].rowValid == s.banks[b].rowValid &&
      a.banks[b].readyTime ==
        if (s.cycles + 1) % t.tREFI == 0 && b < configured then s.cycles + 1 + t.tRFC else s.banks[b].readyTime
  {
  }

  lemma CycleBank(p: Policy, t: Timing, configured: nat, s: State, s': State, b: nat)
    requires WellFormed(s) && b < BANKS && configured <= BANKS && t.tREFI > 0 && Cycle(p, t, configured, s, s')
    ensures |s'.banks| == BANKS && s'.cycles == s.cycles + 1
    ensures var ready := Advanced(s, t, configured).banks[b].readyTime;
      (s'.cycles < ready ==> s'.banks[b].readyTime == ready && !Commands(s, s', b)) &&
      (s'.cycles >= ready ==> s'.banks[b].readyTime >= ready)
    ensures Opens(s, s', b) ==> s'.banks[b].readyTime == s'.cycles + t.tRCD
    ensures Closes(s, s', b) ==> s'.banks[b].readyTime == s'.cycles + t.tRP
  {
    hide Advanced, Issued, RankedQueue;
    var a := Advanced(s, t, configured);
    AdvanceKeeps(s, t, configured);
    AdvancedBank(s, t, configured, b);
    var w: seq<Request> :| RankedQueue(p, a, w) && (w != [] ==> w[0].bank < BANKS) && s' == Issued(a.(pending := w), t);
    IssuedBank(a.(pending := w), t, b);
    IssuedKeepsQueue(a.(pending := w), t);
  }

  // A wait, not longer than a refresh starting with the next cycle, outlives a step, and the bank gets no
  // command before it is over.
  lemma WaitStays(p: Policy, t: Timing, configured: nat, s: State, s': State, b: nat, until: int)
    requires WellFormed(s) && b < BANKS && configured <= BANKS && t.tREFI > 0 && Moves(p, t, configured, s, s')
    requires s.banks[b].readyTime >= until && until <= s.cycles + 1 + t.tRFC
    ensures |s'.banks| == BANKS && s.cycles <= s'.cycles && s'.banks[b].readyTime >= until
    ensures Commands(s, s', b) ==> s'.cycles >= until
  {
    hide Decode, Cycle, Commands;
    if Cycle(p, t, configured, s, s') {
      CycleBank(p, t, configured, s, s', b);
      AdvancedBank(s, t, configured, b);
      hide Advanced;
    } else {
      var addr, isWrite, id :| s' == Enqueued(s, addr, isWrite, id);
      NoCommand(s, s', b);
    }
  }

  lemma NoCommand(s: State, s': State, b: nat)
    requires b < |s.banks| && s'.banks == s.banks && s'.served == s.served
    ensures !Commands(s, s', b)
  {
  }

  // Step k of a run, with the facts about it.
  ghost predicate StepOf(p: Policy, t: Timing, configured: nat, states: seq<State>, k: nat) {
    IsRun(p, t, configured, states) && k + 1 < |states| &&
    |states[k].banks| == BANKS && |states[k + 1].banks| == BANKS && WellFormed(states[k]) &&
    Moves(p, t, configured, states[k], states[k + 1])
  }

  lemma RunStep(p: Policy, t: Timing, configured: nat, states: seq<State>, k: nat)
    requires IsRun(p, t, configured, states) && k + 1 < |states|
    ensures StepOf(p, t, configured, states, k) && configured <= BANKS && t.tREFI > 0
  {
    hide Moves, Conserved, PrioritiesEarned, ReadySoon;
    RunKeeps(p, t, configured, states, k);
    RunKeeps(p, t, configured, states, k + 1);
  }

  lemma {:induction false} WaitOverRun(p: Policy, t: Timing, configured: nat, states: seq<State>, i: nat, j: nat, b: nat, until: int)
    requires IsRun(p, t, configured, states) && i <= j < |states| && b < BANKS
    requires |states[i].banks| == BANKS && states[i].banks[b].readyTime >= until && until <= states[i].cycles + 1 + t.tRFC
    ensures |states[j].banks| == BANKS && states[i].cycles <= states[j].cycles && states[j].banks[b].readyTime >= until
    decreases j
  {
    hide IsRun, Moves, WellFormed;
    if i < j {
      WaitOverRun(p, t, configured, states, i, j - 1, b, until);
      RunStep(p, t, configured, states, j - 1);
      StepWaits(p, t, configured, states, j - 1, b, until);
    }
  }

  lemma StepWaits(p: Policy, t: Timing, configured: nat, states: seq<State>, j: nat, b: nat, until: int)
    requires StepOf(p, t, configured, states, j) && b < BANKS
    requires states[j].banks[b].readyTime >= until && until <= states[j].cycles + 1 + t.tRFC
    ensures states[j].cycles <= states[j + 1].cycles && states[j + 1].banks[b].readyTime >= until
    ensures Commands(states[j], states[j + 1], b) ==> states[j + 1].cycles >= until
  {
    hide Moves, WellFormed, Commands;
    WaitStays(p, t, configured, states[j], states[j + 1], b, until);
  }

  // Over every run and under every policy, after its row is opened a bank gets no command for tRCD cycles,
  // or for tRFC + 1 if that is less.
  lemma OpenedRowWaits(p: Policy, t: Timing, configured: nat, states: seq<State>, i: nat, j: nat, b: nat)
    requires IsRun(p, t, configured, states) && i < j && j + 1 < |states| && b < BANKS
    ensures |states[i].banks| == |states[i + 1].banks| == |states[j].banks| == |states[j + 1].banks| == BANKS
    ensures Opens(states[i], states[i + 1], b) && Commands(states[j], states[j + 1], b) ==>
      states[j + 1].cycles >= states[i + 1].cycles + Min(t.tRCD, t.tRFC + 1)
  {
    hide IsRun, Moves, WellFormed, Commands;
    RunStep(p, t, configured, states, i);
    RunStep(p, t, configured, states, j);
    if Opens(states[i], states[i + 1], b) {
      CommandTimes(p, t, configured, states, i, b);
      var until := states[i + 1].cycles + Min(t.tRCD, t.tRFC + 1);
      WaitOverRun(p, t, configured, states, i + 1, j, b, until);
      StepWaits(p, t, configured, states, j, b, until);
    }
  }

  lemma CommandTimes(p: Policy, t: Timing, configured: nat, states: seq<State>, i: nat, b: nat)
    requires StepOf(p, t, configured, states, i) && b < BANKS
    ensures Opens(states[i], states[i + 1], b) ==> states[i + 1].banks[b].readyTime == states[i + 1].cycles + t.tRCD
    ensures Closes(states[i], states[i + 1], b) ==> states[i + 1].banks[b].readyTime == states[i + 1].cycles + t.tRP
  {
    hide WellFormed, Decode, Cycle;
    if Cycle(p, t, configured, states[i], states[i + 1]) {
      CycleBank(p, t, configured, states[i], states[i + 1], b);
    }
  }

  // ... and after its row is closed none for tRP cycles, or for tRFC + 1 if that is less.
  lemma ClosedRowWaits(p: Policy, t: Timing, configured: nat, states: seq<State>, i: nat, j: nat, b: nat)
    requires IsRun(p, t, configured, states) && i < j && j + 1 < |states| && b < BANKS
    ensures |states[i].banks| == |states[i + 1].banks| == |states[j].banks| == |states[j + 1].banks| == BANKS
    ensures Closes(states[i], states[i + 1], b) && Commands(states[j], states[j + 1], b) ==>
      states[j + 1].cycles >= states[i + 1].cycles + Min(t.tRP, t.tRFC + 1)
  {
    hide IsRun, Moves, WellFormed, Commands;
    RunStep(p, t, configured, states, i);
    RunStep(p, t, configured, states, j);
    if Closes(states[i], states[i + 1], b) {
      CommandTimes(p, t, configured, states, i, b);
      var until := states[i + 1].cycles + Min(t.tRP, t.tRFC + 1);
      WaitOverRun(p, t, configured, states, i + 1, j, b, until);
      StepWaits(p, t, configured, states, j, b, until);
    }
  }

  // ... and from the cycle of a refresh on, a configured bank gets none for tRFC cycles.
  lemma RefreshedBankWaits(p: Policy, t: Timing, configured: nat, states: seq<State>, i: nat, j: nat, b: nat)
    requires IsRun(p, t, configured, states) && i <= j && j + 1 < |states| && b < configured
    ensures |states[j].banks| == |states[j + 1].banks| == BANKS
    ensures states[i + 1].cycles > states[i].cycles && states[i + 1].cycles % t.tREFI == 0 &&
            Commands(states[j], states[j + 1], b) ==>
      states[j + 1].cycles >= states[i + 1].cycles + t.tRFC
  {
    hide IsRun, Moves, WellFormed, Commands;
    RunStep(p, t, configured, states, i);
    RunStep(p, t, configured, states, j);
    if states[i + 1].cycles > states[i].cycles && states[i + 1].cycles % t.tREFI == 0 {
      RefreshTimes(p, t, configured, states, i, b);
      if i < j {
        var until := states[i + 1].cycles + t.tRFC;
        WaitOverRun(p, t, configured, states, i + 1, j, b, until);
        StepWaits(p, t, configured, states, j, b, until);
      }
    }
  }

  lemma RefreshTimes(p: Policy, t: Timing, configured: nat, states: seq<State>, i: nat, b: nat)
    requires StepOf(p, t, configured, states, i) && b < configured <= BANKS
    requires states[i + 1].cycles > states[i].cycles && states[i + 1].cycles % t.tREFI == 0
    ensures states[i + 1].banks[b].readyTime >= states[i + 1].cycles + t.tRFC
    ensures Commands(states[i], states[i + 1], b) ==> t.tRFC == 0
  {
    hide WellFormed, Decode, Cycle, Commands;
    if Cycle(p, t, configured, states[i], states[i + 1]) {
      CycleBank(p, t, configured, states[i], states[i + 1], b);
      AdvancedBank(states[i], t, configured, b);
    }
  }

  // ---------------------------------------------------------------- what the counters and bank states say

  datatype Command = OpenRow | CloseRow | ServeRow

  // The step gives bank b the command.
  ghost predicate Gives(s: State, s': State, b: nat, c: Command) {
    |s.banks| == |s'.banks| == BANKS && b < BANKS &&
    match c
    case OpenRow => Opens(s, s', b)
    case CloseRow => Closes(s, s', b)
    case ServeRow => |s'.served| > |s.served| && s'.served[|s.served|].bank == b
  }

  ghost function One(p: bool): nat {
    if p then 1 else 0
  }

  // How often the first n steps gave bank b the command.
  ghost function Given(states: seq<State>, n: nat, b: nat, c: Command): nat
    requires n < |states|
  {
    if n == 0 then 0 else Given(states, n - 1, b, c) + One(Gives(states[n - 1], states[n], b, c))
  }

  // How often they gave any bank the command.
  ghost predicate GivesSome(s: State, s': State, c: Command) {
    exists b :: 0 <= b < BANKS && Gives(s, s', b, c)
  }

  ghost function GivenSome(states: seq<State>, n: nat, c: Command): nat
    requires n < |states|
  {
    if n == 0 then 0 else GivenSome(states, n - 1, c) + One(GivesSome(states[n - 1], states[n], c))
  }

  // A cycle with requests in the queue and no command.
  ghost predicate Stalls(s: State, s': State) {
    s'.cycles > s.cycles && s.pending != [] && forall b, c :: 0 <= b < BANKS ==> !Gives(s, s', b, c)
  }

  ghost function StallsIn(states: seq<State>, n: nat): nat
    requires n < |states|
  {
    if n == 0 then 0 else StallsIn(states, n - 1) + One(Stalls(states[n - 1], states[n]))
  }

  // The counters of one command phase; it gives at most one command.
  lemma IssuedCounts(s: State, t: Timing, b: nat)
    requires |s.banks| == BANKS && b < BANKS && (s.pending != [] ==> s.pending[0].bank < BANKS)
    ensures var n := Issued(s, t);
      |n.banks| == BANKS &&
      n.banks[b].activeCount == s.banks[b].activeCount + One(Gives(s, n, b, OpenRow)) &&
      n.banks[b].rowMissCount == s.banks[b].rowMissCount + One(Gives(s, n, b, OpenRow)) + One(Gives(s, n, b, CloseRow)) &&
      n.banks[b].rowHitCount == s.banks[b].rowHitCount + One(Gives(s, n, b, ServeRow))
  {
  }

  lemma IssuedTotals(s: State, t: Timing)
    requires |s.banks| == BANKS && (s.pending != [] ==> s.pending[0].bank < BANKS)
    ensures var n := Issued(s, t);
      n.rowConflicts == s.rowConflicts + One(GivesSome(s, n, CloseRow)) &&
      n.refreshCycles == s.refreshCycles &&
      n.stallCycles == s.stallCycles + One(s.pending != [] && forall b, c :: 0 <= b < BANKS ==> !Gives(s, n, b, c))
  {
    var n := Issued(s, t);
    if s.pending != [] {
      var k := s.pending[0].bank;
      var c := if !s.banks[k].rowValid then OpenRow else if s.banks[k].openRow != s.pending[0].row then CloseRow else ServeRow;
      if s.cycles >= s.banks[k].readyTime {
        assert Gives(s, n, k, c);
      }
    }
  }

  // Advancing gives no command.
  lemma AdvancedGives(s: State, a: State, n: State, b: nat, c: Command)
    requires |s.banks| == |a.banks| == |n.banks| == BANKS && b < BANKS && a.served == s.served
    requires a.banks[b].rowValid == s.banks[b].rowValid
    ensures Gives(a, n, b, c) == Gives(s, n, b, c)
  {
  }

  lemma AdvancedCounts(s: State, t: Timing, configured: nat, b: nat)
    requires |s.banks| == BANKS && b < BANKS && configured <= BANKS && t.tREFI > 0
    ensures var a, o := Advanced(s, t, configured).banks[b], s.banks[b];
      a.activeCount == o.activeCount && a.rowMissCount == o.rowMissCount && a.rowHitCount == o.rowHitCount
  {
  }

  lemma AdvancedTotals(s: State, t: Timing, configured: nat)
    requires |s.banks| == BANKS && configured <= BANKS && t.tREFI > 0
    ensures var a := Advanced(s, t, configured); var d := if (s.cycles + 1) % t.tREFI == 0 then t.tRFC else 0;
      a.rowConflicts == s.rowConflicts && a.refreshCycles == s.refreshCycles + d && a.stallCycles == s.stallCycles + d
  {
  }

  ghost predicate BankCounted(s: State, s': State, b: nat) {
    |s.banks| == |s'.banks| == BANKS && b < BANKS &&
    s'.banks[b].activeCount == s.banks[b].activeCount + One(Gives(s, s', b, OpenRow)) &&
    s'.banks[b].rowMissCount == s.banks[b].rowMissCount + One(Gives(s, s', b, OpenRow)) + One(Gives(s, s', b, CloseRow)) &&
    s'.banks[b].rowHitCount == s.banks[b].rowHitCount + One(Gives(s, s', b, ServeRow))
  }

  lemma CycleCounts(p: Policy, t: Timing, configured: nat, s: State, s': State, b: nat)
    requires WellFormed(s) && b < BANKS && configured <= BANKS && t.tREFI > 0 && Cycle(p, t, configured, s, s')
    ensures BankCounted(s, s', b)
  {
    hide Advanced, Issued, RankedQueue, Gives, One;
    var a := Advanced(s, t, configured);
    AdvanceKeeps(s, t, configured);
    AdvancedBank(s, t, configured, b);
    AdvancedCounts(s, t, configured, b);
    var w: seq<Request> :| RankedQueue(p, a, w) && (w != [] ==> w[0].bank < BANKS) && s' == Issued(a.(pending := w), t);
    IssuedCounts(a.(pending := w), t, b);
    forall c ensures Gives(a.(pending := w), s', b, c) == Gives(s, s', b, c) {
      AdvancedGives(s, a.(pending := w), s', b, c);
    }
  }

  lemma MoveCounts(p: Policy, t: Timing, configured: nat, s: State, s': State, b: nat)
    requires WellFormed(s) && b < BANKS && configured <= BANKS && t.tREFI > 0 && Moves(p, t, configured, s, s')
    ensures BankCounted(s, s', b)
  {
    hide Cycle, Decode;
    if Cycle(p, t, configured, s, s') {
      CycleCounts(p, t, configured, s, s', b);
    }
  }

  // In every run a bank's counters are the numbers of its openings, of its openings and closings, and of
  // the requests served from it.
  lemma {:induction false} CountersCount(p: Policy, t: Timing, configured: nat, states: seq<State>, n: nat, b: nat)
    requires IsRun(p, t, configured, states) && n < |states| && b < BANKS
    ensures |states[n].banks| == BANKS
    ensures var k := states[n].banks[b];
      k.activeCount == Given(states, n, b, OpenRow) &&
      k.rowMissCount == Given(states, n, b, OpenRow) + Given(states, n, b, CloseRow) &&
      k.rowHitCount == Given(states, n, b, ServeRow)
  {
    hide IsRun, Moves, WellFormed, Gives, One;
    if n == 0 {
      StartsIdle(p, t, configured, states);
    } else {
      CountersCount(p, t, configured, states, n - 1, b);
      RunStep(p, t, configured, states, n - 1);
      MoveCounts(p, t, configured, states[n - 1], states[n - 1 + 1], b);
    }
  }

  lemma StartsIdle(p: Policy, t: Timing, configured: nat, states: seq<State>)
    requires IsRun(p, t, configured, states)
    ensures states != [] && states[0] == Initial()
  {
  }

  ghost predicate TotalsCounted(s: State, s': State, t: Timing)
    requires t.tREFI > 0
  {
    var d := if s'.cycles > s.cycles && RefreshesAt(s'.cycles, t) then t.tRFC else 0;
    s'.rowConflicts == s.rowConflicts + One(GivesSome(s, s', CloseRow)) &&
    s'.refreshCycles == s.refreshCycles + d && s'.stallCycles == s.stallCycles + d + One(Stalls(s, s'))
  }

  lemma CycleTotals(p: Policy, t: Timing, configured: nat, s: State, s': State)
    requires WellFormed(s) && configured <= BANKS && t.tREFI > 0 && Cycle(p, t, configured, s, s')
    ensures TotalsCounted(s, s', t)
  {
    hide Advanced, Issued, RankedQueue, Gives, One;
    var a := Advanced(s, t, configured);
    AdvanceKeeps(s, t, configured);
    AdvancedTotals(s, t, configured);
    var w: seq<Request> :| RankedQueue(p, a, w) && (w != [] ==> w[0].bank < BANKS) && s' == Issued(a.(pending := w), t);
    var q := a.(pending := w);
    RankingKeepsCores(p, a, w);
    IssuedTotals(q, t);
    IssuedKeepsQueue(q, t);
    forall b: nat, c | b < BANKS ensures Gives(q, s', b, c) == Gives(s, s', b, c) {
      AdvancedBank(s, t, configured, b);
      CycleBank(p, t, configured, s, s', b);
      AdvancedGives(s, q, s', b, c);
    }
    SameSome(s, q, s', CloseRow);
    SameStalls(s, q, s');
  }

  lemma SameSome(s: State, q: State, s': State, c: Command)
    requires forall b: nat :: b < BANKS ==> Gives(q, s', b, c) == Gives(s, s', b, c)
    ensures GivesSome(q, s', c) == GivesSome(s, s', c)
  {
    hide Gives;
    if b :| 0 <= b < BANKS && Gives(s, s', b, c) {
      assert Gives(q, s', b, c);
    }
  }

  lemma SameStalls(s: State, q: State, s': State)
    requires s'.cycles > s.cycles && (q.pending == [] <==> s.pending == [])
    requires forall b: nat, c :: b < BANKS ==> Gives(q, s', b, c) == Gives(s, s', b, c)
    ensures (q.pending != [] && forall b, c :: 0 <= b < BANKS ==> !Gives(q, s', b, c)) <==> Stalls(s, s')
  {
    hide Gives;
    forall b: int, c | 0 <= b < BANKS ensures Gives(q, s', b, c) == Gives(s, s', b, c) {}
  }

  lemma MoveTotals(p: Policy, t: Timing, configured: nat, s: State, s': State)
    requires WellFormed(s) && configured <= BANKS && t.tREFI > 0 && Moves(p, t, configured, s, s')
    ensures TotalsCounted(s, s', t) && s.cycles <= s'.cycles <= s.cycles + 1
  {
    hide Cycle, Decode, RefreshesAt;
    if Cycle(p, t, configured, s, s') {
      CycleTotals(p, t, configured, s, s');
      CycleBank(p, t, configured, s, s', 0);
    }
  }

  lemma NextQuotient(c: nat, n: nat)
    requires n > 0
    ensures (c + 1) / n == c / n + if (c + 1) % n == 0 then 1 else 0
  {
    DivisionLaw(c, n);
    NextRemainder(c, n);
    if (c + 1) % n == 0 {
      Distribute(c / n, -1, n);
      QuotientIs(c + 1, n, c / n + 1, 0);
    } else {
      QuotientIs(c + 1, n, c / n, c % n + 1);
    }
  }

  // tRFC for every refresh so far.
  function RefreshTime(cycles: nat, t: Timing): nat
    requires t.tREFI > 0
  {
    cycles / t.tREFI * t.tRFC
  }

  lemma RefreshTimeNext(c: nat, t: Timing)
    requires t.tREFI > 0
    ensures RefreshTime(c + 1, t) == RefreshTime(c, t) + if RefreshesAt(c + 1, t) then t.tRFC else 0
  {
    NextQuotient(c, t.tREFI);
    Distribute(c / t.tREFI, -1, t.tRFC);
  }

  // The totals of a state, given the numbers of closings and stalls before it.
  ghost predicate TotalsAre(s: State, t: Timing, closings: nat, stalls: nat)
    requires t.tREFI > 0
  {
    s.rowConflicts == closings && s.refreshCycles == RefreshTime(s.cycles, t) &&
    s.stallCycles == RefreshTime(s.cycles, t) + stalls
  }

  lemma TotalsStep(p: Policy, t: Timing, configured: nat, s: State, s': State, closings: nat, stalls: nat)
    requires configured <= BANKS && t.tREFI > 0 && WellFormed(s) && Moves(p, t, configured, s, s')
    requires TotalsAre(s, t, closings, stalls)
    ensures TotalsAre(s', t, closings + One(GivesSome(s, s', CloseRow)), stalls + One(Stalls(s, s')))
  {
    hide Moves, WellFormed, GivesSome, Stalls, One, RefreshTime, RefreshesAt;
    MoveTotals(p, t, configured, s, s');
    if s'.cycles > s.cycles {
      RefreshTimeNext(s.cycles, t);
    }
  }

  // In every run the conflict counter is the number of closings, the refresh counter tRFC for every tREFI
  // cycles, and the stall counter that plus the cycles with requests and no command.
  lemma {:induction false} TotalsCount(p: Policy, t: Timing, configured: nat, states: seq<State>, n: nat)
    requires t.tREFI > 0 && IsRun(p, t, configured, states) && n < |states|
    ensures TotalsAre(states[n], t, GivenSome(states, n, CloseRow), StallsIn(states, n))
  {
    hide IsRun, Moves, WellFormed, GivesSome, Stalls, One, TotalsAre;
    if n == 0 {
      StartsIdle(p, t, configured, states);
      TotalsStart(t);
    } else {
      TotalsCount(p, t, configured, states, n - 1);
      RunStep(p, t, configured, states, n - 1);
      assert states[n - 1 + 1] == states[n];
      TotalsStep(p, t, configured, states[n - 1], states[n], GivenSome(states, n - 1, CloseRow), StallsIn(states, n - 1));
    }
  }

  lemma TotalsStart(t: Timing)
    requires t.tREFI > 0
    ensures TotalsAre(Initial(), t, 0, 0)
  {
    QuotientIs(0, t.tREFI, 0, 0);
  }

  // The state of a bank goes with its row: open or being opened with a valid row, idle or being closed
  // without; open and idle only when ready.
  ghost predicate StateFits(b: Bank, cycles: nat) {
    (b.state == BANK_ACTIVATING || b.state == BANK_ACTIVE ==> b.rowValid) &&
    (b.state == BANK_PRECHARGING || b.state == BANK_IDLE ==> !b.rowValid) &&
    (b.state == BANK_ACTIVE || b.state == BANK_IDLE ==> b.readyTime <= cycles)
  }

  // After a cycle a configured bank is on the way only before its time; the others are never settled or
  // refreshed.
  ghost predicate Settles(b: Bank, cycles: nat, configured: bool) {
    if configured then b.state == BANK_ACTIVATING || b.state == BANK_PRECHARGING ==> cycles < b.readyTime
    else b.state != BANK_ACTIVE && b.state != BANK_REFRESHING
  }

  ghost predicate StatesFit(s: State, configured: nat) {
    forall i :: 0 <= i < |s.banks| ==> StateFits(s.banks[i], s.cycles) && Settles(s.banks[i], s.cycles, i < configured)
  }

  lemma AdvancedFits(s: State, t: Timing, configured: nat)
    requires |s.banks| == BANKS && configured <= BANKS && t.tREFI > 0 && StatesFit(s, configured)
    ensures StatesFit(Advanced(s, t, configured), configured)
  {
  }

  lemma IssuedFits(s: State, t: Timing, configured: nat)
    requires |s.banks| == BANKS && StatesFit(s, configured) && (s.pending != [] ==> s.pending[0].bank < BANKS)
    requires t.tRCD > 0 && t.tRP > 0
    ensures StatesFit(Issued(s, t), configured)
  {
  }

  lemma MoveFits(p: Policy, t: Timing, configured: nat, s: State, s': State)
    requires WellFormed(s) && configured <= BANKS && t.tREFI > 0 && t.tRCD > 0 && t.tRP > 0
    requires Moves(p, t, configured, s, s') && StatesFit(s, configured)
    ensures StatesFit(s', configured)
  {
    hide Advanced, Issued, RankedQueue, StateFits, Settles, Decode;
    if Cycle(p, t, configured, s, s') {
      var a := Advanced(s, t, configured);
      AdvanceKeeps(s, t, configured);
      AdvancedFits(s, t, configured);
      var w: seq<Request> :| RankedQueue(p, a, w) && (w != [] ==> w[0].bank < BANKS) && s' == Issued(a.(pending := w), t);
      IssuedFits(a.(pending := w), t, configured);
    }
  }

  lemma {:induction false} RunFits(p: Policy, t: Timing, configured: nat, states: seq<State>, n: nat)
    requires IsRun(p, t, configured, states) && n < |states| && t.tRCD > 0 && t.tRP > 0
    ensures StatesFit(states[n], configured)
  {
    hide IsRun, Moves, WellFormed, StatesFit;
    if n == 0 {
      StartsIdle(p, t, configured, states);
      InitialFits(configured);
    } else {
      RunFits(p, t, configured, states, n - 1);
      RunStep(p, t, configured, states, n - 1);
      MoveFits(p, t, configured, states[n - 1], states[n - 1 + 1]);
    }
  }

  lemma InitialFits(configured: nat)
    ensures StatesFit(Initial(), configured)
  {
  }

  // ---------------------------------------------------------------- exactly when the waits are complete

  // A step in which bank b is opened, and a later one that gives it a command.
  ghost predicate OpenedThenCommanded(p: Policy, t: Timing, configured: nat, states: seq<State>, i: nat, j: nat, b: nat) {
    i < j && b < BANKS && StepOf(p, t, configured, states, i) && StepOf(p, t, configured, states, j) &&
    Opens(states[i], states[i + 1], b) && Commands(states[j], states[j + 1], b)
  }

  ghost predicate ClosedThenCommanded(p: Policy, t: Timing, configured: nat, states: seq<State>, i: nat, j: nat, b: nat) {
    i < j && b < BANKS && StepOf(p, t, configured, states, i) && StepOf(p, t, configured, states, j) &&
    Closes(states[i], states[i + 1], b) && Commands(states[j], states[j + 1], b)
  }

  // Bank 0 and the queue: the rows asked of bank 0, and no other request.
  ghost predicate Facing(s: State, now: nat, valid: bool, row: nat, ready: nat, rows: seq<nat>) {
    WellFormed(s) && s.cycles == now && s.banks[0].rowValid == valid && s.banks[0].readyTime == ready &&
    (valid ==> s.banks[0].openRow == row) && |s.pending| == |rows| &&
    forall i :: 0 <= i < |rows| ==> s.pending[i].bank == 0 && s.pending[i].row == rows[i]
  }

  lemma Extend(p: Policy, t: Timing, configured: nat, states: seq<State>, s': State)
    requires IsRun(p, t, configured, states) && WellFormed(states[|states| - 1])
    requires Moves(p, t, configured, states[|states| - 1], s')
    ensures IsRun(p, t, configured, states + [s'])
  {
    hide Moves, WellFormed;
    var n := |states|;
    var all := states + [s'];
    forall k | 0 <= k < |all| - 1 && WellFormed(all[k]) ensures Moves(p, t, configured, all[k], all[k + 1]) {
      if k < n - 1 {
        assert all[k] == states[k] && all[k + 1] == states[k + 1];
      }
    }
  }

  // A run of the FCFS controller with all banks, one cycle longer.
  lemma Tick(t: Timing, states: seq<State>) returns (longer: seq<State>)
    requires IsRun(SCHED_FCFS, t, BANKS, states) && WellFormed(states[|states| - 1])
    ensures longer == states + [FcfsCycle(states[|states| - 1], t, BANKS)] && IsRun(SCHED_FCFS, t, BANKS, longer)
  {
    hide WellFormed, FcfsCycle;
    var s := states[|states| - 1];
    FcfsIsCycle(SCHED_FCFS, t, BANKS, s, FcfsCycle(s, t, BANKS));
    Extend(SCHED_FCFS, t, BANKS, states, FcfsCycle(s, t, BANKS));
    longer := states + [FcfsCycle(s, t, BANKS)];
  }

  lemma QuietTick(s: State, t: Timing, now: nat, valid: bool, row: nat, ready: nat, rows: seq<nat>)
    requires t.tREFI > 0 && Facing(s, now, valid, row, ready, rows) && (now + 1) % t.tREFI != 0
    requires rows == [] || now + 1 < ready
    ensures Facing(FcfsCycle(s, t, BANKS), now + 1, valid, row, ready, rows)
  {
  }

  lemma OpenTick(s: State, t: Timing, now: nat, row: nat, ready: nat, rows: seq<nat>)
    requires t.tREFI > 0 && Facing(s, now, false, row, ready, rows) && (now + 1) % t.tREFI != 0
    requires rows != [] && now + 1 >= ready
    ensures Facing(FcfsCycle(s, t, BANKS), now + 1, true, rows[0], now + 1 + t.tRCD, rows)
  {
  }

  lemma CloseTick(s: State, t: Timing, now: nat, row: nat, ready: nat, rows: seq<nat>)
    requires t.tREFI > 0 && Facing(s, now, true, row, ready, rows) && (now + 1) % t.tREFI != 0
    requires rows != [] && rows[0] != row && now + 1 >= ready
    ensures Facing(FcfsCycle(s, t, BANKS), now + 1, false, row, now + 1 + t.tRP, rows)
  {
  }

  lemma ServeTick(s: State, t: Timing, now: nat, row: nat, ready: nat, rows: seq<nat>)
    requires t.tREFI > 0 && Facing(s, now, true, row, ready, rows) && (now + 1) % t.tREFI != 0
    requires rows != [] && rows[0] == row && now + 1 >= ready
    ensures Facing(FcfsCycle(s, t, BANKS), now + 1, true, row, ready, rows[1..])
    ensures FcfsCycle(s, t, BANKS).served == s.served + [s.pending[0]] && s.pending[0].bank == 0
  {
  }

  lemma RefreshTick(s: State, t: Timing, now: nat, valid: bool, row: nat, ready: nat, rows: seq<nat>)
    requires t.tREFI > 0 && t.tRFC > 0 && Facing(s, now, valid, row, ready, rows) && (now + 1) % t.tREFI == 0
    ensures Facing(FcfsCycle(s, t, BANKS), now + 1, valid, row, now + 1 + t.tRFC, rows)
  {
  }

  // The next request for bank 0: row 0 or row 1.
  lemma Arrive(t: Timing, states: seq<State>, now: nat, valid: bool, row: nat, ready: nat, next: nat) returns (longer: seq<State>)
    requires IsRun(SCHED_FCFS, t, BANKS, states) && Facing(states[|states| - 1], now, valid, row, ready, []) && next < 2
    ensures IsRun(SCHED_FCFS, t, BANKS, longer) && |longer| == |states| + 1
    ensures Facing(longer[|longer| - 1], now, valid, row, ready, [next])
  {
    var s := states[|states| - 1];
    var s' := Enqueued(s, 65536 * next, false, 0);
    PartsOfAddress(0, 0, next, 0, 0, 0, false, s.cycles, 0);
    hide Decode, IsRun;
    Extend(SCHED_FCFS, t, BANKS, states, s');
    longer := states + [s'];
  }

  // Cycles in which nothing happens.
  lemma {:induction false} QuietRun(t: Timing, states: seq<State>, n: nat, now: nat, valid: bool, row: nat, ready: nat, rows: seq<nat>)
    returns (longer: seq<State>)
    requires IsRun(SCHED_FCFS, t, BANKS, states) && states != [] && Facing(states[|states| - 1], now, valid, row, ready, rows)
    requires rows == [] || now + n < ready
    requires t.tREFI > 0 && forall c :: now < c <= now + n ==> c % t.tREFI != 0
    ensures IsRun(SCHED_FCFS, t, BANKS, longer) && |longer| == |states| + n && states <= longer
    ensures Facing(longer[|longer| - 1], now + n, valid, row, ready, rows)
  {
    hide IsRun, FcfsCycle;
    longer := states;
    if n > 0 {
      longer := QuietRun(t, states, n - 1, now, valid, row, ready, rows);
      QuietTick(longer[|longer| - 1], t, now + n - 1, valid, row, ready, rows);
      longer := Tick(t, longer);
    }
  }

  lemma NoRefreshBetween(k: nat, c: nat, n: nat)
    requires n > 0 && k < 2 && k * n < c < k * n + n
    ensures c % n != 0
  {
    RemainderIs(c, n, k, c - k * n);
  }

  // An idle controller up to two cycles before the first refresh.
  lemma IdleRun(t: Timing) returns (states: seq<State>)
    requires t.tREFI >= 2
    ensures IsRun(SCHED_FCFS, t, BANKS, states) && Facing(states[|states| - 1], t.tREFI - 2, false, 0, 0, [])
  {
    states := [Initial()];
    assert Facing(Initial(), 0, false, 0, 0, []);
    forall c | 0 < c <= t.tREFI - 2 ensures c % t.tREFI != 0 {
      NoRefreshBetween(0, c, t.tREFI);
    }
    states := QuietRun(t, states, t.tREFI - 2, 0, false, 0, 0, []);
  }

  // The end of a refresh: the cycles in which the head waits for it.
  lemma RefreshRun(t: Timing, states: seq<State>, valid: bool, row: nat, ready: nat, next: nat) returns (longer: seq<State>)
    requires Positive(t) && IsRun(SCHED_FCFS, t, BANKS, states) && states != []
    requires Facing(states[|states| - 1], t.tREFI - 1, valid, row, ready, [next])
    ensures IsRun(SCHED_FCFS, t, BANKS, longer) && |longer| > |states| && states <= longer
    ensures Facing(longer[|longer| - 1], t.tREFI + t.tRFC - 1, valid, row, t.tREFI + t.tRFC, [next])
  {
    hide IsRun, FcfsCycle, Facing;
    RemainderIs(t.tREFI, t.tREFI, 1, 0);
    RefreshTick(states[|states| - 1], t, t.tREFI - 1, valid, row, ready, [next]);
    FacingFormed(states[|states| - 1], t.tREFI - 1, valid, row, ready, [next]);
    longer := Tick(t, states);
    forall c | t.tREFI < c <= t.tREFI + (t.tRFC - 1) ensures c % t.tREFI != 0 {
      NoRefreshBetween(1, c, t.tREFI);
    }
    longer := QuietRun(t, longer, t.tRFC - 1, t.tREFI, valid, row, t.tREFI + t.tRFC, [next]);
  }

  lemma FacingFormed(s: State, now: nat, valid: bool, row: nat, ready: nat, rows: seq<nat>)
    requires Facing(s, now, valid, row, ready, rows)
    ensures WellFormed(s) && s.cycles == now && s.banks[0].rowValid == valid
  {
  }

  // A row opened in the cycle before a refresh is ready tRFC cycles after the refresh started.
  lemma ShortOpening(t: Timing) returns (states: seq<State>, i: nat, j: nat)
    requires Positive(t)
    ensures IsRun(SCHED_FCFS, t, BANKS, states) && OpenedThenCommanded(SCHED_FCFS, t, BANKS, states, i, j, 0)
    ensures states[j + 1].cycles == states[i + 1].cycles + t.tRFC + 1
  {
    hide IsRun, FcfsCycle, Moves;
    states := IdleRun(t);
    states := Arrive(t, states, t.tREFI - 2, false, 0, 0, 0);
    i := |states| - 1;
    NoRefreshBetween(0, t.tREFI - 1, t.tREFI);
    OpenTick(states[i], t, t.tREFI - 2, 0, 0, [0]);
    states := Tick(t, states);
    var early := states;
    states := RefreshRun(t, states, true, 0, t.tREFI - 1 + t.tRCD, 0);
    j := |states| - 1;
    NoRefreshBetween(1, t.tREFI + t.tRFC, t.tREFI);
    ServeTick(states[j], t, t.tREFI + t.tRFC - 1, 0, t.tREFI + t.tRFC, [0]);
    states := Tick(t, states);
    assert states[i] == early[i] && states[i + 1] == early[i + 1];
    RunStep(SCHED_FCFS, t, BANKS, states, i);
    RunStep(SCHED_FCFS, t, BANKS, states, j);
  }

  // Row 0 open and idle, and a request for row 1 just before the first refresh.
  lemma ConflictWaits(t: Timing) returns (states: seq<State>)
    requires Positive(t)
    ensures IsRun(SCHED_FCFS, t, BANKS, states) && states != []
    ensures Facing(states[|states| - 1], t.tREFI - 2, true, 0, 1 + t.tRCD, [1])
  {
    hide IsRun, FcfsCycle, Moves;
    var ready := 1 + t.tRCD;
    states := FirstServed(t);
    forall c | ready < c <= t.tREFI - 2 ensures c % t.tREFI != 0 {
      NoRefreshBetween(0, c, t.tREFI);
    }
    states := QuietRun(t, states, t.tREFI - 2 - ready, ready, true, 0, ready, []);
    states := Arrive(t, states, t.tREFI - 2, true, 0, ready, 1);
  }

  // A conflicting request that waits for the cycle before a refresh: its row is opened tRFC cycles after
  // the refresh started.
  lemma ShortClosing(t: Timing) returns (states: seq<State>, i: nat, j: nat)
    requires Positive(t)
    ensures IsRun(SCHED_FCFS, t, BANKS, states) && ClosedThenCommanded(SCHED_FCFS, t, BANKS, states, i, j, 0)
    ensures states[j + 1].cycles == states[i + 1].cycles + t.tRFC + 1
  {
    hide IsRun, FcfsCycle, Moves;
    var ready := 1 + t.tRCD;
    states := ConflictWaits(t);
    i := |states| - 1;
    NoRefreshBetween(0, t.tREFI - 1, t.tREFI);
    CloseTick(states[i], t, t.tREFI - 2, 0, ready, [1]);
    states := Tick(t, states);
    var early := states;
    states := RefreshRun(t, states, false, 0, t.tREFI - 1 + t.tRP, 1);
    j := |states| - 1;
    NoRefreshBetween(1, t.tREFI + t.tRFC, t.tREFI);
    OpenTick(states[j], t, t.tREFI + t.tRFC - 1, 0, t.tREFI + t.tRFC, [1]);
    states := Tick(t, states);
    assert states[i] == early[i] && states[i + 1] == early[i + 1];
    RunStep(SCHED_FCFS, t, BANKS, states, i);
    RunStep(SCHED_FCFS, t, BANKS, states, j);
  }

  // A first request for row 0, served as soon as its row is open.
  lemma FirstServed(t: Timing) returns (states: seq<State>)
    requires Positive(t)
    ensures IsRun(SCHED_FCFS, t, BANKS, states) && states != []
    ensures Facing(states[|states| - 1], 1 + t.tRCD, true, 0, 1 + t.tRCD, [])
  {
    states := [Initial()];
    assert Facing(Initial(), 0, false, 0, 0, []);
    hide FcfsCycle, Moves;
    forall c | 0 < c <= t.tRCD + 1 ensures c % t.tREFI != 0 {
      NoRefreshBetween(0, c, t.tREFI);
    }
    states := Arrive(t, states, 0, false, 0, 0, 0);
    OpenTick(states[|states| - 1], t, 0, 0, 0, [0]);
    states := Tick(t, states);
    states := QuietRun(t, states, t.tRCD - 1, 1, true, 0, 1 + t.tRCD, [0]);
    ServeTick(states[|states| - 1], t, t.tRCD, 0, 1 + t.tRCD, [0]);
    states := Tick(t, states);
  }

  // The waits after a command are complete over every run exactly when they are at most one cycle longer
  // than a refresh; a refresh replaces what is left of them.
  lemma OpeningWaitsIff(t: Timing)
    requires Positive(t)
    ensures (forall p, configured: nat, states: seq<State>, i: nat, j: nat, b: nat :: OpenedThenCommanded(p, t, configured, states, i, j, b) ==>
               states[j + 1].cycles >= states[i + 1].cycles + t.tRCD) <==> t.tRCD <= t.tRFC + 1
  {
    hide OpenedThenCommanded;
    if t.tRCD <= t.tRFC + 1 {
      forall p, configured: nat, states: seq<State>, i: nat, j: nat, b: nat | OpenedThenCommanded(p, t, configured, states, i, j, b)
        ensures |states| > j + 1 > i + 1 && states[j + 1].cycles >= states[i + 1].cycles + t.tRCD
      {
        OpenedWaits(p, t, configured, states, i, j, b);
      }
    } else {
      var states, i, j := ShortOpening(t);
      assert OpenedThenCommanded(SCHED_FCFS, t, BANKS, states, i, j, 0);
    }
  }

  lemma OpenedWaits(p: Policy, t: Timing, configured: nat, states: seq<State>, i: nat, j: nat, b: nat)
    requires OpenedThenCommanded(p, t, configured, states, i, j, b)
    ensures |states| > j + 1 > i + 1 && states[j + 1].cycles >= states[i + 1].cycles + Min(t.tRCD, t.tRFC + 1)
  {
    hide IsRun, Moves, WellFormed, Commands, Opens;
    OpenedRowWaits(p, t, configured, states, i, j, b);
  }

  lemma ClosingWaitsIff(t: Timing)
    requires Positive(t)
    ensures (forall p, configured: nat, states: seq<State>, i: nat, j: nat, b: nat :: ClosedThenCommanded(p, t, configured, states, i, j, b) ==>
               states[j + 1].cycles >= states[i + 1].cycles + t.tRP) <==> t.tRP <= t.tRFC + 1
  {
    hide ClosedThenCommanded;
    if t.tRP <= t.tRFC + 1 {
      forall p, configured: nat, states: seq<State>, i: nat, j: nat, b: nat | ClosedThenCommanded(p, t, configured, states, i, j, b)
        ensures |states| > j + 1 > i + 1 && states[j + 1].cycles >= states[i + 1].cycles + t.tRP
      {
        ClosedWaits(p, t, configured, states, i, j, b);
      }
    } else {
      var states, i, j := ShortClosing(t);
      assert ClosedThenCommanded(SCHED_FCFS, t, BANKS, states, i, j, 0);
    }
  }

  lemma ClosedWaits(p: Policy, t: Timing, configured: nat, states: seq<State>, i: nat, j: nat, b: nat)
    requires ClosedThenCommanded(p, t, configured, states, i, j, b)
    ensures |states| > j + 1 > i + 1 && states[j + 1].cycles >= states[i + 1].cycles + Min(t.tRP, t.tRFC + 1)
  {
    hide IsRun, Moves, WellFormed, Commands, Closes;
    ClosedRowWaits(p, t, configured, states, i, j, b);
  }

  // ---------------------------------------------------------------- counting what passes an aged request

  // A request, up to its priority, is pending.
  ghost predicate Waits(s: State, core: Request) {
    exists i :: 0 <= i < |s.pending| && Core(s.pending[i]) == core
  }

  // Since s only requests that arrived before it were served, and none of those were accepted.
  ghost predicate OnlyOldServed(s: State, r: State) {
    s.served <= r.served && s.accepted <= r.accepted && s.cycles <= r.cycles &&
    (forall i :: |s.served| <= i < |r.served| ==> r.served[i].arrivalTime < s.cycles) &&
    forall i :: |s.accepted| <= i < |r.accepted| ==> r.accepted[i].arrivalTime >= s.cycles
  }

  lemma MoveServesOld(p: Policy, t: Timing, configured: nat, s: State, r: State, r': State, core: Request)
    requires WellFormed(r) && configured <= BANKS && t.tREFI > 0 && Ranks(p) && Moves(p, t, configured, r, r')
    requires PrioritiesEarned(r) && Conserved(r) && OnlyOldServed(s, r) && r'.cycles <= s.cycles + BATCH_AGE
    requires Waits(r, core) && IsAged(core, s.cycles)
    ensures WellFormed(r') && Conserved(r') && PrioritiesEarned(r') && OnlyOldServed(s, r')
  {
    hide Cycle, Conserved, Decode;
    if Cycle(p, t, configured, r, r') {
      CycleKeeps(p, t, configured, r, r');
      CycleEarns(p, t, configured, r, r');
      if r'.served != r.served {
        var i :| 0 <= i < |r.pending| && Core(r.pending[i]) == core;
        OnlyAgedPass(p, t, configured, r, r', r.pending[i]);
      }
    } else {
      var addr, isWrite, id :| r' == Enqueued(r, addr, isWrite, id);
      EnqueueKeeps(r, addr, isWrite, id);
      Fresh(addr, isWrite, r.cycles, id);
    }
  }

  lemma Fresh(addr: nat, isWrite: bool, cycles: nat, id: nat)
    ensures var r := Decode(addr, isWrite, cycles, id); r.priority == 0 && r.arrivalTime == cycles
  {
  }

  lemma {:induction false} RunServesOld(p: Policy, t: Timing, configured: nat, states: seq<State>, n: nat, core: Request)
    requires n < |states| && configured <= BANKS && t.tREFI > 0 && Ranks(p) && IsAged(core, states[0].cycles)
    requires WellFormed(states[0]) && Conserved(states[0]) && PrioritiesEarned(states[0])
    requires forall k :: 0 <= k < n && WellFormed(states[k]) ==> Moves(p, t, configured, states[k], states[k + 1])
    requires forall k :: 0 <= k <= n ==> Waits(states[k], core) && states[k].cycles <= states[0].cycles + BATCH_AGE
    ensures var r := states[n];
      WellFormed(r) && Conserved(r) && PrioritiesEarned(r) && OnlyOldServed(states[0], r)
  {
    hide Moves, Waits, Conserved, PrioritiesEarned, OnlyOldServed, WellFormed;
    if n == 0 {
      NothingServed(states[0]);
    } else {
      RunServesOld(p, t, configured, states, n - 1, core);
      assert Moves(p, t, configured, states[n - 1], states[n - 1 + 1]);
      MoveServesOld(p, t, configured, states[0], states[n - 1], states[n], core);
    }
  }

  lemma NothingServed(s: State)
    ensures OnlyOldServed(s, s)
  {
  }

  lemma CoresConcat(a: seq<Request>, b: seq<Request>)
    ensures multiset(Cores(a + b)) == multiset(Cores(a)) + multiset(Cores(b))
  {
    assert Cores(a + b) == Cores(a) + Cores(b);
  }

  lemma SubmultisetSize(a: multiset<Request>, b: multiset<Request>)
    requires a <= b
    ensures |a| <= |b|
  {
    assert b == a + (b - a);
  }

  lemma CancelCommon(v: multiset<Request>, e: multiset<Request>, b: multiset<Request>, a: multiset<Request>, f: multiset<Request>)
    requires (v + a) + f == (v + e) + b
    ensures e + b == a + f
  {
    forall c ensures (e + b)[c] == (a + f)[c] {
      assert ((v + a) + f)[c] == ((v + e) + b)[c];
    }
  }

  // Of the old requests a, those in e are gone and one more is still among b.
  lemma OldFit(e: multiset<Request>, b: multiset<Request>, a: multiset<Request>, f: multiset<Request>, core: Request, cycles: nat)
    requires e + b == a + f && core in b && core.arrivalTime < cycles
    requires forall c :: c in e ==> c.arrivalTime < cycles
    requires forall c :: c in f ==> c.arrivalTime >= cycles
    ensures |e| + 1 <= |a|
  {
    var gone := e + multiset{core};
    forall c ensures gone[c] <= a[c] {
      assert (e + b)[c] == (a + f)[c];
      if c.arrivalTime < cycles {
        assert c !in f;
      } else {
        assert c !in e;
      }
    }
    SubmultisetSize(gone, a);
  }

  // What was served since, with a request still waiting, fits in the queue as it was.
  lemma CountOld(s: State, r: State, core: Request)
    requires Conserved(s) && Conserved(r) && OnlyOldServed(s, r) && Waits(r, core) && core.arrivalTime < s.cycles
    ensures |r.served| - |s.served| + 1 <= |s.pending|
  {
    var extra, late := r.served[|s.served|..], r.accepted[|s.accepted|..];
    assert r.served == s.served + extra && r.accepted == s.accepted + late;
    CoresConcat(s.served, extra);
    CoresConcat(s.accepted, late);
    WaitsInCores(r, core);
    CoresBefore(extra, late, s.cycles);
    hide Cores, Core, Waits;
    CancelCommon(multiset(Cores(s.served)), multiset(Cores(extra)), multiset(Cores(r.pending)),
                 multiset(Cores(s.pending)), multiset(Cores(late)));
    OldFit(multiset(Cores(extra)), multiset(Cores(r.pending)), multiset(Cores(s.pending)), multiset(Cores(late)), core, s.cycles);
  }

  lemma WaitsInCores(r: State, core: Request)
    requires Waits(r, core)
    ensures core in multiset(Cores(r.pending))
  {
    var i :| 0 <= i < |r.pending| && Core(r.pending[i]) == core;
    assert Cores(r.pending)[i] == core;
  }

  lemma CoresBefore(extra: seq<Request>, late: seq<Request>, cycles: nat)
    requires forall i :: 0 <= i < |extra| ==> extra[i].arrivalTime < cycles
    requires forall i :: 0 <= i < |late| ==> late[i].arrivalTime >= cycles
    ensures forall c :: c in multiset(Cores(extra)) ==> c.arrivalTime < cycles
    ensures forall c :: c in multiset(Cores(late)) ==> c.arrivalTime >= cycles
  {
    forall c | c in multiset(Cores(extra)) ensures c.arrivalTime < cycles {
      var i :| 0 <= i < |extra| && Cores(extra)[i] == c;
    }
    forall c | c in multiset(Cores(late)) ensures c.arrivalTime >= cycles {
      var i :| 0 <= i < |late| && Cores(late)[i] == c;
    }
  }

  // Fairness of the ranking policies: for 500 cycles after a request has aged, fewer requests than
  // the queue then held are served ahead of it, whatever arrives.
  lemma BypassBound(p: Policy, t: Timing, configured: nat, states: seq<State>, n: nat, core: Request)
    requires n < |states| && configured <= BANKS && t.tREFI > 0 && IsAged(core, states[0].cycles)
    requires p == SCHED_FR_FCFS || p == SCHED_PARBS
    requires WellFormed(states[0]) && Conserved(states[0]) && PrioritiesEarned(states[0])
    requires forall k :: 0 <= k < n && WellFormed(states[k]) ==> Moves(p, t, configured, states[k], states[k + 1])
    requires forall k :: 0 <= k <= n ==> Waits(states[k], core) && states[k].cycles <= states[0].cycles + 500
    ensures |states[n].served| - |states[0].served| < |states[0].pending| <= 64
  {
    RunServesOld(p, t, configured, states, n, core);
    hide Moves, Conserved, PrioritiesEarned, OnlyOldServed;
    CountOld(states[0], states[n], core);
  }

  // ---------------------------------------------------------------- a bound in cycles, under the ranking policies

  // The group is of one arrival time, and all other pending requests arrived later.
  ghost predicate Oldest(s: State, group: set<Request>, arrival: nat) {
    (forall c :: c in group ==> c.arrivalTime == arrival && c.bank < BANKS) &&
    forall i :: 0 <= i < |s.pending| ==> Core(s.pending[i]) in group || s.pending[i].arrivalTime > arrival
  }

  // Some request of the group is pending.
  ghost predicate SomeWaits(s: State, group: set<Request>) {
    exists i :: 0 <= i < |s.pending| && Core(s.pending[i]) in group
  }

  // A pending request of the group is a row hit.
  ghost predicate SomeHit(banks: seq<Bank>, w: seq<Request>, group: set<Request>)
    requires |banks| == BANKS
  {
    exists i :: 0 <= i < |w| && w[i].bank < BANKS && Core(w[i]) in group && RowHit(banks, w[i])
  }

  ghost predicate Targeted(group: set<Request>, i: nat) {
    exists c :: c in group && c.bank == i
  }

  // The precharges of the first n banks that the group may have to wait for.
  ghost function Closing(banks: seq<Bank>, group: set<Request>, t: Timing, n: nat): nat
    requires n <= |banks|
  {
    if n == 0 then 0
    else Closing(banks, group, t, n - 1) + if Targeted(group, n - 1) && banks[n - 1].rowValid then t.tRP else 0
  }

  // Cycles a first request of the group still needs once banks are ready.
  ghost function GroupNeed(s: State, group: set<Request>, t: Timing): nat
    requires |s.banks| == BANKS
  {
    if SomeHit(s.banks, s.pending, group) then 0 else t.tRCD + Closing(s.banks, group, t, BANKS)
  }

  // From now on, with every bank ready, a need met and `left` other requests served, `finish` is kept.
  ghost predicate InTime(banks: seq<Bank>, now: nat, need: nat, finish: int, left: int) {
    now + need + left <= finish && forall i :: 0 <= i < |banks| ==> banks[i].readyTime + need + left <= finish
  }

  lemma {:induction false} SameClosing(banks: seq<Bank>, banks': seq<Bank>, group: set<Request>, t: Timing, n: nat)
    requires |banks| == |banks'| && n <= |banks|
    requires forall i :: 0 <= i < n ==> banks'[i].rowValid == banks[i].rowValid
    ensures Closing(banks', group, t, n) == Closing(banks, group, t, n)
  {
    hide Targeted;
    if n > 0 {
      SameClosing(banks, banks', group, t, n - 1);
    }
  }

  lemma {:induction false} ClosingLess(banks: seq<Bank>, k: nat, b: Bank, group: set<Request>, t: Timing, n: nat)
    requires k < n <= |banks| && Targeted(group, k) && banks[k].rowValid && !b.rowValid
    ensures Closing(banks[k := b], group, t, n) == Closing(banks, group, t, n) - t.tRP
  {
    hide Targeted;
    if k < n - 1 {
      ClosingLess(banks, k, b, group, t, n - 1);
    } else {
      SameClosing(banks, banks[k := b], group, t, k);
    }
  }

  lemma SameNeed(s: State, s': State, group: set<Request>, t: Timing)
    requires |s.banks| == |s'.banks| == BANKS && SomeHit(s'.banks, s'.pending, group) == SomeHit(s.banks, s.pending, group)
    requires forall i :: 0 <= i < BANKS ==> s'.banks[i].rowValid == s.banks[i].rowValid
    ensures GroupNeed(s', group, t) == GroupNeed(s, group, t)
  {
    SameClosing(s.banks, s'.banks, group, t, BANKS);
  }

  predicate RefreshesAt(cycles: nat, t: Timing)
    requires t.tREFI > 0
  {
    cycles % t.tREFI == 0
  }

  // A refresh delays by tRFC and closes no row.
  lemma AdvanceInTime(s: State, t: Timing, configured: nat, group: set<Request>, finish: int, left: int)
    requires |s.banks| == BANKS && configured <= BANKS && t.tREFI > 0
    requires InTime(s.banks, s.cycles + 1, GroupNeed(s, group, t), finish, left)
    ensures var a := Advanced(s, t, configured);
      InTime(a.banks, a.cycles, GroupNeed(a, group, t), if RefreshesAt(a.cycles, t) then finish + t.tRFC else finish, left)
  {
    hide Closing, Core;
    var a := Advanced(s, t, configured);
    assert SomeHit(a.banks, a.pending, group) == SomeHit(s.banks, s.pending, group);
    SameNeed(s, a, group, t);
    hide GroupNeed, SomeHit;
  }

  // Opening the row of the head makes it a hit.
  lemma ActivateInTime(s: State, s': State, t: Timing, group: set<Request>, finish: int, left: int)
    requires |s.banks| == BANKS && t.tRCD > 0 && s.pending != [] && s.pending[0].bank < BANKS && Core(s.pending[0]) in group
    requires !SomeHit(s.banks, s.pending, group) && InTime(s.banks, s.cycles, GroupNeed(s, group, t), finish, left)
    requires s'.pending == s.pending && |s'.banks| == BANKS && RowHit(s'.banks, s.pending[0])
    requires forall i :: 0 <= i < BANKS ==> s'.banks[i].readyTime <= s.banks[i].readyTime || s'.banks[i].readyTime <= s.cycles + t.tRCD
    ensures InTime(s'.banks, s.cycles + 1, GroupNeed(s', group, t), finish, left)
  {
    hide Closing, Core, RowHit;
    assert SomeHit(s'.banks, s'.pending, group);
  }

  // Closing the row in the way of the head leaves one precharge less.
  lemma PrechargeInTime(s: State, s': State, b: Bank, t: Timing, group: set<Request>, finish: int, left: int)
    requires |s.banks| == BANKS && t.tRP > 0 && s.pending != [] && s.pending[0].bank < BANKS && Core(s.pending[0]) in group
    requires !SomeHit(s.banks, s.pending, group) && InTime(s.banks, s.cycles, GroupNeed(s, group, t), finish, left)
    requires s.banks[s.pending[0].bank].rowValid && !b.rowValid && b.readyTime == s.cycles + t.tRP
    requires s'.pending == s.pending && s'.banks == s.banks[s.pending[0].bank := b]
    ensures InTime(s'.banks, s.cycles + 1, GroupNeed(s', group, t), finish, left)
  {
    var k := s.pending[0].bank;
    assert Targeted(group, k) by { assert Core(s.pending[0]).bank == k; }
    ClosingLess(s.banks, k, b, group, t, BANKS);
    hide Closing, Targeted, Core;
    forall i | 0 <= i < |s.pending| && s.pending[i].bank < BANKS && Core(s.pending[i]) in group
      ensures !RowHit(s'.banks, s.pending[i])
    {
      assert !RowHit(s.banks, s.pending[i]);
    }
    assert !SomeHit(s'.banks, s'.pending, group);
  }

  lemma ServeInTime(s: State, s': State, t: Timing, group: set<Request>, finish: int, left: int)
    requires |s.banks| == BANKS && s.pending != []
    requires !SomeHit(s.banks, s.pending, group) && InTime(s.banks, s.cycles, GroupNeed(s, group, t), finish, left)
    requires s'.pending == s.pending[1..] && |s'.banks| == BANKS
    requires forall i :: 0 <= i < BANKS ==>
      s'.banks[i].rowValid == s.banks[i].rowValid && s'.banks[i].openRow == s.banks[i].openRow &&
      s'.banks[i].readyTime == s.banks[i].readyTime
    ensures InTime(s'.banks, s.cycles + 1, GroupNeed(s', group, t), finish, left - 1)
  {
    hide Closing, Core;
    forall i | 0 <= i < |s'.pending| && s'.pending[i].bank < BANKS && Core(s'.pending[i]) in group
      ensures !RowHit(s'.banks, s'.pending[i])
    {
      assert s'.pending[i] == s.pending[i + 1] && !RowHit(s.banks, s.pending[i + 1]);
    }
    assert !SomeHit(s'.banks, s'.pending, group);
    SameNeed(s, s', group, t);
    hide GroupNeed, SomeHit, RowHit;
  }

  // The head is of the group, or a row hit while none of the group is; a row hit if one of the group is.
  ghost predicate GroupHeads(s: State, group: set<Request>)
    requires |s.banks| == BANKS
  {
    s.pending != [] && s.pending[0].bank < BANKS && (Core(s.pending[0]) in group || RowHit(s.banks, s.pending[0])) &&
    (SomeHit(s.banks, s.pending, group) ==> Core(s.pending[0]) in group && RowHit(s.banks, s.pending[0]))
  }

  // The command of such a cycle serves one of the group, or keeps time.
  lemma CommandInTime(s: State, t: Timing, group: set<Request>, finish: int, left: int)
    requires |s.banks| == BANKS && t.tRCD > 0 && t.tRP > 0 && GroupHeads(s, group)
    requires InTime(s.banks, s.cycles, GroupNeed(s, group, t), finish, left)
    ensures var n := Issued(s, t);
      n.cycles == s.cycles && |n.banks| == BANKS &&
      if n.served == s.served then InTime(n.banks, n.cycles + 1, GroupNeed(n, group, t), finish, left)
      else Core(s.pending[0]) in group || InTime(n.banks, n.cycles + 1, GroupNeed(n, group, t), finish, left - 1)
  {
    var n := Issued(s, t);
    var k := s.pending[0].bank;
    hide GroupNeed, SomeHit, Core;
    if s.cycles < s.banks[k].readyTime {
      assert n.banks == s.banks && n.pending == s.pending;
      SameHits(s, n, group);
      SameNeed(s, n, group, t);
    } else if n.served != s.served {
      if Core(s.pending[0]) !in group {
        ServeInTime(s, n, t, group, finish, left);
      }
    } else if !s.banks[k].rowValid {
      ActivateInTime(s, n, t, group, finish, left);
    } else {
      PrechargeInTime(s, n, n.banks[k], t, group, finish, left);
    }
  }

  lemma SameHits(s: State, s': State, group: set<Request>)
    requires |s.banks| == BANKS && s'.banks == s.banks && s'.pending == s.pending
    ensures SomeHit(s'.banks, s'.pending, group) == SomeHit(s.banks, s.pending, group)
  {
  }

  // Where an entry of the ranked queue comes from, and where one goes.
  lemma Origin(pending: seq<Request>, cycles: nat, w: seq<Request>, i: nat) returns (j: nat)
    requires multiset(w) == multiset(Batched(pending, cycles)) && i < |w|
    ensures j < |pending| && w[i] == Aged(pending[j], cycles) && Core(w[i]) == Core(pending[j])
  {
    var b := Batched(pending, cycles);
    assert w[i] in multiset(b);
    j :| 0 <= j < |b| && b[j] == w[i];
  }

  lemma Position(pending: seq<Request>, cycles: nat, w: seq<Request>, j: nat) returns (i: nat)
    requires multiset(w) == multiset(Batched(pending, cycles)) && j < |pending|
    ensures i < |w| && w[i] == Aged(pending[j], cycles) && Core(w[i]) == Core(pending[j])
  {
    var b := Batched(pending, cycles);
    assert b[j] in multiset(b) && b[j] in multiset(w);
    i :| 0 <= i < |w| && w[i] == b[j];
  }

  // Against an aged request of the ranked queue the head has aged; it is a hit if that one is, and no
  // younger if they are alike.
  lemma HeadAgainst(banks: seq<Bank>, w: seq<Request>, k: nat, cycles: nat)
    requires |banks| == BANKS && InBanks(w) && Ranked(banks, w) && k < |w| && Earned(w[0], cycles)
    requires w[k].priority == BATCH_PRIORITY
    ensures RowHit(banks, w[k]) ==> RowHit(banks, w[0])
    ensures RowHit(banks, w[0]) == RowHit(banks, w[k]) ==> w[0].arrivalTime <= w[k].arrivalTime
  {
    if k > 0 {
      assert !SwapNeeded(banks, w[0], w[k]);
    }
  }

  // Once it has aged, the oldest group heads the ranked queue unless a row hit does while it has none.
  lemma OldestHeads(p: Policy, s: State, a: State, w: seq<Request>, group: set<Request>, arrival: nat)
    requires WellFormed(a) && a.pending == s.pending && a.cycles == s.cycles + 1
    requires Ranks(p) && RankedQueue(p, a, w) && PrioritiesEarned(s)
    requires SomeWaits(s, group) && Oldest(s, group, arrival) && s.cycles - arrival > BATCH_AGE
    ensures GroupHeads(a.(pending := w), group)
  {
    hide RowHit, Ranked, Batched, Earned;
    RankedEarned(w, s.pending, s.cycles);
    var i :| 0 <= i < |s.pending| && Core(s.pending[i]) in group;
    var k := Position(s.pending, a.cycles, w, i);
    var o := Origin(s.pending, a.cycles, w, 0);
    assert Core(s.pending[o]) in group || s.pending[o].arrivalTime > arrival;
    MemberAged(s.pending[i], w[k], group, arrival, a.cycles);
    HeadAgainst(a.banks, w, k, a.cycles);
    if SomeHit(a.banks, w, group) {
      var l :| 0 <= l < |w| && w[l].bank < BANKS && Core(w[l]) in group && RowHit(a.banks, w[l]);
      var j := Origin(s.pending, a.cycles, w, l);
      MemberAged(s.pending[j], w[l], group, arrival, a.cycles);
      HeadAgainst(a.banks, w, l, a.cycles);
    }
  }

  lemma MemberAged(q: Request, r: Request, group: set<Request>, arrival: nat, cycles: nat)
    requires Core(q) in group && (forall c :: c in group ==> c.arrivalTime == arrival) && cycles - arrival > BATCH_AGE
    requires r == Aged(q, cycles)
    ensures r.priority == BATCH_PRIORITY && r.arrivalTime == arrival
  {
    assert Core(q).arrivalTime == arrival;
  }

  lemma RankingKeepsOldest(p: Policy, a: State, w: seq<Request>, group: set<Request>, arrival: nat)
    requires WellFormed(a) && RankedQueue(p, a, w) && SomeWaits(a, group) && Oldest(a, group, arrival)
    ensures SomeWaits(a.(pending := w), group) && Oldest(a.(pending := w), group, arrival)
  {
    hide Ranked, InBanks, Core, Batched;
    if Ranks(p) {
      var i :| 0 <= i < |a.pending| && Core(a.pending[i]) in group;
      var k := Position(a.pending, a.cycles, w, i);
      forall l | 0 <= l < |w| ensures Core(w[l]) in group || w[l].arrivalTime > arrival {
        var j := Origin(a.pending, a.cycles, w, l);
      }
    }
  }

  lemma RankingKeepsHits(p: Policy, a: State, w: seq<Request>, group: set<Request>)
    requires WellFormed(a) && RankedQueue(p, a, w)
    ensures SomeHit(a.banks, w, group) == SomeHit(a.banks, a.pending, group)
  {
    hide Ranked, InBanks, Core, Batched;
    if Ranks(p) {
      if SomeHit(a.banks, w, group) {
        var l :| 0 <= l < |w| && w[l].bank < BANKS && Core(w[l]) in group && RowHit(a.banks, w[l]);
        var j := Origin(a.pending, a.cycles, w, l);
        assert RowHit(a.banks, a.pending[j]);
      }
      if SomeHit(a.banks, a.pending, group) {
        var j :| 0 <= j < |a.pending| && a.pending[j].bank < BANKS && Core(a.pending[j]) in group && RowHit(a.banks, a.pending[j]);
        var l := Position(a.pending, a.cycles, w, j);
        assert RowHit(a.banks, w[l]);
      }
    }
  }

  // One of the group is among the requests served between the two states.
  ghost predicate ServedSince(s: State, r: State, group: set<Request>) {
    s.served <= r.served && exists i :: |s.served| <= i < |r.served| && Core(r.served[i]) in group
  }

  lemma IssueKeepsOldest(s: State, t: Timing, group: set<Request>, arrival: nat)
    requires s.pending != [] && s.pending[0].bank < |s.banks| && SomeWaits(s, group) && Oldest(s, group, arrival)
    ensures var n := Issued(s, t);
      if n.served != s.served && Core(s.pending[0]) in group then ServedSince(s, n, group)
      else SomeWaits(n, group) && Oldest(n, group, arrival)
  {
    hide Issued, Core;
    IssuedKeepsQueue(s, t);
    var i :| 0 <= i < |s.pending| && Core(s.pending[i]) in group;
    var n := Issued(s, t);
    if n.served != s.served {
      if Core(s.pending[0]) in group {
        assert n.served[|s.served|] == s.pending[0];
      } else {
        assert n.pending[i - 1] == s.pending[i];
      }
    }
  }

  lemma SameQueue(r: State, a: State, group: set<Request>, arrival: nat)
    requires a.pending == r.pending
    ensures SomeWaits(a, group) == SomeWaits(r, group) && Oldest(a, group, arrival) == Oldest(r, group, arrival)
  {
  }

  // A cycle serves one of the oldest aged group or keeps time.
  lemma CycleInTime(p: Policy, t: Timing, configured: nat, r: State, r': State, group: set<Request>, arrival: nat,
                    finish: int, left: int)
    requires WellFormed(r) && PrioritiesEarned(r) && SomeWaits(r, group) && Oldest(r, group, arrival)
    requires r.cycles - arrival > BATCH_AGE
    requires Ranks(p) && configured <= BANKS && t.tREFI > 0 && t.tRCD > 0 && t.tRP > 0 && Cycle(p, t, configured, r, r')
    requires InTime(r.banks, r.cycles + 1, GroupNeed(r, group, t), finish, left)
    ensures r'.cycles == r.cycles + 1 && |r'.banks| == BANKS
    ensures ServedSince(r, r', group) ||
      (SomeWaits(r', group) && Oldest(r', group, arrival) &&
       InTime(r'.banks, r'.cycles + 1, GroupNeed(r', group, t),
              if RefreshesAt(r'.cycles, t) then finish + t.tRFC else finish, left - (|r'.served| - |r.served|)))
  {
    hide Advanced, Issued, RankedQueue, InTime, GroupNeed, SomeHit, GroupHeads, Oldest, SomeWaits, Core, PrioritiesEarned, RefreshesAt;
    var a := Advanced(r, t, configured);
    AdvanceKeeps(r, t, configured);
    AdvanceInTime(r, t, configured, group, finish, left);
    var w: seq<Request> :| RankedQueue(p, a, w) && (w != [] ==> w[0].bank < BANKS) && r' == Issued(a.(pending := w), t);
    var b := a.(pending := w);
    OldestHeads(p, r, a, w, group, arrival);
    SameQueue(r, a, group, arrival);
    RankingKeepsOldest(p, a, w, group, arrival);
    RankingKeepsHits(p, a, w, group);
    SameNeed(a, b, group, t);
    assert b.pending != [] by { HeadsPending(b, group); }
    IssueKeepsOldest(b, t, group, arrival);
    CommandInTime(b, t, group, if RefreshesAt(a.cycles, t) then finish + t.tRFC else finish, left);
    IssuedKeepsQueue(b, t);
  }

  lemma HeadsPending(s: State, group: set<Request>)
    requires |s.banks| == BANKS && GroupHeads(s, group)
    ensures s.pending != []
  {
  }

  // The j-th span of 500 cycles since s began in e: only requests older than e were served in it, and at
  // most 63 in each span before.
  ghost predicate InSpan(s: State, e: State, j: nat, r: State) {
    WellFormed(e) && Conserved(e) && OnlyOldServed(e, r) && s.served <= e.served && s.cycles <= e.cycles &&
    e.cycles == s.cycles + BATCH_AGE * j && r.cycles <= e.cycles + BATCH_AGE && |e.served| - |s.served| <= (QUEUE_SIZE - 1) * j
  }

  // Since s the oldest group waits, in time for a first one of it to be served by `finish` even if 63
  // requests pass in each of k spans.
  ghost predicate Racing(s: State, e: State, j: nat, r: State, group: set<Request>, arrival: nat, t: Timing, finish: int, k: nat) {
    |r.banks| == BANKS && SomeWaits(r, group) && Oldest(r, group, arrival) && j < k && InSpan(s, e, j, r) &&
    InTime(r.banks, r.cycles + 1, GroupNeed(r, group, t), finish, (QUEUE_SIZE - 1) * k - (|r.served| - |s.served|))
  }

  lemma SpanCount(s: State, e: State, j: nat, r: State, core: Request)
    requires InSpan(s, e, j, r) && Conserved(r) && Waits(r, core) && IsAged(core, s.cycles)
    ensures |r.served| - |s.served| <= (QUEUE_SIZE - 1) * (j + 1)
  {
    hide Conserved, OnlyOldServed, Waits;
    CountOld(e, r, core);
  }

  lemma Member(r: State, group: set<Request>, arrival: nat) returns (core: Request)
    requires SomeWaits(r, group) && Oldest(r, group, arrival)
    ensures Waits(r, core) && core.arrivalTime == arrival
  {
    hide Core;
    var i :| 0 <= i < |r.pending| && Core(r.pending[i]) in group;
    core := Core(r.pending[i]);
  }

  lemma RacingAhead(s: State, e: State, j: nat, r: State, group: set<Request>, arrival: nat, t: Timing, finish: int, k: nat)
    requires t.tREFI > 0 && Sound(r, t) && Racing(s, e, j, r, group, arrival, t, finish, k) && s.cycles - arrival > BATCH_AGE
    ensures r.cycles < finish
  {
    hide Conserved, WellFormed, PrioritiesEarned, ReadySoon, InSpan, Waits, Oldest, SomeWaits;
    var core := Member(r, group, arrival);
    SpanCount(s, e, j, r, core);
  }

  // The span of the next step: a new one after 500 cycles.
  lemma NextSpan(s: State, e: State, j: nat, r: State, core: Request, k: nat) returns (e': State, j': nat)
    requires InSpan(s, e, j, r) && WellFormed(r) && Conserved(r) && Waits(r, core) && IsAged(core, s.cycles)
    requires j < k && r.cycles < s.cycles + BATCH_AGE * k
    ensures InSpan(s, e', j', r) && j' < k && r.cycles < e'.cycles + BATCH_AGE
  {
    hide Conserved, WellFormed, Waits;
    e', j' := e, j;
    if r.cycles == e.cycles + BATCH_AGE {
      SpanCount(s, e, j, r, core);
      e', j' := r, j + 1;
    }
  }

  lemma SpanMove(p: Policy, t: Timing, configured: nat, s: State, e: State, j: nat, r: State, r': State, core: Request)
    requires configured <= BANKS && t.tREFI > 0 && Sound(r, t) && Moves(p, t, configured, r, r') && Ranks(p)
    requires InSpan(s, e, j, r) && r.cycles < e.cycles + BATCH_AGE && Waits(r, core) && IsAged(core, s.cycles)
    ensures InSpan(s, e, j, r')
  {
    MoveKeeps(p, t, configured, r, r');
    hide Moves, Conserved, WellFormed, Waits, PrioritiesEarned, ReadySoon, OnlyOldServed;
    MoveServesOld(p, t, configured, e, r, r', core);
  }

  lemma ArrivalKeepsOldest(r: State, addr: nat, isWrite: bool, id: nat, group: set<Request>, arrival: nat, t: Timing)
    requires |r.banks| == BANKS && SomeWaits(r, group) && Oldest(r, group, arrival) && arrival < r.cycles
    ensures var n := Enqueued(r, addr, isWrite, id);
      SomeWaits(n, group) && Oldest(n, group, arrival) && n.banks == r.banks && n.cycles == r.cycles && n.served == r.served &&
      GroupNeed(n, group, t) == GroupNeed(r, group, t)
  {
    hide Decode, Core;
    Late(addr, isWrite, r.cycles, id);
    var i :| 0 <= i < |r.pending| && Core(r.pending[i]) in group;
    var n := Enqueued(r, addr, isWrite, id);
    assert n.pending[i] == r.pending[i];
    if SomeHit(r.banks, r.pending, group) {
      var l :| 0 <= l < |r.pending| && r.pending[l].bank < BANKS && Core(r.pending[l]) in group && RowHit(r.banks, r.pending[l]);
      assert n.pending[l] == r.pending[l];
    }
    SameNeed(r, n, group, t);
  }

  lemma Late(addr: nat, isWrite: bool, cycles: nat, id: nat)
    ensures var r := Decode(addr, isWrite, cycles, id); r.arrivalTime == cycles && Core(r).arrivalTime == cycles
  {
  }

  // A step serves the request or leaves it in the race.
  lemma RaceMove(p: Policy, t: Timing, configured: nat, s: State, e: State, j: nat, r: State, r': State, group: set<Request>, arrival: nat,
                 finish: int, k: nat)
    returns (e': State, j': nat)
    requires configured <= BANKS && t.tREFI > 0 && Sound(r, t) && Moves(p, t, configured, r, r') && Ranks(p)
    requires t.tRCD > 0 && t.tRP > 0 && Racing(s, e, j, r, group, arrival, t, finish, k) && s.cycles - arrival > BATCH_AGE
    requires r.cycles < s.cycles + BATCH_AGE * k
    ensures ServedSince(r, r', group) ||
      Racing(s, e', j', r', group, arrival, t, if r'.cycles > r.cycles && RefreshesAt(r'.cycles, t) then finish + t.tRFC else finish, k)
  {
    var left := (QUEUE_SIZE - 1) * k - (|r.served| - |s.served|);
    var core := Member(r, group, arrival);
    e', j' := NextSpan(s, e, j, r, core, k);
    assert r.cycles >= s.cycles;
    SpanMove(p, t, configured, s, e', j', r, r', core);
    hide Cycle, Conserved, WellFormed, SomeWaits, Oldest, ReadySoon, PrioritiesEarned, InTime, GroupNeed, InSpan, Enqueued, RefreshesAt;
    if Cycle(p, t, configured, r, r') {
      CycleInTime(p, t, configured, r, r', group, arrival, finish, left);
    } else {
      var addr, isWrite, id :| r' == Enqueued(r, addr, isWrite, id);
      ArrivalKeepsOldest(r, addr, isWrite, id, group, arrival, t);
    }
  }

  // Up to a refresh interval after the next refresh, no other one starts.
  lemma OneRefresh(s: State, c: nat, t: Timing)
    requires t.tREFI > 0 && s.cycles < c < NextRefresh(s, t) + t.tREFI
    ensures RefreshesAt(c, t) <==> c == NextRefresh(s, t)
  {
    var n, q := t.tREFI, s.cycles / t.tREFI;
    DivisionLaw(s.cycles, n);
    Distribute(q, -1, n);
    var past := c - (NextRefresh(s, t) - n);
    if past < n {
      RemainderIs(c, n, q, past);
    } else {
      RemainderIs(c, n, q + 1, past - n);
    }
  }

  // The finish when the next refresh delays it.
  function Delayed(s: State, t: Timing, cycles: nat, finish: int): int
    requires t.tREFI > 0
  {
    if cycles < NextRefresh(s, t) then finish else finish + t.tRFC
  }

  lemma NextRefreshAhead(s: State, t: Timing)
    requires t.tREFI > 0
    ensures s.cycles < NextRefresh(s, t)
  {
  }

  lemma StaysServed(s: State, r: State, r': State, group: set<Request>)
    requires ServedSince(s, r, group) && r.served <= r'.served
    ensures ServedSince(s, r', group)
  {
    hide Core;
    var i :| |s.served| <= i < |r.served| && Core(r.served[i]) in group;
    assert r'.served[i] == r.served[i];
  }

  lemma ServedLater(s: State, r: State, r': State, group: set<Request>)
    requires s.served <= r.served && ServedSince(r, r', group)
    ensures ServedSince(s, r', group)
  {
  }

  lemma SpanServed(s: State, e: State, j: nat, r: State, group: set<Request>, arrival: nat, t: Timing, finish: int, k: nat)
    requires Racing(s, e, j, r, group, arrival, t, finish, k)
    ensures s.served <= r.served
  {
    hide Conserved, WellFormed, InTime;
  }

  // A finish that no refresh, or only the next one, has delayed.
  ghost predicate InLimits(s: State, t: Timing, finish: int, limit: nat, k: nat)
    requires t.tREFI > 0
  {
    s.cycles < limit <= s.cycles + BATCH_AGE * k && limit < NextRefresh(s, t) + t.tREFI && Delayed(s, t, limit, finish) <= limit
  }

  lemma DelayedNext(s: State, t: Timing, finish: int, c: nat)
    requires t.tREFI > 0 && s.cycles <= c && c + 1 < NextRefresh(s, t) + t.tREFI
    ensures Delayed(s, t, c + 1, finish)
         == if RefreshesAt(c + 1, t) then Delayed(s, t, c, finish) + t.tRFC else Delayed(s, t, c, finish)
  {
    OneRefresh(s, c + 1, t);
    NextRefreshAhead(s, t);
    hide NextRefresh, RefreshesAt;
  }

  // Since s one of the group was served, or the limit is ahead and the race on.
  ghost predicate OnCourse(s: State, e: State, j: nat, r: State, group: set<Request>, arrival: nat, t: Timing,
                           finish: int, limit: nat, k: nat)
    requires t.tREFI > 0
  {
    ServedSince(s, r, group) ||
    (s.cycles <= r.cycles < limit && Racing(s, e, j, r, group, arrival, t, Delayed(s, t, r.cycles, finish), k))
  }

  // A step before the limit serves one of the group or leaves it in the race, still before the limit.
  lemma RaceStep(p: Policy, t: Timing, configured: nat, s: State, e: State, j: nat, r: State, r': State,
                 group: set<Request>, arrival: nat, finish: int, limit: nat, k: nat)
    returns (e': State, j': nat)
    requires configured <= BANKS && t.tREFI > 0 && Sound(r, t) && Sound(r', t) && Moves(p, t, configured, r, r') && Ranks(p)
    requires t.tRCD > 0 && t.tRP > 0 && s.cycles - arrival > BATCH_AGE && InLimits(s, t, finish, limit, k)
    requires OnCourse(s, e, j, r, group, arrival, t, finish, limit, k)
    ensures OnCourse(s, e', j', r', group, arrival, t, finish, limit, k)
  {
    hide Moves, Racing, Sound, NextRefresh, ServedSince, Delayed, RefreshesAt;
    MoveKeeps(p, t, configured, r, r');
    e', j' := e, j;
    if ServedSince(s, r, group) {
      StaysServed(s, r, r', group);
    } else {
      SpanServed(s, e, j, r, group, arrival, t, Delayed(s, t, r.cycles, finish), k);
      e', j' := RaceMove(p, t, configured, s, e, j, r, r', group, arrival, Delayed(s, t, r.cycles, finish), k);
      if ServedSince(r, r', group) {
        ServedLater(s, r, r', group);
      } else {
        if r'.cycles > r.cycles {
          DelayedNext(s, t, finish, r.cycles);
        }
        RacingAhead(s, e', j', r', group, arrival, t, Delayed(s, t, r'.cycles, finish), k);
      }
    }
  }

  // A race once entered stays on course.
  lemma {:induction false} RaceRun(p: Policy, t: Timing, configured: nat, states: seq<State>, m: nat, n: nat,
                                   group: set<Request>, arrival: nat, finish: int, limit: nat, k: nat)
    returns (e: State, j: nat)
    requires t.tREFI > 0 && IsRun(p, t, configured, states) && m <= n < |states| && Ranks(p) && t.tRCD > 0 && t.tRP > 0
    requires states[m].cycles - arrival > BATCH_AGE && InLimits(states[m], t, finish, limit, k)
    requires Racing(states[m], states[m], 0, states[m], group, arrival, t, finish, k)
    ensures OnCourse(states[m], e, j, states[n], group, arrival, t, finish, limit, k)
    decreases n
  {
    hide IsRun, Moves, Racing, Sound, InLimits, OnCourse;
    if n == m {
      e, j := states[m], 0;
      RaceStarts(states[m], group, arrival, t, finish, limit, k);
    } else {
      e, j := RaceRun(p, t, configured, states, m, n - 1, group, arrival, finish, limit, k);
      var r, r' := states[n - 1], states[n];
      RunMoves(p, t, configured, states, n - 1, r, r');
      e, j := RaceStep(p, t, configured, states[m], e, j, r, r', group, arrival, finish, limit, k);
    }
  }

  lemma RaceStarts(s: State, group: set<Request>, arrival: nat, t: Timing, finish: int, limit: nat, k: nat)
    requires t.tREFI > 0 && InLimits(s, t, finish, limit, k) && Racing(s, s, 0, s, group, arrival, t, finish, k)
    ensures OnCourse(s, s, 0, s, group, arrival, t, finish, limit, k)
  {
    hide Racing, ServedSince, NextRefresh;
    NextRefreshAhead(s, t);
  }

  lemma RunMoves(p: Policy, t: Timing, configured: nat, states: seq<State>, n: nat, r: State, r': State)
    requires IsRun(p, t, configured, states) && n + 1 < |states| && r == states[n] && r' == states[n + 1]
    ensures configured <= BANKS && t.tREFI > 0
    ensures Sound(r, t) && Sound(r', t) && Moves(p, t, configured, r, r')
  {
    hide Moves, Conserved, PrioritiesEarned, ReadySoon;
    RunKeeps(p, t, configured, states, n);
    RunKeeps(p, t, configured, states, n + 1);
  }

  // A precharge for each of the first n banks that the group is for.
  ghost function Precharges(group: set<Request>, t: Timing, n: nat): nat {
    if n == 0 then 0 else Precharges(group, t, n - 1) + if Targeted(group, n - 1) then t.tRP else 0
  }

  lemma {:induction false} ClosingBound(banks: seq<Bank>, group: set<Request>, t: Timing, n: nat)
    requires n <= |banks|
    ensures Closing(banks, group, t, n) <= Precharges(group, t, n)
  {
    hide Targeted;
    if n > 0 {
      ClosingBound(banks, group, t, n - 1);
    }
  }

  ghost function RaceBound(t: Timing, group: set<Request>, k: nat): nat {
    t.tRFC + Max(t.tRP, t.tRCD) + Precharges(group, t, BANKS) + t.tRCD + (QUEUE_SIZE - 1) * k
  }

  lemma EntersRace(s: State, group: set<Request>, arrival: nat, t: Timing, ready: nat, k: nat)
    requires t.tREFI > 0 && Sound(s, t) && SomeWaits(s, group) && Oldest(s, group, arrival) && k > 0
    requires s.cycles < ready && forall i :: 0 <= i < BANKS ==> s.banks[i].readyTime <= ready
    ensures Racing(s, s, 0, s, group, arrival, t, ready + Precharges(group, t, BANKS) + t.tRCD + (QUEUE_SIZE - 1) * k, k)
  {
    hide Conserved, PrioritiesEarned, ReadySoon, SomeHit, SomeWaits, Oldest, Closing, Precharges;
    ClosingBound(s.banks, group, t, BANKS);
  }

  // Take the oldest pending requests, all of one arrival time, once they have aged. In every run one of
  // them is served within tRFC + max(tRP, tRCD) + tRCD + 63 k cycles and a tRP for each bank they are for,
  // whatever arrives, for any k with that bound at most k times the batch age and less than the refresh
  // interval.
  lemma OldestAreServed(p: Policy, t: Timing, configured: nat, states: seq<State>, m: nat, n: nat,
                        group: set<Request>, arrival: nat, k: nat)
    requires IsRun(p, t, configured, states) && m <= n < |states| && t.tRCD > 0 && t.tRP > 0
    requires p == SCHED_FR_FCFS || p == SCHED_PARBS
    requires SomeWaits(states[m], group) && Oldest(states[m], group, arrival) && states[m].cycles - arrival > BATCH_AGE
    requires RaceBound(t, group, k) <= BATCH_AGE * k && RaceBound(t, group, k) < t.tREFI
    requires states[n].cycles >= states[m].cycles + RaceBound(t, group, k)
    ensures ServedSince(states[m], states[n], group)
  {
    var s := states[m];
    RunKeeps(p, t, configured, states, m);
    hide IsRun, SomeWaits, Oldest, Racing, ServedSince, Conserved, PrioritiesEarned, Precharges;
    var ready, limit := s.cycles + Max(t.tRP, t.tRCD), s.cycles + RaceBound(t, group, k);
    if exists i :: 0 <= i < BANKS && s.banks[i].readyTime > ready {
      ready, limit := LastRefresh(s.cycles, t) + t.tRFC, LastRefresh(s.cycles, t) + RaceBound(t, group, k);
    }
    EntersRace(s, group, arrival, t, ready, k);
    var finish := ready + Precharges(group, t, BANKS) + t.tRCD + (QUEUE_SIZE - 1) * k;
    var e, j := RaceRun(p, t, configured, states, m, n, group, arrival, finish, limit, k);
  }

  lemma {:induction false} OnePrecharge(core: Request, t: Timing, n: nat)
    ensures Precharges({core}, t, n) == if core.bank < n then t.tRP else 0
  {
    if n > 0 {
      OnePrecharge(core, t, n - 1);
      assert Targeted({core}, n - 1) <==> core.bank == n - 1;
    }
  }

  // A single oldest request is itself served within tRFC + max(tRP, tRCD) + tRP + tRCD + 63 k cycles.
  lemma OldestIsServed(p: Policy, t: Timing, configured: nat, states: seq<State>, m: nat, n: nat, core: Request, k: nat)
    requires IsRun(p, t, configured, states) && m <= n < |states| && t.tRCD > 0 && t.tRP > 0
    requires p == SCHED_FR_FCFS || p == SCHED_PARBS
    requires Waits(states[m], core) && IsAged(core, states[m].cycles)
    requires forall i :: 0 <= i < |states[m].pending| ==>
      Core(states[m].pending[i]) == core || states[m].pending[i].arrivalTime > core.arrivalTime
    requires var bound := t.tRFC + Max(t.tRP, t.tRCD) + t.tRP + t.tRCD + (QUEUE_SIZE - 1) * k;
      bound <= BATCH_AGE * k && bound < t.tREFI && states[n].cycles >= states[m].cycles + bound
    ensures states[m].served <= states[n].served
    ensures exists i :: |states[m].served| <= i < |states[n].served| && Core(states[n].served[i]) == core
  {
    RunKeeps(p, t, configured, states, m);
    hide IsRun, Conserved, PrioritiesEarned, ReadySoon, Precharges;
    OnePrecharge(core, t, BANKS);
    var i :| 0 <= i < |states[m].pending| && Core(states[m].pending[i]) == core;
    hide Core;
    OldestAreServed(p, t, configured, states, m, n, {core}, core.arrivalTime, k);
  }

  // The default timing: DDR4-3200.
  const DDR4_3200: Timing := Timing(14, 14, 560, 12480)

  lemma {:induction false} PrechargesBound(group: set<Request>, t: Timing, n: nat)
    requires t.tRP == 14
    ensures Precharges(group, t, n) <= 14 * n
  {
    hide Targeted;
    if n > 0 {
      PrechargesBound(group, t, n - 1);
    }
  }

  // Under the default timing 938 cycles are enough, whatever banks the oldest requests are for.
  lemma ServedWithin938(p: Policy, configured: nat, states: seq<State>, m: nat, n: nat, group: set<Request>, arrival: nat)
    requires IsRun(p, DDR4_3200, configured, states) && m <= n < |states|
    requires p == SCHED_FR_FCFS || p == SCHED_PARBS
    requires SomeWaits(states[m], group) && Oldest(states[m], group, arrival) && states[m].cycles - arrival > BATCH_AGE
    requires states[n].cycles >= states[m].cycles + 938
    ensures ServedSince(states[m], states[n], group)
  {
    hide IsRun, SomeWaits, Oldest, ServedSince, Precharges;
    PrechargesBound(group, DDR4_3200, BANKS);
    OldestAreServed(p, DDR4_3200, configured, states, m, n, group, arrival, 2);
  }

  // ---------------------------------------------------------------- first come, first served

  datatype Event = Arrive(addr: nat, isWrite: bool, id: nat) | Tick

  lemma IssuedWellFormed(s: State, t: Timing)
    requires WellFormed(s)
    ensures WellFormed(Issued(s, t))
  {
  }

  // A cycle when the queue is not ranked.
  function FcfsCycle(s: State, t: Timing, configured: nat): (r: State)
    requires WellFormed(s) && configured <= BANKS && t.tREFI > 0
    ensures WellFormed(r)
  {
    AdvanceKeeps(s, t, configured);
    IssuedWellFormed(Advanced(s, t, configured), t);
    Issued(Advanced(s, t, configured), t)
  }

  lemma FcfsIsCycle(p: Policy, t: Timing, configured: nat, s: State, s': State)
    requires WellFormed(s) && configured <= BANKS && t.tREFI > 0 && p != SCHED_FR_FCFS && p != SCHED_PARBS
    ensures Cycle(p, t, configured, s, s') <==> s' == FcfsCycle(s, t, configured)
  {
    var a := Advanced(s, t, configured);
    assert RankedQueue(p, a, a.pending);
    assert a.(pending := a.pending) == a;
  }

  function Next(s: State, e: Event, t: Timing, configured: nat): (r: State)
    requires WellFormed(s) && configured <= BANKS && t.tREFI > 0
    ensures WellFormed(r)
  {
    match e
    case Arrive(addr, isWrite, id) => Enqueued(s, addr, isWrite, id)
    case Tick => FcfsCycle(s, t, configured)
  }

  function Run(s: State, es: seq<Event>, t: Timing, configured: nat): (r: State)
    requires WellFormed(s) && configured <= BANKS && t.tREFI > 0
    ensures WellFormed(r)
    decreases |es|
  {
    if es == [] then s else Run(Next(s, es[0], t, configured), es[1..], t, configured)
  }

  function Ticks(es: seq<Event>): nat {
    if es == [] then 0 else (if es[0].Tick? then 1 else 0) + Ticks(es[1..])
  }

  lemma StepInOrder(s: State, e: Event, t: Timing, configured: nat)
    requires WellFormed(s) && configured <= BANKS && t.tREFI > 0 && s.accepted == s.served + s.pending
    ensures var n := Next(s, e, t, configured); n.accepted == n.served + n.pending && s.served <= n.served
  {
    hide Activated, Precharged, Refreshed, Settled, Decode;
    var n := Next(s, e, t, configured);
    if e.Tick? {
      var a := Advanced(s, t, configured);
      assert a.accepted == s.accepted && a.served == s.served && a.pending == s.pending by { AdvanceKeeps(s, t, configured); }
      if n.served != s.served {
        assert s.pending == [s.pending[0]] + s.pending[1..];
      }
    }
  }

  // Requests are served in the order they were accepted.
  lemma {:induction false} ServedInOrder(s: State, es: seq<Event>, t: Timing, configured: nat)
    requires WellFormed(s) && configured <= BANKS && t.tREFI > 0 && s.accepted == s.served + s.pending
    ensures var r := Run(s, es, t, configured); r.accepted == r.served + r.pending && s.served <= r.served
    decreases |es|
  {
    hide Next;
    if es != [] {
      StepInOrder(s, es[0], t, configured);
      ServedInOrder(Next(s, es[0], t, configured), es[1..], t, configured);
    }
  }

  // ---------------------------------------------------------------- the service bound

  ghost predicate Positive(t: Timing) {
    t.tRCD > 0 && t.tRP > 0 && t.tRFC > 0 && t.tREFI > t.tRFC + t.tRP + t.tRCD
  }

  // Cycles a request still needs once its bank is ready.
  function Need(banks: seq<Bank>, r: Request, t: Timing): nat
    requires r.bank < |banks|
  {
    var b := banks[r.bank];
    if !b.rowValid then t.tRCD else if b.openRow != r.row then t.tRP + t.tRCD else 0
  }

  // The cycle at which the head is served if no refresh intervenes.
  function Undisturbed(s: State, t: Timing): nat
    requires WellFormed(s) && s.pending != []
  {
    var ready := s.banks[s.pending[0].bank].readyTime;
    (if ready > s.cycles + 1 then ready else s.cycles + 1) + Need(s.banks, s.pending[0], t)
  }

  // The next refresh after the current cycle.
  function NextRefresh(s: State, t: Timing): nat
    requires t.tREFI > 0
  {
    s.cycles + t.tREFI - s.cycles % t.tREFI
  }

  // The cycle by which the head is served, at most one refresh included.
  function Deadline(s: State, t: Timing): nat
    requires WellFormed(s) && s.pending != [] && t.tREFI > 0
  {
    if Undisturbed(s, t) < NextRefresh(s, t) then Undisturbed(s, t)
    else NextRefresh(s, t) + t.tRFC + t.tRP + t.tRCD
  }

  lemma DeadlineAhead(s: State, t: Timing)
    requires WellFormed(s) && s.pending != [] && t.tREFI > 0
    ensures Deadline(s, t) > s.cycles
  {
  }

  // A cycle serves the head or leaves it at the head, with its deadline no later and still ahead.
  lemma CycleMeetsDeadline(s: State, t: Timing)
    requires WellFormed(s) && s.pending != [] && Positive(t)
    ensures var n := FcfsCycle(s, t, BANKS);
      n.accepted == s.accepted &&
      if n.served != s.served then n.served == s.served + [s.pending[0]] && n.pending == s.pending[1..]
      else s.cycles + 1 < Deadline(s, t) && n.pending == s.pending && n.cycles == s.cycles + 1 &&
           Deadline(n, t) <= Deadline(s, t)
  {
    NextRemainder(s.cycles, t.tREFI);
  }

  lemma ArrivalKeepsDeadline(s: State, t: Timing, addr: nat, isWrite: bool, id: nat)
    requires WellFormed(s) && s.pending != [] && t.tREFI > 0
    ensures var n := Enqueued(s, addr, isWrite, id);
      n.pending != [] && n.pending[0] == s.pending[0] && n.served == s.served && n.cycles == s.cycles &&
      WellFormed(n) && Deadline(n, t) == Deadline(s, t) &&
      (s.accepted == s.served + s.pending ==> n.accepted == n.served + n.pending)
  {
  }

  lemma {:induction false} ServedByDeadline(s: State, es: seq<Event>, t: Timing)
    requires WellFormed(s) && s.pending != [] && Positive(t) && s.accepted == s.served + s.pending
    requires s.cycles + Ticks(es) >= Deadline(s, t)
    ensures s.served + [s.pending[0]] <= Run(s, es, t, BANKS).served
    decreases |es|
  {
    hide Deadline, FcfsCycle, Enqueued;
    if es == [] {
      CycleMeetsDeadline(s, t);
      DeadlineAhead(s, t);
    } else {
      var n := Next(s, es[0], t, BANKS);
      match es[0] {
        case Tick =>
          CycleMeetsDeadline(s, t);
          if n.served != s.served {
            assert s.pending == [s.pending[0]] + s.pending[1..];
            ServedInOrder(n, es[1..], t, BANKS);
          } else {
            ServedByDeadline(n, es[1..], t);
          }
        case Arrive(addr, isWrite, id) =>
          ArrivalKeepsDeadline(s, t, addr, isWrite, id);
          ServedByDeadline(n, es[1..], t);
      }
    }
  }

  // Real-time bound: whatever arrives meanwhile, the head of the queue is served within
  // tREFI + tRFC + tRP + tRCD cycles, less than two refresh intervals.
  lemma ServiceBound(s: State, es: seq<Event>, t: Timing)
    requires WellFormed(s) && s.pending != [] && Positive(t) && s.accepted == s.served + s.pending
    requires Ticks(es) >= t.tREFI + t.tRFC + t.tRP + t.tRCD
    ensures s.served + [s.pending[0]] <= Run(s, es, t, BANKS).served
    ensures t.tREFI + t.tRFC + t.tRP + t.tRCD < 2 * t.tREFI
  {
    ServedByDeadline(s, es, t);
  }

  // ---------------------------------------------------------------- the controller's fields

  class Controller {
    const policy: Policy
    const timing: Timing
    const configured: nat
    const banks: array<Bank>
    const reqQueue: array<Request>
    var reqHead: nat
    var reqTail: nat
    var reqCount: nat
    var cycles: nat
    var totalReads: nat
    var totalWrites: nat
    var rowHits: nat
    var rowConflicts: nat
    var refreshCycles: nat
    var stallCycles: nat
    ghost var accepted: seq<Request>
    ghost var served: seq<Request>

    ghost predicate Shaped()
      reads this`reqHead, this`reqTail, this`reqCount
    {
      banks.Length == BANKS && reqQueue.Length == QUEUE_SIZE && configured <= BANKS && timing.tREFI > 0 &&
      reqHead < QUEUE_SIZE && reqCount <= QUEUE_SIZE && reqTail == Slot(reqHead, reqCount, QUEUE_SIZE)
    }

    // The pending requests in ring order.
    ghost function Window(): (w: seq<Request>)
      requires Shaped()
      reads this`reqHead, this`reqTail, this`reqCount, reqQueue
      ensures |w| == reqCount && forall i :: 0 <= i < reqCount ==> w[i] == reqQueue[Slot(reqHead, i, QUEUE_SIZE)]
    {
      var q, head, n := reqQueue[..], reqHead, reqCount;
      seq(n, i requires 0 <= i < n => q[Slot(head, i, QUEUE_SIZE)])
    }

    ghost function View(): State
      requires Shaped()
      reads this, reqQueue, banks
    {
      State(banks[..], Window(), cycles, totalReads, totalWrites, rowHits, rowConflicts, refreshCycles, stallCycles,
            accepted, served)
    }

    ghost predicate Valid()
      reads this, reqQueue, banks
    {
      Shaped() && WellFormed(View()) && Conserved(View())
    }

    constructor (numBanks: nat, numRanks: nat, timing: Timing, policy: Policy)
      requires numBanks * numRanks <= BANKS && timing.tREFI > 0
      ensures Valid() && View() == Initial()
      ensures this.policy == policy && this.timing == timing && configured == numBanks * numRanks
      ensures fresh(banks) && fresh(reqQueue)
    {
      this.policy, this.timing := policy, timing;
      configured := numBanks * numRanks;
      banks := new Bank[BANKS](i => IDLE_BANK);
      reqQueue := new Request[QUEUE_SIZE](i => Request(0, 0, 0, 0, 0, false, 0, 0, 0, 0));
      reqHead, reqTail, reqCount, cycles := 0, 0, 0, 0;
      totalReads, totalWrites, rowHits, rowConflicts, refreshCycles, stallCycles := 0, 0, 0, 0, 0, 0;
      accepted, served := [], [];
      new;
      hide Cores, Slot;
      assert banks[..] == Initial().banks && Window() == [];
      InitialSound(timing);
    }

    // Appends a request; a full queue refuses it.
    method Enqueue(addr: nat, isWrite: bool, id: nat) returns (ok: bool)
      requires Valid()
      modifies this, reqQueue
      ensures Valid() && ok == (old(reqCount) < QUEUE_SIZE)
      ensures View() == Enqueued(old(View()), addr, isWrite, id)
    {
      hide Conserved, WellFormed, Decode;
      ghost var s := View();
      EnqueueKeeps(s, addr, isWrite, id);
      if reqCount >= QUEUE_SIZE {
        return false;
      }
      var r := Decode(addr, isWrite, cycles, id);
      PushTail(r);
      if isWrite {
        totalWrites := totalWrites + 1;
      } else {
        totalReads := totalReads + 1;
      }
      accepted := accepted + [r];
      return true;
    }

    // Stores a request after the last one of the ring.
    method PushTail(r: Request)
      requires Shaped() && reqCount < QUEUE_SIZE
      modifies this`reqTail, this`reqCount, reqQueue
      ensures Shaped() && Window() == old(Window()) + [r]
    {
      hide Slot;
      ghost var w := Window();
      SlotNext(reqHead, reqCount, QUEUE_SIZE);
      forall i | 0 <= i < reqCount ensures Slot(reqHead, i, QUEUE_SIZE) != reqTail {
        SlotsDistinct(reqHead, i, reqCount, QUEUE_SIZE);
      }
      reqQueue[reqTail] := r;
      reqTail := (reqTail + 1) % QUEUE_SIZE;
      reqCount := reqCount + 1;
      assert Window() == w + [r];
    }

    // Raises the priority of requests older than the batch age.
    method ParbsBatch()
      requires Shaped() && forall i :: 0 <= i < reqCount ==> Window()[i].arrivalTime <= cycles
      modifies reqQueue
      ensures Shaped() && Window() == Batched(old(Window()), cycles)
    {
      ghost var w := Window();
      for i := 0 to reqCount
        invariant forall k :: 0 <= k < reqCount ==>
          reqQueue[Slot(reqHead, k, QUEUE_SIZE)] == if k < i then Aged(w[k], cycles) else w[k]
      {
        var idx := (reqHead + i) % QUEUE_SIZE;
        assert idx == Slot(reqHead, i, QUEUE_SIZE) && reqQueue[idx] == w[i];
        forall k | 0 <= k < reqCount && k != i ensures Slot(reqHead, k, QUEUE_SIZE) != idx {
          SlotsDistinct(reqHead, i, k, QUEUE_SIZE);
        }
        if cycles - reqQueue[idx].arrivalTime > BATCH_AGE {
          reqQueue[idx] := reqQueue[idx].(priority := BATCH_PRIORITY);
        }
      }
      assert Window() == Batched(w, cycles);
    }

    // Exchanges two window positions.
    method SwapWindow(i: nat, j: nat)
      requires Shaped() && i < j < reqCount
      modifies reqQueue
      ensures Shaped() && Window() == old(Window())[i := old(Window())[j]][j := old(Window())[i]]
    {
      ghost var w := Window();
      var ia, ja := (reqHead + i) % QUEUE_SIZE, (reqHead + j) % QUEUE_SIZE;
      var tmp := reqQueue[ia];
      reqQueue[ia] := reqQueue[ja];
      reqQueue[ja] := tmp;
      forall k | 0 <= k < reqCount ensures Window()[k] == w[i := w[j]][j := w[i]][k] {
        SlotsDistinct(reqHead, i, j, QUEUE_SIZE);
        if k != i { SlotsDistinct(reqHead, i, k, QUEUE_SIZE); }
        if k != j { SlotsDistinct(reqHead, j, k, QUEUE_SIZE); }
      }
    }

    // One comparison of the exchange sort.
    method CompareSwap(i: nat, j: nat)
      requires Shaped() && i < j < reqCount && InBanks(Window()) && SortedUpTo(banks[..], Window(), i)
      requires forall k :: i < k < j ==> !SwapNeeded(banks[..], Window()[i], Window()[k])
      modifies reqQueue
      ensures Shaped() && InBanks(Window()) && SortedUpTo(banks[..], Window(), i)
      ensures multiset(Window()) == multiset(old(Window()))
      ensures forall k :: i < k < j + 1 ==> !SwapNeeded(banks[..], Window()[i], Window()[k])
    {
      hide SortedUpTo, SwapNeeded;
      var ia, ja := (reqHead + i) % QUEUE_SIZE, (reqHead + j) % QUEUE_SIZE;
      ghost var w := Window();
      assert reqQueue[ia] == w[i] && reqQueue[ja] == w[j];
      if SwapNeeded(banks[..], reqQueue[ia], reqQueue[ja]) {
        SwapWindow(i, j);
        SwapSorts(banks[..], w, Window(), i, j);
      }
    }

    // One pass of the exchange sort: position i receives the best of the rest.
    method RankPass(i: nat)
      requires Shaped() && i < reqCount && InBanks(Window()) && SortedUpTo(banks[..], Window(), i)
      modifies reqQueue
      ensures Shaped() && InBanks(Window()) && SortedUpTo(banks[..], Window(), i + 1)
      ensures multiset(Window()) == multiset(old(Window()))
    {
      hide SwapNeeded;
      for j := i + 1 to reqCount
        invariant multiset(Window()) == multiset(old(Window())) && InBanks(Window())
        invariant SortedUpTo(banks[..], Window(), i)
        invariant forall k :: i < k < j ==> !SwapNeeded(banks[..], Window()[i], Window()[k])
      {
        CompareSwap(i, j);
      }
    }

    // The in-place exchange sort over the ring window.
    method ParbsRank()
      requires Shaped() && WellFormed(View())
      modifies reqQueue
      ensures Shaped() && multiset(Window()) == multiset(Batched(old(Window()), cycles))
      ensures InBanks(Window()) && Ranked(banks[..], Window())
    {
      hide SwapNeeded;
      ParbsBatch();
      ghost var b := Window();
      for i := 0 to reqCount
        invariant multiset(Window()) == multiset(b) && InBanks(Window())
        invariant SortedUpTo(banks[..], Window(), i)
      {
        RankPass(i);
      }
    }

    // Removes the head of the queue.
    method PopHead()
      requires Shaped() && reqCount > 0
      modifies this`reqHead, this`reqCount, this`served
      ensures Shaped() && Window() == old(Window())[1..] && served == old(served) + [old(Window())[0]]
    {
      hide Slot;
      ghost var w := Window();
      ghost var head := reqHead;
      SlotIs(head, 0, QUEUE_SIZE);
      SlotNext(head, reqCount - 1, QUEUE_SIZE);
      served := served + [reqQueue[reqHead]];
      reqHead := (reqHead + 1) % QUEUE_SIZE;
      reqCount := reqCount - 1;
      forall i | 0 <= i < reqCount ensures Window()[i] == w[1..][i] {
        SlotNext(head, i, QUEUE_SIZE);
      }
    }

    // The command for the head of the queue: activate, precharge or serve it.
    method IssueHead()
      requires Shaped() && WellFormed(View())
      modifies this`reqHead, this`reqCount, this`served, this`stallCycles, this`rowConflicts, this`rowHits, banks
      ensures Shaped() && View() == Issued(old(View()), timing)
    {
      if reqCount == 0 {
        return;
      }
      ghost var s := View();
      var best := reqQueue[reqHead];
      assert best == s.pending[0];
      var bank := banks[best.bank];
      if cycles < bank.readyTime {
        stallCycles := stallCycles + 1;
      } else if !bank.rowValid {
        bank := Activated(bank, best.row, cycles, timing);
        banks[best.bank] := bank.(rowMissCount := bank.rowMissCount + 1);
      } else if bank.openRow != best.row {
        bank := Precharged(bank, cycles, timing);
        rowConflicts := rowConflicts + 1;
        banks[best.bank] := bank.(rowMissCount := bank.rowMissCount + 1);
      } else {
        rowHits := rowHits + 1;
        banks[best.bank] := bank.(rowHitCount := bank.rowHitCount + 1);
        PopHead();
      }
      assert banks[..] == Issued(s, timing).banks;
    }

    method Refresh()
      requires Shaped()
      modifies this`refreshCycles, this`stallCycles, banks
      ensures Shaped() && View() == Refreshed(old(View()), timing, configured)
    {
      refreshCycles := refreshCycles + timing.tRFC;
      for i := 0 to configured
        modifies banks
        invariant forall k :: 0 <= k < BANKS ==>
          banks[k] == if k < i then RefreshedBank(old(banks[k]), cycles, timing) else old(banks[k])
      {
        banks[i] := banks[i].(state := BANK_REFRESHING, readyTime := cycles + timing.tRFC);
      }
      stallCycles := stallCycles + timing.tRFC;
      assert Window() == old(Window());
      ghost var r := Refreshed(old(View()), timing, configured);
      assert banks[..] == r.banks;
      assert View() == r;
    }

    method SettleBanks()
      requires Shaped()
      modifies banks
      ensures Shaped() && View() == Settled(old(View()), configured)
    {
      for i := 0 to configured
        invariant forall k :: 0 <= k < BANKS ==>
          banks[k] == if k < i then SettledBank(old(banks[k]), cycles) else old(banks[k])
      {
        banks[i] := SettledBank(banks[i], cycles);
      }
      assert banks[..] == Settled(old(View()), configured).banks;
    }

    // One cycle: time moves on, a refresh may start, banks settle, the queue is ranked when the
    // policy asks for it, and its head is served.
    method Step()
      requires Valid()
      modifies this, reqQueue, banks
      ensures Valid() && Cycle(policy, timing, configured, old(View()), View())
      ensures policy != SCHED_FR_FCFS && policy != SCHED_PARBS ==> View() == FcfsCycle(old(View()), timing, configured)
    {
      ghost var s := View();
      cycles := cycles + 1;
      if cycles % timing.tREFI == 0 {
        Refresh();
      }
      SettleBanks();
      ghost var a := View();
      assert a == Advanced(s, timing, configured);
      if reqCount > 0 && (policy == SCHED_FR_FCFS || policy == SCHED_PARBS) {
        ParbsRank();
      }
      ghost var w := Window();
      assert View() == a.(pending := w);
      RankingDone(policy, a, w);
      IssueHead();
      assert RankedQueue(policy, Advanced(s, timing, configured), w);
      CycleKeeps(policy, timing, configured, s, View());
      if !Ranks(policy) {
        FcfsIsCycle(policy, timing, configured, s, View());
      }
    }
  }

  lemma RankingDone(p: Policy, a: State, w: seq<Request>)
    requires WellFormed(a)
    requires if Ranks(p) && a.pending != [] then
      multiset(w) == multiset(Batched(a.pending, a.cycles)) && InBanks(w) &&
      Ranked(a.banks, w) else w == a.pending
    ensures RankedQueue(p, a, w) && WellFormed(a.(pending := w))
  {
    if a.pending == [] {
      assert Batched(a.pending, a.cycles) == [];
    }
    RankingKeepsCores(p, a, w);
  }

  // The first n entries are ranked, and ranked before all the others.
  ghost predicate SortedUpTo(banks: seq<Bank>, w: seq<Request>, n: nat)
    requires |banks| == BANKS && InBanks(w) && n <= |w|
  {
    forall i, j :: 0 <= i < n && i < j < |w| ==> !SwapNeeded(banks, w[i], w[j])
  }

  lemma SwapSorts(banks: seq<Bank>, w: seq<Request>, v: seq<Request>, i: nat, j: nat)
    requires |banks| == BANKS && InBanks(w) && i < j < |w| && SortedUpTo(banks, w, i)
    requires v == w[i := w[j]][j := w[i]] && SwapNeeded(banks, w[i], w[j])
    requires forall k :: i < k < j ==> !SwapNeeded(banks, w[i], w[k])
    ensures InBanks(v) && SortedUpTo(banks, v, i) && multiset(v) == multiset(w)
    ensures forall k :: i < k < j + 1 ==> !SwapNeeded(banks, v[i], v[k])
  {
    forall k | i < k < j ensures !SwapNeeded(banks, v[i], v[k]) {
      InOrderTransitive(banks, w[j], w[i], w[k]);
    }
  }
}
