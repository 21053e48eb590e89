// mini-cpu-arch/src/memory_system.c: the FR-FCFS memory controller.
module MemController {
  import opened Arithmetic
  import opened Collections

  const NUM_BANKS: nat := 8
  const HIT_LATENCY: nat := 10
  const MISS_LATENCY: nat := 30
  const UINT32_MAX: nat := 0xFFFF_FFFF

  datatype MemReqType = REQ_READ | REQ_WRITE | REQ_REFRESH | REQ_PREFETCH

  datatype MemRequest = MemRequest(kind: MemReqType, addr: nat, data: nat, arrivalTime: nat, priority: nat, isPrefetch: bool)

  // Banks are interleaved every 64 bytes; a bank has 1024 rows of 8 KiB address span.
  function BankOf(addr: nat): (b: nat)
    ensures b < NUM_BANKS
  {
    (addr / 64) % 8
  }

  function RowOf(addr: nat): nat {
    (addr / 8192) % 1024
  }

  // A row of a bank.
  datatype Page = Page(bank: nat, row: nat)

  function PageOf(r: MemRequest): Page {
    Page(BankOf(r.addr), RowOf(r.addr))
  }

  // The parts an address is made up of come back from it: byte, bank, part of the row, row.
  lemma PartsOfAddress(row: nat, part: nat, bank: nat, byte: nat, rest: nat)
    requires row < 1024 && part < 16 && bank < 8 && byte < 64
    ensures var addr := rest * 8388608 + row * 8192 + part * 512 + bank * 64 + byte;
      RowOf(addr) == row && BankOf(addr) == bank
  {
    var addr := rest * 8388608 + row * 8192 + part * 512 + bank * 64 + byte;
    QuotientIs(addr, 64, rest * 131072 + row * 128 + part * 8 + bank, byte);
    RemainderIs(rest * 131072 + row * 128 + part * 8 + bank, 8, rest * 16384 + row * 16 + part, bank);
    QuotientIs(addr, 8192, rest * 1024 + row, part * 512 + bank * 64 + byte);
    RemainderIs(rest * 1024 + row, 1024, rest, row);
  }

  // Every address is made up that way.
  lemma AddressParts(addr: nat)
    ensures addr == addr / 8388608 * 8388608 + RowOf(addr) * 8192 + (addr / 512) % 16 * 512 + BankOf(addr) * 64 + addr % 64
    ensures RowOf(addr) < 1024
  {
    DivideTwice(addr, 64, 8);
    DivideTwice(addr, 512, 16);
    DivideTwice(addr, 8192, 1024);
    DivisionLaw(addr, 64);
    DivisionLaw(addr / 64, 8);
    DivisionLaw(addr / 512, 16);
    DivisionLaw(addr / 8192, 1024);
  }

  // ---------------------------------------------------------------- cost of a service order

  // The request finds its row in the row buffer of its bank.
  predicate IsHit(banks: seq<nat>, r: MemRequest)
    requires |banks| == NUM_BANKS
  {
    banks[BankOf(r.addr)] == RowOf(r.addr)
  }

  function Opened(banks: seq<nat>, r: MemRequest): (b: seq<nat>)
    requires |banks| == NUM_BANKS
    ensures |b| == NUM_BANKS
  {
    banks[BankOf(r.addr) := RowOf(r.addr)]
  }

  function Latency(banks: seq<nat>, r: MemRequest): nat
    requires |banks| == NUM_BANKS
  {
    if IsHit(banks, r) then HIT_LATENCY else MISS_LATENCY
  }

  // Cycles to serve the requests in the given order.
  function OrderCost(banks: seq<nat>, order: seq<MemRequest>): nat
    requires |banks| == NUM_BANKS
    decreases |order|
  {
    if order == [] then 0 else Latency(banks, order[0]) + OrderCost(Opened(banks, order[0]), order[1..])
  }

  function BanksAfter(banks: seq<nat>, order: seq<MemRequest>): (b: seq<nat>)
    requires |banks| == NUM_BANKS
    ensures |b| == NUM_BANKS
    decreases |order|
  {
    if order == [] then banks else BanksAfter(Opened(banks, order[0]), order[1..])
  }

  // Distinct pages of the requests that are not in a row buffer.
  function Unopened(banks: seq<nat>, q: seq<MemRequest>): set<Page>
    requires |banks| == NUM_BANKS
  {
    set r | r in q && !IsHit(banks, r) :: PageOf(r)
  }

  // ---------------------------------------------------------------- the scheduling rule

  // The first request of q from i on that hits, or |q|.
  function FirstHit(banks: seq<nat>, q: seq<MemRequest>, i: nat): (k: nat)
    requires |banks| == NUM_BANKS && i <= |q|
    ensures i <= k <= |q| && (k < |q| ==> IsHit(banks, q[k])) && forall j :: i <= j < k ==> !IsHit(banks, q[j])
    decreases |q| - i
  {
    if i == |q| || IsHit(banks, q[i]) then i else FirstHit(banks, q, i + 1)
  }

  // First-ready first-come-first-served: the oldest row hit, else the oldest request.
  function Pick(banks: seq<nat>, q: seq<MemRequest>): (k: nat)
    requires |banks| == NUM_BANKS && q != []
    ensures k < |q|
    ensures IsHit(banks, q[k]) || (k == 0 && forall j :: 0 <= j < |q| ==> !IsHit(banks, q[j]))
  {
    var h := FirstHit(banks, q, 0);
    if h < |q| then h else 0
  }

  // The order in which the controller serves a queue to which nothing is added.
  function Drain(banks: seq<nat>, q: seq<MemRequest>): (order: seq<MemRequest>)
    requires |banks| == NUM_BANKS
    ensures |order| == |q|
    decreases |q|
  {
    if q == [] then [] else
      var k := Pick(banks, q);
      [q[k]] + Drain(Opened(banks, q[k]), Without(q, k))
  }

  // ---------------------------------------------------------------- optimality

  lemma WithoutElements<T>(q: seq<T>, k: nat)
    requires k < |q|
    ensures forall r :: r in q <==> r == q[k] || r in Without(q, k)
    ensures multiset(q) == multiset(Without(q, k)) + multiset{q[k]}
  {
    assert q == q[..k] + [q[k]] + q[k + 1..];
    forall r | r in q ensures r == q[k] || r in Without(q, k) {
      var j :| 0 <= j < |q| && q[j] == r;
      if j < k {
        assert Without(q, k)[j] == r;
      } else if j > k {
        assert Without(q, k)[j - 1] == r;
      }
    }
  }

  // Serving a hit leaves the unopened pages; serving a miss removes at most its own page.
  lemma ServeUnopened(banks: seq<nat>, q: seq<MemRequest>, k: nat)
    requires |banks| == NUM_BANKS && k < |q|
    ensures var u := Unopened(banks, q); var u' := Unopened(Opened(banks, q[k]), Without(q, k));
      (IsHit(banks, q[k]) ==> u' == u) &&
      (!IsHit(banks, q[k]) ==> PageOf(q[k]) in u && u - {PageOf(q[k])} <= u')
  {
    WithoutElements(q, k);
    var r, b := q[k], Opened(banks, q[k]);
    if IsHit(banks, r) {
      assert b == banks;
      forall p | p in Unopened(banks, q) ensures p in Unopened(b, Without(q, k)) {
        var x :| x in q && !IsHit(banks, x) && PageOf(x) == p;
        assert x in Without(q, k);
      }
    } else {
      forall p | p in Unopened(banks, q) && p != PageOf(r) ensures p in Unopened(b, Without(q, k)) {
        var x :| x in q && !IsHit(banks, x) && PageOf(x) == p;
        assert x in Without(q, k) && !IsHit(b, x);
      }
    }
  }

  // When nothing hits, serving the head opens exactly its page.
  lemma ServeHead(banks: seq<nat>, q: seq<MemRequest>)
    requires |banks| == NUM_BANKS && q != [] && forall j :: 0 <= j < |q| ==> !IsHit(banks, q[j])
    ensures Unopened(Opened(banks, q[0]), Without(q, 0)) == Unopened(banks, q) - {PageOf(q[0])}
  {
    ServeUnopened(banks, q, 0);
    WithoutElements(q, 0);
    var b := Opened(banks, q[0]);
    forall p | p in Unopened(b, Without(q, 0)) ensures p in Unopened(banks, q) && p != PageOf(q[0]) {
      var x :| x in Without(q, 0) && !IsHit(b, x) && PageOf(x) == p;
      assert x in q;
    }
  }

  // Draining a fixed queue costs 10 cycles a request and 20 more for each distinct unopened page.
  lemma {:induction false} DrainCost(banks: seq<nat>, q: seq<MemRequest>)
    requires |banks| == NUM_BANKS
    ensures OrderCost(banks, Drain(banks, q)) ==
            10 * |q| + 20 * |Unopened(banks, q)|
    decreases |q|
  {
    if q == [] {
      assert Unopened(banks, q) == {};
    } else {
      var k := Pick(banks, q);
      DrainCost(Opened(banks, q[k]), Without(q, k));
      ServeUnopened(banks, q, k);
      if !IsHit(banks, q[k]) {
        ServeHead(banks, q);
      }
      assert Drain(banks, q)[1..] == Drain(Opened(banks, q[k]), Without(q, k));
    }
  }

  // No order of service costs less than that.
  lemma {:induction false} AnyOrderCost(banks: seq<nat>, order: seq<MemRequest>)
    requires |banks| == NUM_BANKS
    ensures OrderCost(banks, order) >=
            10 * |order| + 20 * |Unopened(banks, order)|
    decreases |order|
  {
    if order == [] {
      assert Unopened(banks, order) == {};
    } else {
      var b := Opened(banks, order[0]);
      assert Without(order, 0) == order[1..];
      AnyOrderCost(b, order[1..]);
      ServeUnopened(banks, order, 0);
      var u, u' := Unopened(banks, order), Unopened(b, order[1..]);
      if !IsHit(banks, order[0]) {
        SubsetSize(u - {PageOf(order[0])}, u');
      }
    }
  }

  lemma {:induction false} DrainIsPermutation(banks: seq<nat>, q: seq<MemRequest>)
    requires |banks| == NUM_BANKS
    ensures multiset(Drain(banks, q)) == multiset(q)
    decreases |q|
  {
    if q != [] {
      var k := Pick(banks, q);
      DrainIsPermutation(Opened(banks, q[k]), Without(q, k));
      WithoutElements(q, k);
    }
  }

  // Optimality: no service order of the same requests takes fewer cycles.
  lemma DrainIsOptimal(banks: seq<nat>, q: seq<MemRequest>, order: seq<MemRequest>)
    requires |banks| == NUM_BANKS && multiset(order) == multiset(q)
    ensures OrderCost(banks, Drain(banks, q)) <= OrderCost(banks, order)
  {
    DrainCost(banks, q);
    AnyOrderCost(banks, order);
    assert forall r :: r in order <==> r in multiset(order);
    assert forall r :: r in q <==> r in multiset(q);
    assert Unopened(banks, order) == Unopened(banks, q);
    assert |order| == |multiset(order)| == |q|;
  }

  // ---------------------------------------------------------------- arrival order within a page

  function OfPage(q: seq<MemRequest>, p: Page): seq<MemRequest> {
    if q == [] then [] else OfPage(q[..|q| - 1], p) + if PageOf(q[|q| - 1]) == p then [q[|q| - 1]] else []
  }

  lemma {:induction false} OfPageConcat(a: seq<MemRequest>, b: seq<MemRequest>, p: Page)
    ensures OfPage(a + b, p) == OfPage(a, p) + OfPage(b, p)
  {
    if b == [] {
      assert a + b == a;
    } else {
      assert (a + b)[..|a + b| - 1] == a + b[..|b| - 1];
      OfPageConcat(a, b[..|b| - 1], p);
    }
  }

  lemma {:induction false} OfPageEmpty(q: seq<MemRequest>, p: Page)
    requires forall j :: 0 <= j < |q| ==> PageOf(q[j]) != p
    ensures OfPage(q, p) == []
  {
    if q != [] {
      OfPageEmpty(q[..|q| - 1], p);
    }
  }

  // The picked request is the oldest of its page.
  lemma PickIsOldestOfPage(banks: seq<nat>, q: seq<MemRequest>, p: Page)
    requires |banks| == NUM_BANKS && q != []
    ensures var k := Pick(banks, q); OfPage(q, p) == OfPage([q[k]], p) + OfPage(Without(q, k), p)
  {
    hide OfPage;
    var k := Pick(banks, q);
    SplitAt(q, k, p);
    if PageOf(q[k]) == p {
      forall j | 0 <= j < k ensures PageOf(q[..k][j]) != p {
        assert !IsHit(banks, q[j]);
      }
      OfPageEmpty(q[..k], p);
    } else {
      OfPageEmpty([q[k]], p);
    }
  }

  lemma SplitAt(q: seq<MemRequest>, k: nat, p: Page)
    requires k < |q|
    ensures OfPage(q, p) == OfPage(q[..k], p) + OfPage([q[k]], p) + OfPage(q[k + 1..], p)
    ensures OfPage(Without(q, k), p) == OfPage(q[..k], p) + OfPage(q[k + 1..], p)
  {
    hide OfPage;
    assert q == q[..k] + [q[k]] + q[k + 1..];
    OfPageConcat(q[..k] + [q[k]], q[k + 1..], p);
    OfPageConcat(q[..k], [q[k]], p);
    OfPageConcat(q[..k], q[k + 1..], p);
  }

  // Every request accepted so far, page by page in arrival order, is the served ones then the
  // pending ones.
  ghost predicate PageOrder(accepted: seq<MemRequest>, served: seq<MemRequest>, q: seq<MemRequest>) {
    forall p :: OfPage(accepted, p) == OfPage(served, p) + OfPage(q, p)
  }

  lemma EnqueueKeepsOrder(accepted: seq<MemRequest>, served: seq<MemRequest>, q: seq<MemRequest>, r: MemRequest)
    requires PageOrder(accepted, served, q)
    ensures PageOrder(accepted + [r], served, q + [r])
  {
    forall p ensures OfPage(accepted + [r], p) == OfPage(served, p) + OfPage(q + [r], p) {
      OfPageConcat(accepted, [r], p);
      OfPageConcat(q, [r], p);
    }
  }

  lemma ServeKeepsOrder(accepted: seq<MemRequest>, served: seq<MemRequest>, q: seq<MemRequest>, banks: seq<nat>)
    requires |banks| == NUM_BANKS && q != [] && PageOrder(accepted, served, q)
    ensures var k := Pick(banks, q); PageOrder(accepted, served + [q[k]], Without(q, k))
  {
    var k := Pick(banks, q);
    forall p ensures OfPage(accepted, p) == OfPage(served + [q[k]], p) + OfPage(Without(q, k), p) {
      OfPageConcat(served, [q[k]], p);
      PickIsOldestOfPage(banks, q, p);
    }
  }

  lemma {:induction false} CostOfAppended(banks: seq<nat>, order: seq<MemRequest>, r: MemRequest)
    requires |banks| == NUM_BANKS
    ensures OrderCost(banks, order + [r]) == OrderCost(banks, order) + Latency(BanksAfter(banks, order), r)
    ensures BanksAfter(banks, order + [r]) == Opened(BanksAfter(banks, order), r)
    decreases |order|
  {
    if order == [] {
      assert order + [r] == [r];
      assert OrderCost(Opened(banks, r), []) == 0;
    } else {
      assert (order + [r])[1..] == order[1..] + [r];
      CostOfAppended(Opened(banks, order[0]), order[1..], r);
    }
  }

  // Arrival stamps never decrease along the queue and are not later than now.
  ghost predicate ByArrival(q: seq<MemRequest>, now: nat) {
    (forall i :: 0 <= i < |q| ==> q[i].arrivalTime <= now) &&
    (forall i, j :: 0 <= i < j < |q| ==> q[i].arrivalTime <= q[j].arrivalTime)
  }

  lemma WithoutByArrival(q: seq<MemRequest>, k: nat, now: nat)
    requires k < |q| && ByArrival(q, now)
    ensures ByArrival(Without(q, k), now + 1)
  {
  }

  function ResetBanks(): (b: seq<nat>)
    ensures |b| == NUM_BANKS && forall i :: 0 <= i < NUM_BANKS ==> b[i] == 0
  {
    seq(NUM_BANKS, i => 0)
  }

  // What the controller's fields say about the requests accepted, served and pending: nothing is
  // lost or duplicated, each page is served in arrival order, and row buffers and total latency are
  // those of the service order.
  ghost predicate Ledger(accepted: seq<MemRequest>, served: seq<MemRequest>, q: seq<MemRequest>,
                         banks: seq<nat>, totalServed: nat, totalLatency: nat) {
    |served| == totalServed && ByArrival(q, totalServed) &&
    banks == BanksAfter(ResetBanks(), served) && totalLatency == OrderCost(ResetBanks(), served) &&
    PageOrder(accepted, served, q) && multiset(accepted) == multiset(served) + multiset(q)
  }

  lemma LedgerEnqueue(accepted: seq<MemRequest>, served: seq<MemRequest>, q: seq<MemRequest>,
                      banks: seq<nat>, totalServed: nat, totalLatency: nat, r: MemRequest)
    requires Ledger(accepted, served, q, banks, totalServed, totalLatency) && r.arrivalTime == totalServed
    ensures Ledger(accepted + [r], served, q + [r], banks, totalServed, totalLatency)
  {
    hide PageOrder, OrderCost, BanksAfter;
    EnqueueKeepsOrder(accepted, served, q, r);
  }

  lemma LedgerServe(accepted: seq<MemRequest>, served: seq<MemRequest>, q: seq<MemRequest>,
                    banks: seq<nat>, totalServed: nat, totalLatency: nat)
    requires |banks| == NUM_BANKS && q != [] && Ledger(accepted, served, q, banks, totalServed, totalLatency)
    ensures var k := Pick(banks, q);
      Ledger(accepted, served + [q[k]], Without(q, k), Opened(banks, q[k]), totalServed + 1, totalLatency + Latency(banks, q[k]))
  {
    hide PageOrder, OrderCost, BanksAfter, Pick, Without, Opened, Latency;
    var k := Pick(banks, q);
    WithoutByArrival(q, k, totalServed);
    ServeKeepsOrder(accepted, served, q, banks);
    CostOfAppended(ResetBanks(), served, q[k]);
    WithoutElements(q, k);
  }

  // ---------------------------------------------------------------- the controller

  class Controller {
    const pendingQueue: array<MemRequest>
    const bankBusy: array<nat>
    var queueSize: nat
    var totalServed: nat
    var totalLatency: nat

    // The requests accepted and served so far, oldest first.
    ghost var accepted: seq<MemRequest>
    ghost var served: seq<MemRequest>

    ghost predicate Shaped()
      reads this
    {
      bankBusy.Length == NUM_BANKS && queueSize <= pendingQueue.Length
    }

    ghost function Queue(): (q: seq<MemRequest>)
      requires Shaped()
      reads this, pendingQueue
      ensures |q| == queueSize
    {
      pendingQueue[..queueSize]
    }

    ghost predicate Valid()
      reads this, pendingQueue, bankBusy
    {
      Shaped() && Ledger(accepted, served, Queue(), bankBusy[..], totalServed, totalLatency)
    }

    constructor (capacity: nat)
      ensures Valid() && accepted == [] && served == [] && Queue() == []
      ensures pendingQueue.Length == if capacity > 0 then capacity else 32
      ensures fresh(pendingQueue) && fresh(bankBusy)
    {
      var size := if capacity > 0 then capacity else 32;
      pendingQueue := new MemRequest[size](i => MemRequest(REQ_READ, 0, 0, 0, 0, false));
      bankBusy := new nat[NUM_BANKS](i => 0);
      queueSize, totalServed, totalLatency := 0, 0, 0;
      accepted, served := [], [];
      new;
      assert bankBusy[..] == ResetBanks();
    }

    // Appends a request; a full queue drops it.
    method Enqueue(kind: MemReqType, addr: nat, data: nat)
      requires Valid()
      modifies this`queueSize, this`accepted, pendingQueue
      ensures Valid()
      ensures var r := MemRequest(kind, addr, data, totalServed, 0, kind == REQ_PREFETCH);
        if old(queueSize) == pendingQueue.Length then accepted == old(accepted) && Queue() == old(Queue())
        else accepted == old(accepted) + [r] && Queue() == old(Queue()) + [r]
    {
      hide Ledger;
      if queueSize >= pendingQueue.Length {
        return;
      }
      ghost var q := Queue();
      var r := MemRequest(kind, addr, data, totalServed, 0, kind == REQ_PREFETCH);
      pendingQueue[queueSize] := r;
      queueSize := queueSize + 1;
      accepted := accepted + [r];
      assert Queue() == q + [r];
      LedgerEnqueue(old(accepted), served, q, bankBusy[..], totalServed, totalLatency, r);
    }

    // The request to serve next.
    method Select() returns (bestIdx: nat, foundHit: bool)
      requires Valid() && queueSize > 0 && totalServed < UINT32_MAX
      ensures bestIdx == Pick(bankBusy[..], Queue()) && foundHit == IsHit(bankBusy[..], Queue()[bestIdx])
    {
      ghost var q, banks := Queue(), bankBusy[..];
      foundHit := false;
      bestIdx := 0;
      var bestArrival := UINT32_MAX;
      for i := 0 to queueSize
        invariant !foundHit ==> bestArrival == UINT32_MAX && forall j :: 0 <= j < i ==> !IsHit(banks, q[j])
        invariant foundHit ==> bestIdx < i && IsHit(banks, q[bestIdx]) && bestArrival == q[bestIdx].arrivalTime &&
                               forall j :: 0 <= j < bestIdx ==> !IsHit(banks, q[j])
      {
        var r := pendingQueue[i];
        if bankBusy[BankOf(r.addr)] == RowOf(r.addr) {
          if r.arrivalTime < bestArrival {
            bestArrival := r.arrivalTime;
            bestIdx := i;
            foundHit := true;
          }
        }
      }
      if !foundHit {
        for i := 0 to queueSize
          invariant i == 0 ==> bestArrival == UINT32_MAX
          invariant i > 0 ==> bestIdx == 0 && bestArrival == q[0].arrivalTime
        {
          if pendingQueue[i].arrivalTime < bestArrival {
            bestArrival := pendingQueue[i].arrivalTime;
            bestIdx := i;
          }
        }
      }
    }

    // Closes the gap at position k.
    method Remove(k: nat)
      requires Shaped() && k < queueSize
      modifies this`queueSize, pendingQueue
      ensures Shaped() && Queue() == Without(old(Queue()), k)
    {
      ghost var q := Queue();
      ghost var w := Without(q, k);
      var n := queueSize;
      for i := k to n - 1
        modifies pendingQueue
        invariant forall j :: 0 <= j < i ==> pendingQueue[j] == w[j]
        invariant forall j :: i <= j < n ==> pendingQueue[j] == q[j]
      {
        pendingQueue[i] := pendingQueue[i + 1];
      }
      queueSize := n - 1;
    }

    // Serves one request and returns its position, or -1 when nothing is pending.
    method Schedule() returns (idx: int)
      requires Valid() && totalServed < UINT32_MAX
      modifies this`queueSize, this`totalServed, this`totalLatency, this`served, pendingQueue, bankBusy
      ensures Valid()
      ensures old(queueSize) == 0 ==> idx == -1 && served == old(served) && Queue() == old(Queue())
      ensures old(queueSize) > 0 ==>
        idx == Pick(old(bankBusy[..]), old(Queue())) && served == old(served) + [old(Queue())[idx]] &&
        Queue() == Without(old(Queue()), idx)
    {
      if queueSize == 0 {
        return -1;
      }
      ghost var q, banks := Queue(), bankBusy[..];
      var best, foundHit := Select();
      Serve(best, foundHit);
      idx := best;
    }

    // Serves the request at the picked position.
    method Serve(best: nat, foundHit: bool)
      requires Valid() && queueSize > 0 && best == Pick(bankBusy[..], Queue())
      requires foundHit == IsHit(bankBusy[..], Queue()[best])
      modifies this`queueSize, this`totalServed, this`totalLatency, this`served, pendingQueue, bankBusy
      ensures Valid() && served == old(served) + [old(Queue())[best]] && Queue() == Without(old(Queue()), best)
    {
      hide Ledger, Pick, Without;
      ghost var q, banks := Queue(), bankBusy[..];
      LedgerServe(accepted, served, q, banks, totalServed, totalLatency);
      var r := pendingQueue[best];
      bankBusy[BankOf(r.addr)] := RowOf(r.addr);
      assert bankBusy[..] == Opened(banks, r);
      totalLatency := totalLatency + if foundHit then HIT_LATENCY else MISS_LATENCY;
      totalServed := totalServed + 1;
      Remove(best);
      served := served + [r];
    }
  }
}
