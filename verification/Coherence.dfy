// mini-computer-arch/src/coherence.c: the snooping cache-coherence controller.
//
// Every cache is direct mapped with the same geometry, so an access only concerns one column: the
// lines with the same index, one per cache.
module Coherence {
  import opened Collections

  const MAX_CACHES: nat := 16
  const CACHE_LINES: nat := 256
  const LINE_BYTES: nat := 64

  type Byte = x: int | 0 <= x < 256

  // The bytes of one line.
  type Data = d: seq<Byte> | |d| == LINE_BYTES witness seq(LINE_BYTES, _ => 0)

  function ZeroLine(): (d: Data)
    ensures forall k :: 0 <= k < 64 ==> d[k] == 0
  {
    seq(LINE_BYTES, _ => 0)
  }

  datatype Protocol = PROTO_MSI | PROTO_MESI | PROTO_MOESI

  datatype CoherenceState = MESI_M | MESI_E | MESI_S | MESI_I

  datatype Line = Line(tag: nat, state: CoherenceState, valid: bool, data: Data)

  predicate HasExclusiveMode(p: Protocol) {
    p == PROTO_MESI || p == PROTO_MOESI
  }

  predicate Holds(l: Line, tag: nat) {
    l.valid && l.tag == tag
  }

  // ---------------------------------------------------------------- steps on a column

  // The first cache from i on, other than c, that holds the tag modified; or the number of caches.
  function Modified(col: seq<Line>, c: nat, tag: nat, i: nat): (k: nat)
    requires i <= |col|
    ensures i <= k <= |col|
    ensures k < |col| ==> k != c && Holds(col[k], tag) && col[k].state == MESI_M
    ensures forall j :: i <= j < k && j != c ==> !(Holds(col[j], tag) && col[j].state == MESI_M)
    decreases |col| - i
  {
    if i == |col| || (i != c && Holds(col[i], tag) && col[i].state == MESI_M) then i else Modified(col, c, tag, i + 1)
  }

  // Among the first n caches one other than c holds the tag exclusive or shared.
  predicate SharedAmong(col: seq<Line>, c: nat, tag: nat, n: nat)
    requires n <= |col|
  {
    exists i :: 0 <= i < n && i != c && Holds(col[i], tag) && (col[i].state == MESI_E || col[i].state == MESI_S)
  }

  predicate SharedElsewhere(col: seq<Line>, c: nat, tag: nat) {
    SharedAmong(col, c, tag, |col|)
  }

  lemma SharedNone(col: seq<Line>, c: nat, tag: nat)
    ensures !SharedAmong(col, c, tag, 0)
  {
  }

  lemma SharedNext(col: seq<Line>, c: nat, tag: nat, i: nat)
    requires i < |col|
    ensures SharedAmong(col, c, tag, i + 1) <==>
            SharedAmong(col, c, tag, i) || (i != c && Holds(col[i], tag) && (col[i].state == MESI_E || col[i].state == MESI_S))
  {
  }

  // A remote read takes an exclusive copy down to shared.
  function Demoted(l: Line, tag: nat): Line {
    if Holds(l, tag) && l.state == MESI_E then l.(state := MESI_S) else l
  }

  // The column after a modified copy in cache m supplied the read by cache c.
  function SuppliedColumn(col: seq<Line>, c: nat, tag: nat, m: nat): (r: seq<Line>)
    requires c < |col| && m < |col|
    ensures |r| == |col|
  {
    seq(|col|, i requires 0 <= i < |col| =>
      if i == c then Line(tag, MESI_S, true, col[m].data)
      else if i == m then col[i].(state := MESI_S)
      else if i < m then Demoted(col[i], tag)
      else col[i])
  }

  // The column after memory answered the read by cache c with a zero fill.
  function FilledColumn(col: seq<Line>, c: nat, tag: nat, state: CoherenceState): (r: seq<Line>)
    requires c < |col|
    ensures |r| == |col|
  {
    seq(|col|, i requires 0 <= i < |col| => if i == c then Line(tag, state, true, ZeroLine()) else Demoted(col[i], tag))
  }

  function FillState(col: seq<Line>, c: nat, tag: nat, exclusive: bool): CoherenceState {
    if exclusive && !SharedElsewhere(col, c, tag) then MESI_E else MESI_S
  }

  // The column after a read by cache c.
  function ReadColumn(col: seq<Line>, c: nat, tag: nat, exclusive: bool): (r: seq<Line>)
    requires c < |col|
    ensures |r| == |col|
  {
    if Holds(col[c], tag) then col
    else if Modified(col, c, tag, 0) < |col| then SuppliedColumn(col, c, tag, Modified(col, c, tag, 0))
    else FilledColumn(col, c, tag, FillState(col, c, tag, exclusive))
  }

  // A line after another cache wrote its tag.
  function Invalidated(l: Line, tag: nat): Line {
    if Holds(l, tag) then l.(state := MESI_I, valid := false) else l
  }

  // The data left in the writer's line by the modified copies among the first n caches.
  function Supplied(col: seq<Line>, c: nat, tag: nat, n: nat): Data
    requires c < |col| && n <= |col|
  {
    if n == 0 then col[c].data
    else if n - 1 != c && Holds(col[n - 1], tag) && col[n - 1].state == MESI_M then col[n - 1].data
    else Supplied(col, c, tag, n - 1)
  }

  // The column after a write by cache c; a null buffer changes no data.
  function WriteColumn(col: seq<Line>, c: nat, tag: nat, data: Option<Data>): (r: seq<Line>)
    requires c < |col|
    ensures |r| == |col|
  {
    if Holds(col[c], tag) && (col[c].state == MESI_M || col[c].state == MESI_E) then
      col[c := Line(tag, MESI_M, true, if data.Some? then data.value else col[c].data)]
    else
      seq(|col|, i requires 0 <= i < |col| =>
        if i == c then Line(tag, MESI_M, true, if data.Some? then data.value else Supplied(col, c, tag, |col|))
        else Invalidated(col[i], tag))
  }

  // The column after cache c snoops a remote access.
  function SnoopColumn(col: seq<Line>, c: nat, tag: nat, isWrite: bool): (r: seq<Line>)
    requires c < |col|
    ensures |r| == |col|
  {
    if Holds(col[c], tag) && isWrite && col[c].state != MESI_I then
      col[c := col[c].(state := MESI_I, valid := false)]
    else col
  }

  // ---------------------------------------------------------------- coherence of a column

  // A valid line is not in state I, and one held modified or exclusive is held by nobody else.
  ghost predicate SingleOwner(col: seq<Line>) {
    (forall i :: 0 <= i < |col| && col[i].valid ==> col[i].state != MESI_I) &&
    forall i, j :: 0 <= i < |col| && 0 <= j < |col| && i != j && col[i].valid && Holds(col[j], col[i].tag) ==>
      col[i].state != MESI_M && col[i].state != MESI_E
  }

  // Valid lines sit in the column of their tag.
  ghost predicate Placed(col: seq<Line>, index: nat) {
    forall i :: 0 <= i < |col| && col[i].valid ==> col[i].tag % CACHE_LINES == index
  }

  // A modified copy is the last write; any other copy is the last write or the zero fill.
  ghost predicate UpToDate(l: Line, last: map<nat, Data>) {
    l.valid ==>
      (l.tag in last && l.data == last[l.tag]) || (l.state != MESI_M && l.data == ZeroLine())
  }

  ghost predicate ColumnUpToDate(col: seq<Line>, last: map<nat, Data>) {
    forall i :: 0 <= i < |col| ==> UpToDate(col[i], last)
  }

  lemma ReadKeeps(col: seq<Line>, c: nat, tag: nat, exclusive: bool, last: map<nat, Data>)
    requires c < |col| && SingleOwner(col)
    ensures var r := ReadColumn(col, c, tag, exclusive);
      SingleOwner(r) && Holds(r[c], tag) && (ColumnUpToDate(col, last) ==> ColumnUpToDate(r, last))
  {
    if !Holds(col[c], tag) {
      var m := Modified(col, c, tag, 0);
      var r := ReadColumn(col, c, tag, exclusive);
      forall i | 0 <= i < |col| && i != c
        ensures r[i].valid == col[i].valid && r[i].tag == col[i].tag && r[i].data == col[i].data
        ensures Holds(col[i], tag) ==> r[i].state != MESI_M && r[i].state != MESI_E
        ensures r[i].state == MESI_M || r[i].state == MESI_E ==> r[i] == col[i]
      {
      }
    }
  }

  lemma WriteKeeps(col: seq<Line>, c: nat, tag: nat, data: Option<Data>)
    requires c < |col| && SingleOwner(col)
    ensures SingleOwner(WriteColumn(col, c, tag, data))
    ensures Holds(WriteColumn(col, c, tag, data)[c], tag) && WriteColumn(col, c, tag, data)[c].state == MESI_M
  {
  }

  // After a write nobody else holds the line.
  lemma WriterIsAlone(col: seq<Line>, c: nat, tag: nat, data: Option<Data>, i: nat)
    requires c < |col| && SingleOwner(col) && i < |col| && i != c
    ensures !Holds(WriteColumn(col, c, tag, data)[i], tag)
    ensures Holds(col[i], tag) ==> WriteColumn(col, c, tag, data)[i].state == MESI_I
  {
  }

  // A write with data leaves every copy up to date with it.
  lemma WriteUpToDate(col: seq<Line>, c: nat, tag: nat, data: Data, last: map<nat, Data>)
    requires c < |col| && SingleOwner(col) && ColumnUpToDate(col, last)
    ensures ColumnUpToDate(WriteColumn(col, c, tag, Some(data)), last[tag := data])
  {
    var r := WriteColumn(col, c, tag, Some(data));
    forall i | 0 <= i < |col| ensures UpToDate(r[i], last[tag := data]) {
      if i != c {
        WriterIsAlone(col, c, tag, Some(data), i);
      }
    }
  }

  // A write without data keeps every copy up to date exactly when the line was written before and
  // either some cache holds it modified or the writer's slot happens to hold the last write.
  lemma NullWriteUpToDate(col: seq<Line>, c: nat, tag: nat, last: map<nat, Data>)
    requires c < |col| && SingleOwner(col) && ColumnUpToDate(col, last)
    ensures ColumnUpToDate(WriteColumn(col, c, tag, None), last) <==>
            tag in last &&
            ((exists i :: 0 <= i < |col| && Holds(col[i], tag) && col[i].state == MESI_M) || col[c].data == last[tag])
  {
    var r := WriteColumn(col, c, tag, None);
    assert UpToDate(r[c], last) <==> tag in last && r[c].data == last[tag];
    forall i | 0 <= i < |col| && i != c ensures UpToDate(r[i], last) {
      assert UpToDate(col[i], last);
    }
    if i :| 0 <= i < |col| && Holds(col[i], tag) && col[i].state == MESI_M {
      assert UpToDate(col[i], last);
      SuppliedByOwner(col, c, tag, |col|, i);
    } else {
      NothingElseSupplied(col, c, tag, |col|);
    }
  }

  lemma {:induction false} SuppliedByOwner(col: seq<Line>, c: nat, tag: nat, n: nat, i: nat)
    requires c < |col| && i < n <= |col| && SingleOwner(col) && Holds(col[i], tag) && col[i].state == MESI_M
    ensures Supplied(col, c, tag, n) == col[i].data
  {
    if n - 1 > i {
      SuppliedByOwner(col, c, tag, n - 1, i);
    } else if i == c {
      NothingElseSupplied(col, c, tag, i);
    }
  }

  lemma {:induction false} NothingElseSupplied(col: seq<Line>, c: nat, tag: nat, n: nat)
    requires c < |col| && n <= |col| && forall i :: 0 <= i < n && i != c ==> !(Holds(col[i], tag) && col[i].state == MESI_M)
    ensures Supplied(col, c, tag, n) == col[c].data
  {
    if n > 0 {
      NothingElseSupplied(col, c, tag, n - 1);
    }
  }

  // Otherwise the previous occupant's bytes surface under the new tag.
  lemma NullWriteCounterexample(d: Data)
    ensures var prior := Line(0, MESI_M, true, d); var col := [prior]; var last := map[0 := d];
      SingleOwner(col) && ColumnUpToDate(col, last) &&
      var r := WriteColumn(col, 0, CACHE_LINES, None);
      r == [Line(CACHE_LINES, MESI_M, true, d)] && !ColumnUpToDate(r, last)
  {
    var prior := Line(0, MESI_M, true, d);
    var r := WriteColumn([prior], 0, CACHE_LINES, None);
    NothingElseSupplied([prior], 0, CACHE_LINES, 1);
    assert r[0] == Line(CACHE_LINES, MESI_M, true, d);
    assert !UpToDate(r[0], map[0 := d]);
  }

  // The read that follows a write of the line, by whichever cache, returns the data written.
  lemma ReadAfterWrite(col: seq<Line>, c: nat, tag: nat, data: Data, reader: nat, exclusive: bool)
    requires c < |col| && SingleOwner(col) && reader < |col|
    ensures ReadColumn(WriteColumn(col, c, tag, Some(data)), reader, tag, exclusive)[reader].data == data
  {
    var w := WriteColumn(col, c, tag, Some(data));
    if reader != c {
      WriterIsAlone(col, c, tag, Some(data), reader);
      var m := Modified(w, reader, tag, 0);
      if m < |col| && m != c {
        WriterIsAlone(col, c, tag, Some(data), m);
      }
    }
  }

  // A read miss returns the last write exactly when some cache holds the line modified, or the last
  // write was zeros: a shared copy supplies nothing.
  lemma ReadMissIff(col: seq<Line>, c: nat, tag: nat, exclusive: bool, last: map<nat, Data>)
    requires c < |col| && SingleOwner(col) && ColumnUpToDate(col, last) && tag in last && !Holds(col[c], tag)
    ensures ReadColumn(col, c, tag, exclusive)[c].data == last[tag] <==>
            (exists i :: 0 <= i < |col| && Holds(col[i], tag) && col[i].state == MESI_M) || last[tag] == ZeroLine()
  {
    var m := Modified(col, c, tag, 0);
    if m < |col| {
      assert UpToDate(col[m], last);
      assert Holds(col[m], tag) && col[m].state == MESI_M;
    }
  }

  // Cache 0 writes anything but zeros, cache 1 reads it, cache 2 then reads zeros, again and again.
  lemma SharedReadLost(d: Data)
    requires d != ZeroLine()
    ensures var none := Line(0, MESI_M, false, ZeroLine());
      var w := WriteColumn([none, none, none], 0, 0, Some(d));
      var r := ReadColumn(w, 1, 0, true);
      var q := ReadColumn(r, 2, 0, true);
      r[1].data == d && q[2].data == ZeroLine() && ReadColumn(q, 2, 0, true)[2].data == ZeroLine() &&
      ReadColumn(q, 1, 0, true)[1].data == d && q[1].state == q[2].state == MESI_S
  {
    var none := Line(0, MESI_M, false, ZeroLine());
    var w := WriteColumn([none, none, none], 0, 0, Some(d));
    ReadAfterWrite([none, none, none], 0, 0, d, 1, true);
    var r := ReadColumn(w, 1, 0, true);
    assert Modified(w, 1, 0, 0) == 0;
    assert r[0].state == MESI_S && r[1].state == MESI_S && !r[2].valid;
    assert Modified(r, 2, 0, 0) == 3;
    assert SharedElsewhere(r, 2, 0) by {
      assert Holds(r[0], 0);
    }
  }

  lemma SnoopKeeps(col: seq<Line>, c: nat, tag: nat, isWrite: bool, last: map<nat, Data>)
    requires c < |col| && SingleOwner(col)
    ensures var r := SnoopColumn(col, c, tag, isWrite);
      SingleOwner(r) && (ColumnUpToDate(col, last) ==> ColumnUpToDate(r, last))
  {
  }

  // A snooped write drops the cache's copy, a snooped read nothing; no other cache is touched.
  lemma SnoopDrops(col: seq<Line>, c: nat, tag: nat, isWrite: bool)
    requires c < |col| && SingleOwner(col)
    ensures var r := SnoopColumn(col, c, tag, isWrite);
      (Holds(r[c], tag) <==> Holds(col[c], tag) && !isWrite) && (!isWrite ==> r == col) && r == col[c := r[c]] &&
      (Holds(col[c], tag) && isWrite ==> r[c].state == MESI_I)
  {
  }

  // ---------------------------------------------------------------- the exclusive state

  // A read miss leaves the reader's line exclusive exactly when the protocol has that state and no other
  // cache held the line.
  lemma ExclusiveFillIff(col: seq<Line>, c: nat, tag: nat, exclusive: bool)
    requires c < |col| && SingleOwner(col) && !Holds(col[c], tag)
    ensures ReadColumn(col, c, tag, exclusive)[c].state == MESI_E <==>
            exclusive && forall i :: 0 <= i < |col| && i != c ==> !Holds(col[i], tag)
  {
    if i :| 0 <= i < |col| && i != c && Holds(col[i], tag) {
      assert col[i].state == MESI_M || col[i].state == MESI_E || col[i].state == MESI_S;
    }
  }

  // A write to an exclusive line changes no other cache.
  lemma SilentWrite(col: seq<Line>, c: nat, tag: nat, data: Data)
    requires c < |col| && Holds(col[c], tag) && col[c].state == MESI_E
    ensures WriteColumn(col, c, tag, Some(data)) == col[c := Line(tag, MESI_M, true, data)]
  {
  }

  // ---------------------------------------------------------------- all columns

  // Every column is coherent.
  ghost predicate Coherent(cols: seq<seq<Line>>) {
    |cols| == CACHE_LINES && forall j :: 0 <= j < CACHE_LINES ==> SingleOwner(cols[j]) && Placed(cols[j], j)
  }

  // No copy anywhere is a write that was overwritten.
  ghost predicate Current(cols: seq<seq<Line>>, last: map<nat, Data>) {
    forall j :: 0 <= j < |cols| ==> ColumnUpToDate(cols[j], last)
  }

  lemma StepCoherent(cols: seq<seq<Line>>, i: nat, col: seq<Line>)
    requires Coherent(cols) && i < CACHE_LINES && SingleOwner(col) && Placed(col, i)
    ensures Coherent(cols[i := col])
  {
  }

  // A new last write of one tag concerns only the column of that tag.
  lemma StepCurrent(cols: seq<seq<Line>>, i: nat, col: seq<Line>, last: map<nat, Data>, last': map<nat, Data>, tag: nat)
    requires Coherent(cols) && Current(cols, last) && i == tag % CACHE_LINES && ColumnUpToDate(col, last')
    requires forall t :: t != tag ==> (t in last' <==> t in last) && (t in last' ==> last'[t] == last[t])
    ensures Current(cols[i := col], last')
  {
    forall j | 0 <= j < CACHE_LINES && j != i ensures ColumnUpToDate(cols[j], last') {
      assert Placed(cols[j], j) && ColumnUpToDate(cols[j], last);
    }
  }

  // ---------------------------------------------------------------- the controller

  function LineIndex(address: nat): (i: nat)
    ensures i == (address / 64) % CACHE_LINES
  {
    (address / 64) % CACHE_LINES
  }

  ghost function ColumnOf(a: array2<Line>, i: nat): (col: seq<Line>)
    requires i < a.Length1
    reads a
    ensures |col| == a.Length0 && forall k :: 0 <= k < a.Length0 ==> col[k] == a[k, i]
  {
    seq(a.Length0, k requires 0 <= k < a.Length0 reads a => a[k, i])
  }

  ghost function ColumnsOf(a: array2<Line>): (cols: seq<seq<Line>>)
    reads a
    ensures |cols| == a.Length1 && forall i :: 0 <= i < a.Length1 ==> cols[i] == ColumnOf(a, i)
  {
    seq(a.Length1, i requires 0 <= i < a.Length1 reads a => ColumnOf(a, i))
  }

  lemma OneColumnChanged(a: array2<Line>, cols: seq<seq<Line>>, idx: nat, col: seq<Line>)
    requires |cols| == a.Length1 && idx < a.Length1 && ColumnOf(a, idx) == col
    requires forall j :: 0 <= j < a.Length1 ==> |cols[j]| == a.Length0
    requires forall k, j :: 0 <= k < a.Length0 && 0 <= j < a.Length1 && j != idx ==> a[k, j] == cols[j][k]
    ensures ColumnsOf(a) == cols[idx := col]
  {
    forall j | 0 <= j < a.Length1 && j != idx ensures ColumnOf(a, j) == cols[j] {}
  }

  lemma ColumnCoherent(cols: seq<seq<Line>>, i: nat)
    requires Coherent(cols) && i < CACHE_LINES
    ensures SingleOwner(cols[i])
  {
  }

  class Controller {
    const protocol: Protocol
    const numCaches: nat
    const lines: array2<Line>

    // The last data written to each tag.
    ghost var lastWrite: map<nat, Data>

    ghost predicate Shaped() {
      lines.Length0 == numCaches <= MAX_CACHES && lines.Length1 == CACHE_LINES
    }

    ghost function View(): (cols: seq<seq<Line>>)
      requires Shaped()
      reads lines
      ensures |cols| == CACHE_LINES && forall i :: 0 <= i < CACHE_LINES ==> |cols[i]| == numCaches
    {
      ColumnsOf(lines)
    }

    // At most one owner of every line.
    ghost predicate Valid()
      reads lines
    {
      Shaped() && Coherent(View())
    }

    constructor (protocol: Protocol, numCaches: nat)
      ensures Valid() && Current(View(), lastWrite) && lastWrite == map[] && this.protocol == protocol
      ensures this.numCaches == if numCaches > MAX_CACHES then MAX_CACHES else numCaches
      ensures fresh(lines)
    {
      this.protocol := protocol;
      var n := if numCaches > MAX_CACHES then MAX_CACHES else numCaches;
      this.numCaches := n;
      lines := new Line[n, CACHE_LINES]((i, j) => Line(0, MESI_M, false, ZeroLine()));
      lastWrite := map[];
    }

    // A read: a hit, a modified copy supplied by another cache, or a zero fill.
    method Read(cacheId: nat, address: nat) returns (ok: bool, data: Option<Data>)
      requires Valid()
      modifies lines
      ensures Valid() && (Current(old(View()), lastWrite) ==> Current(View(), lastWrite))
      ensures cacheId >= numCaches ==> !ok && data.None? && View() == old(View())
      ensures cacheId < numCaches ==>
        var i, tag := LineIndex(address), address / 64; var col := old(View())[i];
        View() == old(View())[i := ReadColumn(col, cacheId, tag, HasExclusiveMode(protocol))] &&
        data == Some(View()[i][cacheId].data) &&
        (!Holds(col[cacheId], tag) ==>
          (View()[i][cacheId].state == MESI_E <==>
             protocol != PROTO_MSI && forall k :: 0 <= k < numCaches && k != cacheId ==> !Holds(col[k], tag))) &&
        ok == (Holds(col[cacheId], tag) || Modified(col, cacheId, tag, 0) < numCaches)
    {
      if cacheId >= numCaches {
        return false, None;
      }
      hide Coherent, Current, SingleOwner, Placed, ColumnUpToDate, Modified, SharedElsewhere;
      var idx, tag := LineIndex(address), address / 64;
      ghost var cols := View();
      ghost var col := cols[idx];
      ColumnRead(cols, idx, cacheId, tag, HasExclusiveMode(protocol), lastWrite);
      if !Holds(col[cacheId], tag) {
        assert SingleOwner(col) by { ColumnCoherent(cols, idx); }
        ExclusiveFillIff(col, cacheId, tag, HasExclusiveMode(protocol));
      }
      if Holds(lines[cacheId, idx], tag) {
        assert cols[idx := col] == cols;
        return true, Some(lines[cacheId, idx].data);
      }
      var found, sharedExists, supplier := SearchForRead(cacheId, idx, tag);
      if found {
        lines[cacheId, idx] := Line(tag, MESI_S, true, lines[supplier, idx].data);
        ok := true;
      } else {
        var state := if HasExclusiveMode(protocol) && !sharedExists then MESI_E else MESI_S;
        lines[cacheId, idx] := Line(tag, state, true, ZeroLine());
        ok := false;
      }
      data := Some(lines[cacheId, idx].data);
      assert ColumnOf(lines, idx) == ReadColumn(col, cacheId, tag, HasExclusiveMode(protocol));
      OneColumnChanged(lines, cols, idx, ReadColumn(col, cacheId, tag, HasExclusiveMode(protocol)));
    }

    // The loop over the other caches: demotes exclusive copies and stops at a modified one.
    method SearchForRead(c: nat, idx: nat, tag: nat) returns (found: bool, sharedExists: bool, supplier: nat)
      requires Shaped() && c < numCaches && idx < CACHE_LINES
      modifies lines
      ensures supplier == Modified(old(ColumnOf(lines, idx)), c, tag, 0) && found == (supplier < numCaches)
      ensures !found ==> sharedExists == SharedElsewhere(old(ColumnOf(lines, idx)), c, tag)
      ensures forall k, j :: 0 <= k < numCaches && 0 <= j < CACHE_LINES && j != idx ==> lines[k, j] == old(lines[k, j])
      ensures forall k :: 0 <= k < numCaches ==>
        lines[k, idx] ==
          if k == c then old(lines[k, idx])
          else if found && k == supplier then old(lines[k, idx]).(state := MESI_S)
          else if k < supplier then Demoted(old(lines[k, idx]), tag)
          else old(lines[k, idx])
    {
      hide SharedAmong;
      ghost var col := ColumnOf(lines, idx);
      found, sharedExists, supplier := false, false, numCaches;
      SharedNone(col, c, tag);
      for i := 0 to numCaches
        invariant Modified(col, c, tag, 0) == Modified(col, c, tag, i)
        invariant sharedExists <==> SharedAmong(col, c, tag, i)
        invariant forall k, j :: 0 <= k < numCaches && 0 <= j < CACHE_LINES && j != idx ==> lines[k, j] == old(lines[k, j])
        invariant forall k :: 0 <= k < numCaches ==>
          lines[k, idx] == if k != c && k < i then Demoted(col[k], tag) else col[k]
      {
        SharedNext(col, c, tag, i);
        if i != c {
          var other := lines[i, idx];
          assert other == col[i];
          if Holds(other, tag) {
            if other.state == MESI_M {
              lines[i, idx] := other.(state := MESI_S);
              return true, sharedExists, i;
            }
            if other.state == MESI_E || other.state == MESI_S {
              sharedExists := true;
              if other.state == MESI_E {
                lines[i, idx] := other.(state := MESI_S);
              }
            }
          }
        }
      }
    }

    // A write: a hit on an owned line, or an invalidation of every other copy.
    method Write(cacheId: nat, address: nat, data: Option<Data>) returns (ok: bool)
      requires Valid()
      modifies this, lines
      ensures Valid()
      ensures Current(old(View()), old(lastWrite)) && data.Some? ==> Current(View(), lastWrite)
      ensures cacheId >= numCaches ==> !ok && View() == old(View()) && lastWrite == old(lastWrite)
      ensures cacheId < numCaches ==>
        var i, tag := LineIndex(address), address / 64; var col := old(View())[i];
        View() == old(View())[i := WriteColumn(col, cacheId, tag, data)] &&
        lastWrite == (if data.Some? then old(lastWrite)[tag := data.value] else old(lastWrite)) &&
        ok == (Holds(col[cacheId], tag) && (col[cacheId].state == MESI_M || col[cacheId].state == MESI_E))
    {
      if cacheId >= numCaches {
        return false;
      }
      hide Coherent, Current, SingleOwner, Placed, ColumnUpToDate, Supplied;
      var idx, tag := LineIndex(address), address / 64;
      ghost var cols := View();
      ghost var col := cols[idx];
      ColumnWritten(cols, idx, cacheId, tag, data, lastWrite);
      var line := lines[cacheId, idx];
      if Holds(line, tag) && (line.state == MESI_M || line.state == MESI_E) {
        lines[cacheId, idx] := Line(tag, MESI_M, true, if data.Some? then data.value else line.data);
        ok := true;
      } else {
        var supplied := InvalidateOthers(cacheId, idx, tag);
        lines[cacheId, idx] := Line(tag, MESI_M, true, if data.Some? then data.value else supplied);
        ok := false;
      }
      assert ColumnOf(lines, idx) == WriteColumn(col, cacheId, tag, data);
      OneColumnChanged(lines, cols, idx, WriteColumn(col, cacheId, tag, data));
      if data.Some? {
        lastWrite := lastWrite[tag := data.value];
      }
    }

    // The loop over the other caches: takes the data of a modified copy and invalidates every copy.
    method InvalidateOthers(c: nat, idx: nat, tag: nat) returns (supplied: Data)
      requires Shaped() && c < numCaches && idx < CACHE_LINES
      modifies lines
      ensures supplied == Supplied(old(ColumnOf(lines, idx)), c, tag, numCaches)
      ensures forall k, j :: 0 <= k < numCaches && 0 <= j < CACHE_LINES && j != idx ==> lines[k, j] == old(lines[k, j])
      ensures forall k :: 0 <= k < numCaches ==>
        lines[k, idx] == if k == c then old(lines[k, idx]) else Invalidated(old(lines[k, idx]), tag)
    {
      ghost var col := ColumnOf(lines, idx);
      supplied := lines[c, idx].data;
      for i := 0 to numCaches
        invariant supplied == Supplied(col, c, tag, i)
        invariant forall k, j :: 0 <= k < numCaches && 0 <= j < CACHE_LINES && j != idx ==> lines[k, j] == old(lines[k, j])
        invariant forall k :: 0 <= k < numCaches ==>
          lines[k, idx] == if k != c && k < i then Invalidated(col[k], tag) else col[k]
      {
        var other := lines[i, idx];
        assert other == col[i];
        if i != c && Holds(other, tag) {
          if other.state == MESI_M {
            supplied := other.data;
          }
          lines[i, idx] := other.(state := MESI_I, valid := false);
        }
      }
    }

    // A snooped remote write drops the cache's own copy.
    method Snoop(cacheId: nat, address: nat, isWrite: bool)
      requires Valid()
      modifies lines
      ensures Valid() && (Current(old(View()), lastWrite) ==> Current(View(), lastWrite))
      ensures cacheId >= numCaches ==> View() == old(View())
      ensures cacheId < numCaches ==>
        var i := LineIndex(address);
        View() == old(View())[i := SnoopColumn(old(View())[i], cacheId, address / 64, isWrite)]
    {
      if cacheId >= numCaches {
        return;
      }
      hide Coherent, Current, SingleOwner, Placed, ColumnUpToDate;
      var idx, tag := LineIndex(address), address / 64;
      ghost var cols := View();
      ghost var col := cols[idx];
      ColumnSnooped(cols, idx, cacheId, tag, isWrite, lastWrite);
      if Holds(lines[cacheId, idx], tag) && isWrite {
        if lines[cacheId, idx].state == MESI_M || lines[cacheId, idx].state == MESI_E {
          lines[cacheId, idx] := lines[cacheId, idx].(state := MESI_I, valid := false);
        }
        if lines[cacheId, idx].state == MESI_S {
          lines[cacheId, idx] := lines[cacheId, idx].(state := MESI_I, valid := false);
        }
      }
      assert ColumnOf(lines, idx) == SnoopColumn(col, cacheId, tag, isWrite);
      OneColumnChanged(lines, cols, idx, SnoopColumn(col, cacheId, tag, isWrite));
    }
  }

  lemma ColumnRead(cols: seq<seq<Line>>, i: nat, c: nat, tag: nat, exclusive: bool, last: map<nat, Data>)
    requires Coherent(cols) && i == tag % CACHE_LINES && c < |cols[i]|
    ensures var n := cols[i := ReadColumn(cols[i], c, tag, exclusive)];
      Coherent(n) && (Current(cols, last) ==> Current(n, last))
  {
    var col := cols[i];
    var r := ReadColumn(col, c, tag, exclusive);
    ReadKeeps(col, c, tag, exclusive, last);
    StepCoherent(cols, i, r);
    if Current(cols, last) {
      StepCurrent(cols, i, r, last, last, tag);
    }
  }

  lemma ColumnWritten(cols: seq<seq<Line>>, i: nat, c: nat, tag: nat, data: Option<Data>, last: map<nat, Data>)
    requires Coherent(cols) && i == tag % CACHE_LINES && c < |cols[i]|
    ensures var n := cols[i := WriteColumn(cols[i], c, tag, data)];
      Coherent(n) && (data.Some? && Current(cols, last) ==> Current(n, last[tag := data.value]))
  {
    var col := cols[i];
    WriteKeeps(col, c, tag, data);
    StepCoherent(cols, i, WriteColumn(col, c, tag, data));
    if data.Some? && Current(cols, last) {
      WriteUpToDate(col, c, tag, data.value, last);
      StepCurrent(cols, i, WriteColumn(col, c, tag, data), last, last[tag := data.value], tag);
    }
  }

  lemma ColumnSnooped(cols: seq<seq<Line>>, i: nat, c: nat, tag: nat, isWrite: bool, last: map<nat, Data>)
    requires Coherent(cols) && i == tag % CACHE_LINES && c < |cols[i]|
    ensures var n := cols[i := SnoopColumn(cols[i], c, tag, isWrite)];
      Coherent(n) && (Current(cols, last) ==> Current(n, last))
  {
    var col := cols[i];
    SnoopKeeps(col, c, tag, isWrite, last);
    StepCoherent(cols, i, SnoopColumn(col, c, tag, isWrite));
    if Current(cols, last) {
      StepCurrent(cols, i, SnoopColumn(col, c, tag, isWrite), last, last, tag);
    }
  }

  // ---------------------------------------------------------------- runs

  datatype Access =
    | ReadAccess(cache: nat, address: nat)
    | WriteAccess(cache: nat, address: nat, data: Data)
    | SnoopAccess(cache: nat, address: nat, isWrite: bool)

  predicate Columns(cols: seq<seq<Line>>, n: nat) {
    |cols| == CACHE_LINES && forall j :: 0 <= j < CACHE_LINES ==> |cols[j]| == n
  }

  // The lines of n caches after one access; a cache number out of range does nothing.
  function Performed(cols: seq<seq<Line>>, n: nat, a: Access, exclusive: bool): (r: seq<seq<Line>>)
    requires Columns(cols, n)
    ensures Columns(r, n)
  {
    var i, tag := LineIndex(a.address), a.address / 64;
    if a.cache >= n then cols
    else match a
      case ReadAccess(c, _) => cols[i := ReadColumn(cols[i], c, tag, exclusive)]
      case WriteAccess(c, _, data) => cols[i := WriteColumn(cols[i], c, tag, Some(data))]
      case SnoopAccess(c, _, isWrite) => cols[i := SnoopColumn(cols[i], c, tag, isWrite)]
  }

  function Recorded(last: map<nat, Data>, n: nat, a: Access): map<nat, Data> {
    if a.WriteAccess? && a.cache < n then last[a.address / 64 := a.data] else last
  }

  function RunLines(cols: seq<seq<Line>>, n: nat, run: seq<Access>, exclusive: bool): (r: seq<seq<Line>>)
    requires Columns(cols, n)
    ensures Columns(r, n)
  {
    if run == [] then cols else Performed(RunLines(cols, n, run[..|run| - 1], exclusive), n, run[|run| - 1], exclusive)
  }

  function RunWrites(last: map<nat, Data>, n: nat, run: seq<Access>): map<nat, Data> {
    if run == [] then last else Recorded(RunWrites(last, n, run[..|run| - 1]), n, run[|run| - 1])
  }

  // Safety over every run of reads, writes and snoops by any number of caches: one owner of every
  // line, every modified copy the last write, every other copy the last write or the zero fill.
  lemma {:induction false} RunKeeps(cols: seq<seq<Line>>, n: nat, run: seq<Access>, exclusive: bool, last: map<nat, Data>)
    requires Columns(cols, n) && Coherent(cols) && Current(cols, last)
    ensures Coherent(RunLines(cols, n, run, exclusive))
    ensures Current(RunLines(cols, n, run, exclusive), RunWrites(last, n, run))
  {
    hide Coherent, Current, ReadColumn, WriteColumn, SnoopColumn;
    if run != [] {
      var front, a := run[..|run| - 1], run[|run| - 1];
      RunKeeps(cols, n, front, exclusive, last);
      var before, was := RunLines(cols, n, front, exclusive), RunWrites(last, n, front);
      var i, tag := LineIndex(a.address), a.address / 64;
      if a.cache < n {
        match a
        case ReadAccess(c, _) => ColumnRead(before, i, c, tag, exclusive, was);
        case WriteAccess(c, _, data) => ColumnWritten(before, i, c, tag, Some(data), was);
        case SnoopAccess(c, _, isWrite) => ColumnSnooped(before, i, c, tag, isWrite, was);
      }
    }
  }

  // The access leaves the line of cache c alone: it is for another line, or a read or read snoop by c
  // itself, and does not take the place of c's line.
  predicate LeavesLine(a: Access, c: nat, tag: nat) {
    if a.address / 64 == tag then a.cache == c && !a.WriteAccess? && (a.SnoopAccess? ==> !a.isWrite)
    else a.cache != c || LineIndex(a.address) != tag % CACHE_LINES || a.SnoopAccess?
  }

  lemma LineStays(cols: seq<seq<Line>>, n: nat, a: Access, exclusive: bool, c: nat, tag: nat)
    requires Columns(cols, n) && c < n && Holds(cols[tag % CACHE_LINES][c], tag) && LeavesLine(a, c, tag)
    ensures Performed(cols, n, a, exclusive)[tag % CACHE_LINES][c] == cols[tag % CACHE_LINES][c]
  {
  }

  lemma {:induction false} LineStaysOverRun(cols: seq<seq<Line>>, n: nat, run: seq<Access>, exclusive: bool, c: nat, tag: nat)
    requires Columns(cols, n) && c < n && Holds(cols[tag % CACHE_LINES][c], tag)
    requires forall k :: 0 <= k < |run| ==> LeavesLine(run[k], c, tag)
    ensures RunLines(cols, n, run, exclusive)[tag % CACHE_LINES][c] == cols[tag % CACHE_LINES][c]
  {
    hide Performed, LeavesLine;
    if run != [] {
      LineStaysOverRun(cols, n, run[..|run| - 1], exclusive, c, tag);
      LineStays(RunLines(cols, n, run[..|run| - 1], exclusive), n, run[|run| - 1], exclusive, c, tag);
    }
  }

  // The point of the exclusive state: a cache that read a line nobody else held, and was alone with it
  // since, writes it without touching any other cache.
  lemma LoneReaderWritesSilently(cols: seq<seq<Line>>, n: nat, run: seq<Access>, c: nat, address: nat, data: Data)
    requires Columns(cols, n) && Coherent(cols) && c < n
    requires var tag := address / 64; var col := cols[LineIndex(address)];
      (forall i :: 0 <= i < n ==> !Holds(col[i], tag)) && forall k :: 0 <= k < |run| ==> LeavesLine(run[k], c, tag)
    ensures var tag, i := address / 64, LineIndex(address);
      var read := Performed(cols, n, ReadAccess(c, address), true);
      var later := RunLines(read, n, run, true);
      Holds(later[i][c], tag) && later[i][c].state == MESI_E &&
      Performed(later, n, WriteAccess(c, address, data), true) == later[i := later[i][c := Line(tag, MESI_M, true, data)]]
  {
    var tag, i := address / 64, LineIndex(address);
    var read := Performed(cols, n, ReadAccess(c, address), true);
    ExclusiveFillIff(cols[i], c, tag, true);
    ReadKeeps(cols[i], c, tag, true, map[]);
    hide ReadColumn, LeavesLine, RunLines;
    LineStaysOverRun(read, n, run, true, c, tag);
    SilentWrite(RunLines(read, n, run, true)[i], c, tag, data);
  }

  // No valid line is in the exclusive state.
  ghost predicate NoneExclusive(cols: seq<seq<Line>>) {
    forall j, k :: 0 <= j < |cols| && 0 <= k < |cols[j]| && cols[j][k].valid ==> cols[j][k].state != MESI_E
  }

  // Without the exclusive mode no run reaches the state.
  lemma {:induction false} NeverExclusive(cols: seq<seq<Line>>, n: nat, run: seq<Access>)
    requires Columns(cols, n) && NoneExclusive(cols)
    ensures NoneExclusive(RunLines(cols, n, run, false))
  {
    if run != [] {
      NeverExclusive(cols, n, run[..|run| - 1]);
      var before, a := RunLines(cols, n, run[..|run| - 1], false), run[|run| - 1];
      hide RunLines;
      StaysUnexclusive(before, n, a);
    }
  }

  lemma StaysUnexclusive(cols: seq<seq<Line>>, n: nat, a: Access)
    requires Columns(cols, n) && NoneExclusive(cols)
    ensures NoneExclusive(Performed(cols, n, a, false))
  {
    var i, tag := LineIndex(a.address), a.address / 64;
    var r: seq<seq<Line>> := Performed(cols, n, a, false);
    forall j, k: int | 0 <= j < |r| && 0 <= k < |r[j]| && r[j][k].valid ensures r[j][k].state != MESI_E {
      assert j != i ==> r[j] == cols[j];
      assert cols[j][k].valid ==> cols[j][k].state != MESI_E;
    }
  }

  // ---------------------------------------------------------------- which copies are current

  // Some cache holds the line modified.
  predicate OwnedModified(col: seq<Line>, tag: nat) {
    exists i :: 0 <= i < |col| && Holds(col[i], tag) && col[i].state == MESI_M
  }

  // Over the run, cache c last filled the line by writing it or from a modified copy, rather than
  // with zeros.
  ghost predicate FilledWithWrite(cols: seq<seq<Line>>, n: nat, run: seq<Access>, exclusive: bool, c: nat, tag: nat)
    requires Columns(cols, n)
  {
    if run == [] then false
    else
      var front, a := run[..|run| - 1], run[|run| - 1];
      var col := RunLines(cols, n, front, exclusive)[tag % CACHE_LINES];
      if a.cache != c || c >= n || a.address / 64 != tag then FilledWithWrite(cols, n, front, exclusive, c, tag)
      else match a
        case WriteAccess(_, _, _) => true
        case ReadAccess(_, _) =>
          if Holds(col[c], tag) then FilledWithWrite(cols, n, front, exclusive, c, tag) else OwnedModified(col, tag)
        case SnoopAccess(_, _, _) => FilledWithWrite(cols, n, front, exclusive, c, tag)
  }

  // A copy holds the last write when it was filled with it, and zeros otherwise.
  ghost predicate Sourced(l: Line, filled: bool, last: map<nat, Data>) {
    l.valid ==> if filled then l.tag in last && l.data == last[l.tag] else l.data == ZeroLine()
  }

  lemma ReadSources(col: seq<Line>, c: nat, tag: nat, exclusive: bool, last: map<nat, Data>, k: nat, filled: bool)
    requires c < |col| && k < |col| && SingleOwner(col) && ColumnUpToDate(col, last) && Sourced(col[k], filled, last)
    ensures var r := ReadColumn(col, c, tag, exclusive);
      if k == c then Sourced(r[k], if Holds(col[k], tag) then filled else OwnedModified(col, tag), last) && Holds(r[k], tag)
      else Sourced(r[k], filled, last) && r[k].valid == col[k].valid && r[k].tag == col[k].tag
  {
    var m := Modified(col, c, tag, 0);
    if !Holds(col[c], tag) {
      if m < |col| {
        assert UpToDate(col[m], last);
        assert OwnedModified(col, tag);
      }
    }
  }

  lemma WriteSources(col: seq<Line>, c: nat, tag: nat, data: Data, last: map<nat, Data>, k: nat, filled: bool)
    requires c < |col| && k < |col| && SingleOwner(col) && Sourced(col[k], filled, last)
    ensures var r := WriteColumn(col, c, tag, Some(data));
      if k == c then Sourced(r[k], true, last[tag := data]) && Holds(r[k], tag)
      else Sourced(r[k], filled, last[tag := data]) && (r[k].valid ==> col[k].valid && r[k].tag == col[k].tag)
  {
    if k != c {
      WriterIsAlone(col, c, tag, Some(data), k);
    }
  }

  // Every line of a column after one more access.
  lemma StepSources(cols: seq<seq<Line>>, n: nat, run: seq<Access>, exclusive: bool, last: map<nat, Data>, i: nat, k: nat)
    requires Columns(cols, n) && Coherent(cols) && Current(cols, last) && run != [] && i < CACHE_LINES && k < n
    requires var front := run[..|run| - 1]; var l := RunLines(cols, n, front, exclusive)[i][k];
      Sourced(l, FilledWithWrite(cols, n, front, exclusive, k, l.tag), RunWrites(last, n, front))
    ensures var l := RunLines(cols, n, run, exclusive)[i][k];
      Sourced(l, FilledWithWrite(cols, n, run, exclusive, k, l.tag), RunWrites(last, n, run))
  {
    hide ReadColumn, WriteColumn, ColumnUpToDate, SingleOwner, OwnedModified, Current;
    var front, a := run[..|run| - 1], run[|run| - 1];
    var before, was := RunLines(cols, n, front, exclusive), RunWrites(last, n, front);
    RunKeeps(cols, n, front, exclusive, last);
    CurrentAt(before, was, i);
    var col, tag := before[i], a.address / 64;
    var filled := FilledWithWrite(cols, n, front, exclusive, k, col[k].tag);
    if a.cache < n && LineIndex(a.address) == i {
      match a
      case ReadAccess(c, _) => ReadSources(col, c, tag, exclusive, was, k, filled);
      case WriteAccess(c, _, data) => WriteSources(col, c, tag, data, was, k, filled);
      case SnoopAccess(c, _, _) =>
    } else if a.cache < n && a.WriteAccess? {
      assert Placed(col, i);
    }
  }

  lemma CurrentAt(cols: seq<seq<Line>>, last: map<nat, Data>, i: nat)
    requires Current(cols, last) && i < |cols|
    ensures ColumnUpToDate(cols[i], last)
  {
  }

  lemma {:induction false} RunSources(cols: seq<seq<Line>>, n: nat, run: seq<Access>, exclusive: bool, last: map<nat, Data>, i: nat, k: nat)
    requires Columns(cols, n) && Coherent(cols) && Current(cols, last) && i < CACHE_LINES && k < n
    requires forall j, c :: 0 <= j < CACHE_LINES && 0 <= c < n ==> !cols[j][c].valid
    ensures var l := RunLines(cols, n, run, exclusive)[i][k];
      Sourced(l, FilledWithWrite(cols, n, run, exclusive, k, l.tag), RunWrites(last, n, run))
  {
    if run != [] {
      RunSources(cols, n, run[..|run| - 1], exclusive, last, i, k);
      hide Coherent, Current, FilledWithWrite, Sourced, RunLines, RunWrites;
      StepSources(cols, n, run, exclusive, last, i, k);
    }
  }

  // Over every run from empty caches, a valid copy equals the last write of its line if and only if
  // its cache wrote the line or last filled it from a modified copy, or that write was zeros.
  lemma CopyIsCurrentIff(cols: seq<seq<Line>>, n: nat, run: seq<Access>, exclusive: bool, i: nat, k: nat)
    requires Columns(cols, n) && i < CACHE_LINES && k < n
    requires forall j, c :: 0 <= j < CACHE_LINES && 0 <= c < n ==> !cols[j][c].valid
    ensures var l := RunLines(cols, n, run, exclusive)[i][k]; var last := RunWrites(map[], n, run);
      l.valid && l.tag in last ==>
        (l.data == last[l.tag] <==> FilledWithWrite(cols, n, run, exclusive, k, l.tag) || last[l.tag] == ZeroLine())
  {
    hide FilledWithWrite, RunLines, RunWrites;
    RunSources(cols, n, run, exclusive, map[], i, k);
  }

  // So a read, hit or miss, returns the last write exactly under that condition.
  lemma ReadIsCurrentIff(cols: seq<seq<Line>>, n: nat, run: seq<Access>, exclusive: bool, c: nat, address: nat)
    requires Columns(cols, n) && c < n
    requires forall j, k :: 0 <= j < CACHE_LINES && 0 <= k < n ==> !cols[j][k].valid
    requires address / 64 in RunWrites(map[], n, run)
    ensures var after := run + [ReadAccess(c, address)]; var tag := address / 64; var last := RunWrites(map[], n, run);
      RunLines(cols, n, after, exclusive)[LineIndex(address)][c].data == last[tag] <==>
      FilledWithWrite(cols, n, after, exclusive, c, tag) || last[tag] == ZeroLine()
  {
    var after := run + [ReadAccess(c, address)];
    assert after[..|after| - 1] == run;
    assert RunWrites(map[], n, after) == RunWrites(map[], n, run);
    var col := RunLines(cols, n, run, exclusive)[LineIndex(address)];
    RunKeeps(cols, n, run, exclusive, map[]);
    ReadKeeps(col, c, address / 64, exclusive, map[]);
    assert Holds(RunLines(cols, n, after, exclusive)[LineIndex(address)][c], address / 64);
    hide FilledWithWrite, RunLines, RunWrites, Coherent, Current, ReadColumn;
    CopyIsCurrentIff(cols, n, after, exclusive, LineIndex(address), c);
  }
}
