/** The K-way merge of sorted event streams over a binary heap of cursors. */
module Merge {
  import opened LogTypes
  import Sorting

  datatype EventStream = EventStream(workerID: string, targetID: string, items: seq<Event>)

  /** An event as the merge hands it out: it carries its worker, and its stream's target when it named none. */
  function Label(s: EventStream, e: Event): (r: Event)
    ensures r.Key() == e.Key()
  {
    e.(workerID := s.workerID, targetID := if e.targetID == "" then s.targetID else e.targetID)
  }

  /** The labelled events of one stream. */
  function Lane(s: EventStream): seq<Event> {
    seq(|s.items|, i requires 0 <= i < |s.items| => Label(s, s.items[i]))
  }

  function Lanes(streams: seq<EventStream>): (r: seq<seq<Event>>)
    ensures |r| == |streams|
  {
    seq(|streams|, i requires 0 <= i < |streams| => Lane(streams[i]))
  }

  predicate StreamsSorted(streams: seq<EventStream>) {
    forall i :: 0 <= i < |streams| ==> Sorted(streams[i].items)
  }

  // ----- what a merge delivers -----

  predicate Positions(lanes: seq<seq<Event>>, pos: seq<nat>) {
    |pos| == |lanes| && forall i :: 0 <= i < |pos| ==> pos[i] <= |lanes[i]|
  }

  /** The events before the positions, as a bag. */
  ghost function Taken(lanes: seq<seq<Event>>, pos: seq<nat>): multiset<Event>
    requires Positions(lanes, pos)
  {
    if lanes == [] then multiset{}
    else Taken(lanes[..|lanes|-1], pos[..|pos|-1]) + multiset(lanes[|lanes|-1][..pos[|pos|-1]])
  }

  ghost predicate AllTaken(lanes: seq<seq<Event>>, pos: seq<nat>)
    requires Positions(lanes, pos)
  {
    forall i :: 0 <= i < |pos| ==> pos[i] == |lanes[i]|
  }

  /** No event left behind sorts strictly before x. */
  ghost predicate BeforeRest(x: Event, lanes: seq<seq<Event>>, pos: seq<nat>)
    requires Positions(lanes, pos)
  {
    forall i, j :: 0 <= i < |lanes| && pos[i] <= j < |lanes[i]| ==> NotAfter(x, lanes[i][j])
  }

  /**
   * rows is the sorted bag of the events before pos, nothing left behind belongs before it, and the two
   * flags say why the merge stopped: pageMore at the row cap, byteCut because the next least event does
   * not fit, neither exactly when every stream was read to its end.
   */
  ghost predicate Merged(
    lanes: seq<seq<Event>>, capRows: int, maxBytes: nat,
    rows: seq<Event>, pageMore: bool, byteCut: bool, pos: seq<nat>)
  {
    && Positions(lanes, pos)
    && Sorted(rows)
    && multiset(rows) == Taken(lanes, pos)
    && (forall k :: 0 <= k < |rows| ==> BeforeRest(rows[k], lanes, pos))
    && (capRows > 0 ==> |rows| <= capRows)
    && (maxBytes > 0 && |rows| > 1 ==> Bytes(rows) <= maxBytes)
    && !(pageMore && byteCut)
    && (AllTaken(lanes, pos) <==> !pageMore && !byteCut)
    && (pageMore ==> 0 < capRows == |rows|)
    && (byteCut ==> 0 < maxBytes && rows != [] && (capRows > 0 ==> |rows| < capRows))
    && (byteCut ==>
          exists i :: 0 <= i < |lanes| && pos[i] < |lanes[i]| && BeforeRest(lanes[i][pos[i]], lanes, pos) &&
                      Bytes(rows) + lanes[i][pos[i]].ApproxBytes() > maxBytes)
  }

  /** A row as it is handed out: an item of a stream under that stream's worker, and its target if it named none. */
  ghost predicate HandedOut(streams: seq<EventStream>, row: Event) {
    exists k, i ::
      && 0 <= k < |streams| && 0 <= i < |streams[k].items|
      && row.workerID == streams[k].workerID
      && row.targetID == (if streams[k].items[i].targetID != "" then streams[k].items[i].targetID
                          else streams[k].targetID)
      && row.(workerID := "", targetID := "") == streams[k].items[i].(workerID := "", targetID := "")
  }

  lemma {:induction false} TakenWhere(lanes: seq<seq<Event>>, pos: seq<nat>, row: Event) returns (k: nat, i: nat)
    requires Positions(lanes, pos) && row in Taken(lanes, pos)
    ensures k < |lanes| && i < |lanes[k]| && row == lanes[k][i]
  {
    var n := |lanes| - 1;
    if row in multiset(lanes[n][..pos[n]]) {
      assert row in lanes[n][..pos[n]];
      k, i := n, 0;
      i :| 0 <= i < pos[n] && lanes[n][i] == row;
    } else {
      k, i := TakenWhere(lanes[..n], pos[..n], row);
    }
  }

  lemma RowsHandedOut(
    streams: seq<EventStream>, capRows: int, maxBytes: nat,
    rows: seq<Event>, pageMore: bool, byteCut: bool, pos: seq<nat>)
    requires Merged(Lanes(streams), capRows, maxBytes, rows, pageMore, byteCut, pos)
    ensures forall row :: row in rows ==> HandedOut(streams, row)
  {
    hide Sorted, BeforeRest, Bytes, AllTaken;
    forall row | row in rows ensures HandedOut(streams, row) {
      assert row in multiset(rows);
      var k, i := TakenWhere(Lanes(streams), pos, row);
      assert row == Label(streams[k], streams[k].items[i]);
    }
  }

  lemma {:induction false} TakenNone(lanes: seq<seq<Event>>, pos: seq<nat>)
    requires Positions(lanes, pos)
    requires forall i :: 0 <= i < |pos| ==> pos[i] == 0
    ensures Taken(lanes, pos) == multiset{}
  {
    if lanes != [] {
      TakenNone(lanes[..|lanes|-1], pos[..|pos|-1]);
    }
  }

  /** Moving one position on takes exactly that event. */
  lemma {:induction false} TakeOne(lanes: seq<seq<Event>>, pos: seq<nat>, i: nat)
    requires Positions(lanes, pos)
    requires i < |lanes| && pos[i] < |lanes[i]|
    ensures Taken(lanes, pos[i := pos[i] + 1]) == Taken(lanes, pos) + multiset{lanes[i][pos[i]]}
  {
    var next := pos[i := pos[i] + 1];
    var n := |lanes| - 1;
    if i == n {
      assert next[..n] == pos[..n];
      assert lanes[n][..next[n]] == lanes[n][..pos[n]] + [lanes[n][pos[n]]];
    } else {
      assert next[..n] == pos[..n][i := pos[i] + 1];
      TakeOne(lanes[..n], pos[..n], i);
    }
  }

  ghost function Remaining(lanes: seq<seq<Event>>, pos: seq<nat>): nat
    requires Positions(lanes, pos)
  {
    if lanes == [] then 0
    else Remaining(lanes[..|lanes|-1], pos[..|pos|-1]) + (|lanes[|lanes|-1]| - pos[|pos|-1])
  }

  lemma {:induction false} RemainingDrops(lanes: seq<seq<Event>>, pos: seq<nat>, i: nat)
    requires Positions(lanes, pos)
    requires i < |lanes| && pos[i] < |lanes[i]|
    ensures Remaining(lanes, pos[i := pos[i] + 1]) == Remaining(lanes, pos) - 1
  {
    var n := |lanes| - 1;
    if i == n {
      assert pos[i := pos[i] + 1][..n] == pos[..n];
    } else {
      assert pos[i := pos[i] + 1][..n] == pos[..n][i := pos[i] + 1];
      RemainingDrops(lanes[..n], pos[..n], i);
    }
  }

  // ----- cursors and their heap -----

  /** One stream being read; `lane` is its place among the merged streams. */
  datatype MergeCursor = MergeCursor(stream: EventStream, lane: nat, idx: nat)
  {
    predicate Ok() {
      idx < |stream.items|
    }

    function Head(): Event
      requires Ok()
    {
      Label(stream, stream.items[idx])
    }
  }

  /** The heap's Less. */
  predicate Less(a: MergeCursor, b: MergeCursor)
    requires a.Ok() && b.Ok()
  {
    a.Head().Key().Compare(b.Head().Key()) < 0
  }

  predicate AllOk(h: seq<MergeCursor>) {
    forall j :: 0 <= j < |h| ==> h[j].Ok()
  }

  function Heads(h: seq<MergeCursor>): (r: seq<Event>)
    requires AllOk(h)
    ensures |r| == |h|
  {
    seq(|h|, j requires 0 <= j < |h| => h[j].Head())
  }

  predicate Child(p: int, c: int) {
    c == 2 * p + 1 || c == 2 * p + 2
  }

  /** The heap order below every node from lo on, except that `hole` may stand above its own children. */
  predicate HeapExcept(hs: seq<Event>, lo: nat, hole: nat) {
    && (forall p, c {:trigger Child(p, c)} ::
          lo <= p < c < |hs| && p != hole && Child(p, c) ==> NotAfter(hs[p], hs[c]))
    && (forall g, c {:trigger Child(g, hole), Child(hole, c)} ::
          lo <= g < hole < c < |hs| && Child(g, hole) && Child(hole, c) ==> NotAfter(hs[g], hs[c]))
  }

  predicate Heap(hs: seq<Event>, lo: nat) {
    forall p, c {:trigger Child(p, c)} :: lo <= p < c < |hs| && Child(p, c) ==> NotAfter(hs[p], hs[c])
  }

  /** Swapping the hole with its least child moves the hole down. */
  lemma SinkStep(hs: seq<Event>, lo: nat, i: nat, j: nat)
    requires HeapExcept(hs, lo, i)
    requires lo <= i < j < |hs| && Child(i, j)
    requires forall c :: 0 <= c < |hs| && Child(i, c) ==> NotAfter(hs[j], hs[c])
    requires NotAfter(hs[j], hs[i])
    ensures HeapExcept(hs[i := hs[j]][j := hs[i]], lo, j)
  {
    hide NotAfter;
    var t := hs[i := hs[j]][j := hs[i]];
    forall p, c | lo <= p < c < |t| && p != j && Child(p, c) ensures NotAfter(t[p], t[c]) {
      if p == i {
        assert Child(i, c);
      } else if c == i {
        assert Child(p, i) && Child(i, j);
      } else {
        assert Child(p, c);
      }
    }
    forall g, c | lo <= g < j < c < |t| && Child(g, j) && Child(j, c) ensures NotAfter(t[g], t[c]) {
      assert g == i;
      assert Child(j, c);
    }
  }

  /** A hole that is no larger than its least child is no hole. */
  lemma HoleFilled(hs: seq<Event>, lo: nat, i: nat)
    requires HeapExcept(hs, lo, i)
    requires forall c :: 0 <= c < |hs| && Child(i, c) ==> NotAfter(hs[i], hs[c])
    ensures Heap(hs, lo)
  {
  }

  /** When the hole is not after its least child, the heap is whole. */
  lemma LeastChildOrdered(hs: seq<Event>, lo: nat, i: nat, j: nat)
    requires HeapExcept(hs, lo, i)
    requires i < j < |hs|
    requires forall c :: 0 <= c < |hs| && Child(i, c) ==> NotAfter(hs[j], hs[c])
    requires hs[j].Key().Compare(hs[i].Key()) >= 0
    ensures Heap(hs, lo)
  {
    CompareAntisymmetric(hs[j].Key(), hs[i].Key());
    forall c | 0 <= c < |hs| && Child(i, c) ensures NotAfter(hs[i], hs[c]) {
      CompareTransitive(hs[i].Key(), hs[j].Key(), hs[c].Key());
    }
    HoleFilled(hs, lo, i);
  }

  /** The root of a heap is least. */
  lemma {:induction false} RootIsLeast(hs: seq<Event>, j: nat)
    requires Heap(hs, 0) && j < |hs|
    ensures NotAfter(hs[0], hs[j])
  {
    if j == 0 {
      CompareAntisymmetric(hs[0].Key(), hs[0].Key());
    } else {
      var p := (j - 1) / 2;
      RootIsLeast(hs, p);
      assert Child(p, j);
      CompareTransitive(hs[0].Key(), hs[p].Key(), hs[j].Key());
    }
  }

  lemma SwapKeepsBag<T>(s: seq<T>, i: nat, j: nat)
    requires i < |s| && j < |s|
    ensures multiset(s[i := s[j]][j := s[i]]) == multiset(s)
  {
  }

  /** The heap's Swap. */
  method Swap(h: array<MergeCursor>, i: nat, j: nat, ghost n: nat)
    requires i < n <= h.Length && j < n
    requires AllOk(h[..n])
    modifies h
    ensures h[..] == old(h[..])[i := old(h[j])][j := old(h[i])]
    ensures AllOk(h[..n])
    ensures Heads(h[..n]) == old(Heads(h[..n]))[i := old(Heads(h[..n]))[j]][j := old(Heads(h[..n]))[i]]
    ensures multiset(h[..n]) == multiset(old(h[..n]))
    ensures h[n..] == old(h[n..])
  {
    SwapKeepsBag(h[..n], i, j);
    h[i], h[j] := h[j], h[i];
    assert h[..n] == old(h[..n])[i := old(h[j])][j := old(h[i])];
  }

  /** The child of i that down descends to: the right one only when it is strictly less. */
  method LeastChild(h: array<MergeCursor>, i: nat, n: nat) returns (j: nat)
    requires 2 * i + 1 < n <= h.Length
    requires AllOk(h[..n])
    ensures j < n && Child(i, j)
    ensures forall c :: 0 <= c < n && Child(i, c) ==> NotAfter(Heads(h[..n])[j], Heads(h[..n])[c])
  {
    hide SortKey.Compare;
    j := 2 * i + 1;
    var j2 := j + 1;
    ghost var hs := Heads(h[..n]);
    CompareAntisymmetric(hs[j].Key(), hs[j].Key());
    if j2 < n {
      CompareAntisymmetric(hs[j].Key(), hs[j2].Key());
      CompareAntisymmetric(hs[j2].Key(), hs[j2].Key());
      if Less(h[j2], h[j]) {
        j := j2;
      }
    }
  }

  /** `container/heap`'s down: sinks h[start] within h[..n] until no child is less. */
  method Down(h: array<MergeCursor>, start: nat, n: nat) returns (moved: bool)
    requires n <= h.Length
    requires AllOk(h[..n]) && HeapExcept(Heads(h[..n]), start, start)
    modifies h
    ensures AllOk(h[..n]) && Heap(Heads(h[..n]), start)
    ensures multiset(h[..n]) == multiset(old(h[..n]))
    ensures h[n..] == old(h[n..])
    ensures !moved ==> h[..] == old(h[..])
    ensures old(Heap(Heads(h[..n]), start)) ==> h[..] == old(h[..])
  {
    hide SortKey.Compare;
    var i := start;
    while true
      invariant start <= i && (i < n || i == start)
      invariant AllOk(h[..n])
      invariant HeapExcept(Heads(h[..n]), start, i)
      invariant multiset(h[..n]) == multiset(old(h[..n]))
      invariant h[n..] == old(h[n..])
      invariant i == start ==> h[..] == old(h[..])
      invariant old(Heap(Heads(h[..n]), start)) ==> i == start
      decreases n - i
    {
      ghost var hs := Heads(h[..n]);
      if 2 * i + 1 >= n {
        HoleFilled(hs, start, i);
        break;
      }
      var j := LeastChild(h, i, n);
      if !Less(h[j], h[i]) {
        LeastChildOrdered(hs, start, i, j);
        break;
      }
      CompareAntisymmetric(hs[j].Key(), hs[i].Key());
      assert Heap(hs, start) ==> NotAfter(hs[i], hs[j]);
      SinkStep(hs, start, i, j);
      Swap(h, i, j, n);
      i := j;
    }
    moved := i > start;
  }

  /** `heap.Init`. */
  method Heapify(h: array<MergeCursor>)
    requires AllOk(h[..])
    modifies h
    ensures AllOk(h[..]) && Heap(Heads(h[..]), 0)
    ensures multiset(h[..]) == multiset(old(h[..]))
    ensures old(Heap(Heads(h[..]), 0)) ==> h[..] == old(h[..])
  {
    var n := h.Length;
    assert h[..n] == h[..];
    var i := n / 2 - 1;
    while i >= 0
      invariant -1 <= i < n
      invariant AllOk(h[..n]) && Heap(Heads(h[..n]), i + 1)
      invariant multiset(h[..n]) == multiset(old(h[..n]))
      invariant old(Heap(Heads(h[..]), 0)) ==> h[..] == old(h[..])
    {
      var _ := Down(h, i, n);
      i := i - 1;
    }
    assert h[..n] == h[..];
  }

  /** `heap.Fix` at the root, whose cursor has advanced; up stops at once there. */
  method FixRoot(h: array<MergeCursor>, n: nat)
    requires 0 < n <= h.Length
    requires AllOk(h[..n]) && HeapExcept(Heads(h[..n]), 0, 0)
    modifies h
    ensures AllOk(h[..n]) && Heap(Heads(h[..n]), 0)
    ensures multiset(h[..n]) == multiset(old(h[..n]))
  {
    var _ := Down(h, 0, n);
  }

  /** Whatever stands at the root, the rest of a heap is in order below it. */
  lemma RootReplaced(hs: seq<Event>, top: Event)
    requires hs != [] && Heap(hs, 0)
    ensures HeapExcept(hs[0 := top], 0, 0)
  {
  }

  /** Advances the root's cursor and puts it in its place, or drops it when its stream is drained. */
  method AdvanceRoot(h: array<MergeCursor>, n: nat) returns (m: nat)
    requires 0 < n <= h.Length
    requires AllOk(h[..n]) && Heap(Heads(h[..n]), 0)
    modifies h
    ensures m <= n && AllOk(h[..m]) && Heap(Heads(h[..m]), 0)
    ensures var on := old(h[0]).(idx := old(h[0]).idx + 1);
            multiset(h[..m]) ==
            multiset(old(h[..n])) - multiset{old(h[0])} + (if on.Ok() then multiset{on} else multiset{})
    ensures AllOk(Popped(old(h[..n])))
    ensures !old(h[0]).(idx := old(h[0]).idx + 1).Ok() && Heap(Heads(Popped(old(h[..n]))), 0) ==>
              m == n - 1 && h[..m] == Popped(old(h[..n]))
  {
    hide NotAfter, Heap, HeapExcept, Popped, Label;
    ghost var cells := h[..n];
    var on := h[0].(idx := h[0].idx + 1);
    PopCells(cells);
    assert cells == [h[0]] + cells[1..];
    if on.Ok() {
      h[0] := on;
      assert h[..n] == cells[0 := on] == [on] + cells[1..];
      RootReplaced(Heads(cells), on.Head());
      assert Heads(h[..n]) == Heads(cells)[0 := on.Head()];
      FixRoot(h, n);
      m := n;
    } else {
      PopRoot(h, n);
      m := n - 1;
    }
  }

  /** `heap.Pop`: swaps the root with the last cell and sinks what came up. */
  method PopRoot(h: array<MergeCursor>, n: nat)
    requires 0 < n <= h.Length
    requires AllOk(h[..n]) && Heap(Heads(h[..n]), 0)
    modifies h
    ensures AllOk(h[..n-1]) && Heap(Heads(h[..n-1]), 0)
    ensures multiset(h[..n-1]) == multiset(old(h[..n])) - multiset{old(h[0])}
    ensures AllOk(Popped(old(h[..n])))
    ensures Heap(Heads(Popped(old(h[..n]))), 0) ==> h[..n-1] == Popped(old(h[..n]))
  {
    hide Heap, HeapExcept, Heads, AllOk, Popped;
    PopCells(h[..n]);
    CutRoot(h, n);
    ghost var cut := h[..];
    assert h[..n-1] == cut[..n-1];
    var _ := Down(h, 0, n - 1);
    assert h[..] == cut ==> h[..n-1] == cut[..n-1];
  }

  /** Exchanges the root with the last cell, which the heap then leaves behind. */
  method CutRoot(h: array<MergeCursor>, n: nat)
    requires 0 < n <= h.Length
    modifies h
    ensures h[..n-1] == Popped(old(h[..n]))
  {
    h[0], h[n-1] := h[n-1], h[0];
  }

  /** The cells once the root has been exchanged with the last one and cut off. */
  function Popped(cells: seq<MergeCursor>): seq<MergeCursor>
    requires cells != []
  {
    if |cells| == 1 then [] else [cells[|cells|-1]] + cells[1..|cells|-1]
  }

  lemma PopCells(cells: seq<MergeCursor>)
    requires cells != [] && AllOk(cells) && Heap(Heads(cells), 0)
    ensures AllOk(Popped(cells)) && HeapExcept(Heads(Popped(cells)), 0, 0)
    ensures multiset(Popped(cells)) == multiset(cells) - multiset{cells[0]}
  {
    hide NotAfter;
    var n := |cells|;
    var last := cells[n - 1];
    if n == 1 {
      assert cells == [last];
    } else {
      assert cells == [cells[0]] + cells[1..n-1] + [last];
      RootReplaced(Heads(cells), last.Head());
      HeapExceptPrefix(Heads(cells)[0 := last.Head()], n - 1);
      assert Heads(Popped(cells)) == Heads(cells)[0 := last.Head()][..n-1];
    }
  }

  lemma HeapExceptPrefix(hs: seq<Event>, n: nat)
    requires n <= |hs| && HeapExcept(hs, 0, 0)
    ensures HeapExcept(hs[..n], 0, 0)
  {
  }

  /** The heap holds exactly the cursors of the streams with events left, each once. */
  ghost predicate Fronts(bag: multiset<MergeCursor>, streams: seq<EventStream>, pos: seq<nat>)
  {
    && |pos| == |streams|
    && (forall c :: c in bag ==>
          bag[c] == 1 && c.lane < |streams| && c.Ok() && c == MergeCursor(streams[c.lane], c.lane, pos[c.lane]))
    && (forall i :: 0 <= i < |streams| && pos[i] < |streams[i].items| ==>
          MergeCursor(streams[i], i, pos[i]) in bag)
  }

  lemma FrontsAdvance(bag: multiset<MergeCursor>, streams: seq<EventStream>, pos: seq<nat>, c: MergeCursor)
    requires Fronts(bag, streams, pos) && c in bag
    ensures var on := c.(idx := c.idx + 1);
            Fronts(bag - multiset{c} + (if on.Ok() then multiset{on} else multiset{}), streams,
                   pos[c.lane := c.idx + 1])
  {
    var on := c.(idx := c.idx + 1);
    var next := pos[c.lane := c.idx + 1];
    var after := bag - multiset{c} + (if on.Ok() then multiset{on} else multiset{});
    assert on !in bag;
    forall d | d in after
      ensures after[d] == 1 && d.lane < |streams| && d.Ok() && d == MergeCursor(streams[d.lane], d.lane, next[d.lane])
    {
      if d != on {
        assert d in bag && d != c;
      }
    }
    forall i | 0 <= i < |streams| && next[i] < |streams[i].items| ensures MergeCursor(streams[i], i, next[i]) in after {
      if i == c.lane {
        assert MergeCursor(streams[i], i, next[i]) == on;
      } else {
        assert MergeCursor(streams[i], i, pos[i]) in bag;
      }
    }
  }

  /** The root's head stands before everything not yet taken. */
  lemma RootBeforeRest(hs: seq<MergeCursor>, streams: seq<EventStream>, pos: seq<nat>)
    requires hs != [] && AllOk(hs) && Heap(Heads(hs), 0)
    requires StreamsSorted(streams) && Positions(Lanes(streams), pos)
    requires Fronts(multiset(hs), streams, pos)
    ensures hs[0].Ok() && BeforeRest(hs[0].Head(), Lanes(streams), pos)
    ensures hs[0].lane < |streams| && hs[0].idx == pos[hs[0].lane] < |Lanes(streams)[hs[0].lane]|
    ensures hs[0].Head() == Lanes(streams)[hs[0].lane][hs[0].idx]
  {
    hide SortKey.Compare;
    var lanes := Lanes(streams);
    assert hs[0] in multiset(hs);
    forall i, j | 0 <= i < |lanes| && pos[i] <= j < |lanes[i]| ensures NotAfter(hs[0].Head(), lanes[i][j]) {
      var c := MergeCursor(streams[i], i, pos[i]);
      assert c in multiset(hs);
      var k :| 0 <= k < |hs| && hs[k] == c;
      RootIsLeast(Heads(hs), k);
      CompareAntisymmetric(c.Head().Key(), c.Head().Key());
      assert NotAfter(c.Head(), lanes[i][j]) by {
        if pos[i] < j {
          assert NotAfter(streams[i].items[pos[i]], streams[i].items[j]);
        }
      }
      CompareTransitive(hs[0].Head().Key(), c.Head().Key(), lanes[i][j].Key());
    }
  }

  /** Cursors at the start of every non-empty stream, in stream order. */
  method OpenCursors(streams: seq<EventStream>) returns (open: seq<MergeCursor>)
    ensures AllOk(open)
    ensures Fronts(multiset(open), streams, seq(|streams|, _ => 0))
  {
    open := [];
    for i := 0 to |streams|
      invariant forall c :: c in open ==> c.lane < i && c.Ok() && c == MergeCursor(streams[c.lane], c.lane, 0)
      invariant forall c :: c in multiset(open) ==> multiset(open)[c] == 1
      invariant forall l :: 0 <= l < i && 0 < |streams[l].items| ==> MergeCursor(streams[l], l, 0) in open
    {
      if |streams[i].items| > 0 {
        open := open + [MergeCursor(streams[i], i, 0)];
      }
    }
  }

  lemma NothingYet(lanes: seq<seq<Event>>, capRows: int, maxBytes: nat, pos: seq<nat>)
    requires |pos| == |lanes| && forall i :: 0 <= i < |pos| ==> pos[i] == 0
    ensures Partial(lanes, capRows, maxBytes, [], pos) && Bytes([]) == 0
  {
    TakenNone(lanes, pos);
  }

  /** What holds of the rows emitted so far. */
  ghost predicate Partial(lanes: seq<seq<Event>>, capRows: int, maxBytes: nat, rows: seq<Event>, pos: seq<nat>) {
    && Positions(lanes, pos)
    && Sorted(rows)
    && multiset(rows) == Taken(lanes, pos)
    && (forall k :: 0 <= k < |rows| ==> BeforeRest(rows[k], lanes, pos))
    && (capRows > 0 ==> |rows| <= capRows)
    && (maxBytes > 0 && |rows| > 1 ==> Bytes(rows) <= maxBytes)
  }

  lemma EmitRow(lanes: seq<seq<Event>>, capRows: int, maxBytes: nat, rows: seq<Event>, pos: seq<nat>, i: nat)
    requires Partial(lanes, capRows, maxBytes, rows, pos)
    requires i < |lanes| && pos[i] < |lanes[i]| && BeforeRest(lanes[i][pos[i]], lanes, pos)
    requires capRows > 0 ==> |rows| < capRows
    requires maxBytes > 0 && rows != [] ==> Bytes(rows) + lanes[i][pos[i]].ApproxBytes() <= maxBytes
    ensures Partial(lanes, capRows, maxBytes, rows + [lanes[i][pos[i]]], pos[i := pos[i] + 1])
  {
    hide NotAfter, Event.ApproxBytes, BeforeRest, Sorted, Taken, Bytes;
    var ev := lanes[i][pos[i]];
    var next := pos[i := pos[i] + 1];
    TakeOne(lanes, pos, i);
    BytesSnoc(rows, ev);
    assert multiset(rows + [ev]) == multiset(rows) + multiset{ev};
    forall k | 0 <= k <= |rows| ensures BeforeRest((rows + [ev])[k], lanes, next) {
      RestShrinks((rows + [ev])[k], lanes, pos, i);
    }
    assert Sorted(rows + [ev]) by {
      forall k | 0 <= k < |rows| ensures NotAfter(rows[k], ev) {
        RestShrinks(rows[k], lanes, pos, i);
      }
      SortedSnoc(rows, ev);
    }
  }

  lemma RestShrinks(x: Event, lanes: seq<seq<Event>>, pos: seq<nat>, i: nat)
    requires Positions(lanes, pos) && BeforeRest(x, lanes, pos)
    requires i < |lanes| && pos[i] < |lanes[i]|
    ensures Positions(lanes, pos[i := pos[i] + 1])
    ensures BeforeRest(x, lanes, pos[i := pos[i] + 1])
    ensures NotAfter(x, lanes[i][pos[i]])
  {
    hide NotAfter;
  }

  lemma SortedSnoc(s: seq<Event>, x: Event)
    requires Sorted(s) && forall k :: 0 <= k < |s| ==> NotAfter(s[k], x)
    ensures Sorted(s + [x])
  {
  }

  /** One round of the merge: the root's event is emitted and its cursor advances. */
  lemma Round(
    streams: seq<EventStream>, capRows: int, maxBytes: nat, rows: seq<Event>, pos: seq<nat>,
    bag: multiset<MergeCursor>, c: MergeCursor)
    requires Partial(Lanes(streams), capRows, maxBytes, rows, pos)
    requires Fronts(bag, streams, pos) && c in bag
    requires c.lane < |streams| && c.idx == pos[c.lane] < |Lanes(streams)[c.lane]| && c.Ok()
    requires c.Head() == Lanes(streams)[c.lane][c.idx] && BeforeRest(c.Head(), Lanes(streams), pos)
    requires capRows > 0 ==> |rows| < capRows
    requires maxBytes > 0 && rows != [] ==> Bytes(rows) + c.Head().ApproxBytes() <= maxBytes
    ensures var next := pos[c.lane := c.idx + 1];
            var on := c.(idx := c.idx + 1);
            && Partial(Lanes(streams), capRows, maxBytes, rows + [c.Head()], next)
            && Fronts(bag - multiset{c} + (if on.Ok() then multiset{on} else multiset{}), streams, next)
            && Remaining(Lanes(streams), next) < Remaining(Lanes(streams), pos)
    ensures Bytes(rows + [c.Head()]) == Bytes(rows) + c.Head().ApproxBytes()
  {
    hide NotAfter, Sorted, Event.ApproxBytes, Label, Fronts, BeforeRest, Taken, Remaining, Lanes;
    EmitRow(Lanes(streams), capRows, maxBytes, rows, pos, c.lane);
    FrontsAdvance(bag, streams, pos, c);
    RemainingDrops(Lanes(streams), pos, c.lane);
    BytesSnoc(rows, c.Head());
  }

  lemma NoFronts(streams: seq<EventStream>, pos: seq<nat>)
    requires Positions(Lanes(streams), pos) && Fronts(multiset{}, streams, pos)
    ensures AllTaken(Lanes(streams), pos)
  {
    assert forall i :: 0 <= i < |streams| ==> |Lanes(streams)[i]| == |streams[i].items|;
  }

  /** The state between two rounds: rows emitted, positions read, and the live cells of the heap. */
  ghost predicate Merging(
    streams: seq<EventStream>, capRows: int, maxBytes: nat, rows: seq<Event>, pos: seq<nat>, cells: seq<MergeCursor>)
  {
    && AllOk(cells) && Heap(Heads(cells), 0)
    && Partial(Lanes(streams), capRows, maxBytes, rows, pos)
    && Fronts(multiset(cells), streams, pos)
  }

  /** There is room for a row, but the bytes of the next one do not fit. */
  predicate Overflows(capRows: int, maxBytes: nat, rows: seq<Event>, next: Event) {
    (capRows > 0 ==> |rows| < capRows) && rows != [] && 0 < maxBytes < Bytes(rows) + next.ApproxBytes()
  }

  lemma NextOverflows(capRows: int, maxBytes: nat, rows: seq<Event>, next: Event)
    requires (capRows > 0 ==> |rows| < capRows) && rows != [] && 0 < maxBytes < Bytes(rows) + next.ApproxBytes()
    ensures Overflows(capRows, maxBytes, rows, next)
  {
  }

  /** While a cell is live some event is left, and the root's is the next to emit. */
  lemma MergingRoot(
    streams: seq<EventStream>, capRows: int, maxBytes: nat, rows: seq<Event>, pos: seq<nat>, cells: seq<MergeCursor>)
    requires StreamsSorted(streams) && Merging(streams, capRows, maxBytes, rows, pos, cells) && cells != []
    ensures |pos| == |streams| && cells[0].Ok() && cells[0].lane < |streams|
    ensures AllOk(cells) && Heap(Heads(cells), 0)
    ensures 0 < capRows <= |rows| ==> Merged(Lanes(streams), capRows, maxBytes, rows, true, false, pos)
    ensures Overflows(capRows, maxBytes, rows, cells[0].Head()) ==>
              Merged(Lanes(streams), capRows, maxBytes, rows, false, true, pos)
  {
    hide NotAfter, Sorted, Event.ApproxBytes, Label, BeforeRest, Taken, StreamsSorted, Heap, Bytes, Fronts, Lanes;
    RootBeforeRest(cells, streams, pos);
  }

  /** A round keeps the state, whatever order the heap puts the cells in. */
  lemma MergingRound(
    streams: seq<EventStream>, capRows: int, maxBytes: nat, rows: seq<Event>, pos: seq<nat>,
    cells: seq<MergeCursor>, after: seq<MergeCursor>)
    requires StreamsSorted(streams) && Merging(streams, capRows, maxBytes, rows, pos, cells) && cells != []
    requires |pos| == |streams| && cells[0].Ok() && cells[0].lane < |streams|
    requires capRows > 0 ==> |rows| < capRows
    requires maxBytes > 0 && rows != [] ==> Bytes(rows) + cells[0].Head().ApproxBytes() <= maxBytes
    requires AllOk(after) && Heap(Heads(after), 0)
    requires var on := cells[0].(idx := cells[0].idx + 1);
             multiset(after) == multiset(cells) - multiset{cells[0]} + (if on.Ok() then multiset{on} else multiset{})
    ensures Merging(streams, capRows, maxBytes, rows + [cells[0].Head()], pos[cells[0].lane := cells[0].idx + 1], after)
    ensures Positions(Lanes(streams), pos) && Positions(Lanes(streams), pos[cells[0].lane := cells[0].idx + 1])
    ensures Remaining(Lanes(streams), pos[cells[0].lane := cells[0].idx + 1]) < Remaining(Lanes(streams), pos)
  {
    hide NotAfter, Sorted, Event.ApproxBytes, Label, BeforeRest, Taken, Remaining, StreamsSorted, Heap, Bytes,
        Fronts, Lanes;
    RootBeforeRest(cells, streams, pos);
    Round(streams, capRows, maxBytes, rows, pos, multiset(cells), cells[0]);
  }

  lemma MergingStarts(
    streams: seq<EventStream>, capRows: int, maxBytes: nat, pos: seq<nat>, open: seq<MergeCursor>,
        cells: seq<MergeCursor>)
    requires |pos| == |streams| && forall i :: 0 <= i < |pos| ==> pos[i] == 0
    requires Fronts(multiset(open), streams, pos) && multiset(cells) == multiset(open)
    requires AllOk(cells) && Heap(Heads(cells), 0)
    ensures Merging(streams, capRows, maxBytes, [], pos, cells)
  {
    hide NotAfter, Heap, Fronts, Taken, Partial, Lanes;
    NothingYet(Lanes(streams), capRows, maxBytes, pos);
  }

  lemma MergingEnds(
    streams: seq<EventStream>, capRows: int, maxBytes: nat, rows: seq<Event>, pos: seq<nat>)
    requires Merging(streams, capRows, maxBytes, rows, pos, [])
    ensures Merged(Lanes(streams), capRows, maxBytes, rows, false, false, pos)
  {
    hide NotAfter, Sorted, BeforeRest, Taken, Bytes, Fronts, Lanes;
    NoFronts(streams, pos);
  }

  lemma MergingPositions(
    streams: seq<EventStream>, capRows: int, maxBytes: nat, rows: seq<Event>, pos: seq<nat>, cells: seq<MergeCursor>)
    requires Merging(streams, capRows, maxBytes, rows, pos, cells)
    ensures Positions(Lanes(streams), pos)
  {
  }

  /** Moves on behind the root's event, which is emitted. */
  method EmitRoot(
    ghost streams: seq<EventStream>, ghost capRows: int, ghost maxBytes: nat, ghost rows: seq<Event>,
        ghost pos: seq<nat>,
    h: array<MergeCursor>, n: nat) returns (m: nat, ghost next: seq<nat>)
    requires StreamsSorted(streams) && 0 < n <= h.Length && Merging(streams, capRows, maxBytes, rows, pos, h[..n])
    requires capRows > 0 ==> |rows| < capRows
    requires h[0].Ok() && (maxBytes > 0 && rows != [] ==> Bytes(rows) + h[0].Head().ApproxBytes() <= maxBytes)
    modifies h
    ensures m <= h.Length && Merging(streams, capRows, maxBytes, rows + [old(h[0].Head())], next, h[..m])
    ensures Positions(Lanes(streams), pos) && Positions(Lanes(streams), next)
    ensures Remaining(Lanes(streams), next) < Remaining(Lanes(streams), pos)
  {
    hide *;
    ghost var cells := h[..n];
    assert h[0] == cells[0];
    MergingRoot(streams, capRows, maxBytes, rows, pos, cells);
    m := AdvanceRoot(h, n);
    MergingRound(streams, capRows, maxBytes, rows, pos, cells, h[..m]);
    next := pos[cells[0].lane := cells[0].idx + 1];
  }

  /** Merges sorted streams up to a row cap and a byte cap (a cap of zero is no cap). */
  method MergeStreams(streams: seq<EventStream>, capRows: int, maxBytes: nat)
    returns (rows: seq<Event>, pageMore: bool, byteCut: bool, ghost pos: seq<nat>)
    requires StreamsSorted(streams)
    ensures Merged(Lanes(streams), capRows, maxBytes, rows, pageMore, byteCut, pos)
    ensures Sorted(rows) && NewestFirst(rows) && (capRows > 0 ==> |rows| <= capRows)
    ensures forall row :: row in rows ==> HandedOut(streams, row)
    ensures maxBytes > 0 && |rows| > 1 ==> Bytes(rows) <= maxBytes
    ensures OneEventPerKey(SortedUnion(Lanes(streams))) ==>
              && rows <= SortedUnion(Lanes(streams))
              && (rows == SortedUnion(Lanes(streams)) <==> !pageMore && !byteCut)
  {
    hide *;
    rows, pageMore, byteCut := [], false, false;
    pos := seq(|streams|, _ => 0);
    var open := OpenCursors(streams);
    var h := CursorHeap(open);
    var n: nat := h.Length;
    assert h[..n] == h[..];
    MergingStarts(streams, capRows, maxBytes, pos, open, h[..n]);
    var used := 0;
    EmptyBytes();
    MergingPositions(streams, capRows, maxBytes, rows, pos, h[..n]);
    while n > 0
      invariant n <= h.Length && fresh(h) && !pageMore && !byteCut
      invariant Positions(Lanes(streams), pos)
      invariant Merging(streams, capRows, maxBytes, rows, pos, h[..n])
      invariant maxBytes > 0 ==> used == Bytes(rows)
      decreases Remaining(Lanes(streams), pos)
    {
      MergingRoot(streams, capRows, maxBytes, rows, pos, h[..n]);
      var c := h[0];
      assert c == h[..n][0];
      if capRows > 0 && |rows| >= capRows {
        pageMore := true;
        break;
      }
      var ev := c.Head();
      BytesSnoc(rows, ev);
      if maxBytes > 0 {
        var sz := ev.ApproxBytes();
        if used + sz > maxBytes && |rows| > 0 {
          NextOverflows(capRows, maxBytes, rows, ev);
          byteCut := true;
          break;
        }
        used := used + sz;
      }
      n, pos := EmitRoot(streams, capRows, maxBytes, rows, pos, h, n);
      rows := rows + [ev];
    }
    if n == 0 {
      assert h[..n] == [];
      MergingEnds(streams, capRows, maxBytes, rows, pos);
    }
    MergedMeans(Lanes(streams), capRows, maxBytes, rows, pageMore, byteCut, pos);
    RowsHandedOut(streams, capRows, maxBytes, rows, pageMore, byteCut, pos);
  }

  /** What the caller learns without the positions. */
  lemma MergedMeans(
    lanes: seq<seq<Event>>, capRows: int, maxBytes: nat,
    rows: seq<Event>, pageMore: bool, byteCut: bool, pos: seq<nat>)
    requires Merged(lanes, capRows, maxBytes, rows, pageMore, byteCut, pos)
    ensures Sorted(rows) && NewestFirst(rows) && (capRows > 0 ==> |rows| <= capRows)
    ensures maxBytes > 0 && |rows| > 1 ==> Bytes(rows) <= maxBytes
    ensures OneEventPerKey(SortedUnion(lanes)) ==>
              rows <= SortedUnion(lanes) && (rows == SortedUnion(lanes) <==> !pageMore && !byteCut)
  {
    SortedIsNewestFirst(rows);
    hide Sorted, NewestFirst, Bytes, OneEventPerKey, SortedUnion, Taken, BeforeRest;
    if OneEventPerKey(SortedUnion(lanes)) {
      MergedIsPrefix(lanes, capRows, maxBytes, rows, pageMore, byteCut, pos);
    }
  }

  lemma EmptyBytes()
    ensures Bytes([]) == 0
  {
  }

  /** `heap.Init` over the opened cursors. */
  method CursorHeap(open: seq<MergeCursor>) returns (h: array<MergeCursor>)
    requires AllOk(open)
    ensures fresh(h) && AllOk(h[..]) && Heap(Heads(h[..]), 0) && multiset(h[..]) == multiset(open)
    ensures Heap(Heads(open), 0) ==> h[..] == open
  {
    hide Heap;
    h := new MergeCursor[|open|](i requires 0 <= i < |open| => open[i]);
    assert h[..] == open;
    Heapify(h);
  }

  // ----- the merge against the reference sort -----

  function Flatten(lanes: seq<seq<Event>>): seq<Event> {
    if lanes == [] then [] else Flatten(lanes[..|lanes|-1]) + lanes[|lanes|-1]
  }

  /** The whole merge: every event of every stream, in key order. */
  function SortedUnion(lanes: seq<seq<Event>>): seq<Event> {
    SortEvents(Flatten(lanes))
  }

  /** What each stream still holds behind pos. */
  function Rest(lanes: seq<seq<Event>>, pos: seq<nat>): (r: seq<seq<Event>>)
    requires Positions(lanes, pos)
    ensures |r| == |lanes|
  {
    seq(|lanes|, i requires 0 <= i < |lanes| => lanes[i][pos[i]..])
  }

  lemma {:induction false} InFlatten(lanes: seq<seq<Event>>, x: Event)
    ensures x in Flatten(lanes) <==> exists i :: 0 <= i < |lanes| && x in lanes[i]
  {
    if lanes != [] {
      var n := |lanes| - 1;
      InFlatten(lanes[..n], x);
      if x in Flatten(lanes[..n]) {
        var i :| 0 <= i < n && x in lanes[..n][i];
        assert x in lanes[i];
      }
      if i :| 0 <= i < |lanes| && x in lanes[i] {
        if i < n { assert x in lanes[..n][i]; }
      }
    }
  }

  lemma {:induction false} TakenAndRest(lanes: seq<seq<Event>>, pos: seq<nat>)
    requires Positions(lanes, pos)
    ensures multiset(Flatten(lanes)) == Taken(lanes, pos) + multiset(Flatten(Rest(lanes, pos)))
  {
    if lanes != [] {
      var n := |lanes| - 1;
      TakenAndRest(lanes[..n], pos[..n]);
      assert Rest(lanes, pos)[..n] == Rest(lanes[..n], pos[..n]);
      assert lanes[n] == lanes[n][..pos[n]] + lanes[n][pos[n]..];
    }
  }

  /** A row and a sorted remainder it stands before. */
  lemma RowBeforeTail(x: Event, lanes: seq<seq<Event>>, pos: seq<nat>, y: Event)
    requires Positions(lanes, pos) && BeforeRest(x, lanes, pos)
    requires y in Flatten(Rest(lanes, pos))
    ensures NotAfter(x, y)
  {
    hide NotAfter;
    InFlatten(Rest(lanes, pos), y);
    var i :| 0 <= i < |lanes| && y in Rest(lanes, pos)[i];
    var j :| 0 <= j < |lanes[i]| - pos[i] && lanes[i][pos[i]..][j] == y;
    assert lanes[i][pos[i] + j] == y;
  }

  lemma SortedJoin(a: seq<Event>, b: seq<Event>)
    requires Sorted(a) && Sorted(b)
    requires forall k, l :: 0 <= k < |a| && 0 <= l < |b| ==> NotAfter(a[k], b[l])
    ensures Sorted(a + b)
  {
  }

  /** All events with one key are the same event. */
  predicate OneEventPerKey(s: seq<Event>) {
    forall x, y :: x in s && y in s && x.Key() == y.Key() ==> x == y
  }

  lemma SortedAlike(s: seq<Event>, a: seq<Event>, b: seq<Event>)
    requires OneEventPerKey(s) && Sorted(a) && Sorted(b) && multiset(a) == multiset(s) && multiset(b) == multiset(s)
    ensures a == b
  {
    var le := (x: Event, y: Event) => NotAfter(x, y);
    forall x, y | (x in a || x in b) && (y in a || y in b) && le(x, y) && le(y, x) ensures x == y {
      assert x in multiset(s) && y in multiset(s);
      CompareAntisymmetric(x.Key(), y.Key());
    }
    assert Sorting.SortedBy(a, le) && Sorting.SortedBy(b, le);
    Sorting.SortedArrangementUnique(a, b, le);
  }

  lemma DistinctKeysOneEvent(s: seq<Event>)
    requires DistinctKeys(s)
    ensures OneEventPerKey(s)
  {
    hide Event.Key;
  }

  /** Rows that hold what was taken, in order and before the rest, start the sorted union. */
  lemma PartialIsPrefix(lanes: seq<seq<Event>>, capRows: int, maxBytes: nat, rows: seq<Event>, pos: seq<nat>)
    requires Partial(lanes, capRows, maxBytes, rows, pos)
    requires OneEventPerKey(SortedUnion(lanes))
    ensures rows + SortEvents(Flatten(Rest(lanes, pos))) == SortedUnion(lanes)
    ensures AllTaken(lanes, pos) ==> rows == SortedUnion(lanes)
  {
    hide NotAfter, SortEvents, Taken, Bytes, OneEventPerKey, Sorted, BeforeRest;
    var rest := Flatten(Rest(lanes, pos));
    var tail := SortEvents(rest);
    SortEventsSorts(rest);
    SortEventsSorts(Flatten(lanes));
    TakenAndRest(lanes, pos);
    forall k, l | 0 <= k < |rows| && 0 <= l < |tail| ensures NotAfter(rows[k], tail[l]) {
      assert tail[l] in multiset(tail);
      assert tail[l] in rest;
      RowBeforeTail(rows[k], lanes, pos, tail[l]);
    }
    SortedJoin(rows, tail);
    assert multiset(rows + tail) == multiset(rows) + multiset(tail);
    SortedAlike(SortedUnion(lanes), SortedUnion(lanes), rows + tail);
    if AllTaken(lanes, pos) {
      if rest != [] {
        InFlatten(Rest(lanes, pos), rest[0]);
      }
      assert |tail| == 0;
    }
  }

  /** When events with equal keys are equal, the merged rows are exactly the first rows of the sorted union. */
  lemma MergedIsPrefix(
    lanes: seq<seq<Event>>, capRows: int, maxBytes: nat,
    rows: seq<Event>, pageMore: bool, byteCut: bool, pos: seq<nat>)
    requires Merged(lanes, capRows, maxBytes, rows, pageMore, byteCut, pos)
    requires OneEventPerKey(SortedUnion(lanes))
    ensures rows <= SortedUnion(lanes)
    ensures !pageMore && !byteCut ==> rows == SortedUnion(lanes)
    ensures pageMore || byteCut ==> |rows| < |SortedUnion(lanes)|
  {
    hide SortEvents, Taken, Bytes, OneEventPerKey, Sorted, BeforeRest;
    PartialIsPrefix(lanes, capRows, maxBytes, rows, pos);
    var rest := Flatten(Rest(lanes, pos));
    SortEventsSorts(rest);
    if !AllTaken(lanes, pos) {
      var i :| 0 <= i < |pos| && pos[i] != |lanes[i]|;
      InFlatten(Rest(lanes, pos), lanes[i][pos[i]]);
      assert Rest(lanes, pos)[i][0] == lanes[i][pos[i]];
    }
  }

  // ----- rows with equal keys -----

  /** Three cursors at their last rows, which tie. */
  predicate Tied(cs: seq<MergeCursor>) {
    && |cs| == 3 && (forall i :: 0 <= i < 3 ==> cs[i].Ok() && cs[i].idx + 1 == |cs[i].stream.items|)
    && cs[0].Head().Key() == cs[1].Head().Key() == cs[2].Head().Key()
  }

  /** The heap's cells with n of them left. */
  function TiedCells(cs: seq<MergeCursor>, n: nat): seq<MergeCursor>
    requires Tied(cs) && n <= 3
  {
    if n == 3 then cs else if n == 2 then [cs[2], cs[1]] else if n == 1 then [cs[1]] else []
  }

  /** The rows that are out by then. */
  function TiedRows(cs: seq<MergeCursor>, n: nat): seq<Event>
    requires Tied(cs) && n <= 3
  {
    [cs[0].Head(), cs[2].Head(), cs[1].Head()][..3 - n]
  }

  lemma TiedHeap(cs: seq<MergeCursor>, n: nat)
    requires Tied(cs) && n <= 3
    ensures AllOk(TiedCells(cs, n)) && Heap(Heads(TiedCells(cs, n)), 0)
  {
    CompareAntisymmetric(cs[0].Head().Key(), cs[0].Head().Key());
    hide SortKey.Compare, Event.Key, Label;
  }

  lemma TiedRound(cs: seq<MergeCursor>, n: nat)
    requires Tied(cs) && 0 < n <= 3
    ensures var cells := TiedCells(cs, n);
            && cells != [] && cells[0].Ok() && !cells[0].(idx := cells[0].idx + 1).Ok()
            && Popped(cells) == TiedCells(cs, n - 1)
            && TiedRows(cs, n) + [cells[0].Head()] == TiedRows(cs, n - 1)
  {
    hide Event.Key, Label;
    assert cs[1..2] == [cs[1]];
    assert [cs[2], cs[1]][1..1] == [];
  }

  /**
   * Rows of different streams with equal keys come in the heap's order, not in that of the streams: the merge loop, run
   * without caps on three tied last rows, emits the first, then the third, then the second.
   */
  method TiedRowsTakeHeapOrder(cs: seq<MergeCursor>) returns (rows: seq<Event>)
    requires Tied(cs)
    ensures rows == [cs[0].Head(), cs[2].Head(), cs[1].Head()]
  {
    TiedHeap(cs, 3);
    rows := [];
    assert rows == TiedRows(cs, 3) && cs == TiedCells(cs, 3);
    ghost var all := [cs[0].Head(), cs[2].Head(), cs[1].Head()];
    assert TiedRows(cs, 0) == all;
    hide *;
    var h := CursorHeap(cs);
    var n: nat := h.Length;
    assert h[..n] == h[..];
    while n > 0
      invariant n <= 3 && n <= h.Length && fresh(h) && AllOk(h[..n]) && Heap(Heads(h[..n]), 0)
      invariant h[..n] == TiedCells(cs, n) && rows == TiedRows(cs, n)
      decreases n
    {
      TiedRound(cs, n);
      TiedHeap(cs, n - 1);
      assert h[0] == h[..n][0];
      rows := rows + [h[0].Head()];
      n := AdvanceRoot(h, n);
    }
  }

  /** The order of the same rows is determined exactly when rows with equal keys are equal. */
  lemma OrderDeterminedExactly(s: seq<Event>)
    ensures (forall rows :: Sorted(rows) && multiset(rows) == multiset(s) ==> rows == SortEvents(s))
            <==> OneEventPerKey(s)
  {
    var t := SortEvents(s);
    SortEventsSorts(s);
    hide SortEvents, SortKey.Compare;
    if OneEventPerKey(s) {
      forall rows | Sorted(rows) && multiset(rows) == multiset(s) ensures rows == t {
        SortedAlike(s, rows, t);
      }
    }
    if forall rows :: Sorted(rows) && multiset(rows) == multiset(s) ==> rows == t {
      forall x, y | x in s && y in s && x.Key() == y.Key() ensures x == y {
        hide Sorted, Event.Key;
        assert x in multiset(t) && y in multiset(t);
        if x != y {
          var other := ExchangeTied(t, x, y);
        }
      }
    }
  }

  lemma ExchangeTied(t: seq<Event>, x: Event, y: Event) returns (other: seq<Event>)
    requires Sorted(t) && x in t && y in t && x != y && x.Key() == y.Key()
    ensures Sorted(other) && multiset(other) == multiset(t) && other != t
  {
    hide Event.Key, SortKey.Compare;
    var i, j :| 0 <= i < |t| && 0 <= j < |t| && t[i] == x && t[j] == y;
    other := t[i := y][j := x];
    SwapKeepsBag(t, i, j);
    assert forall k :: 0 <= k < |t| ==> other[k].Key() == t[k].Key();
    assert other[i] == y;
  }

  // ----- the in-place stable sort of one stream -----

  method SwapLeft(items: array<Event>, j: nat, ghost left: seq<Event>, ghost right: seq<Event>)
    requires 0 < j < items.Length && |left| == j - 1
    requires items[..] == left + [items[j-1]] + [items[j]] + right
    modifies items
    ensures items[..] == left + [old(items[j])] + [old(items[j-1])] + right
  {
    items[j], items[j-1] := items[j-1], items[j];
  }

  /** One inner loop of the sort: items[i] sinks to the left past every later key. */
  method SinkLeft(items: array<Event>, i: nat)
    requires i < items.Length
    modifies items
    ensures items[..i+1] == Insert(old(items[..i]), old(items[i]))
    ensures items[i+1..] == old(items[i+1..])
  {
    hide *;
    ghost var done, x, rest := items[..i], items[i], items[i+1..];
    InsertStarts(done, x, i);
    var j := i;
    while j > 0 && items[j].Key().Compare(items[j-1].Key()) < 0
      invariant 0 <= j <= i && items[..] == done[..j] + [x] + (done[j..] + rest)
      invariant Insert(done, x) == Insert(done[..j], x) + done[j..]
    {
      Around(done, x, rest, j);
      assert items[j] == items[..][j] && items[j-1] == items[..][j-1];
      InsertPasses(done, x, j);
      SwapLeft(items, j, done[..j-1], done[j..] + rest);
      j := j - 1;
    }
    Around(done, x, rest, j);
    assert items[j] == items[..][j] && (j > 0 ==> items[j-1] == items[..][j-1]);
    InsertStops(done, x, j);
    assert items[..i+1] == items[..][..i+1] && items[i+1..] == items[..][i+1..];
  }

  /** The array while x sinks to place j, seen from either side of the swap. */
  lemma Around(done: seq<Event>, x: Event, rest: seq<Event>, j: nat)
    requires j <= |done|
    ensures var s := done[..j] + [x] + (done[j..] + rest);
            && s[j] == x && s[..|done|+1] == done[..j] + [x] + done[j..] && s[|done|+1..] == rest
            && (j > 0 ==>
                  && s[j-1] == done[j-1]
                  && s == done[..j-1] + [done[j-1]] + [x] + (done[j..] + rest)
                  && done[..j-1] + [x] + [done[j-1]] + (done[j..] + rest) == done[..j-1] + [x] + (done[j-1..] + rest))
  {
  }

  lemma InsertStops(done: seq<Event>, x: Event, j: nat)
    requires j <= |done| && (j > 0 ==> x.Key().Compare(done[j-1].Key()) >= 0)
    ensures Insert(done[..j], x) == done[..j] + [x]
  {
    InsertUnfolds(done[..j], x);
    hide SortKey.Compare, Insert;
  }

  lemma InsertStarts(done: seq<Event>, x: Event, i: nat)
    requires i == |done|
    ensures Insert(done, x) == Insert(done[..i], x) + done[i..]
  {
    assert done[..i] == done && done[i..] == [];
  }

  lemma InsertPasses(done: seq<Event>, x: Event, j: nat)
    requires 0 < j <= |done| && x.Key().Compare(done[j-1].Key()) < 0
    requires Insert(done, x) == Insert(done[..j], x) + done[j..]
    ensures Insert(done, x) == Insert(done[..j-1], x) + done[j-1..]
  {
    InsertUnfolds(done[..j], x);
    hide SortKey.Compare, Insert;
    assert done[..j][..j-1] == done[..j-1];
    assert Insert(done[..j], x) == Insert(done[..j-1], x) + [done[j-1]];
    assert done[j-1..] == [done[j-1]] + done[j..];
  }

  /** Sorts a worker's items in place by swapping neighbours; equal keys keep their order. */
  method SortEventsInPlace(items: array<Event>)
    modifies items
    ensures items[..] == SortEvents(old(items[..]))
    ensures NewestFirst(items[..]) && multiset(items[..]) == multiset(old(items[..]))
  {
    SortEventsSorts(items[..]);
    SortedIsNewestFirst(SortEvents(items[..]));
    hide *;
    ghost var s := items[..];
    SortNone();
    if items.Length > 0 {
      SortOne(s[0]);
      assert s[..1] == [s[0]];
      var i := 1;
      while i < items.Length
        invariant 1 <= i <= items.Length
        invariant items[..i] == SortEvents(s[..i]) && items[i..] == s[i..]
      {
        ghost var before, x := items[..i], items[i];
        assert items[i+1..] == items[i..][1..] == s[i+1..] && x == items[i..][0] == s[i];
        SinkLeft(items, i);
        SortTurn(s, before, x, items[..i+1], i);
        i := i + 1;
      }
    }
    assert items[..] == items[..items.Length] && s == s[..items.Length];
  }

  lemma SortTurn(s: seq<Event>, done: seq<Event>, x: Event, next: seq<Event>, i: nat)
    requires i < |s| && done == SortEvents(s[..i]) && x == s[i] && next == Insert(done, x)
    ensures next == SortEvents(s[..i+1])
  {
    hide *;
    SortEventsSnoc(s[..i], s[i]);
    assert s[..i+1] == s[..i] + [s[i]];
  }

  lemma SortEventsSnoc(s: seq<Event>, x: Event)
    ensures SortEvents(s + [x]) == Insert(SortEvents(s), x)
  {
    assert (s + [x])[..|s|] == s;
  }

  lemma SortNone()
    ensures SortEvents([]) == []
  {
  }

  lemma SortOne(x: Event)
    ensures SortEvents([x]) == [x]
  {
    assert SortEvents([x][..0]) == [];
  }
}
