/** Facets: the value counts of every dimension, merged over the workers, ranked and cut. */
module Facets {
  import opened Text
  import opened Sorting

  datatype Value = Value(value: string, count: nat)

  datatype WorkerDimension = WorkerDimension(
    dimension: string, values: seq<Value>, truncated: bool, truncatedCount: nat)

  datatype FacetDimension = FacetDimension(
    dimension: string, controlled: bool, values: seq<Value>, truncated: bool, truncatedCount: nat, limit: nat)

  /** What is collected for one dimension while the workers' answers are read. */
  datatype Collected = Collected(counts: map<string, nat>, truncated: bool, truncatedCount: nat)

  const CONTROLLED :=
    {"level", "stream", "worker_id", "instance_id", "log_source_id", "source_generation", "node_id", "source"}

  // ----- what the workers say of a dimension -----

  /** All value counts listed for a dimension, in the order they are read. */
  function Listed(answers: seq<WorkerDimension>, dim: string): seq<Value> {
    if answers == [] then []
    else
      var before, a := Listed(answers[..|answers|-1], dim), answers[|answers|-1];
      if a.dimension == dim then before + a.values else before
  }

  function SomeTruncated(answers: seq<WorkerDimension>, dim: string): bool {
    exists a :: a in answers && a.dimension == dim && a.truncated
  }

  /** What the workers that truncated say they left out. */
  function Omitted(answers: seq<WorkerDimension>, dim: string): nat {
    if answers == [] then 0
    else
      var a := answers[|answers|-1];
      Omitted(answers[..|answers|-1], dim) + if a.dimension == dim && a.truncated then a.truncatedCount else 0
  }

  /** The exact count of a value: the sum of all its listings. */
  function Total(values: seq<Value>, value: string): nat {
    if values == [] then 0
    else
      var v := values[|values|-1];
      Total(values[..|values|-1], value) + if v.value == value then v.count else 0
  }

  function AllCounts(values: seq<Value>): nat {
    if values == [] then 0 else AllCounts(values[..|values|-1]) + values[|values|-1].count
  }

  predicate Mentions(values: seq<Value>, value: string) {
    exists v :: v in values && v.value == value
  }

  function Counts(values: seq<Value>): map<string, nat> {
    if values == [] then map[]
    else
      var m, v := Counts(values[..|values|-1]), values[|values|-1];
      m[v.value := (if v.value in m then m[v.value] else 0) + v.count]
  }

  lemma {:induction false} CountsTell(values: seq<Value>, value: string)
    ensures value in Counts(values) <==> Mentions(values, value)
    ensures value in Counts(values) ==> Counts(values)[value] == Total(values, value)
    ensures value !in Counts(values) ==> Total(values, value) == 0
  {
    if values != [] {
      var before, v := values[..|values|-1], values[|values|-1];
      assert values == before + [v];
      CountsTell(before, value);
      assert Mentions(values, value) <==> Mentions(before, value) || v.value == value;
    }
  }

  /** A ranked list of exactly these counts: count descending, value ascending. */
  ghost predicate Ranked(s: seq<Value>, counts: map<string, nat>) {
    && SortedBy(s, ByCount())
    && Distinct(s)
    && forall v :: v in s <==> v.value in counts && counts[v.value] == v.count
  }

  function ByCount(): (Value, Value) -> bool {
    (a: Value, b: Value) => if a.count != b.count then a.count > b.count else Compare(a.value, b.value) <= 0
  }

  lemma ByCountIsOrder()
    ensures Preorder(ByCount())
    ensures forall x, y :: ByCount()(x, y) && ByCount()(y, x) ==> x == y
  {
    var le := ByCount();
    forall x, y ensures le(x, y) || le(y, x) {
      CompareFlip(x.value, y.value);
    }
    forall x, y, z | le(x, y) && le(y, z) ensures le(x, z) {
      if x.count == y.count == z.count {
        CompareTransitive(x.value, y.value, z.value);
      }
    }
    forall x, y | le(x, y) && le(y, x) ensures x == y {
      CompareFlip(x.value, y.value);
      CompareEqual(x.value, y.value);
    }
  }

  lemma RankedUnique(a: seq<Value>, b: seq<Value>, counts: map<string, nat>)
    requires Ranked(a, counts) && Ranked(b, counts)
    ensures a == b
  {
    ByCountIsOrder();
    DistinctSameMultiset(a, b);
    SortedArrangementUnique(a, b, ByCount());
  }

  // ----- the merge -----

  function CollectedOf(answers: seq<WorkerDimension>, dim: string): Collected {
    Collected(Counts(Listed(answers, dim)), SomeTruncated(answers, dim), Omitted(answers, dim))
  }

  /** The dimensions in the order of the answer: those requested, then those only workers mention. */
  function DimensionOrder(requested: seq<string>, answers: seq<WorkerDimension>): seq<string> {
    if answers == [] then Once(requested)
    else
      var before, d := DimensionOrder(requested, answers[..|answers|-1]), answers[|answers|-1].dimension;
      if d in before then before else before + [d]
  }

  function Once(requested: seq<string>): (r: seq<string>)
    ensures Distinct(r)
    ensures forall d :: d in r <==> d in requested
  {
    if requested == [] then []
    else
      var before, d := Once(requested[..|requested|-1]), requested[|requested|-1];
      if d in before then before else before + [d]
  }

  /** What one dimension becomes, from all that was collected for it and its ranked values. */
  function Finished(dim: string, c: Collected, ranked: seq<Value>, limit: nat): FacetDimension {
    var cut := limit > 0 && |ranked| > limit;
    var values := if cut then ranked[..limit] else ranked;
    var truncated := c.truncated || cut;
    var omitted := c.truncatedCount + if cut then |ranked| - limit else 0;
    FacetDimension(
      dim, dim in CONTROLLED, values,
      truncated || (dim !in CONTROLLED && |values| > 0 && limit == 0),
      if dim in CONTROLLED && !truncated then 0 else omitted, limit)
  }

  ghost predicate FacetOf(answers: seq<WorkerDimension>, limit: nat, fd: FacetDimension) {
    exists ranked ::
      && Ranked(ranked, Counts(Listed(answers, fd.dimension)))
      && fd == Finished(fd.dimension, CollectedOf(answers, fd.dimension), ranked, limit)
  }

  ghost predicate Collects(byDim: map<string, Collected>, order: seq<string>, requested: seq<string>,
                           answers: seq<WorkerDimension>)
  {
    && order == DimensionOrder(requested, answers)
    && (forall d :: d in byDim <==> d in order)
    && forall d :: d in byDim ==> byDim[d] == CollectedOf(answers, d)
  }

  lemma {:induction false} Unmentioned(answers: seq<WorkerDimension>, dim: string)
    requires forall a :: a in answers ==> a.dimension != dim
    ensures CollectedOf(answers, dim) == Collected(map[], false, 0) && Listed(answers, dim) == []
  {
    if answers != [] {
      assert answers == answers[..|answers|-1] + [answers[|answers|-1]];
      Unmentioned(answers[..|answers|-1], dim);
    }
  }

  lemma {:induction false} OrderMentions(requested: seq<string>, answers: seq<WorkerDimension>)
    ensures forall d :: d in DimensionOrder(requested, answers) <==>
                        d in requested || exists a :: a in answers && a.dimension == d
    ensures Once(requested) <= DimensionOrder(requested, answers)
    ensures Distinct(DimensionOrder(requested, answers))
  {
    if answers != [] {
      var before, a := answers[..|answers|-1], answers[|answers|-1];
      assert answers == before + [a];
      OrderMentions(requested, before);
      assert a in answers;
      assert forall b :: b in answers <==> b in before || b == a;
    }
  }

  lemma SnocCollected(answers: seq<WorkerDimension>, a: WorkerDimension, dim: string)
    ensures var c, next := CollectedOf(answers, dim), CollectedOf(answers + [a], dim);
            if a.dimension != dim then next == c
            else
              && next.counts == Counts(Listed(answers, dim) + a.values)
              && next.truncated == (c.truncated || a.truncated)
              && next.truncatedCount == c.truncatedCount + if a.truncated then a.truncatedCount else 0
  {
    assert (answers + [a])[..|answers|] == answers;
    assert forall b :: b in answers + [a] <==> b in answers || b == a;
  }

  /** Adds one worker's values for one dimension. */
  method AddValues(c: Collected, a: WorkerDimension, ghost listed: seq<Value>) returns (r: Collected)
    requires c.counts == Counts(listed)
    ensures r.counts == Counts(listed + a.values)
    ensures r.truncated == (c.truncated || a.truncated)
    ensures r.truncatedCount == c.truncatedCount + if a.truncated then a.truncatedCount else 0
  {
    var counts := c.counts;
    assert listed + a.values[..0] == listed;
    for i := 0 to |a.values|
      invariant counts == Counts(listed + a.values[..i])
    {
      var v := a.values[i];
      assert (listed + a.values[..i + 1])[..|listed| + i] == listed + a.values[..i];
      counts := counts[v.value := (if v.value in counts then counts[v.value] else 0) + v.count];
    }
    assert a.values[..|a.values|] == a.values;
    r := c.(counts := counts);
    if a.truncated {
      r := r.(truncated := true, truncatedCount := r.truncatedCount + a.truncatedCount);
    }
  }

  /** Reads one worker's answer for one dimension into the collection. */
  method Collect(
    byDim: map<string, Collected>, order: seq<string>, a: WorkerDimension,
    ghost requested: seq<string>, ghost answers: seq<WorkerDimension>)
    returns (byDim': map<string, Collected>, order': seq<string>)
    requires Collects(byDim, order, requested, answers)
    ensures Collects(byDim', order', requested, answers + [a])
  {
    hide CollectedOf, Counts;
    byDim', order' := byDim, order;
    OrderMentions(requested, answers);
    forall d ensures var c, next := CollectedOf(answers, d), CollectedOf(answers + [a], d);
                     a.dimension != d ==> next == c
    {
      SnocCollected(answers, a, d);
    }
    if a.dimension !in byDim' {
      Unmentioned(answers, a.dimension);
      byDim' := byDim'[a.dimension := Collected(map[], false, 0)];
      order' := order' + [a.dimension];
    }
    CountsOfListed(answers, a.dimension);
    var c := AddValues(byDim'[a.dimension], a, Listed(answers, a.dimension));
    SnocCollected(answers, a, a.dimension);
    byDim' := byDim'[a.dimension := c];
    assert (answers + [a])[..|answers|] == answers;
  }

  lemma CountsOfListed(answers: seq<WorkerDimension>, dim: string)
    ensures CollectedOf(answers, dim).counts == Counts(Listed(answers, dim))
  {
  }

  /** Lists a map's counts in whatever order the map yields them, then ranks them. */
  method Rank(counts: map<string, nat>) returns (ranked: seq<Value>)
    ensures Ranked(ranked, counts)
  {
    var values: seq<Value> := [];
    var left := counts.Keys;
    while left != {}
      invariant left <= counts.Keys && Distinct(values)
      invariant forall v :: v in values <==> v.value in counts.Keys - left && counts[v.value] == v.count
      decreases left
    {
      var k :| k in left;
      values := values + [Value(k, counts[k])];
      left := left - {k};
    }
    ranked := SortBy(values, ByCount());
    RankedBySort(values, counts);
  }

  lemma RankedBySort(values: seq<Value>, counts: map<string, nat>)
    requires Distinct(values) && forall v :: v in values <==> v.value in counts && counts[v.value] == v.count
    ensures Ranked(SortBy(values, ByCount()), counts)
  {
    ByCountIsOrder();
    SortBySorts(values, ByCount());
    var s := SortBy(values, ByCount());
    hide SortBy, Preorder, Ties;
    forall v ensures v in s <==> v in values {
      assert v in s <==> v in multiset(s);
      assert v in values <==> v in multiset(values);
    }
    SameMultisetDistinct(values, s);
  }

  method CollectAnswer(
    byDim: map<string, Collected>, order: seq<string>, resp: seq<WorkerDimension>,
    ghost requested: seq<string>, ghost answers: seq<WorkerDimension>)
    returns (byDim': map<string, Collected>, order': seq<string>)
    requires Collects(byDim, order, requested, answers)
    ensures Collects(byDim', order', requested, answers + resp)
  {
    hide Collects;
    byDim', order' := byDim, order;
    assert answers + resp[..0] == answers;
    for j := 0 to |resp|
      invariant Collects(byDim', order', requested, answers + resp[..j])
    {
      byDim', order' := Collect(byDim', order', resp[j], requested, answers + resp[..j]);
      assert (answers + resp[..j]) + [resp[j]] == answers + resp[..j + 1];
    }
    assert resp[..|resp|] == resp;
  }

  method CollectAll(perWorker: seq<seq<WorkerDimension>>, dimensions: seq<string>)
    returns (byDim: map<string, Collected>, order: seq<string>)
    ensures Collects(byDim, order, dimensions, Flat(perWorker))
  {
    hide Collects;
    byDim, order := Requested(dimensions);
    for i := 0 to |perWorker|
      invariant Collects(byDim, order, dimensions, Flat(perWorker[..i]))
    {
      byDim, order := CollectAnswer(byDim, order, perWorker[i], dimensions, Flat(perWorker[..i]));
      assert perWorker[..i + 1][..i] == perWorker[..i];
    }
    assert perWorker[..|perWorker|] == perWorker;
  }

  /** Merges the workers' facets: collect by dimension, rank, cut, and say honestly what is missing. */
  method MergeFacets(perWorker: seq<seq<WorkerDimension>>, dimensions: seq<string>, limit: nat)
    returns (out: seq<FacetDimension>)
    ensures var answers, order := Flat(perWorker), DimensionOrder(dimensions, Flat(perWorker));
            && |out| == |order|
            && forall i :: 0 <= i < |out| ==> out[i].dimension == order[i] && FacetOf(answers, limit, out[i])
    ensures forall i :: 0 <= i < |out| ==> MostFirst(out[i].values)
  {
    hide FacetOf, Flat, DimensionOrder, CollectedOf, MostFirst;
    var byDim, order := CollectAll(perWorker, dimensions);
    out := [];
    for i := 0 to |order|
      invariant |out| == i
      invariant forall k :: 0 <= k < i ==> out[k].dimension == order[k] && FacetOf(Flat(perWorker), limit, out[k])
      invariant forall k :: 0 <= k < i ==> MostFirst(out[k].values)
    {
      var fd := FinishDimension(order[i], byDim[order[i]], limit, Flat(perWorker));
      ShownMostFirst(Flat(perWorker), limit, fd);
      out := out + [fd];
    }
  }

  method Requested(dimensions: seq<string>) returns (byDim: map<string, Collected>, order: seq<string>)
    ensures Collects(byDim, order, dimensions, [])
  {
    byDim, order := map[], [];
    for i := 0 to |dimensions|
      invariant order == Once(dimensions[..i])
      invariant forall d :: d in byDim <==> d in order
      invariant forall d :: d in byDim ==> byDim[d] == Collected(map[], false, 0)
    {
      assert dimensions[..i + 1][..i] == dimensions[..i];
      var d := dimensions[i];
      if d in byDim {
        continue;
      }
      byDim := byDim[d := Collected(map[], false, 0)];
      order := order + [d];
    }
    assert dimensions[..|dimensions|] == dimensions;
  }

  method FinishDimension(dim: string, c: Collected, limit: nat, ghost answers: seq<WorkerDimension>)
    returns (fd: FacetDimension)
    requires c == CollectedOf(answers, dim)
    ensures fd.dimension == dim && FacetOf(answers, limit, fd)
  {
    hide Counts, Listed, Omitted, SomeTruncated, Ranked;
    var ranked := Rank(c.counts);
    var values := ranked;
    var controlled := dim in CONTROLLED;
    fd := FacetDimension(dim, controlled, [], c.truncated, c.truncatedCount, limit);
    if limit > 0 && |values| > limit {
      var omitted := |values| - limit;
      fd := fd.(truncated := true, truncatedCount := fd.truncatedCount + omitted);
      values := values[..limit];
    }
    if fd.controlled && !fd.truncated {
      fd := fd.(truncatedCount := 0);
    }
    if !fd.controlled && !fd.truncated && |values| > 0 && limit == 0 {
      fd := fd.(truncated := true);
    }
    fd := fd.(values := values);
    assert fd == Finished(dim, c, ranked, limit);
  }

  method FacetsTruncated(dims: seq<FacetDimension>) returns (r: bool)
    ensures r <==> exists d :: d in dims && d.truncated
  {
    for i := 0 to |dims|
      invariant forall k :: 0 <= k < i ==> !dims[k].truncated
    {
      if dims[i].truncated {
        return true;
      }
    }
    return false;
  }

  function Flat(perWorker: seq<seq<WorkerDimension>>): seq<WorkerDimension> {
    if perWorker == [] then [] else Flat(perWorker[..|perWorker|-1]) + perWorker[|perWorker|-1]
  }

  // ----- what the merge guarantees -----

  lemma {:induction false} NothingOmitted(answers: seq<WorkerDimension>, dim: string)
    requires !SomeTruncated(answers, dim)
    ensures Omitted(answers, dim) == 0
  {
    if answers != [] {
      var before, a := answers[..|answers|-1], answers[|answers|-1];
      assert answers == before + [a];
      assert a in answers && forall b :: b in before ==> b in answers;
      NothingOmitted(before, dim);
    }
  }

  /** Every value shown carries the exact sum of all its listings. */
  lemma ShownCountsExact(answers: seq<WorkerDimension>, limit: nat, fd: FacetDimension, v: Value)
    requires FacetOf(answers, limit, fd) && v in fd.values
    ensures Mentions(Listed(answers, fd.dimension), v.value) && v.count == Total(Listed(answers, fd.dimension), v.value)
  {
    CountsTell(Listed(answers, fd.dimension), v.value);
    var ranked :| Ranked(ranked, Counts(Listed(answers, fd.dimension)))
               && fd == Finished(fd.dimension, CollectedOf(answers, fd.dimension), ranked, limit);
    hide Counts, Total;
    assert v in ranked;
  }

  /** A value that is not shown ranks below every value that is. */
  lemma ShownOutrankOmitted(answers: seq<WorkerDimension>, limit: nat, fd: FacetDimension, shown: Value, value: string)
    requires FacetOf(answers, limit, fd) && shown in fd.values
    requires Mentions(Listed(answers, fd.dimension), value) && forall v :: v in fd.values ==> v.value != value
    ensures ByCount()(shown, Value(value, Total(Listed(answers, fd.dimension), value)))
    ensures var total := Total(Listed(answers, fd.dimension), value);
            shown.count >= total && (shown.count == total ==> Ascends(shown.value, value))
    ensures limit > 0 && |fd.values| == limit
  {
    var listed := Listed(answers, fd.dimension);
    CountsTell(listed, value);
    var c := CollectedOf(answers, fd.dimension);
    var ranked :| Ranked(ranked, Counts(listed)) && fd == Finished(fd.dimension, c, ranked, limit);
    hide Counts, Total, Mentions;
    var other := Value(value, Total(listed, value));
    assert other in ranked;
    var j :| 0 <= j < |ranked| && ranked[j] == other;
    var i :| 0 <= i < |fd.values| && fd.values[i] == shown;
    assert forall k :: 0 <= k < |fd.values| ==> ranked[k] in fd.values;
    assert ranked[i] == shown;
    CompareAscends(shown.value, value);
  }

  /** The values shown come by count, the greatest first, and those of one count by name. */
  ghost predicate MostFirst(values: seq<Value>) {
    forall i, j :: 0 <= i < j < |values| ==>
      && values[i].count >= values[j].count
      && (values[i].count == values[j].count ==> Ascends(values[i].value, values[j].value))
  }

  lemma ShownMostFirst(answers: seq<WorkerDimension>, limit: nat, fd: FacetDimension)
    requires FacetOf(answers, limit, fd)
    ensures MostFirst(fd.values)
  {
    var c := CollectedOf(answers, fd.dimension);
    var ranked: seq<Value> :| Ranked(ranked, Counts(Listed(answers, fd.dimension)))
               && fd == Finished(fd.dimension, c, ranked, limit);
    hide Counts, Listed, CollectedOf, Ascends;
    forall i, j | 0 <= i < j < |fd.values|
      ensures fd.values[i].count >= fd.values[j].count
      ensures fd.values[i].count == fd.values[j].count ==> Ascends(fd.values[i].value, fd.values[j].value)
    {
      assert ByCount()(ranked[i], ranked[j]);
      CompareAscends(ranked[i].value, ranked[j].value);
    }
  }

  /** The truncated count is what the workers left out and what was cut here, in every case. */
  lemma TruncatedCountExact(answers: seq<WorkerDimension>, limit: nat, fd: FacetDimension, names: set<string>)
    requires FacetOf(answers, limit, fd)
    requires forall n :: n in names <==> Mentions(Listed(answers, fd.dimension), n)
    ensures |fd.values| == (if limit > 0 && |names| > limit then limit else |names|)
    ensures fd.truncatedCount == Omitted(answers, fd.dimension) + (|names| - |fd.values|)
  {
    var listed := Listed(answers, fd.dimension);
    var c := CollectedOf(answers, fd.dimension);
    var ranked :| Ranked(ranked, Counts(listed)) && fd == Finished(fd.dimension, c, ranked, limit);
    if !SomeTruncated(answers, fd.dimension) {
      NothingOmitted(answers, fd.dimension);
    }
    RankedSize(ranked, Counts(listed));
    forall n ensures n in names <==> n in Counts(listed) {
      CountsTell(listed, n);
    }
    assert names == Counts(listed).Keys;
    assert |Counts(listed)| == |Counts(listed).Keys|;
  }

  lemma RankedSize(ranked: seq<Value>, counts: map<string, nat>)
    requires Ranked(ranked, counts)
    ensures |ranked| == |counts.Keys|
  {
    var names := seq(|ranked|, i requires 0 <= i < |ranked| => ranked[i].value);
    forall i, j | 0 <= i < j < |names| ensures names[i] != names[j] {
      assert ranked[i] in ranked && ranked[j] in ranked;
    }
    forall n ensures n in names <==> n in counts {
      if n in counts {
        assert Value(n, counts[n]) in ranked;
        var i :| 0 <= i < |ranked| && ranked[i] == Value(n, counts[n]);
        assert names[i] == n;
      }
      if n in names {
        var i :| 0 <= i < |names| && names[i] == n;
        assert ranked[i] in ranked;
      }
    }
    DistinctSize(names, counts.Keys);
  }

  lemma {:induction false} DistinctSize(names: seq<string>, all: set<string>)
    requires Distinct(names) && forall n :: n in names <==> n in all
    ensures |names| == |all|
  {
    if names == [] {
      assert all == {};
    } else {
      var before, n := names[..|names|-1], names[|names|-1];
      assert names == before + [n];
      DistinctSize(before, all - {n});
    }
  }

  /**
   * A dimension is called complete exactly when no worker truncated it, nothing was cut here, and it is controlled,
   * empty or limited; then it shows every value, and all counts together are all that was listed.
   */
  lemma CompleteMeansEverything(answers: seq<WorkerDimension>, limit: nat, fd: FacetDimension, names: set<string>)
    requires FacetOf(answers, limit, fd)
    requires forall n :: n in names <==> Mentions(Listed(answers, fd.dimension), n)
    ensures !fd.truncated <==>
            && !SomeTruncated(answers, fd.dimension)
            && (limit == 0 || |names| <= limit)
            && (fd.dimension in CONTROLLED || names == {} || limit > 0)
    ensures !fd.truncated ==>
              && (forall n :: n in names ==> Value(n, Total(Listed(answers, fd.dimension), n)) in fd.values)
              && fd.truncatedCount == 0
              && AllCounts(fd.values) == AllCounts(Listed(answers, fd.dimension))
  {
    var listed := Listed(answers, fd.dimension);
    var c := CollectedOf(answers, fd.dimension);
    var ranked :| Ranked(ranked, Counts(listed)) && fd == Finished(fd.dimension, c, ranked, limit);
    TruncatedCountExact(answers, limit, fd, names);
    RankedSize(ranked, Counts(listed));
    forall n ensures n in names <==> n in Counts(listed) {
      CountsTell(listed, n);
    }
    assert names == Counts(listed).Keys;
    if !fd.truncated {
      NothingOmitted(answers, fd.dimension);
      assert fd.values == ranked;
      forall n | n in names ensures Value(n, Total(listed, n)) in ranked {
        CountsTell(listed, n);
      }
      RankedConserves(ranked, listed);
    }
  }

  function SumTotals(ranked: seq<Value>, listed: seq<Value>): nat {
    if ranked == [] then 0 else SumTotals(ranked[..|ranked|-1], listed) + Total(listed, ranked[|ranked|-1].value)
  }

  lemma {:induction false} SumTotalsNone(ranked: seq<Value>)
    ensures SumTotals(ranked, []) == 0
  {
    if ranked != [] {
      SumTotalsNone(ranked[..|ranked|-1]);
    }
  }

  predicate OneEach(ranked: seq<Value>) {
    forall i, j :: 0 <= i < j < |ranked| ==> ranked[i].value != ranked[j].value
  }

  lemma {:induction false} SumTotalsSnoc(ranked: seq<Value>, listed: seq<Value>, v: Value)
    requires OneEach(ranked)
    ensures SumTotals(ranked, listed + [v]) ==
            SumTotals(ranked, listed) + if Mentions(ranked, v.value) then v.count else 0
  {
    assert (listed + [v])[..|listed|] == listed;
    if ranked != [] {
      var before, r := ranked[..|ranked|-1], ranked[|ranked|-1];
      assert ranked == before + [r];
      SumTotalsSnoc(before, listed, v);
      assert Mentions(ranked, v.value) <==> Mentions(before, v.value) || r.value == v.value;
      forall b | b in before ensures b.value != r.value {
        var i :| 0 <= i < |before| && before[i] == b;
        assert ranked[i] == b;
      }
    }
  }

  lemma {:induction false} SumTotalsAll(ranked: seq<Value>, listed: seq<Value>)
    requires OneEach(ranked) && forall v :: v in listed ==> Mentions(ranked, v.value)
    ensures SumTotals(ranked, listed) == AllCounts(listed)
  {
    if listed == [] {
      SumTotalsNone(ranked);
    } else {
      var before, v := listed[..|listed|-1], listed[|listed|-1];
      assert listed == before + [v];
      assert v in listed && forall b :: b in before ==> b in listed;
      SumTotalsAll(ranked, before);
      SumTotalsSnoc(ranked, before, v);
    }
  }

  lemma {:induction false} SumTotalsShown(ranked: seq<Value>, listed: seq<Value>)
    requires forall v :: v in ranked ==> v.count == Total(listed, v.value)
    ensures SumTotals(ranked, listed) == AllCounts(ranked)
  {
    if ranked != [] {
      var before := ranked[..|ranked|-1];
      assert ranked == before + [ranked[|ranked|-1]];
      SumTotalsShown(before, listed);
      assert ranked[|ranked|-1] in ranked;
    }
  }

  lemma RankedConserves(ranked: seq<Value>, listed: seq<Value>)
    requires Ranked(ranked, Counts(listed))
    ensures AllCounts(ranked) == AllCounts(listed)
  {
    forall v | v in ranked ensures v.count == Total(listed, v.value) {
      CountsTell(listed, v.value);
    }
    forall v | v in listed ensures Mentions(ranked, v.value) {
      CountsTell(listed, v.value);
      assert Value(v.value, Counts(listed)[v.value]) in ranked;
    }
    forall i, j | 0 <= i < j < |ranked| ensures ranked[i].value != ranked[j].value {
      assert ranked[i] in ranked && ranked[j] in ranked;
    }
    SumTotalsShown(ranked, listed);
    SumTotalsAll(ranked, listed);
  }

  // ----- the order of the workers -----

  lemma {:induction false} ListedConcat(a: seq<WorkerDimension>, b: seq<WorkerDimension>, dim: string)
    ensures Listed(a + b, dim) == Listed(a, dim) + Listed(b, dim)
    ensures Omitted(a + b, dim) == Omitted(a, dim) + Omitted(b, dim)
  {
    if b == [] {
      assert a + b == a;
    } else {
      assert (a + b)[..|a + b|-1] == a + b[..|b|-1];
      ListedConcat(a, b[..|b|-1], dim);
    }
  }

  lemma {:induction false} FlatConcat(a: seq<seq<WorkerDimension>>, b: seq<seq<WorkerDimension>>)
    ensures Flat(a + b) == Flat(a) + Flat(b)
  {
    if b == [] {
      assert a + b == a;
    } else {
      assert (a + b)[..|a + b|-1] == a + b[..|b|-1];
      FlatConcat(a, b[..|b|-1]);
    }
  }

  lemma FlatAround(s: seq<seq<WorkerDimension>>, j: nat, dim: string)
    requires j < |s|
    ensures var rest := Flat(s[..j] + s[j+1..]);
            && multiset(Listed(Flat(s), dim)) == multiset(Listed(rest, dim)) + multiset(Listed(s[j], dim))
            && Omitted(Flat(s), dim) == Omitted(rest, dim) + Omitted(s[j], dim)
  {
    hide Listed, Omitted;
    TakeOneOut(s, j);
    FlatOne(s[j]);
    FlatConcat(s[..j], [s[j]] + s[j+1..]);
    FlatConcat([s[j]], s[j+1..]);
    FlatConcat(s[..j], s[j+1..]);
    ListedConcat(Flat(s[..j]), s[j] + Flat(s[j+1..]), dim);
    ListedConcat(s[j], Flat(s[j+1..]), dim);
    ListedConcat(Flat(s[..j]), Flat(s[j+1..]), dim);
  }

  lemma FlatOne(w: seq<WorkerDimension>)
    ensures Flat([w]) == w
  {
    assert [w][..0] == [];
  }

  lemma {:induction false} SameListings(a: seq<seq<WorkerDimension>>, b: seq<seq<WorkerDimension>>, dim: string)
    requires multiset(a) == multiset(b)
    ensures multiset(Listed(Flat(a), dim)) == multiset(Listed(Flat(b), dim))
    ensures Omitted(Flat(a), dim) == Omitted(Flat(b), dim)
  {
    assert |a| == |multiset(a)| && |b| == |multiset(b)|;
    if a != [] {
      hide Listed, Omitted, Flat;
      var j := TakeLike(a, b);
      SameListings(a[..|a|-1], b[..j] + b[j+1..], dim);
      FlatAround(a, |a| - 1, dim);
      FlatAround(b, j, dim);
      assert a[..|a|-1] + a[|a|..] == a[..|a|-1];
    }
  }

  lemma {:induction false} FlatHolds(s: seq<seq<WorkerDimension>>, d: WorkerDimension)
    ensures d in Flat(s) <==> exists w :: w in s && d in w
  {
    if s != [] {
      var before, w := s[..|s|-1], s[|s|-1];
      assert s == before + [w];
      FlatHolds(before, d);
      assert w in s && forall x :: x in s <==> x in before || x == w;
    }
  }

  lemma {:induction false} TotalUnordered(a: seq<Value>, b: seq<Value>, value: string)
    requires multiset(a) == multiset(b)
    ensures Total(a, value) == Total(b, value) && (Mentions(a, value) <==> Mentions(b, value))
  {
    forall v ensures v in a <==> v in b {
      assert v in a <==> v in multiset(a);
      assert v in b <==> v in multiset(b);
    }
    assert |a| == |multiset(a)| && |b| == |multiset(b)|;
    if a != [] {
      var j := TakeLike(a, b);
      TotalUnordered(a[..|a|-1], b[..j] + b[j+1..], value);
      TotalAround(b, j, value);
    }
  }

  lemma {:induction false} TotalConcat(a: seq<Value>, b: seq<Value>, value: string)
    ensures Total(a + b, value) == Total(a, value) + Total(b, value)
  {
    if b == [] {
      assert a + b == a;
    } else {
      assert (a + b)[..|a + b|-1] == a + b[..|b|-1];
      TotalConcat(a, b[..|b|-1], value);
    }
  }

  lemma TotalAround(s: seq<Value>, j: nat, value: string)
    requires j < |s|
    ensures Total(s, value) == Total(s[..j] + s[j+1..], value) + if s[j].value == value then s[j].count else 0
  {
    TakeOneOut(s, j);
    TotalConcat(s[..j], [s[j]] + s[j+1..], value);
    TotalConcat([s[j]], s[j+1..], value);
    TotalConcat(s[..j], s[j+1..], value);
    assert [s[j]][..0] == [];
  }

  lemma SameCounts(a: seq<Value>, b: seq<Value>)
    requires multiset(a) == multiset(b)
    ensures Counts(a) == Counts(b)
  {
    forall value
      ensures value in Counts(a) <==> value in Counts(b)
      ensures value in Counts(a) && value in Counts(b) ==> Counts(a)[value] == Counts(b)[value]
    {
      hide Counts, Total;
      CountsTell(a, value);
      CountsTell(b, value);
      TotalUnordered(a, b, value);
    }
  }

  /** Whichever order the workers answer in, a dimension comes out the same in every field. */
  lemma WorkersUnordered(
    a: seq<seq<WorkerDimension>>, b: seq<seq<WorkerDimension>>, limit: nat, fd: FacetDimension, gd: FacetDimension)
    requires multiset(a) == multiset(b) && fd.dimension == gd.dimension
    requires FacetOf(Flat(a), limit, fd) && FacetOf(Flat(b), limit, gd)
    ensures fd == gd
  {
    var dim := fd.dimension;
    SameListings(a, b, dim);
    SameCounts(Listed(Flat(a), dim), Listed(Flat(b), dim));
    SameTruncation(a, b, dim);
    var r :| Ranked(r, Counts(Listed(Flat(a), dim))) && fd == Finished(dim, CollectedOf(Flat(a), dim), r, limit);
    var s :| Ranked(s, Counts(Listed(Flat(b), dim))) && gd == Finished(dim, CollectedOf(Flat(b), dim), s, limit);
    RankedUnique(r, s, Counts(Listed(Flat(a), dim)));
  }

  lemma SameTruncation(a: seq<seq<WorkerDimension>>, b: seq<seq<WorkerDimension>>, dim: string)
    requires multiset(a) == multiset(b)
    ensures SomeTruncated(Flat(a), dim) == SomeTruncated(Flat(b), dim)
  {
    forall w ensures w in a <==> w in b {
      assert w in a <==> w in multiset(a);
      assert w in b <==> w in multiset(b);
    }
    forall d ensures d in Flat(a) <==> d in Flat(b) {
      FlatHolds(a, d);
      FlatHolds(b, d);
    }
  }

  /** The requested dimensions come first, once each and in the order of the request, whatever the workers send. */
  lemma RequestedComeFirst(dimensions: seq<string>, answers: seq<WorkerDimension>, i: nat)
    requires i < |Once(dimensions)|
    ensures i < |DimensionOrder(dimensions, answers)|
    ensures DimensionOrder(dimensions, answers)[i] == Once(dimensions)[i]
  {
    OrderMentions(dimensions, answers);
  }
}
