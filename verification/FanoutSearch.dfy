/** The fan-out as a whole: which workers are asked, and what is gathered from the replies as they arrive. */
module FanoutSearch {
  import opened Text
  import opened LogTypes
  import opened Merge
  import opened Targets
  import opened Budget
  import opened Sorting
  import opened Fanout

  // ----- workers that get no budget -----

  function UnfundedEntry(t: TargetInfo): TargetCoverage {
    CoverageFromReadiness(t, ["BUDGET_EXCEEDED"]).(state := StatePartial)
  }

  function UnfundedMap(targets: seq<TargetInfo>): (m: map<string, TargetCoverage>)
    ensures KeyedByTarget(m)
    ensures forall id :: id in m <==> Names(targets, id)
    ensures forall id :: id in m ==> m[id].state == StatePartial
  {
    if targets == [] then map[]
    else
      var before, t := targets[..|targets|-1], targets[|targets|-1];
      NamesAny(targets);
      UnfundedMap(before)[t.id := UnfundedEntry(t)]
  }

  function AddUnfunded(g: Gathered, targets: seq<TargetInfo>): Gathered {
    g.(coverage := g.coverage + UnfundedMap(targets), cut := true, open := true,
       summary := g.summary.(complete := false,
                             partialReasons := AppendUnique(g.summary.partialReasons, "BUDGET_EXCEEDED")))
  }

  const NOTHING_GATHERED :=
    Gathered([], map[], Quality("exact", ""), false, false, Coverage(true, [], [], EnumExhausted, false), [])

  /** What is gathered before any reply: the workers among the first k of order without a budget. */
  function Base(queried: seq<TargetInfo>, order: seq<string>, budget: QueryBudget, k: nat): Gathered
    requires k <= |order|
  {
    if k == 0 then NOTHING_GATHERED
    else
      var g := Base(queried, order, budget, k - 1);
      if IsFunded(order, budget, k - 1) then g else AddUnfunded(g, OfWorker(queried, order[k - 1]))
  }

  /** The workers that are asked, in order. */
  function Launched(order: seq<string>, budget: QueryBudget, k: nat): (r: seq<string>)
    requires k <= |order|
    ensures forall w :: w in r <==> exists i :: 0 <= i < k && order[i] == w && IsFunded(order, budget, i)
  {
    if k == 0 then []
    else if IsFunded(order, budget, k - 1) then Launched(order, budget, k - 1) + [order[k - 1]]
    else Launched(order, budget, k - 1)
  }

  function Outcomes(req: FanoutRequest, queried: seq<TargetInfo>, replies: map<string, Reply>, arrival: seq<string>)
    : (r: seq<Result<WorkerOutcome, string>>)
    requires forall w :: w in arrival ==> w in replies
    ensures |r| == |arrival|
  {
    seq(|arrival|, i requires 0 <= i < |arrival| =>
      OutcomeOf(req, arrival[i], OfWorker(queried, arrival[i]), replies[arrival[i]]))
  }

  predicate AllFine(outs: seq<Result<WorkerOutcome, string>>) {
    forall i :: 0 <= i < |outs| ==> outs[i].Ok?
  }

  function Values(outs: seq<Result<WorkerOutcome, string>>): (r: seq<WorkerOutcome>)
    requires AllFine(outs)
    ensures |r| == |outs|
  {
    seq(|outs|, i requires 0 <= i < |outs| => outs[i].value)
  }

  /** arrival lists the launched workers, each once, in the order their replies come in. */
  ghost predicate Arrives(
    arrival: seq<string>, queried: seq<TargetInfo>, budget: QueryBudget, replies: map<string, Reply>)
  {
    && Distinct(arrival)
    && (forall w :: w in arrival <==> w in Launched(WorkerOrder(queried), budget, |WorkerOrder(queried)|))
    && (forall w :: w in arrival ==> w in replies)
  }

  /** Asks every funded worker and gathers the replies in the order they arrive; the first error ends it. */
  method Search(
    req: FanoutRequest, queried: seq<TargetInfo>, budget: QueryBudget, replies: map<string, Reply>,
    arrival: seq<string>)
    returns (r: Result<Gathered, string>)
    requires Arrives(arrival, queried, budget, replies)
    ensures r.Ok? <==> AllFine(Outcomes(req, queried, replies, arrival))
    ensures r.Ok? ==>
              r.value == Finish(AddAll(Base(queried, WorkerOrder(queried), budget, |WorkerOrder(queried)|),
                                       Values(Outcomes(req, queried, replies, arrival))))
    ensures r.Ok? && (exists id :: id in r.value.coverage &&
                        (r.value.coverage[id].state == StatePartial || r.value.coverage[id].state == StateStale)) ==>
              DuplicateRank(r.value.quality.duplicate) >= 2
    ensures r.Ok? ==> InOrder(r.value)
  {
    hide OutcomeOf, UnfundedMap, Finish, Add, WorkerOrder, OfWorker, Share, TotalBytes, Base, Values, AllFine,
        AddAll, Launched;
    var order, groups := ByWorker(queried);
    var g := GatherUnfunded(queried, order, groups, budget);
    var gathered := GatherReplies(req, queried, replies, arrival, g);
    if gathered.Err? {
      return gathered;
    }
    UnsettledDegrades(gathered.value);
    FinishKeepsCoverage(gathered.value);
    FinishOrders(gathered.value);
    return Ok(Finish(gathered.value));
  }

  /** Streams ascend by worker; gaps by worker, then log source, then generation, then namespace. */
  ghost predicate InOrder(g: Gathered) {
    && (forall i, j :: 0 <= i < j < |g.streams| ==> Ascends(g.streams[i].workerID, g.streams[j].workerID))
    && forall i, j :: 0 <= i < j < |g.gaps| ==> GapsAscend(g.gaps[i], g.gaps[j])
  }

  ghost predicate GapsAscend(a: PositionGap, b: PositionGap) {
    && Ascends(a.workerID, b.workerID)
    && (a.workerID == b.workerID ==>
          && Ascends(a.logSourceID, b.logSourceID)
          && (a.logSourceID == b.logSourceID ==>
                && Ascends(a.sourceGeneration, b.sourceGeneration)
                && (a.sourceGeneration == b.sourceGeneration ==>
                      Ascends(a.storageNamespace, b.storageNamespace))))
  }

  lemma {:induction false} FieldsAscend(a: seq<string>, b: seq<string>)
    requires |a| == |b| && CompareFields(a, b) <= 0
    ensures forall i :: 0 <= i < |a| && a[..i] == b[..i] ==> Ascends(a[i], b[i])
  {
    hide Ascends;
    if a != [] {
      CompareAscends(a[0], b[0]);
      CompareEqual(a[0], b[0]);
      if a[0] == b[0] {
        FieldsAscend(a[1..], b[1..]);
      }
      forall i | 0 <= i < |a| && a[..i] == b[..i] ensures Ascends(a[i], b[i]) {
        if i > 0 {
          assert a[0] == a[..i][0] == b[..i][0] == b[0];
          assert a[1..][..i-1] == a[..i][1..] && b[1..][..i-1] == b[..i][1..];
          assert a[i] == a[1..][i-1] && b[i] == b[1..][i-1];
        }
      }
    }
  }

  lemma FinishOrders(g: Gathered)
    ensures InOrder(Finish(g))
    ensures multiset(Finish(g).streams) == multiset(g.streams) && multiset(Finish(g).gaps) == multiset(g.gaps)
  {
    StreamOrder();
    GapOrder();
    SortBySorts(g.streams, StreamLe);
    SortBySorts(g.gaps, GapLe);
    hide SortBy, Ascends, StreamLe, GapLe, GapsAscend, Preorder, Ties, SomeUnsettled;
    var f := Finish(g);
    forall i, j | 0 <= i < j < |f.streams| ensures Ascends(f.streams[i].workerID, f.streams[j].workerID) {
      StreamsAscend(f.streams[i], f.streams[j]);
    }
    forall i, j | 0 <= i < j < |f.gaps| ensures GapsAscend(f.gaps[i], f.gaps[j]) {
      LeGapsAscend(f.gaps[i], f.gaps[j]);
    }
  }

  lemma StreamsAscend(x: EventStream, y: EventStream)
    requires StreamLe(x, y)
    ensures Ascends(x.workerID, y.workerID)
  {
    hide Ascends;
    FieldsAscend(StreamKey(x), StreamKey(y));
    assert StreamKey(x)[..0] == StreamKey(y)[..0];
  }

  lemma LeGapsAscend(x: PositionGap, y: PositionGap)
    requires GapLe(x, y)
    ensures GapsAscend(x, y)
  {
    hide Ascends, CompareFields;
    var a, b := GapKey(x), GapKey(y);
    FieldsAscend(a, b);
    assert a[..0] == b[..0];
    assert a[0] == b[0] ==> a[..1] == b[..1];
    assert a[0] == b[0] && a[1] == b[1] ==> a[..2] == b[..2];
    assert a[0] == b[0] && a[1] == b[1] && a[2] == b[2] ==> a[..3] == b[..3];
  }

  lemma StreamOrder()
    ensures Preorder(StreamLe)
  {
    forall x: EventStream, y: EventStream ensures StreamLe(x, y) || StreamLe(y, x) {
      CompareFieldsFlip(StreamKey(x), StreamKey(y));
    }
    forall x: EventStream, y: EventStream, z: EventStream | StreamLe(x, y) && StreamLe(y, z) ensures StreamLe(x, z) {
      CompareFieldsTransitive(StreamKey(x), StreamKey(y), StreamKey(z));
    }
  }

  lemma GapOrder()
    ensures Preorder(GapLe)
  {
    forall x: PositionGap, y: PositionGap ensures GapLe(x, y) || GapLe(y, x) {
      CompareFieldsFlip(GapKey(x), GapKey(y));
    }
    forall x: PositionGap, y: PositionGap, z: PositionGap | GapLe(x, y) && GapLe(y, z) ensures GapLe(x, z) {
      CompareFieldsTransitive(GapKey(x), GapKey(y), GapKey(z));
    }
  }

  lemma FinishKeepsCoverage(g: Gathered)
    ensures Finish(g).coverage == g.coverage
  {
  }

  /** Some worker among the first k of order got no budget. */
  predicate SomeUnfunded(order: seq<string>, budget: QueryBudget, k: nat)
    requires k <= |order|
  {
    exists i :: 0 <= i < k && !IsFunded(order, budget, i)
  }

  /** The target belongs to a worker among the first k of order that got no budget. */
  predicate Unfunded(queried: seq<TargetInfo>, order: seq<string>, budget: QueryBudget, k: nat, id: string)
    requires k <= |order|
  {
    exists i :: 0 <= i < k && !IsFunded(order, budget, i) && Names(OfWorker(queried, order[i]), id)
  }

  lemma {:induction false} BaseTells(queried: seq<TargetInfo>, order: seq<string>, budget: QueryBudget, k: nat)
    requires k <= |order|
    ensures var g := Base(queried, order, budget, k);
            && (g.cut <==> SomeUnfunded(order, budget, k)) && g.open == g.cut && g.summary.complete == !g.cut
            && ("BUDGET_EXCEEDED" in g.summary.partialReasons <==> g.cut)
            && (forall id :: id in g.coverage <==> Unfunded(queried, order, budget, k, id))
            && (forall id :: id in g.coverage ==> g.coverage[id].state == StatePartial && g.coverage[id].targetID == id)
  {
    hide IsFunded, OfWorker, Names, UnfundedMap;
    if k > 0 {
      BaseTells(queried, order, budget, k - 1);
    }
  }

  /**
   * A worker left without a budget makes the answer cut, open and incomplete for that reason, and exactly the
   * targets of
   * such workers are covered already, as partial.
   */
  method GatherUnfunded(
    queried: seq<TargetInfo>, order: seq<string>, groups: map<string, seq<TargetInfo>>, budget: QueryBudget)
    returns (g: Gathered)
    requires order == WorkerOrder(queried)
    requires forall w :: w in groups <==> w in order
    requires forall w :: w in groups ==> groups[w] == OfWorker(queried, w)
    ensures g == Base(queried, order, budget, |order|)
    ensures g.cut <==> SomeUnfunded(order, budget, |order|)
    ensures g.open == g.cut && g.summary.complete == !g.cut
        && ("BUDGET_EXCEEDED" in g.summary.partialReasons <==> g.cut)
    ensures forall id :: id in g.coverage <==> Unfunded(queried, order, budget, |order|, id)
    ensures forall id :: id in g.coverage ==> g.coverage[id].state == StatePartial && g.coverage[id].targetID == id
  {
    hide UnfundedMap, WorkerOrder, OfWorker, IsFunded, SomeUnfunded, Unfunded, Names, CoverageFromReadiness,
      AppendUnique;
    var reserved := ReserveWorkerBudgets(order, budget);
    g := NOTHING_GATHERED;
    for i := 0 to |order|
      invariant g == Base(queried, order, budget, i)
    {
      BeyondFanout(order, budget, i);
      if order[i] !in reserved || (budget.maxFanout > 0 && i >= budget.maxFanout) {
        assert order[i] in groups;
        var entries := CoverUnfunded(groups[order[i]]);
        g := g.(coverage := g.coverage + entries, cut := true, open := true,
                summary := g.summary.(complete := false,
                                      partialReasons := AppendUnique(g.summary.partialReasons, "BUDGET_EXCEEDED")));
      }
    }
    BaseTells(queried, order, budget, |order|);
  }

  method GatherReplies(
    req: FanoutRequest, queried: seq<TargetInfo>, replies: map<string, Reply>, arrival: seq<string>, base: Gathered)
    returns (r: Result<Gathered, string>)
    requires forall w :: w in arrival ==> w in replies
    ensures r.Ok? <==> AllFine(Outcomes(req, queried, replies, arrival))
    ensures r.Ok? ==> r.value == AddAll(base, Values(Outcomes(req, queried, replies, arrival)))
  {
    hide OutcomeOf, Add, OfWorker;
    ghost var outs := Outcomes(req, queried, replies, arrival);
    var g := base;
    for i := 0 to |arrival|
      invariant AllFine(outs[..i])
      invariant g == AddAll(base, Values(outs[..i]))
    {
      var w := arrival[i];
      var outcome := FanoutOne(req, w, OfWorker(queried, w), replies[w]);
      assert outcome == outs[i];
      if outcome.Err? {
        return Err(outcome.error);
      }
      assert Values(outs[..i+1])[..i] == Values(outs[..i]);
      g := Add(g, outcome.value);
    }
    assert outs[..|arrival|] == outs;
    return Ok(g);
  }

  method CoverUnfunded(targets: seq<TargetInfo>) returns (m: map<string, TargetCoverage>)
    ensures m == UnfundedMap(targets)
  {
    m := map[];
    for i := 0 to |targets|
      invariant m == UnfundedMap(targets[..i])
    {
      assert targets[..i+1][..i] == targets[..i];
      var tc := CoverageFromReadiness(targets[i], ["BUDGET_EXCEEDED"]);
      m := m[targets[i].id := tc.(state := StatePartial)];
    }
    assert targets[..|targets|] == targets;
  }
}
