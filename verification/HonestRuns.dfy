/**
 * The runs the paging and export theorems speak of exist: honest replies, the pages they lead to, their completeness,
 * and an export that publishes its artifact.
 */
module HonestRuns {
  import opened Text
  import opened Sorting
  import opened LogTypes
  import opened Merge
  import opened Targets
  import opened Budget
  import opened Fanout
  import opened SearchPage
  import opened Paging
  import FanoutSearch
  import OrderFree
  import Completeness
  import opened Cursor
  import opened Dedupe
  import Export

  // ----- every merge has an outcome -----

  lemma {:induction false} LeastLeft(lanes: seq<seq<Event>>, pos: seq<nat>, n: nat) returns (i: nat)
    requires Positions(lanes, pos) && n <= |lanes| && forall k :: 0 <= k < |lanes| ==> Sorted(lanes[k])
    requires exists k :: 0 <= k < n && pos[k] < |lanes[k]|
    ensures i < n && pos[i] < |lanes[i]|
    ensures forall k, j :: 0 <= k < n && pos[k] <= j < |lanes[k]| ==> NotAfter(lanes[i][pos[i]], lanes[k][j])
  {
    hide NotAfter;
    var last := n - 1;
    if exists k :: 0 <= k < last && pos[k] < |lanes[k]| {
      i := LeastLeft(lanes, pos, last);
      if pos[last] < |lanes[last]| {
        FrontFirst(lanes[last], pos[last]);
        if !NotAfter(lanes[i][pos[i]], lanes[last][pos[last]]) {
          FlipNotAfter(lanes[i][pos[i]], lanes[last][pos[last]]);
          forall k, j | 0 <= k < last && pos[k] <= j < |lanes[k]|
            ensures NotAfter(lanes[last][pos[last]], lanes[k][j])
          {
            NotAfterTransitive(lanes[last][pos[last]], lanes[i][pos[i]], lanes[k][j]);
          }
          i := last;
        } else {
          forall j | pos[last] <= j < |lanes[last]| ensures NotAfter(lanes[i][pos[i]], lanes[last][j]) {
            NotAfterTransitive(lanes[i][pos[i]], lanes[last][pos[last]], lanes[last][j]);
          }
        }
      }
    } else {
      i := last;
      FrontFirst(lanes[last], pos[last]);
    }
  }

  lemma FlipNotAfter(x: Event, y: Event)
    ensures NotAfter(x, y) || NotAfter(y, x)
  {
    CompareAntisymmetric(x.Key(), y.Key());
  }

  lemma FrontFirst(lane: seq<Event>, p: nat)
    requires Sorted(lane) && p < |lane|
    ensures forall j :: p <= j < |lane| ==> NotAfter(lane[p], lane[j])
  {
    CompareAntisymmetric(lane[p].Key(), lane[p].Key());
  }

  /** Sorted streams can always be merged on to an outcome under the two caps. */
  lemma {:induction false} MergeOn(
    lanes: seq<seq<Event>>, capRows: int, maxBytes: nat, rows: seq<Event>, pos: seq<nat>)
    returns (out: seq<Event>, pageMore: bool, byteCut: bool, end: seq<nat>)
    requires Partial(lanes, capRows, maxBytes, rows, pos) && forall k :: 0 <= k < |lanes| ==> Sorted(lanes[k])
    ensures Merged(lanes, capRows, maxBytes, out, pageMore, byteCut, end)
    decreases Remaining(lanes, pos)
  {
    hide Sorted, NotAfter, Taken, Bytes, Remaining, Event.ApproxBytes;
    if AllTaken(lanes, pos) {
      return rows, false, false, pos;
    }
    assert exists k :: 0 <= k < |lanes| && pos[k] < |lanes[k]|;
    var i := LeastLeft(lanes, pos, |lanes|);
    var ev := lanes[i][pos[i]];
    assert BeforeRest(ev, lanes, pos);
    if capRows > 0 && |rows| >= capRows {
      return rows, true, false, pos;
    }
    if maxBytes > 0 && rows != [] && Bytes(rows) + ev.ApproxBytes() > maxBytes {
      return rows, false, true, pos;
    }
    EmitRow(lanes, capRows, maxBytes, rows, pos, i);
    RemainingDrops(lanes, pos, i);
    hide Partial, BeforeRest, Merged, AllTaken;
    out, pageMore, byteCut, end := MergeOn(lanes, capRows, maxBytes, rows + [ev], pos[i := pos[i] + 1]);
  }

  lemma LaneSorted(s: EventStream)
    requires Sorted(s.items)
    ensures Sorted(Lane(s))
  {
    forall i, j | 0 <= i < j < |Lane(s)| ensures NotAfter(Lane(s)[i], Lane(s)[j]) {
      assert NotAfter(s.items[i], s.items[j]);
    }
  }

  /** A search past the cache that meets no error has a page. */
  lemma PageExists(q: Query, s: Surroundings) returns (resp: SearchResponse)
    requires BindCursor(q).Ok? && s.cached.None?
    requires FanoutSearch.Arrives(s.arrival, s.resolved.queried,
                                  ReadBudget(s.view.limit, BindCursor(q).value.budget), s.replies)
    requires FanoutSearch.AllFine(
               FanoutSearch.Outcomes(FanoutRequest(q.fast, s.generations), s.resolved.queried, s.replies, s.arrival))
    ensures PageOf(q, s, resp)
  {
    var bound := BindCursor(q).value;
    assert bound.fast == q.fast;
    var budget := ReadBudget(s.view.limit, bound.budget);
    var req := FanoutRequest(q.fast, s.generations);
    AnswerSorted(req, s.resolved.queried, budget, s.replies, s.arrival);
    var g := OrderFree.AnswerOf(req, s.resolved.queried, budget, s.replies, s.arrival);
    var lanes := Lanes(g.streams);
    hide OrderFree.AnswerOf, Respond, FanoutSearch.Arrives, FanoutSearch.AllFine, FanoutSearch.Outcomes, Merged,
        ReadBudget;
    forall k | 0 <= k < |lanes| ensures Sorted(lanes[k]) {
      LaneSorted(g.streams[k]);
    }
    var pos := seq(|lanes|, _ => 0);
    NothingYet(lanes, budget.limit, budget.maxBytes, pos);
    var rows, pageMore, byteCut, end := MergeOn(lanes, budget.limit, budget.maxBytes, [], pos);
    resp := Respond(q.fast, s.view.(limit := budget.limit), s.resolved, g, rows, pageMore, byteCut);
  }

  // ----- honest replies -----

  /** The worker view under which an honest worker answers a bound fan-out. */
  const WORKER_VIEW: BoundID := "worker view"

  function Wanted(generations: map<string, string>, t: TargetInfo): string {
    if t.id in generations then generations[t.id] else ""
  }

  /** Targets that a worker knows under one id are wanted in one catalog generation. */
  predicate GenerationsAgree(queried: seq<TargetInfo>, generations: map<string, string>) {
    forall s, t :: s in queried && t in queried && s.workerID == t.workerID ==>
                     WorkerTargetID(s) == WorkerTargetID(t) ==> Wanted(generations, s) == Wanted(generations, t)
  }

  function AllWell(generations: map<string, string>, targets: seq<TargetInfo>): (r: seq<WorkerTargetResult>)
    ensures |r| == |targets|
  {
    seq(|targets|, i requires 0 <= i < |targets| =>
      WorkerTargetResult(WorkerTargetID(targets[i]), StateSuccess, [], "", Wanted(generations, targets[i])))
  }

  /** The first events after the key, every target reported as success, more to come or not. */
  function HonestResponse(
    viewID: string, generations: map<string, string>, targets: seq<TargetInfo>, items: seq<Event>,
    after: Option<SortKey>, limit: nat): WorkerResponse
  {
    var rest := After(items, after);
    WorkerResponse(
      viewID, First(rest, limit), AllWell(generations, targets), None, [], |rest| <= limit, false, false, "",
      Quality("exact", "exact"))
  }

  /** On the fast path worker views are not bound, otherwise the worker answers under its own. */
  function HonestReply(
    req: FanoutRequest, targets: seq<TargetInfo>, items: seq<Event>, after: Option<SortKey>, limit: nat): Reply
  {
    if req.fast then
      Unbound("worker view is not bound",
              Responded(HonestResponse("", req.generations, targets, items, after, limit)))
    else Bound(WORKER_VIEW, Responded(HonestResponse(WORKER_VIEW, req.generations, targets, items, after, limit)))
  }

  lemma {:induction false} LastIsWell(results: seq<WorkerTargetResult>, id: string, generation: string)
    requires forall r :: r in results ==>
               r.state == StateSuccess && r.reasons == [] && (r.targetID == id ==> r.catalogGeneration == generation)
    requires exists r :: r in results && r.targetID == id
    ensures LastResult(results, id).Some? && LastResult(results, id).value.state == StateSuccess
    ensures LastResult(results, id).value.catalogGeneration == generation && LastResult(results, id).value.reasons == []
  {
    var n := |results| - 1;
    assert results == results[..n] + [results[n]];
    if results[n].targetID != id {
      LastIsWell(results[..n], id, generation);
    }
  }

  lemma WellAt(generations: map<string, string>, queried: seq<TargetInfo>, t: TargetInfo)
    requires GenerationsAgree(queried, generations) && t in queried
    ensures var own := LastResult(AllWell(generations, OfWorker(queried, t.workerID)), WorkerTargetID(t));
            && own.Some? && own.value.state == StateSuccess && own.value.reasons == []
            && own.value.catalogGeneration == Wanted(generations, t)
  {
    var targets := OfWorker(queried, t.workerID);
    var results := AllWell(generations, targets);
    OrderFree.OfWorkerMember(queried, t.workerID, t);
    var i :| 0 <= i < |targets| && targets[i] == t;
    assert results[i] in results;
    forall r | r in results
      ensures r.state == StateSuccess && r.reasons == []
      ensures r.targetID == WorkerTargetID(t) ==> r.catalogGeneration == Wanted(generations, t)
    {
      var j :| 0 <= j < |targets| && results[j] == r;
      OrderFree.OfWorkerMember(queried, t.workerID, targets[j]);
    }
    LastIsWell(results, WorkerTargetID(t), Wanted(generations, t));
  }

  lemma HonestReplies(
    req: FanoutRequest, queried: seq<TargetInfo>, items: seq<Event>, after: Option<SortKey>, limit: nat, w: string)
    requires GenerationsAgree(queried, req.generations)
    ensures Honest(req, queried, items, after, limit, w, HonestReply(req, OfWorker(queried, w), items, after, limit))
  {
    hide After, First, CoverMap, OwnStreams, OfWorker, AllWell, LastResult, GenerationsAgree, WorkerTargetID;
    var targets := OfWorker(queried, w);
    forall i | 0 <= i < |targets|
      ensures var own := LastResult(AllWell(req.generations, targets), WorkerTargetID(targets[i]));
              own.Some? && own.value.catalogGeneration == Wanted(req.generations, targets[i])
    {
      OrderFree.OfWorkerMember(queried, w, targets[i]);
      WellAt(req.generations, queried, targets[i]);
    }
  }

  lemma HonestAnswers(
    req: FanoutRequest, queried: seq<TargetInfo>, items: seq<Event>, after: Option<SortKey>, limit: nat, t: TargetInfo)
    requires GenerationsAgree(queried, req.generations) && t in queried
    ensures Completeness.Answers(req, t, HonestReply(req, OfWorker(queried, t.workerID), items, after, limit))
  {
    hide After, First, OfWorker, AllWell, LastResult, GenerationsAgree, WorkerTargetID;
    WellAt(req.generations, queried, t);
  }

  lemma {:induction false} AllLaunchedInOrder(order: seq<string>, budget: QueryBudget, k: nat)
    requires k <= |order| && forall i :: 0 <= i < |order| ==> IsFunded(order, budget, i)
    ensures FanoutSearch.Launched(order, budget, k) == order[..k]
  {
    if k > 0 {
      AllLaunchedInOrder(order, budget, k - 1);
    }
  }

  /** A view, its targets, what their workers hold, and the catalog generations the view fixed. */
  datatype Site = Site(
    view: View, queried: seq<TargetInfo>, contents: map<string, seq<Event>>, generations: map<string, string>)

  function PageBudget(q: Query, site: Site): QueryBudget
    requires BindCursor(q).Ok?
  {
    ReadBudget(site.view.limit, BindCursor(q).value.budget)
  }

  function RequestOf(q: Query, site: Site): FanoutRequest {
    FanoutRequest(q.fast, site.generations)
  }

  /** What a query meets when every worker holds its contents and answers at once, in order and honestly. */
  function HonestSurroundings(q: Query, site: Site): Surroundings {
    var limit := if BindCursor(q).Ok? then PageBudget(q, site).limit else 0;
    var order := WorkerOrder(site.queried);
    Surroundings(
      site.view, ResolvedTargets(site.queried, site.queried, [], false), site.generations, None,
      map w | w in site.contents ::
        HonestReply(RequestOf(q, site), OfWorker(site.queried, w), site.contents[w], AfterKey(q), limit),
      if BindCursor(q).Ok? then FanoutSearch.Launched(order, PageBudget(q, site), |order|) else [])
  }

  lemma {:induction false} LaunchedDistinct(order: seq<string>, budget: QueryBudget, k: nat)
    requires k <= |order| && Distinct(order)
    ensures Distinct(FanoutSearch.Launched(order, budget, k))
  {
    hide IsFunded;
    if k > 0 {
      LaunchedDistinct(order, budget, k - 1);
      assert forall i :: 0 <= i < k - 1 ==> order[i] != order[k - 1];
      assert order[k - 1] !in FanoutSearch.Launched(order, budget, k - 1);
    }
  }

  /** When every worker has a share, all of them answer, in order. */
  lemma AllAnswer(q: Query, site: Site)
    requires Served(q, site)
    ensures HonestSurroundings(q, site).arrival == WorkerOrder(site.queried)
  {
    hide IsFunded, World, HonestReply, ReadBudget, BindCursor;
    var order := WorkerOrder(site.queried);
    AllLaunchedInOrder(order, PageBudget(q, site), |order|);
    assert order[..|order|] == order;
  }

  /** The query binds, and every worker of the site holds its contents and has a share of the budget. */
  ghost predicate Served(q: Query, site: Site) {
    && BindCursor(q).Ok? && World(site.queried, site.contents) && GenerationsAgree(site.queried, site.generations)
    && Completeness.AllFunded(site.queried, PageBudget(q, site))
  }

  /** Honest pages exist for every world: on either path, with a share for every worker, whatever the view. */
  lemma HonestPagesExist(q: Query, site: Site) returns (s: Surroundings, resp: SearchResponse)
    requires Served(q, site)
    ensures s == HonestSurroundings(q, site) && s.view == site.view && s.cached.None?
    ensures HonestPage(q, s, site.queried, site.contents) && PageOf(q, s, resp)
  {
    s := HonestSurroundings(q, site);
    SurroundingsHonest(q, site);
    HonestFine(q, s, site.queried, site.contents);
    hide FanoutSearch.Arrives, FanoutSearch.AllFine, ReadHonestly, HonestReply, BindCursor, ReadBudget, PageOf,
      Served;
    resp := PageExists(q, s);
  }

  lemma SurroundingsHonest(q: Query, site: Site)
    requires Served(q, site)
    ensures ReadHonestly(q, HonestSurroundings(q, site), site.queried, site.contents)
  {
    hide IsFunded, Honest, HonestReply, ReadBudget, BindCursor, Sorted, DistinctKeys, DisjointKeys, GenerationsAgree;
    var order, budget := WorkerOrder(site.queried), PageBudget(q, site);
    var s := HonestSurroundings(q, site);
    AllAnswer(q, site);
    assert FanoutSearch.Arrives(s.arrival, site.queried, budget, s.replies);
    hide FanoutSearch.Arrives, WorkerOrder;
    forall w | w in order
      ensures Honest(RequestOf(q, site), site.queried, site.contents[w], AfterKey(q), budget.limit, w, s.replies[w])
    {
      HonestReplies(RequestOf(q, site), site.queried, site.contents[w], AfterKey(q), budget.limit, w);
    }
  }

  lemma HonestFine(q: Query, s: Surroundings, queried: seq<TargetInfo>, contents: map<string, seq<Event>>)
    requires ReadHonestly(q, s, queried, contents)
    ensures FanoutSearch.AllFine(
              FanoutSearch.Outcomes(FanoutRequest(q.fast, s.generations), s.resolved.queried, s.replies, s.arrival))
    ensures FanoutSearch.Arrives(s.arrival, s.resolved.queried,
                                 ReadBudget(s.view.limit, BindCursor(q).value.budget), s.replies)
  {
    hide OutcomeOf, After, WorkerOrder, ReadBudget, BindCursor;
    var req := FanoutRequest(q.fast, s.generations);
    forall i | 0 <= i < |s.arrival| ensures FanoutSearch.Outcomes(req, queried, s.replies, s.arrival)[i].Ok? {
      assert s.arrival[i] in s.arrival;
    }
  }

  /** What the honest fan-out of a page gathers can be spoken of. */
  ghost predicate Gathers(q: Query, site: Site) {
    && BindCursor(q).Ok?
    && var s := HonestSurroundings(q, site);
       && FanoutSearch.Arrives(s.arrival, site.queried, PageBudget(q, site), s.replies)
       && FanoutSearch.AllFine(FanoutSearch.Outcomes(RequestOf(q, site), site.queried, s.replies, s.arrival))
  }

  lemma ServedGathers(q: Query, site: Site)
    requires Served(q, site)
    ensures Gathers(q, site)
  {
    SurroundingsHonest(q, site);
    HonestFine(q, HonestSurroundings(q, site), site.queried, site.contents);
    hide FanoutSearch.Arrives, FanoutSearch.AllFine, FanoutSearch.Outcomes, ReadHonestly, HonestReply, BindCursor,
      ReadBudget, Served;
  }

  function GatheredAt(q: Query, site: Site): Gathered
    requires Gathers(q, site)
  {
    var s := HonestSurroundings(q, site);
    OrderFree.AnswerOf(RequestOf(q, site), site.queried, PageBudget(q, site), s.replies, s.arrival)
  }

  /** Such a page is complete exactly when there is a target and no byte budget cut it. */
  lemma HonestPagesComplete(q: Query, site: Site, rows: seq<Event>, pageMore: bool, byteCut: bool)
    requires Served(q, site) && OneHome(site.queried)
    ensures Gathers(q, site)
    ensures var resp := Respond(q.fast, site.view, HonestSurroundings(q, site).resolved, GatheredAt(q, site), rows,
                                pageMore, byteCut);
            resp.coverage.complete <==> site.queried != [] && !byteCut
  {
    var s := HonestSurroundings(q, site);
    ServedGathers(q, site);
    AllCovered(q, site);
    hide FanoutSearch.Arrives, FanoutSearch.AllFine, FanoutSearch.Outcomes, OrderFree.AnswerOf, HonestReply, BindCursor,
      ReadBudget, Completeness.AllFunded, World, Respond, Completeness.Covered, Completeness.SummariesComplete, OneHome,
      GenerationsAgree;
    Completeness.CompleteExactly(q, s, PageBudget(q, site), rows, pageMore, byteCut);
  }

  lemma AllCovered(q: Query, site: Site)
    requires Served(q, site)
    ensures var req, s := RequestOf(q, site), HonestSurroundings(q, site);
            && (forall t :: t in site.queried ==> Completeness.Covered(req, site.queried, s.replies, s.arrival, t.id))
            && Completeness.SummariesComplete(req, s.replies, s.arrival)
  {
    hide WorkerOrder, Sorted, DistinctKeys, DisjointKeys, After, First, AllWell, OfWorker, AfterKey, GenerationsAgree,
      Completeness.AllFunded, BindCursor, ReadBudget, LastWithID;
    AllAnswer(q, site);
    var req, s := RequestOf(q, site), HonestSurroundings(q, site);
    forall t | t in site.queried ensures Completeness.Covered(req, site.queried, s.replies, s.arrival, t.id) {
      var i :| 0 <= i < |site.queried| && site.queried[i] == t;
      assert Names(site.queried, t.id);
      var last := LastWithID(site.queried, t.id).value;
      var j :| 0 <= j < |site.queried| && site.queried[j] == last;
      assert site.queried[j].workerID in WorkerOrder(site.queried);
      HonestAnswers(req, site.queried, site.contents[last.workerID], AfterKey(q), PageBudget(q, site).limit, last);
      hide Completeness.Answers, HonestReply;
    }
  }

  // ----- what honest workers gather -----

  /** Nothing is cut, nothing is in doubt, and the answer is open only while some worker holds more. */
  lemma HonestGathering(q: Query, site: Site)
    requires Served(q, site) && OneHome(site.queried)
    ensures Gathers(q, site)
    ensures var g, limit := GatheredAt(q, site), PageBudget(q, site).limit;
            && !g.cut && Export.QualityFine(g.quality)
            && PageStreams(g.streams, site.queried, site.contents, AfterKey(q), limit)
            && (g.open ==> exists w :: w in WorkerOrder(site.queried) && |After(site.contents[w], AfterKey(q))| > limit)
  {
    var budget, s, req := PageBudget(q, site), HonestSurroundings(q, site), RequestOf(q, site);
    SurroundingsHonest(q, site);
    ServedGathers(q, site);
    HonestAnswer(req, site.queried, site.contents, AfterKey(q), budget, s.replies, s.arrival);
    var order := WorkerOrder(site.queried);
    AllFundedBase(site.queried, order, budget, |order|);
    var outs := FanoutSearch.Values(FanoutSearch.Outcomes(req, site.queried, s.replies, s.arrival));
    var base := FanoutSearch.NOTHING_GATHERED;
    OrderFree.FlagsOf(base, outs);
    HonestOutcomesPlain(q, site);
    PlainQuality(base, outs, Duplicates);
    PlainQuality(base, outs, Statistics);
    NothingUnsettled(q, site);
    hide FanoutSearch.Outcomes, AddAll, FanoutSearch.Arrives, FanoutSearch.AllFine, World, PageStreams, WorkerOrder,
      HonestSurroundings, BindCursor, ReadBudget, ReadHonestly, StreamLe, GapLe, SortBy, SomeUnsettled, Rank, After;
  }

  lemma HonestOutcomesPlain(q: Query, site: Site)
    requires Served(q, site) && Gathers(q, site)
    ensures var s, limit := HonestSurroundings(q, site), PageBudget(q, site).limit;
            forall o :: o in FanoutSearch.Values(
                               FanoutSearch.Outcomes(RequestOf(q, site), site.queried, s.replies, s.arrival)) ==>
              && o.quality == Quality("exact", "exact")
              && (o.open ==>
                    exists w :: w in WorkerOrder(site.queried) && |After(site.contents[w], AfterKey(q))| > limit)
  {
    hide WorkerOrder, OfWorker, CoverMap, OwnStreams, Sorted, DistinctKeys, DisjointKeys, After, First, AllWell,
      BindCursor, ReadBudget, GenerationsAgree, BindingHolds, AfterKey;
    AllAnswer(q, site);
    var s := HonestSurroundings(q, site);
    var results := FanoutSearch.Outcomes(RequestOf(q, site), site.queried, s.replies, s.arrival);
    forall i | 0 <= i < |s.arrival|
      ensures results[i].value.quality == Quality("exact", "exact")
      ensures results[i].value.open ==> |After(site.contents[s.arrival[i]], AfterKey(q))| > PageBudget(q, site).limit
    {
      assert s.arrival[i] in WorkerOrder(site.queried);
      assert results[i].Ok?;
    }
  }

  lemma PlainQuality(base: Gathered, outs: seq<WorkerOutcome>, dim: Dimension)
    requires base.quality == Quality("exact", "") && forall o :: o in outs ==> o.quality == Quality("exact", "exact")
    ensures Rank(dim, OrderFree.QualityText(dim, AddAll(base, outs).quality)) < 2
  {
    hide AddAll;
    var start, texts := OrderFree.QualityText(dim, base.quality), OrderFree.Texts(dim, outs);
    OrderFree.QualityFold(dim, base, outs);
    OrderFree.TopOfBounds(dim, start, texts);
    forall t | t in texts ensures t == "exact" {
      var i :| 0 <= i < |texts| && texts[i] == t;
      assert outs[i] in outs;
    }
    OrderFree.WireRank(dim, "exact");
    OrderFree.WireRank(dim, "");
  }

  lemma NothingUnsettled(q: Query, site: Site)
    requires Served(q, site) && Gathers(q, site) && OneHome(site.queried)
    ensures !SomeUnsettled(GatheredAt(q, site).coverage)
  {
    var req, s := RequestOf(q, site), HonestSurroundings(q, site);
    AllCovered(q, site);
    var g := GatheredAt(q, site);
    hide World, HonestSurroundings, OrderFree.AnswerOf, Completeness.Covered, Completeness.SummariesComplete,
      OneHome, FanoutSearch.AllFine, FanoutSearch.Outcomes, WorkerOrder, Completeness.AllFunded, BindCursor, ReadBudget,
      GenerationsAgree;
    forall id | id in g.coverage ensures g.coverage[id].state == StateSuccess {
      CoveredIdsQueried(req, site.queried, PageBudget(q, site), s.replies, s.arrival, id);
      var t :| t in site.queried && t.id == id;
      Completeness.GatheredSuccess(req, site.queried, PageBudget(q, site), s.replies, s.arrival, id);
    }
  }

  lemma CoveredIdsQueried(
    req: FanoutRequest, queried: seq<TargetInfo>, budget: QueryBudget, replies: map<string, Reply>,
    arrival: seq<string>, id: string)
    requires FanoutSearch.Arrives(arrival, queried, budget, replies) && OneHome(queried)
    requires FanoutSearch.AllFine(FanoutSearch.Outcomes(req, queried, replies, arrival))
    requires Completeness.AllFunded(queried, budget)
    requires id in OrderFree.AnswerOf(req, queried, budget, replies, arrival).coverage
    ensures exists t :: t in queried && t.id == id
  {
    hide OutcomeOf, WorkerOrder, OfWorker, CoverMap, OneHome, OrderFree.Separate, SomeUnsettled, AddAll;
    var order := WorkerOrder(queried);
    AllFundedBase(queried, order, budget, |order|);
    OrderFree.OutcomesSeparate(req, queried, replies, arrival);
    var results := FanoutSearch.Outcomes(req, queried, replies, arrival);
    var outs := FanoutSearch.Values(results);
    OrderFree.CoverageOf(FanoutSearch.NOTHING_GATHERED, outs, id);
    var o :| o in outs && id in o.coverage;
    var i :| 0 <= i < |outs| && outs[i] == o;
    assert results[i].Ok?;
    var targets := OfWorker(queried, arrival[i]);
    OrderFree.OutcomeOwnData(req, arrival[i], targets, replies[arrival[i]]);
    Completeness.FineReply(req, arrival[i], targets, replies[arrival[i]]);
    assert Names(targets, id);
    var j :| 0 <= j < |targets| && targets[j].id == id;
    OrderFree.OfWorkerMember(queried, arrival[i], targets[j]);
  }

  // ----- no entry tells of a cut -----

  lemma PlainEntry(
    req: FanoutRequest, queried: seq<TargetInfo>, items: seq<Event>, after: Option<SortKey>, limit: nat, t: TargetInfo)
    requires GenerationsAgree(queried, req.generations) && t in queried
    ensures TargetEntry(req, t.workerID, HonestReply(req, OfWorker(queried, t.workerID), items, after, limit), t)
            .reasons == []
  {
    hide After, First, OfWorker, AllWell, LastResult, GenerationsAgree, WorkerTargetID;
    WellAt(req.generations, queried, t);
  }

  /** What an honest worker says of its targets comes without reasons. */
  lemma PlainOutcome(q: Query, site: Site, i: nat, id: string)
    requires Served(q, site) && Gathers(q, site)
    requires var s := HonestSurroundings(q, site);
             i < |s.arrival| && id in FanoutSearch.Outcomes(
                                        RequestOf(q, site), site.queried, s.replies, s.arrival)[i].value.coverage
    ensures var s := HonestSurroundings(q, site);
            FanoutSearch.Outcomes(RequestOf(q, site), site.queried, s.replies, s.arrival)[i].value.coverage[id].reasons
            == []
  {
    AllAnswer(q, site);
    hide World, GenerationsAgree, BindCursor, ReadBudget, HonestReply, OutcomeOf, WorkerOrder, CoverMap, TargetEntry,
      LastWithID, Completeness.AllFunded, OfWorker, FanoutSearch.Launched;
    var req, s := RequestOf(q, site), HonestSurroundings(q, site);
    var w := s.arrival[i];
    var targets := OfWorker(site.queried, w);
    assert FanoutSearch.Outcomes(req, site.queried, s.replies, s.arrival)[i].Ok?;
    assert w in s.arrival;
    OrderFree.OutcomeOwnData(req, w, targets, s.replies[w]);
    Completeness.FineReply(req, w, targets, s.replies[w]);
    var t := LastWithID(targets, id).value;
    OrderFree.OfWorkerMember(site.queried, w, t);
    Completeness.CoverMapValue(req, w, s.replies[w], targets, id);
    PlainEntry(req, site.queried, site.contents[w], AfterKey(q), PageBudget(q, site).limit, t);
  }

  /** Every gathered entry is some worker's. */
  lemma GatheredFrom(q: Query, site: Site, id: string) returns (i: nat)
    requires Served(q, site) && OneHome(site.queried) && Gathers(q, site) && id in GatheredAt(q, site).coverage
    ensures var s := HonestSurroundings(q, site);
            var results := FanoutSearch.Outcomes(RequestOf(q, site), site.queried, s.replies, s.arrival);
            && i < |s.arrival| && id in results[i].value.coverage
            && GatheredAt(q, site).coverage[id] == results[i].value.coverage[id]
  {
    hide OutcomeOf, BindCursor, ReadBudget, World, HonestReply, GenerationsAgree, OneHome, SomeUnsettled, StreamLe,
      GapLe, OrderFree.Separate, AddAll, FanoutSearch.Launched;
    var budget, s, req := PageBudget(q, site), HonestSurroundings(q, site), RequestOf(q, site);
    var order := WorkerOrder(site.queried);
    AllFundedBase(site.queried, order, budget, |order|);
    OrderFree.OutcomesSeparate(req, site.queried, s.replies, s.arrival);
    var outs := FanoutSearch.Values(FanoutSearch.Outcomes(req, site.queried, s.replies, s.arrival));
    OrderFree.CoverageOf(FanoutSearch.NOTHING_GATHERED, outs, id);
    var o :| o in outs && id in o.coverage;
    i :| 0 <= i < |outs| && outs[i] == o;
  }

  lemma PlainCoverage(q: Query, site: Site, id: string)
    requires Served(q, site) && OneHome(site.queried) && Gathers(q, site) && id in GatheredAt(q, site).coverage
    ensures GatheredAt(q, site).coverage[id].reasons == []
  {
    hide Served, OneHome, GatheredAt, HonestSurroundings, FanoutSearch.Outcomes;
    var i := GatheredFrom(q, site, id);
    PlainOutcome(q, site, i, id);
  }

  lemma {:induction false} PlainEntries(all: seq<TargetInfo>, byID: map<string, TargetCoverage>)
    requires forall t :: t in all ==> t.id in byID && byID[t.id].reasons == []
    ensures forall tc :: tc in Entries(all, byID, []) ==> tc.reasons == []
  {
    if all != [] {
      assert all == all[..|all|-1] + [all[|all|-1]];
      PlainEntries(all[..|all|-1], byID);
    }
  }

  /** The coverage of an honest page tells of no truncation. */
  lemma NothingCutTold(q: Query, site: Site, rows: seq<Event>, pageMore: bool, resp: SearchResponse)
    requires Served(q, site) && OneHome(site.queried) && Gathers(q, site)
    requires resp == Respond(q.fast, site.view.(limit := PageBudget(q, site).limit),
                             HonestSurroundings(q, site).resolved, GatheredAt(q, site), rows, pageMore, false)
    ensures !Export.CoverageHasCut(resp.coverage)
  {
    var s, g := HonestSurroundings(q, site), GatheredAt(q, site);
    AllCovered(q, site);
    assert resp.coverage.targets == Entries(site.queried, g.coverage, []);
    hide World, HonestSurroundings, GatheredAt, Completeness.Covered, Completeness.SummariesComplete, Respond,
      FanoutSearch.AllFine, FanoutSearch.Outcomes, WorkerOrder, Completeness.AllFunded, BindCursor, ReadBudget,
      GenerationsAgree, OneHome, OrderFree.AnswerOf;
    forall t | t in site.queried ensures t.id in g.coverage && g.coverage[t.id].reasons == [] {
      CoveredIsGathered(q, site, t.id);
      PlainCoverage(q, site, t.id);
    }
    PlainEntries(site.queried, g.coverage);
    hide Entries;
    Export.NoCutTold(resp.coverage);
  }

  lemma CoveredIsGathered(q: Query, site: Site, id: string)
    requires Served(q, site) && OneHome(site.queried) && Gathers(q, site)
    requires var s := HonestSurroundings(q, site);
             Completeness.Covered(RequestOf(q, site), site.queried, s.replies, s.arrival, id)
    ensures id in GatheredAt(q, site).coverage
  {
    hide World, HonestReply, Completeness.Covered, FanoutSearch.AllFine, FanoutSearch.Outcomes, WorkerOrder,
      Completeness.AllFunded, BindCursor, ReadBudget, GenerationsAgree, OneHome, OrderFree.AnswerOf,
      FanoutSearch.Launched;
    var s := HonestSurroundings(q, site);
    Completeness.GatheredSuccess(
      RequestOf(q, site), site.queried, PageBudget(q, site), s.replies, s.arrival, id);
  }

  // ----- one whole page -----

  lemma BytesOfSlice(all: seq<Event>, m: nat, n: nat)
    requires m <= n <= |all|
    ensures Bytes(all[m..n]) <= Bytes(all)
  {
    hide Bytes;
    assert all == all[..m] + all[m..] && all[m..] == all[m..n] + all[n..];
    BytesSum(all[..m], all[m..]);
    BytesSum(all[m..n], all[n..]);
  }

  lemma BytesOfOne(all: seq<Event>, e: Event)
    requires e in all
    ensures e.ApproxBytes() <= Bytes(all)
  {
    var i :| 0 <= i < |all| && all[i] == e;
    BytesSnoc([], e);
    assert all[i..i+1] == [] + [e];
    BytesOfSlice(all, i, i + 1);
  }

  /** A byte cut is made for a row that was there. */
  lemma CutForARow(
    lanes: seq<seq<Event>>, limit: nat, maxBytes: nat, rows: seq<Event>, pageMore: bool, pos: seq<nat>)
    returns (i: nat, p: nat)
    requires Merged(lanes, limit, maxBytes, rows, pageMore, true, pos)
    ensures i < |lanes| && p < |lanes[i]| && Bytes(rows) + lanes[i][p].ApproxBytes() > maxBytes
  {
    hide Bytes, Taken, BeforeRest, AllTaken, Event.ApproxBytes, Sorted;
    i :| i < |lanes| && pos[i] < |lanes[i]| && Bytes(rows) + lanes[i][pos[i]].ApproxBytes() > maxBytes;
    p := pos[i];
  }

  lemma CapsHold(
    lanes: seq<seq<Event>>, limit: nat, maxBytes: nat, rows: seq<Event>, pageMore: bool, byteCut: bool, pos: seq<nat>)
    requires Merged(lanes, limit, maxBytes, rows, pageMore, byteCut, pos) && limit > 0
    ensures |rows| <= limit && (pageMore ==> rows != [])
  {
    hide Bytes, Taken, BeforeRest, AllTaken, Sorted;
  }

  /** Rows are cut for bytes only when they and one more of all events exceed the budget. */
  lemma CutIsDear(
    streams: seq<EventStream>, queried: seq<TargetInfo>, contents: map<string, seq<Event>>, k: Option<SortKey>,
    budget: QueryBudget, all: seq<Event>, rows: seq<Event>, pageMore: bool, pos: seq<nat>)
    requires World(queried, contents) && IsUnion(queried, contents, all) && budget.limit > 0
    requires PageStreams(streams, queried, contents, k, budget.limit)
    requires Merged(Lanes(streams), budget.limit, budget.maxBytes, rows, pageMore, true, pos)
    ensures Bytes(rows) + Bytes(all) > budget.maxBytes
  {
    hide World, PageStreams, Bytes, Event.ApproxBytes, Merged, Lanes, IsUnion;
    var i, p := CutForARow(Lanes(streams), budget.limit, budget.maxBytes, rows, pageMore, pos);
    LaneInUnion(streams, queried, contents, k, budget.limit, all, i, p);
    BytesOfOne(all, Lanes(streams)[i][p]);
  }

  lemma {:induction false} FlattenShorter(short: seq<seq<Event>>, long: seq<seq<Event>>)
    requires |short| == |long| && forall i :: 0 <= i < |short| ==> |short[i]| <= |long[i]|
    ensures |Flatten(short)| <= |Flatten(long)|
  {
    if short != [] {
      FlattenShorter(short[..|short|-1], long[..|long|-1]);
    }
  }

  lemma {:induction false} LaneShorter(lanes: seq<seq<Event>>, i: nat)
    requires i < |lanes|
    ensures |lanes[i]| <= |Flatten(lanes)|
  {
    var n := |lanes| - 1;
    if i < n {
      LaneShorter(lanes[..n], i);
    }
  }

  /** A page that ends at its limit leaves events behind. */
  lemma MoreIsLeft(
    streams: seq<EventStream>, queried: seq<TargetInfo>, contents: map<string, seq<Event>>, k: Option<SortKey>,
    budget: QueryBudget, all: seq<Event>, rows: seq<Event>, byteCut: bool, pos: seq<nat>)
    requires World(queried, contents) && IsUnion(queried, contents, all) && budget.limit > 0
    requires PageStreams(streams, queried, contents, k, budget.limit)
    requires Merged(Lanes(streams), budget.limit, budget.maxBytes, rows, true, byteCut, pos)
    ensures |rows| < |After(all, k)|
  {
    hide World, WorkerOrder, Sorted, DistinctKeys, SortEvents, After, IsUnion, Lane, Merged;
    var short, full := Lanes(streams), FullLanes(streams, contents, k);
    ShortLanesOneEvent(streams, queried, contents, k, budget.limit, all);
    MergedIsPrefix(short, budget.limit, budget.maxBytes, rows, true, byteCut, pos);
    UnionBehind(streams, queried, contents, k, budget.limit, all);
    SortEventsSorts(Flatten(short));
    SortEventsSorts(Flatten(full));
    forall i | 0 <= i < |short| ensures |short[i]| <= |full[i]| {
      assert streams[i] in streams;
      LaneFirst(streams[i], After(contents[streams[i].workerID], k), budget.limit);
    }
    FlattenShorter(short, full);
  }

  lemma ShortLanesOneEvent(
    streams: seq<EventStream>, queried: seq<TargetInfo>, contents: map<string, seq<Event>>, k: Option<SortKey>,
    limit: nat, all: seq<Event>)
    requires World(queried, contents) && IsUnion(queried, contents, all)
    requires PageStreams(streams, queried, contents, k, limit)
    ensures OneEventPerKey(SortedUnion(Lanes(streams)))
  {
    UnionStrict(queried, contents, all);
    DistinctKeysOneEvent(all);
    hide World, WorkerOrder, Sorted, DistinctKeys, SortEvents, After, IsUnion, Lane, Event.Key, PageStreams;
    var short := Lanes(streams);
    SortEventsSorts(Flatten(short));
    forall e | e in SortedUnion(short) ensures e in all {
      BagMember(SortedUnion(short), Flatten(short), e);
      InFlatten(short, e);
      var i :| 0 <= i < |short| && e in short[i];
      var p :| 0 <= p < |short[i]| && short[i][p] == e;
      LaneInUnion(streams, queried, contents, k, limit, all, i, p);
    }
  }

  /** The rows are those of all events from m on. */
  predicate NextRows(all: seq<Event>, m: nat, rows: seq<Event>) {
    m + |rows| <= |all| && rows == all[m..m + |rows|]
  }

  lemma NextRowsBytes(all: seq<Event>, m: nat, rows: seq<Event>)
    requires NextRows(all, m, rows)
    ensures Bytes(rows) <= Bytes(all)
  {
    BytesOfSlice(all, m, m + |rows|);
  }

  lemma NextRowsDistinct(all: seq<Event>, m: nat, rows: seq<Event>)
    requires NextRows(all, m, rows) && !Duplicated(all)
    ensures !Duplicated(rows)
  {
    PartDistinct(all, m, m + |rows|);
  }

  /** What a page merges are the next rows of the union; with bytes to spare they end only at the page limit. */
  lemma MergedOnward(
    streams: seq<EventStream>, queried: seq<TargetInfo>, contents: map<string, seq<Event>>, budget: QueryBudget,
    all: seq<Event>, m: nat, rows: seq<Event>, pageMore: bool, byteCut: bool, pos: seq<nat>)
    requires World(queried, contents) && IsUnion(queried, contents, all) && m <= |all| && budget.limit > 0
    requires PageStreams(streams, queried, contents, CursorAt(all, m), budget.limit)
    requires Merged(Lanes(streams), budget.limit, budget.maxBytes, rows, pageMore, byteCut, pos)
    requires 2 * Bytes(all) <= budget.maxBytes
    ensures !byteCut && NextRows(all, m, rows) && |rows| <= budget.limit
    ensures pageMore ==> rows != [] && |rows| < |After(all, CursorAt(all, m))|
    ensures After(all, CursorAt(all, m)) != [] ==> rows != []
  {
    hide World, PageStreams, WorkerOrder, Sorted, DistinctKeys, Bytes, Event.ApproxBytes, SortEvents, Merged, Lanes,
      After, IsUnion, CursorAt;
    var k, limit := CursorAt(all, m), budget.limit;
    PageRows(streams, queried, contents, k, limit, budget.maxBytes, all, rows, pageMore, byteCut, pos);
    CapsHold(Lanes(streams), limit, budget.maxBytes, rows, pageMore, byteCut, pos);
    UnionStrict(queried, contents, all);
    AfterTheRows(all, m, rows);
    NextRowsBytes(all, m, rows);
    if byteCut {
      CutIsDear(streams, queried, contents, k, budget, all, rows, pageMore, pos);
    }
    if pageMore {
      MoreIsLeft(streams, queried, contents, k, budget, all, rows, byteCut, pos);
    }
  }

  lemma UnionStrict(queried: seq<TargetInfo>, contents: map<string, seq<Event>>, all: seq<Event>)
    requires IsUnion(queried, contents, all)
    ensures Strict(all)
  {
  }

  lemma LaneInUnion(
    streams: seq<EventStream>, queried: seq<TargetInfo>, contents: map<string, seq<Event>>, k: Option<SortKey>,
    limit: nat, all: seq<Event>, i: nat, p: nat)
    requires World(queried, contents) && IsUnion(queried, contents, all)
    requires PageStreams(streams, queried, contents, k, limit) && i < |Lanes(streams)| && p < |Lanes(streams)[i]|
    ensures Lanes(streams)[i][p] in all
  {
    hide World, WorkerOrder, Sorted, DistinctKeys, SortEvents, After, IsUnion, Lane;
    var full := FullLanes(streams, contents, k);
    UnionBehind(streams, queried, contents, k, limit, all);
    assert streams[i] in streams;
    LaneFirst(streams[i], After(contents[streams[i].workerID], k), limit);
    var e := Lanes(streams)[i][p];
    assert e in full[i];
    InFlatten(full, e);
    SortEventsSorts(Flatten(full));
    BagMember(SortedUnion(full), Flatten(full), e);
    AfterMember(all, k, e);
  }

  lemma WorkerInUnion(
    streams: seq<EventStream>, queried: seq<TargetInfo>, contents: map<string, seq<Event>>, k: Option<SortKey>,
    limit: nat, all: seq<Event>, w: string)
    requires World(queried, contents) && IsUnion(queried, contents, all)
    requires PageStreams(streams, queried, contents, k, limit) && w in WorkerOrder(queried)
    requires w in contents && After(contents[w], k) != []
    ensures |After(contents[w], k)| <= |After(all, k)|
  {
    hide World, WorkerOrder, Sorted, DistinctKeys, SortEvents, After, IsUnion, Lane;
    var full := FullLanes(streams, contents, k);
    UnionBehind(streams, queried, contents, k, limit, all);
    var s :| s in streams && s.workerID == w;
    var i :| 0 <= i < |streams| && streams[i] == s;
    var whole := s.(items := After(contents[w], k));
    assert full[i] == Lane(whole);
    LaneSize(whole);
    LaneShorter(full, i);
    SortEventsSorts(Flatten(full));
  }

  lemma LaneSize(s: EventStream)
    ensures |Lane(s)| == |s.items|
  {
  }

  lemma ViewOnly(
    fast: bool, v: View, w: View, resolved: ResolvedTargets, g: Gathered, rows: seq<Event>, more: bool, cut: bool)
    ensures Respond(fast, v, resolved, g, rows, more, cut).coverage
         == Respond(fast, w, resolved, g, rows, more, cut).coverage
  {
    hide Deduped, Duplicated, SummaryOf, FinalCoverage, WorkerOrder;
  }

  /** The response for an uncut answer and distinct rows. */
  lemma PlainResponse(
    fast: bool, view: View, resolved: ResolvedTargets, g: Gathered, rows: seq<Event>, more: bool)
    requires !g.cut && !Duplicated(rows) && (more || g.open ==> rows != [])
    ensures var resp := Respond(fast, view, resolved, g, rows, more, false);
            && resp.items == rows && resp.quality == g.quality && !resp.budgetCut
            && (resp.coverage.complete ==> resp.exhausted || (resp.nextCursor.Encoded? && (more || g.open)))
  {
    hide Deduped, Duplicated, SummaryOf, FinalCoverage, WorkerOrder;
    DedupeDistinct(rows);
  }

  /** All of a site's events, with distinct event ids, and bytes for twice as many. */
  ghost predicate Spacious(q: Query, site: Site, all: seq<Event>) {
    && Served(q, site) && OneHome(site.queried) && site.queried != []
    && IsUnion(site.queried, site.contents, all) && !Duplicated(all)
    && 2 * Bytes(all) <= PageBudget(q, site).maxBytes
  }

  /** The page of a bound query with honest workers, as the response to the rows merged for it. */
  lemma PageMerged(q: Query, site: Site, s: Surroundings, resp: SearchResponse)
    returns (rows: seq<Event>, pageMore: bool, byteCut: bool, pos: seq<nat>)
    requires Served(q, site) && Gathers(q, site) && s == HonestSurroundings(q, site) && PageOf(q, s, resp)
    ensures var g, budget := GatheredAt(q, site), PageBudget(q, site);
            && Merged(Lanes(g.streams), budget.limit, budget.maxBytes, rows, pageMore, byteCut, pos)
            && resp == Respond(q.fast, site.view.(limit := budget.limit), s.resolved, g, rows, pageMore, byteCut)
  {
    hide Served, HonestReply, FanoutSearch.Arrives, FanoutSearch.AllFine, FanoutSearch.Outcomes, OrderFree.AnswerOf,
      Respond, Merged, ReadBudget, Lanes;
    assert BindCursor(q).value.fast == q.fast;
    hide BindCursor;
    var g, budget := GatheredAt(q, site), PageBudget(q, site);
    rows, pageMore, byteCut, pos :|
      && Merged(Lanes(g.streams), budget.limit, budget.maxBytes, rows, pageMore, byteCut, pos)
      && resp == Respond(q.fast, site.view.(limit := budget.limit), s.resolved, g, rows, pageMore, byteCut);
  }

  lemma SpaciousFacts(q: Query, site: Site, all: seq<Event>)
    requires Spacious(q, site, all)
    ensures Served(q, site) && OneHome(site.queried) && World(site.queried, site.contents)
    ensures forall w :: w in WorkerOrder(site.queried) ==> w in site.contents
    ensures IsUnion(site.queried, site.contents, all) && Strict(all) && !Duplicated(all)
    ensures PageBudget(q, site).limit > 0 && 2 * Bytes(all) <= PageBudget(q, site).maxBytes
  {
  }

  /** A whole page of q with the next rows behind m, either the last one or leading on. */
  ghost predicate NextPage(
    q: Query, site: Site, all: seq<Event>, m: nat, s: Surroundings, resp: SearchResponse)
  {
    && s == HonestSurroundings(q, site) && HonestPage(q, s, site.queried, site.contents) && PageOf(q, s, resp)
    && Export.WholePage(resp) && !Export.CoverageHasCut(resp.coverage)
    && (resp.exhausted || (resp.nextCursor.Encoded? && m + |resp.items| < |all|))
    && NextRows(all, m, resp.items) && |resp.items| <= PageBudget(q, site).limit
  }

  /** There is such a page wherever a query stands, and it keeps to the page limit. */
  lemma WholePageExists(q: Query, site: Site, all: seq<Event>, m: nat) returns (s: Surroundings, resp: SearchResponse)
    requires Spacious(q, site, all) && m <= |all| && AfterKey(q) == CursorAt(all, m)
    ensures NextPage(q, site, all, m, s, resp)
  {
    SpaciousFacts(q, site, all);
    hide *;
    s, resp := HonestPagesExist(q, site);
    PageIsNext(q, site, all, m, s, resp);
  }

  /** Every page that the query can get is such a page. */
  lemma PageIsNext(q: Query, site: Site, all: seq<Event>, m: nat, s: Surroundings, resp: SearchResponse)
    requires Spacious(q, site, all) && m <= |all| && AfterKey(q) == CursorAt(all, m)
    requires s == HonestSurroundings(q, site) && PageOf(q, s, resp)
    ensures NextPage(q, site, all, m, s, resp)
  {
    SpaciousFacts(q, site, all);
    ServedGathers(q, site);
    PageIsHonest(q, site, s);
    hide *;
    var rows, pageMore, byteCut, pos := PageMerged(q, site, s, resp);
    RowsOnward(q, site, all, m, rows, pageMore, byteCut, pos);
    WholeResponse(q, site, all, m, rows, pageMore, resp);
    NothingCutTold(q, site, rows, pageMore, resp);
    IsNextPage(q, site, all, m, s, resp);
  }

  lemma PageIsHonest(q: Query, site: Site, s: Surroundings)
    requires Served(q, site) && s == HonestSurroundings(q, site)
    ensures HonestPage(q, s, site.queried, site.contents)
  {
    SurroundingsHonest(q, site);
    hide ReadHonestly, Served;
  }

  lemma IsNextPage(q: Query, site: Site, all: seq<Event>, m: nat, s: Surroundings, resp: SearchResponse)
    requires s == HonestSurroundings(q, site) && HonestPage(q, s, site.queried, site.contents) && PageOf(q, s, resp)
    requires BindCursor(q).Ok? && Export.WholePage(resp) && !Export.CoverageHasCut(resp.coverage)
    requires resp.exhausted || (resp.nextCursor.Encoded? && m + |resp.items| < |all|)
    requires NextRows(all, m, resp.items) && |resp.items| <= PageBudget(q, site).limit
    ensures NextPage(q, site, all, m, s, resp)
  {
    hide HonestSurroundings, HonestPage, PageOf, Export.WholePage, NextRows, Export.CoverageHasCut, BindCursor;
  }

  lemma RowsOnward(
    q: Query, site: Site, all: seq<Event>, m: nat, rows: seq<Event>, pageMore: bool, byteCut: bool, pos: seq<nat>)
    requires Spacious(q, site, all) && Gathers(q, site) && m <= |all| && AfterKey(q) == CursorAt(all, m)
    requires var g, budget := GatheredAt(q, site), PageBudget(q, site);
             Merged(Lanes(g.streams), budget.limit, budget.maxBytes, rows, pageMore, byteCut, pos)
    ensures !byteCut && NextRows(all, m, rows) && |rows| <= PageBudget(q, site).limit
    ensures pageMore || GatheredAt(q, site).open ==> rows != [] && m + |rows| < |all|
    ensures !Duplicated(rows)
  {
    SpaciousFacts(q, site, all);
    hide *;
    HonestGathering(q, site);
    var g, budget := GatheredAt(q, site), PageBudget(q, site);
    MergedOnward(g.streams, site.queried, site.contents, budget, all, m, rows, pageMore, byteCut, pos);
    RestSize(all, m);
    if g.open {
      var w :| w in WorkerOrder(site.queried) && |After(site.contents[w], AfterKey(q))| > budget.limit;
      WorkerInUnion(g.streams, site.queried, site.contents, AfterKey(q), budget.limit, all, w);
    }
    NextRowsDistinct(all, m, rows);
  }

  lemma RestSize(all: seq<Event>, m: nat)
    requires Strict(all) && m <= |all|
    ensures |After(all, CursorAt(all, m))| == |all| - m
  {
    hide Sorted, DistinctKeys, After;
    AfterSuffix(all, m);
  }

  lemma WholeResponse(
    q: Query, site: Site, all: seq<Event>, m: nat, rows: seq<Event>, pageMore: bool, resp: SearchResponse)
    requires Spacious(q, site, all) && Gathers(q, site) && !Duplicated(rows)
    requires pageMore || GatheredAt(q, site).open ==> rows != [] && m + |rows| < |all|
    requires resp == Respond(q.fast, site.view.(limit := PageBudget(q, site).limit),
                             HonestSurroundings(q, site).resolved, GatheredAt(q, site), rows, pageMore, false)
    ensures Export.WholePage(resp) && resp.items == rows
    ensures resp.exhausted || (resp.nextCursor.Encoded? && m + |rows| < |all|)
  {
    HonestGathering(q, site);
    HonestPagesComplete(q, site, rows, pageMore, false);
    assert site.queried != [];
    hide Spacious, Served, HonestSurroundings, GatheredAt, Gathers, IsUnion, PageStreams, Duplicated, BindCursor,
      ReadBudget, OneHome, WorkerOrder, Bytes, After, AfterKey, Respond, Export.QualityFine;
    var view, resolved, g := site.view, HonestSurroundings(q, site).resolved, GatheredAt(q, site);
    var limited := view.(limit := PageBudget(q, site).limit);
    PlainResponse(q.fast, limited, resolved, g, rows, pageMore);
    ViewOnly(q.fast, view, limited, resolved, g, rows, pageMore, false);
  }

  // ----- an export of any number of pages -----

  /** The view can be named by a cursor, and the query contradicts neither it nor the order. */
  predicate Pageable(q: Query, site: Site) {
    && site.view.viewID != "" && site.view.orderVersion == ORDER_VERSION
    && (q.orderVersion == "" || q.orderVersion == ORDER_VERSION)
  }

  /** The query of the next page binds, under the same budget, and continues at the cursor. */
  lemma NextFollows(q: Query, site: Site, resp: SearchResponse)
    requires BindCursor(q).Ok? && PageOf(q, HonestSurroundings(q, site), resp) && resp.nextCursor.Encoded?
    requires Pageable(q, site)
    ensures var next := Export.NextQuery(q, resp);
            && BindCursor(next).Ok? && PageBudget(next, site) == PageBudget(q, site) && Pageable(next, site)
            && AfterKey(next) == Some(resp.nextCursor.record.sortKey)
  {
    hide FanoutSearch.Arrives, FanoutSearch.AllFine, FanoutSearch.Outcomes, OrderFree.AnswerOf, Merged, Lanes, Deduped,
      Duplicated, SummaryOf, FinalCoverage, WorkerOrder, HonestReply;
  }

  /** Delivered rows are the rows up to where the page leads. */
  lemma DeliveredTo(all: seq<Event>, m: nat, resp: SearchResponse, next: nat)
    requires Delivers(all, m, resp, next) && !Duplicated(all)
    ensures m <= next <= |all| && NextRows(all, m, resp.items) && |resp.items| == next - m
    ensures resp.nextCursor.Encoded? ==> m < next && resp.nextCursor.record.sortKey == all[next-1].Key()
    ensures !resp.nextCursor.Encoded? ==> next == |all|
  {
    hide Duplicated, Deduped, Event.Key;
    PartDistinct(all, m, next);
    DedupeDistinct(all[m..next]);
  }

  lemma PageEnds(q: Query, site: Site, all: seq<Event>, m: nat, s: Surroundings, resp: SearchResponse)
    returns (next: nat)
    requires Spacious(q, site, all) && m <= |all| && AfterKey(q) == CursorAt(all, m)
    requires NextPage(q, site, all, m, s, resp)
    ensures m <= next <= |all| && NextRows(all, m, resp.items) && next == m + |resp.items|
    ensures resp.exhausted ==> next == |all|
    ensures !resp.exhausted ==> next < |all|
    ensures !resp.exhausted ==>
              m < next && resp.nextCursor.Encoded? && resp.nextCursor.record.sortKey == all[next-1].Key()
  {
    SpaciousFacts(q, site, all);
    NextPageFacts(q, site, all, m, s, resp);
    hide *;
    next := PageStep(q, s, resp, site.queried, site.contents, all, m);
    DeliveredTo(all, m, resp, next);
    FreshCursor(q, s, resp);
  }

  /** An exhausted page has the last rows; any other leads on to where its rows end. */
  lemma PageLeads(q: Query, site: Site, all: seq<Event>, m: nat, s: Surroundings, resp: SearchResponse)
    requires Spacious(q, site, all) && Pageable(q, site) && m <= |all| && AfterKey(q) == CursorAt(all, m)
    requires NextPage(q, site, all, m, s, resp)
    ensures NextRows(all, m, resp.items) && m + |resp.items| <= |all|
    ensures resp.exhausted ==> m + |resp.items| == |all|
    ensures !resp.exhausted ==> resp.items != [] && resp.nextCursor.Encoded?
    ensures !resp.exhausted ==>
              var next := Export.NextQuery(q, resp);
              && Spacious(next, site, all) && Pageable(next, site)
              && AfterKey(next) == CursorAt(all, m + |resp.items|)
  {
    hide *;
    var next := PageEnds(q, site, all, m, s, resp);
    if !resp.exhausted {
      LeadsTo(q, site, all, m, s, resp, next);
    }
  }

  lemma LeadsTo(
    q: Query, site: Site, all: seq<Event>, m: nat, s: Surroundings, resp: SearchResponse, next: nat)
    requires Spacious(q, site, all) && Pageable(q, site)
    requires NextPage(q, site, all, m, s, resp) && resp.nextCursor.Encoded?
    requires 0 < next <= |all| && resp.nextCursor.record.sortKey == all[next-1].Key()
    ensures Spacious(Export.NextQuery(q, resp), site, all) && Pageable(Export.NextQuery(q, resp), site)
    ensures AfterKey(Export.NextQuery(q, resp)) == CursorAt(all, next)
  {
    NextPageFacts(q, site, all, m, s, resp);
    hide *;
    NextFollows(q, site, resp);
    SpaciousOn(q, Export.NextQuery(q, resp), site, all);
    CursorThere(all, next);
  }

  lemma NextPageFacts(q: Query, site: Site, all: seq<Event>, m: nat, s: Surroundings, resp: SearchResponse)
    requires NextPage(q, site, all, m, s, resp)
    ensures s == HonestSurroundings(q, site) && s.cached.None?
    ensures HonestPage(q, s, site.queried, site.contents) && PageOf(q, s, resp)
    ensures BindCursor(q).Ok? && (resp.exhausted || (resp.nextCursor.Encoded? && m + |resp.items| < |all|))
    ensures Export.WholePage(resp) && !Export.CoverageHasCut(resp.coverage)
  {
    hide HonestPage, Export.WholePage, Export.CoverageHasCut, NextRows, FreshPage;
  }

  lemma SpaciousOn(q: Query, next: Query, site: Site, all: seq<Event>)
    requires Spacious(q, site, all) && BindCursor(next).Ok? && PageBudget(next, site) == PageBudget(q, site)
    ensures Spacious(next, site, all)
  {
    hide BindCursor, ReadBudget, World, GenerationsAgree, Completeness.AllFunded, OneHome, IsUnion, Duplicated, Bytes;
  }

  lemma CursorThere(all: seq<Event>, m: nat)
    requires 0 < m <= |all|
    ensures CursorAt(all, m) == Some(all[m-1].Key())
  {
  }

  /** What every query of the export meets. */
  function SiteEnv(site: Site): Export.Environment {
    (i, q) => HonestSurroundings(q, site)
  }

  /** Whole honest pages with the first m events, and the query that leads on. */
  ghost predicate ReadSoFar(
    first: Query, site: Site, all: seq<Event>, qs: seq<Query>, ss: seq<Surroundings>, pages: seq<SearchResponse>,
    q: Query, m: nat)
  {
    && Export.PagesRead(first, SiteEnv(site), qs, ss, pages) && q == Export.QueryAt(first, pages, |pages|)
    && HonestlyRead(qs, ss, pages, site)
    && (forall i :: 0 <= i < |pages| ==> pages[i].nextCursor.Encoded?)
    && m <= |all| && Items(pages) == all[..m]
    && Spacious(q, site, all) && Pageable(q, site) && AfterKey(q) == CursorAt(all, m)
  }

  ghost predicate HonestlyRead(qs: seq<Query>, ss: seq<Surroundings>, pages: seq<SearchResponse>, site: Site) {
    && |qs| == |ss| == |pages|
    && forall i :: 0 <= i < |pages| ==>
         HonestPage(qs[i], ss[i], site.queried, site.contents) && Export.WholePage(pages[i])
  }

  lemma HonestlyReadOne(
    qs: seq<Query>, ss: seq<Surroundings>, pages: seq<SearchResponse>, site: Site,
    q: Query, s: Surroundings, resp: SearchResponse)
    requires HonestlyRead(qs, ss, pages, site)
    requires HonestPage(q, s, site.queried, site.contents) && Export.WholePage(resp)
    ensures HonestlyRead(qs + [q], ss + [s], pages + [resp], site)
  {
    hide HonestPage, Export.WholePage;
  }

  lemma ItemsSnoc(pages: seq<SearchResponse>, resp: SearchResponse)
    ensures Items(pages + [resp]) == Items(pages) + resp.items
  {
    assert (pages + [resp])[..|pages|] == pages;
  }

  /** Whole honest pages that hold all events; the last is exhausted, and every other leads on. */
  ghost predicate AllRead(
    first: Query, site: Site, all: seq<Event>, qs: seq<Query>, ss: seq<Surroundings>, pages: seq<SearchResponse>)
  {
    && Export.PagesRead(first, SiteEnv(site), qs, ss, pages) && HonestlyRead(qs, ss, pages, site)
    && pages != [] && pages[|pages|-1].exhausted && !Export.CoverageHasCut(pages[|pages|-1].coverage)
    && Items(pages) == all && forall i :: 0 <= i < |pages| - 1 ==> pages[i].nextCursor.Encoded?
  }

  lemma JoinedRows(all: seq<Event>, m: nat, items: seq<Event>)
    requires NextRows(all, m, items)
    ensures all[..m] + items == all[..m + |items|]
    ensures m + |items| == |all| ==> all[..m] + items == all
  {
  }

  lemma OnePageRead(
    first: Query, site: Site, all: seq<Event>, qs: seq<Query>, ss: seq<Surroundings>, pages: seq<SearchResponse>,
    q: Query, m: nat, s: Surroundings, resp: SearchResponse)
    requires ReadSoFar(first, site, all, qs, ss, pages, q, m) && NextPage(q, site, all, m, s, resp)
    ensures Export.PagesRead(first, SiteEnv(site), qs + [q], ss + [s], pages + [resp])
    ensures Export.QueryAt(first, pages + [resp], |pages| + 1) == Export.NextQuery(q, resp)
    ensures HonestlyRead(qs + [q], ss + [s], pages + [resp], site)
    ensures Items(pages + [resp]) == all[..m] + resp.items
    ensures forall i :: 0 <= i < |pages| ==> pages[i].nextCursor.Encoded?
  {
    hide Spacious, HonestPage, PageOf, Export.WholePage, Export.PagesRead, Export.QueryAt, Export.NextQuery, Items,
      HonestSurroundings, AfterKey, CursorAt, Pageable, HonestlyRead, BindCursor, PageBudget;
    Export.ReadOne(first, SiteEnv(site), qs, ss, pages, q, s, resp);
    HonestlyReadOne(qs, ss, pages, site, q, s, resp);
    ItemsSnoc(pages, resp);
  }

  lemma StandsAt(
    first: Query, site: Site, all: seq<Event>, qs: seq<Query>, ss: seq<Surroundings>, pages: seq<SearchResponse>,
    q: Query, m: nat)
    requires ReadSoFar(first, site, all, qs, ss, pages, q, m)
    ensures Spacious(q, site, all) && Pageable(q, site) && m <= |all| && AfterKey(q) == CursorAt(all, m)
  {
    hide Spacious, Pageable, AfterKey, CursorAt, HonestlyRead, Export.PagesRead, Export.QueryAt, Items;
  }

  /** One more page read: either it completes the union, or the reading goes on behind it. */
  lemma TakeOneMore(
    first: Query, site: Site, all: seq<Event>, qs: seq<Query>, ss: seq<Surroundings>, pages: seq<SearchResponse>,
    q: Query, m: nat, s: Surroundings, resp: SearchResponse)
    requires ReadSoFar(first, site, all, qs, ss, pages, q, m) && NextPage(q, site, all, m, s, resp)
    ensures resp.exhausted ==> AllRead(first, site, all, qs + [q], ss + [s], pages + [resp])
    ensures !resp.exhausted ==> 0 < |resp.items| && m + |resp.items| <= |all|
    ensures !resp.exhausted ==> ReadSoFar(first, site, all, qs + [q], ss + [s], pages + [resp],
                                          Export.NextQuery(q, resp), m + |resp.items|)
  {
    hide *;
    StandsAt(first, site, all, qs, ss, pages, q, m);
    PageLeads(q, site, all, m, s, resp);
    OnePageRead(first, site, all, qs, ss, pages, q, m, s, resp);
    JoinedRows(all, m, resp.items);
    if resp.exhausted {
      TellsNoCut(q, site, all, m, s, resp);
      IsAllRead(first, site, all, qs + [q], ss + [s], pages, resp);
    } else {
      IsReadSoFar(first, site, all, qs + [q], ss + [s], pages, resp, Export.NextQuery(q, resp), m + |resp.items|);
    }
  }

  lemma TellsNoCut(q: Query, site: Site, all: seq<Event>, m: nat, s: Surroundings, resp: SearchResponse)
    requires NextPage(q, site, all, m, s, resp)
    ensures !Export.CoverageHasCut(resp.coverage)
  {
    hide Export.CoverageHasCut, NextRows, PageOf, HonestPage, Export.WholePage;
  }

  lemma IsAllRead(
    first: Query, site: Site, all: seq<Event>, qs: seq<Query>, ss: seq<Surroundings>, before: seq<SearchResponse>,
    last: SearchResponse)
    requires Export.PagesRead(first, SiteEnv(site), qs, ss, before + [last])
    requires HonestlyRead(qs, ss, before + [last], site) && last.exhausted && Items(before + [last]) == all
    requires !Export.CoverageHasCut(last.coverage)
    requires forall i :: 0 <= i < |before| ==> before[i].nextCursor.Encoded?
    ensures AllRead(first, site, all, qs, ss, before + [last])
  {
    hide Export.PagesRead, HonestlyRead, Items, SiteEnv, Export.CoverageHasCut;
  }

  lemma IsReadSoFar(
    first: Query, site: Site, all: seq<Event>, qs: seq<Query>, ss: seq<Surroundings>, before: seq<SearchResponse>,
    last: SearchResponse, q: Query, m: nat)
    requires Export.PagesRead(first, SiteEnv(site), qs, ss, before + [last])
    requires HonestlyRead(qs, ss, before + [last], site) && last.nextCursor.Encoded?
    requires m <= |all| && Items(before + [last]) == all[..m]
    requires forall i :: 0 <= i < |before| ==> before[i].nextCursor.Encoded?
    requires q == Export.QueryAt(first, before + [last], |before| + 1)
    requires Spacious(q, site, all) && Pageable(q, site) && AfterKey(q) == CursorAt(all, m)
    ensures ReadSoFar(first, site, all, qs, ss, before + [last], q, m)
  {
    hide Export.PagesRead, HonestlyRead, Items, SiteEnv, Spacious, Pageable, AfterKey, CursorAt, Export.QueryAt;
  }

  /** Reading on page by page reads everything. */
  lemma {:induction false} ReadOn(
    first: Query, site: Site, all: seq<Event>, qs: seq<Query>, ss: seq<Surroundings>, pages: seq<SearchResponse>,
    q: Query, m: nat)
    returns (queries: seq<Query>, states: seq<Surroundings>, whole: seq<SearchResponse>)
    requires ReadSoFar(first, site, all, qs, ss, pages, q, m)
    ensures AllRead(first, site, all, queries, states, whole)
    decreases |all| - m
  {
    hide *;
    StandsAt(first, site, all, qs, ss, pages, q, m);
    var s, resp := WholePageExists(q, site, all, m);
    TakeOneMore(first, site, all, qs, ss, pages, q, m, s, resp);
    queries, states, whole := qs + [q], ss + [s], pages + [resp];
    if !resp.exhausted {
      queries, states, whole := ReadOn(
        first, site, all, queries, states, whole, Export.NextQuery(q, resp), m + |resp.items|);
    }
  }

  /**
   * An export can meet the conditions of its artifact: for every world with distinct event ids and bytes to spare,
   * however many pages it takes, pages with all rows can be read for which an artifact is due.
   */
  lemma ArtifactExists(
    first: Query, site: Site, all: seq<Event>, limits: Export.ExportBudget, encode: Event -> Option<string>)
    returns (qs: seq<Query>, ss: seq<Surroundings>, pages: seq<SearchResponse>)
    requires first.cursor == NoCursor && Spacious(first, site, all) && Pageable(first, site)
    requires Fits(limits, all, encode)
    ensures Export.PagesRead(first, SiteEnv(site), qs, ss, pages)
    ensures forall i :: 0 <= i < |pages| ==> HonestPage(qs[i], ss[i], site.queried, site.contents)
    ensures Export.Publishing(limits, pages, encode) && Items(pages) == all
    ensures |all| > PageBudget(first, site).limit ==> |pages| > 1
  {
    ReadNothing(first, site, all);
    SpaciousFacts(first, site, all);
    hide *;
    qs, ss, pages := ReadOn(first, site, all, [], [], [], first, 0);
    AllReadPublishes(first, site, all, qs, ss, pages, limits, encode);
    if |pages| == 1 {
      OnePageHolds(first, site, all, qs, ss, pages);
    }
  }

  /** Rows, bytes and encoded lines are within the limits, and every row can be encoded. */
  ghost predicate Fits(limits: Export.ExportBudget, all: seq<Event>, encode: Event -> Option<string>) {
    && |all| <= limits.maxRows && Bytes(all) <= limits.maxBytes
    && Export.Encodable(all, encode) && |Export.Lines(all, encode)| <= limits.maxBytes
  }

  lemma AllReadPublishes(
    first: Query, site: Site, all: seq<Event>, qs: seq<Query>, ss: seq<Surroundings>, pages: seq<SearchResponse>,
    limits: Export.ExportBudget, encode: Event -> Option<string>)
    requires AllRead(first, site, all, qs, ss, pages) && !Duplicated(all) && Fits(limits, all, encode)
    ensures Export.PagesRead(first, SiteEnv(site), qs, ss, pages) && Items(pages) == all
    ensures forall i :: 0 <= i < |pages| ==> HonestPage(qs[i], ss[i], site.queried, site.contents)
    ensures Export.Publishing(limits, pages, encode)
  {
    hide *;
    AllReadFacts(first, site, all, qs, ss, pages);
    WholePagesPublish(all, pages, limits, encode);
  }

  lemma WholePagesPublish(
    all: seq<Event>, pages: seq<SearchResponse>, limits: Export.ExportBudget, encode: Event -> Option<string>)
    requires pages != [] && pages[|pages|-1].exhausted && !Export.CoverageHasCut(pages[|pages|-1].coverage)
    requires (forall i :: 0 <= i < |pages| ==> Export.WholePage(pages[i])) && Items(pages) == all
    requires !Duplicated(all) && Fits(limits, all, encode)
    ensures Export.Publishing(limits, pages, encode)
  {
    Export.NoCutTold(pages[|pages|-1].coverage);
    hide Items, Export.Encodable, Export.Lines, Bytes, Duplicated, Export.QualityFine, Export.CoverageHasCut;
  }

  lemma AllReadFacts(
    first: Query, site: Site, all: seq<Event>, qs: seq<Query>, ss: seq<Surroundings>, pages: seq<SearchResponse>)
    requires AllRead(first, site, all, qs, ss, pages)
    ensures Export.PagesRead(first, SiteEnv(site), qs, ss, pages) && Items(pages) == all && |qs| == |ss| == |pages|
    ensures pages != [] && pages[|pages|-1].exhausted && !Export.CoverageHasCut(pages[|pages|-1].coverage)
    ensures forall i :: 0 <= i < |pages| ==> HonestPage(qs[i], ss[i], site.queried, site.contents)
    ensures forall i :: 0 <= i < |pages| ==> Export.WholePage(pages[i])
  {
    hide HonestPage, Export.PagesRead, Items, SiteEnv, Export.CoverageHasCut, PageOf, Export.WholePage;
  }

  /** A page read past the cache keeps to the page limit. */
  lemma WithinLimit(q: Query, s: Surroundings, resp: SearchResponse)
    requires PageOf(q, s, resp) && s.cached.None?
    ensures |resp.items| <= ReadBudget(s.view.limit, BindCursor(q).value.budget).limit
  {
    hide Duplicated, SummaryOf, FinalCoverage, FanoutSearch.Arrives, FanoutSearch.AllFine, FanoutSearch.Outcomes,
      OrderFree.AnswerOf, WorkerOrder, ReadBudget, BindCursor, Taken, BeforeRest, AllTaken, Sorted, Bytes;
  }

  lemma OnePageHolds(
    first: Query, site: Site, all: seq<Event>, qs: seq<Query>, ss: seq<Surroundings>, pages: seq<SearchResponse>)
    requires AllRead(first, site, all, qs, ss, pages) && |pages| == 1 && BindCursor(first).Ok?
    ensures |all| <= PageBudget(first, site).limit
  {
    hide HonestlyRead, PageOf, BindCursor, ReadBudget, HonestReply, WorkerOrder, Export.NextQuery;
    assert qs[0] == Export.QueryAt(first, pages, 0) == first;
    assert PageOf(first, ss[0], pages[0]);
    WithinLimit(first, ss[0], pages[0]);
    assert pages == [] + [pages[0]];
    ItemsSnoc([], pages[0]);
  }

  lemma ReadNothing(first: Query, site: Site, all: seq<Event>)
    requires first.cursor == NoCursor && Spacious(first, site, all) && Pageable(first, site)
    ensures ReadSoFar(first, site, all, [], [], [], first, 0)
  {
    hide Spacious;
    Export.NothingRead(first, SiteEnv(site));
    assert Items([]) == all[..0];
  }
}
