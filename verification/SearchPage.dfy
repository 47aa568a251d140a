/** One page of a federated search, from the fan-out's result to the response and its cursor. */
module SearchPage {
  import opened Text
  import opened LogTypes
  import opened Merge
  import opened Dedupe
  import opened Targets
  import opened Budget
  import opened Cursor
  import opened Sorting
  import opened Fanout
  import FanoutSearch
  import OrderFree

  datatype Query = Query(
    viewID: string, cursor: RawCursor, orderVersion: string, budget: QueryBudget, fast: bool,
    fromUTC: Stamp, toUTC: Stamp)

  /** The query view as far as paging and the cache see it. */
  datatype View = View(viewID: string, orderVersion: string, limit: int, fromUTC: Stamp, toUTC: Stamp)

  /** All that a search meets besides its query: the resolved view and targets, the cache, the workers. */
  datatype Surroundings = Surroundings(
    view: View, resolved: ResolvedTargets, generations: map<string, string>,
    cached: Option<SearchResponse>, replies: map<string, Reply>, arrival: seq<string>)

  datatype SearchResponse = SearchResponse(
    view: View, coverage: Coverage, quality: Quality, items: seq<Event>, exhausted: bool,
    nextCursor: RawCursor, budgetCut: bool, gaps: seq<PositionGap>)

  // ----- cursor binding -----

  /** A cursor fixes the view, the order and the page limit; contradicting it is an error. */
  function BindCursor(q: Query): Result<Query, string> {
    if q.cursor.NoCursor? then Ok(q)
    else
      match DecodePageCursor(q.cursor)
      case Err(e) => Err(e)
      case Ok(c) =>
        if q.viewID != "" && q.viewID != c.viewID then Err("cursor view mismatch")
        else if q.orderVersion != "" && q.orderVersion != c.orderVersion then Err("cursor order mismatch")
        else if q.budget.limit != 0 && q.budget.limit != c.pageLimit then Err("cursor page limit mismatch")
        else Ok(q.(viewID := c.viewID, orderVersion := c.orderVersion, budget := q.budget.(limit := c.pageLimit)))
  }

  // ----- the response -----

  /** With several workers and a worker cut short no boundary is safe, so the page is empty. */
  function SafeRows(g: Gathered, workers: nat, rows: seq<Event>): seq<Event> {
    if g.cut && workers > 1 then [] else rows
  }

  function FinalCoverage(cov: Coverage, summary: Coverage, fast: bool, byteCut: bool): Coverage {
    var reasons := AppendAll(cov.partialReasons, summary.partialReasons);
    cov.(pending := fast,
         complete := cov.complete && summary.complete && !byteCut,
         partialReasons := if byteCut then AppendUnique(reasons, "BUDGET_EXCEEDED") else reasons,
         enumeration := if summary.enumeration != EnumOther && summary.enumeration != EnumExhausted
                        then summary.enumeration else cov.enumeration)
  }

  /** The response for what the fan-out gathered and the merge delivered. */
  function Respond(
    fast: bool, view: View, resolved: ResolvedTargets, g: Gathered,
    rows: seq<Event>, pageMore: bool, byteCut: bool): SearchResponse
  {
    var workers := |WorkerOrder(resolved.queried)|;
    var kept := SafeRows(g, workers, rows);
    var items := Deduped(kept);
    var hasMore := (pageMore && !(g.cut && workers > 1)) || g.open;
    var enumeration := if hasMore || byteCut || g.cut then EnumOpen else EnumExhausted;
    var cov := FinalCoverage(
      SummaryOf(resolved.all, g.coverage, resolved.onlineOnly, resolved.excluded, enumeration),
      g.summary, fast, byteCut);
    SearchResponse(
      view, cov,
      if Duplicated(kept) then g.quality.(duplicate := Worst(Duplicates, g.quality.duplicate, "unresolved"))
      else g.quality,
      items, !hasMore && !byteCut && !g.cut && cov.complete,
      if !g.cut && (hasMore || byteCut) && items != [] then
        EncodePageCursor(PageCursor(view.viewID, view.orderVersion, items[|items|-1].Key(), view.limit))
      else NoCursor,
      byteCut || g.cut, g.gaps)
  }

  /** The window filter and cursor of a cached response handed to another caller's view. */
  function InWindow(q: Query, items: seq<Event>): seq<Event> {
    if items == [] then []
    else
      var rest, e := InWindow(q, items[..|items|-1]), items[|items|-1];
      if e.eventTime.valid && q.fromUTC.instant <= e.eventTime.instant < q.toUTC.instant then rest + [e] else rest
  }

  /** A cached response never hands out another view or its cursor. */
  function Rebind(q: Query, view: View, cached: SearchResponse): SearchResponse {
    var items := if q.fromUTC.valid && q.toUTC.valid then InWindow(q, cached.items) else cached.items;
    cached.(
      view := view, items := items,
      nextCursor :=
        if items == [] then NoCursor
        else if cached.nextCursor == NoCursor then NoCursor
        else EncodePageCursor(PageCursor(view.viewID, view.orderVersion, items[|items|-1].Key(), view.limit)))
  }

  /** Exactly the rows of the window stay, each as often as it was there, its end excluded. */
  lemma {:induction false} WindowExactly(q: Query, items: seq<Event>, e: Event)
    ensures multiset(InWindow(q, items))[e] ==
            if e.eventTime.valid && q.fromUTC.instant <= e.eventTime.instant && e.eventTime.instant < q.toUTC.instant
            then multiset(items)[e] else 0
  {
    if items != [] {
      assert items == items[..|items|-1] + [items[|items|-1]];
      WindowExactly(q, items[..|items|-1], e);
    }
  }

  /** How a fresh page comes about: some merge of the gathered streams under the page's two caps. */
  ghost predicate FreshPage(q: Query, s: Surroundings, resp: SearchResponse) {
    var budget := ReadBudget(s.view.limit, q.budget);
    var req := FanoutRequest(q.fast, s.generations);
    && FanoutSearch.Arrives(s.arrival, s.resolved.queried, budget, s.replies)
    && FanoutSearch.AllFine(FanoutSearch.Outcomes(req, s.resolved.queried, s.replies, s.arrival))
    && var g := OrderFree.AnswerOf(req, s.resolved.queried, budget, s.replies, s.arrival);
       exists rows, pageMore, byteCut, pos ::
         && Merged(Lanes(g.streams), budget.limit, budget.maxBytes, rows, pageMore, byteCut, pos)
         && resp == Respond(q.fast, s.view.(limit := budget.limit), s.resolved, g, rows, pageMore, byteCut)
  }

  /** A page of a query: rebound from the cache, or fresh. */
  ghost predicate PageOf(q: Query, s: Surroundings, resp: SearchResponse) {
    && BindCursor(q).Ok?
    && var bound := BindCursor(q).value;
       match s.cached
       case Some(cached) =>
         resp == Rebind(bound, s.view.(limit := ReadBudget(s.view.limit, bound.budget).limit), cached)
       case None => FreshPage(bound, s, resp)
  }

  // ----- what a cut worker takes from a page -----

  ghost predicate TwoWorkers(queried: seq<TargetInfo>) {
    exists i, j :: 0 <= i < j < |queried| && queried[i].workerID != queried[j].workerID
  }

  /** A worker has no share of the budget, or one that was asked has not said its last. */
  ghost predicate LeftOpen(
    req: FanoutRequest, queried: seq<TargetInfo>, budget: QueryBudget, replies: map<string, Reply>,
    arrival: seq<string>)
  {
    || FanoutSearch.SomeUnfunded(WorkerOrder(queried), budget, |WorkerOrder(queried)|)
    || exists w :: w in arrival && w in replies && OpenReply(req, replies[w])
  }

  /** A worker has no share of the budget, or one that was asked was cut short. */
  ghost predicate CutShort(
    req: FanoutRequest, queried: seq<TargetInfo>, budget: QueryBudget, replies: map<string, Reply>,
    arrival: seq<string>)
  {
    || FanoutSearch.SomeUnfunded(WorkerOrder(queried), budget, |WorkerOrder(queried)|)
    || exists w :: w in arrival && w in replies && CutReply(req, replies[w])
  }

  /** The gathered answer counts as cut, and as open, exactly then. */
  lemma AnswerCutExactly(
    req: FanoutRequest, queried: seq<TargetInfo>, budget: QueryBudget, replies: map<string, Reply>,
    arrival: seq<string>)
    requires forall w :: w in arrival ==> w in replies
    requires FanoutSearch.AllFine(FanoutSearch.Outcomes(req, queried, replies, arrival))
    ensures OrderFree.AnswerOf(req, queried, budget, replies, arrival).cut <==>
            CutShort(req, queried, budget, replies, arrival)
    ensures OrderFree.AnswerOf(req, queried, budget, replies, arrival).open <==>
            LeftOpen(req, queried, budget, replies, arrival)
  {
    hide OutcomeOf, CutReply, OpenReply, AddAll, WorkerOrder, FanoutSearch.SomeUnfunded, SomeUnsettled;
    var order := WorkerOrder(queried);
    FanoutSearch.BaseTells(queried, order, budget, |order|);
    var outs := FanoutSearch.Outcomes(req, queried, replies, arrival);
    var values := FanoutSearch.Values(outs);
    OrderFree.FlagsOf(FanoutSearch.Base(queried, order, budget, |order|), values);
    forall i | 0 <= i < |arrival|
      ensures values[i] in values && arrival[i] in arrival
      ensures values[i].cut <==> CutReply(req, replies[arrival[i]])
      ensures values[i].open <==> OpenReply(req, replies[arrival[i]])
    {
      assert outs[i].Ok?;
      OutcomeFlags(req, arrival[i], OfWorker(queried, arrival[i]), replies[arrival[i]]);
    }
    hide FanoutSearch.Base, FanoutSearch.Outcomes;
    forall w | w in arrival ensures exists i :: 0 <= i < |arrival| && arrival[i] == w {}
  }

  lemma WorkersCounted(queried: seq<TargetInfo>)
    ensures |WorkerOrder(queried)| > 1 <==> TwoWorkers(queried)
  {
    var order := WorkerOrder(queried);
    if |order| > 1 {
      assert order[0] in order && order[1] in order && order[0] != order[1];
      var i :| 0 <= i < |queried| && queried[i].workerID == order[0];
      var j :| 0 <= j < |queried| && queried[j].workerID == order[1];
      assert i < j || j < i;
    }
    if i, j :| 0 <= i < j < |queried| && queried[i].workerID != queried[j].workerID {
      assert queried[i].workerID in order && queried[j].workerID in order;
      var k :| 0 <= k < |order| && order[k] == queried[i].workerID;
      var l :| 0 <= l < |order| && order[l] == queried[j].workerID;
    }
  }

  /** A page of an answer that was cut short ends there; with several workers it delivers nothing past the boundary. */
  lemma CutPage(q: Query, s: Surroundings, resp: SearchResponse)
    requires PageOf(q, s, resp) && s.cached.None?
    requires CutShort(FanoutRequest(q.fast, s.generations), s.resolved.queried,
                      ReadBudget(s.view.limit, BindCursor(q).value.budget), s.replies, s.arrival)
    ensures resp.nextCursor == NoCursor && resp.budgetCut && !resp.exhausted
    ensures TwoWorkers(s.resolved.queried) ==> resp.items == []
  {
    var bound := BindCursor(q).value;
    assert bound.fast == q.fast;
    var budget, req := ReadBudget(s.view.limit, bound.budget), FanoutRequest(q.fast, s.generations);
    AnswerCutExactly(req, s.resolved.queried, budget, s.replies, s.arrival);
    WorkersCounted(s.resolved.queried);
    var g := OrderFree.AnswerOf(req, s.resolved.queried, budget, s.replies, s.arrival);
    var rows, pageMore, byteCut :|
      resp == Respond(q.fast, s.view.(limit := budget.limit), s.resolved, g, rows, pageMore, byteCut);
    hide OrderFree.AnswerOf, WorkerOrder, TwoWorkers, CutShort, Duplicated, SummaryOf, FinalCoverage, BindCursor,
      ReadBudget, FanoutSearch.Arrives, FanoutSearch.AllFine, FanoutSearch.Outcomes, FreshPage;
    assert Deduped([]) == [];
  }

  /** An exhausted page leaves nothing open, nothing cut and nothing uncovered. */
  lemma ExhaustedPage(q: Query, s: Surroundings, resp: SearchResponse)
    requires PageOf(q, s, resp) && s.cached.None? && resp.exhausted
    ensures var req, budget := FanoutRequest(q.fast, s.generations),
                               ReadBudget(s.view.limit, BindCursor(q).value.budget);
            && !CutShort(req, s.resolved.queried, budget, s.replies, s.arrival)
            && !LeftOpen(req, s.resolved.queried, budget, s.replies, s.arrival)
    ensures resp.coverage.complete && !resp.budgetCut && resp.nextCursor == NoCursor
  {
    var bound := BindCursor(q).value;
    assert bound.fast == q.fast;
    var budget, req := ReadBudget(s.view.limit, bound.budget), FanoutRequest(q.fast, s.generations);
    AnswerCutExactly(req, s.resolved.queried, budget, s.replies, s.arrival);
    var g := OrderFree.AnswerOf(req, s.resolved.queried, budget, s.replies, s.arrival);
    var rows, pageMore, byteCut :|
      resp == Respond(q.fast, s.view.(limit := budget.limit), s.resolved, g, rows, pageMore, byteCut);
    hide OrderFree.AnswerOf, WorkerOrder, CutShort, LeftOpen, Duplicated, SummaryOf, FinalCoverage, BindCursor,
      ReadBudget, FanoutSearch.Arrives, FanoutSearch.AllFine, FanoutSearch.Outcomes, FreshPage, Deduped;
  }

  // ----- the order of a page -----

  lemma PartNewestFirst(part: seq<Event>, rows: seq<Event>, at: seq<nat>)
    requires Selects(part, rows, at) && NewestFirst(rows)
    ensures NewestFirst(part)
  {
    hide Precedes;
  }

  lemma {:induction false} WindowNewestFirst(q: Query, items: seq<Event>)
    requires NewestFirst(items)
    ensures NewestFirst(InWindow(q, items)) && forall e :: e in InWindow(q, items) ==> e in items
  {
    hide Precedes;
    if items != [] {
      var n := |items| - 1;
      assert items == items[..n] + [items[n]];
      WindowNewestFirst(q, items[..n]);
      forall e | e in items[..n] ensures Precedes(e, items[n]) {
        var i :| 0 <= i < n && items[..n][i] == e;
      }
    }
  }

  /** Every page comes newest first; one from the cache does if it was kept so. */
  lemma PageNewestFirst(q: Query, s: Surroundings, resp: SearchResponse)
    requires PageOf(q, s, resp) && (s.cached.Some? ==> NewestFirst(s.cached.value.items))
    ensures NewestFirst(resp.items)
  {
    var bound := BindCursor(q).value;
    hide BindCursor, Duplicated, SummaryOf, FinalCoverage, ReadBudget, FanoutSearch.Arrives, FanoutSearch.AllFine,
      FanoutSearch.Outcomes, OrderFree.AnswerOf, WorkerOrder, NewestFirst, Bytes, Taken, BeforeRest, AllTaken, Deduped,
      InWindow, Selects;
    match s.cached
    case Some(cached) =>
      WindowNewestFirst(bound, cached.items);
    case None =>
      var budget, req := ReadBudget(s.view.limit, bound.budget), FanoutRequest(bound.fast, s.generations);
      var g := OrderFree.AnswerOf(req, s.resolved.queried, budget, s.replies, s.arrival);
      var rows, pageMore, byteCut, pos :|
        && Merged(Lanes(g.streams), budget.limit, budget.maxBytes, rows, pageMore, byteCut, pos)
        && resp == Respond(bound.fast, s.view.(limit := budget.limit), s.resolved, g, rows, pageMore, byteCut);
      SortedIsNewestFirst(rows);
      SortedIsNewestFirst([]);
      var kept := SafeRows(g, |WorkerOrder(s.resolved.queried)|, rows);
      var at := DedupeSelects(kept);
      PartNewestFirst(Deduped(kept), kept, at);
  }

  // ----- sortedness of what is merged -----

  lemma {:induction false} GatheredSorted(base: Gathered, outs: seq<WorkerOutcome>)
    requires StreamsSorted(base.streams)
    requires forall o :: o in outs ==> StreamsSorted(o.streams)
    ensures StreamsSorted(AddAll(base, outs).streams)
  {
    if outs != [] {
      assert outs == outs[..|outs|-1] + [outs[|outs|-1]];
      GatheredSorted(base, outs[..|outs|-1]);
    }
  }

  lemma OutcomeSorted(req: FanoutRequest, w: string, targets: seq<TargetInfo>, reply: Reply)
    requires OutcomeOf(req, w, targets, reply).Ok?
    ensures StreamsSorted(OutcomeOf(req, w, targets, reply).value.streams)
  {
    var usable := Usable(req, reply);
    if usable.Some? {
      SortEventsSorts(usable.value.items);
    }
  }

  lemma FinishSorted(g: Gathered)
    requires StreamsSorted(g.streams)
    ensures StreamsSorted(Finish(g).streams)
  {
    FanoutSearch.StreamOrder();
    SortBySorts(g.streams, StreamLe);
    var t := SortBy(g.streams, StreamLe);
    forall i | 0 <= i < |t| ensures Sorted(t[i].items) {
      assert t[i] in multiset(t);
      assert t[i] in g.streams;
    }
  }

  /** Every stream that reaches the merge is sorted, whatever the workers sent. */
  lemma AnswerSorted(
    req: FanoutRequest, queried: seq<TargetInfo>, budget: QueryBudget, replies: map<string, Reply>,
        arrival: seq<string>)
    requires forall w :: w in arrival ==> w in replies
    requires FanoutSearch.AllFine(FanoutSearch.Outcomes(req, queried, replies, arrival))
    ensures StreamsSorted(OrderFree.AnswerOf(req, queried, budget, replies, arrival).streams)
  {
    hide OutcomeOf, Finish, StreamsSorted, AddAll;
    var order := WorkerOrder(queried);
    var base := FanoutSearch.Base(queried, order, budget, |order|);
    OrderFree.BaseEmpty(queried, order, budget, |order|);
    var outs := FanoutSearch.Outcomes(req, queried, replies, arrival);
    var values := FanoutSearch.Values(outs);
    forall o | o in values ensures StreamsSorted(o.streams) {
      var i :| 0 <= i < |values| && values[i] == o;
      assert outs[i].Ok?;
      OutcomeSorted(req, arrival[i], OfWorker(queried, arrival[i]), replies[arrival[i]]);
    }
    NoStreamsSorted();
    GatheredSorted(base, values);
    FinishSorted(AddAll(base, values));
  }

  lemma NoStreamsSorted()
    ensures StreamsSorted([])
  {
  }

  lemma {:induction false} AnswerKeyed(
    req: FanoutRequest, queried: seq<TargetInfo>, budget: QueryBudget, replies: map<string, Reply>,
        arrival: seq<string>)
    requires forall w :: w in arrival ==> w in replies
    requires FanoutSearch.AllFine(FanoutSearch.Outcomes(req, queried, replies, arrival))
    ensures KeyedByTarget(OrderFree.AnswerOf(req, queried, budget, replies, arrival).coverage)
  {
    hide OutcomeOf;
    var order := WorkerOrder(queried);
    BaseKeyed(queried, order, budget, |order|);
    var outs := FanoutSearch.Outcomes(req, queried, replies, arrival);
    var values := FanoutSearch.Values(outs);
    forall o | o in values ensures KeyedByTarget(o.coverage) {
      var i :| 0 <= i < |values| && values[i] == o;
      assert outs[i].Ok?;
      OrderFree.OutcomeOwnData(req, arrival[i], OfWorker(queried, arrival[i]), replies[arrival[i]]);
    }
    AddAllKeyed(FanoutSearch.Base(queried, order, budget, |order|), values);
  }

  lemma {:induction false} BaseKeyed(queried: seq<TargetInfo>, order: seq<string>, budget: QueryBudget, k: nat)
    requires k <= |order|
    ensures KeyedByTarget(FanoutSearch.Base(queried, order, budget, k).coverage)
  {
    if k > 0 {
      BaseKeyed(queried, order, budget, k - 1);
    }
  }

  lemma {:induction false} AddAllKeyed(base: Gathered, outs: seq<WorkerOutcome>)
    requires KeyedByTarget(base.coverage)
    requires forall o :: o in outs ==> KeyedByTarget(o.coverage)
    ensures KeyedByTarget(AddAll(base, outs).coverage)
  {
    if outs != [] {
      assert outs == outs[..|outs|-1] + [outs[|outs|-1]];
      AddAllKeyed(base, outs[..|outs|-1]);
    }
  }

  // ----- the search -----

  /** Searches one page: cursor binding, cache, fan-out, merge, deduplication, coverage, next cursor. */
  method Search(q: Query, s: Surroundings) returns (r: Result<SearchResponse, string>)
    requires BindCursor(q).Ok? && s.cached.None? ==>
               FanoutSearch.Arrives(s.arrival, s.resolved.queried,
                                    ReadBudget(s.view.limit, BindCursor(q).value.budget), s.replies)
    ensures r.Ok? ==> PageOf(q, s, r.value)
    ensures r.Err? ==>
              BindCursor(q).Err? ||
              (s.cached.None? && !FanoutSearch.AllFine(FanoutSearch.Outcomes(
                 FanoutRequest(q.fast, s.generations), s.resolved.queried, s.replies, s.arrival)))
    ensures r.Ok? && (s.cached.Some? ==> NewestFirst(s.cached.value.items)) ==> NewestFirst(r.value.items)
    ensures r.Ok? && s.cached.None? &&
            CutShort(FanoutRequest(q.fast, s.generations), s.resolved.queried,
                     ReadBudget(s.view.limit, BindCursor(q).value.budget), s.replies, s.arrival) ==>
              && r.value.nextCursor == NoCursor && r.value.budgetCut && !r.value.exhausted
              && (TwoWorkers(s.resolved.queried) ==> r.value.items == [])
    ensures r.Ok? && s.cached.None? && r.value.exhausted ==>
              && r.value.coverage.complete && !r.value.budgetCut && r.value.nextCursor == NoCursor
              && !LeftOpen(FanoutRequest(q.fast, s.generations), s.resolved.queried,
                           ReadBudget(s.view.limit, BindCursor(q).value.budget), s.replies, s.arrival)
  {
    r := SearchOnce(q, s);
    hide *;
    if r.Ok? {
      if s.cached.Some? ==> NewestFirst(s.cached.value.items) {
        PageNewestFirst(q, s, r.value);
      }
      if s.cached.None? && CutShort(FanoutRequest(q.fast, s.generations), s.resolved.queried,
                                    ReadBudget(s.view.limit, BindCursor(q).value.budget), s.replies, s.arrival) {
        CutPage(q, s, r.value);
      }
      if s.cached.None? && r.value.exhausted {
        ExhaustedPage(q, s, r.value);
      }
    }
  }

  /** The search itself. */
  method SearchOnce(q: Query, s: Surroundings) returns (r: Result<SearchResponse, string>)
    requires BindCursor(q).Ok? && s.cached.None? ==>
               FanoutSearch.Arrives(s.arrival, s.resolved.queried,
                                    ReadBudget(s.view.limit, BindCursor(q).value.budget), s.replies)
    ensures r.Ok? ==> PageOf(q, s, r.value)
    ensures r.Err? ==>
              BindCursor(q).Err? ||
              (s.cached.None? && !FanoutSearch.AllFine(FanoutSearch.Outcomes(
                 FanoutRequest(q.fast, s.generations), s.resolved.queried, s.replies, s.arrival)))
  {
    var bound := BindCursor(q);
    if bound.Err? {
      return Err(bound.error);
    }
    var q := bound.value;
    var budget := ReadBudget(s.view.limit, q.budget);
    var view := s.view.(limit := budget.limit);
    if s.cached.Some? {
      return Ok(Rebind(q, view, s.cached.value));
    }
    var req := FanoutRequest(q.fast, s.generations);
    var fan := FanoutSearch.Search(req, s.resolved.queried, budget, s.replies, s.arrival);
    if fan.Err? {
      return Err(fan.error);
    }
    var g := fan.value;
    AnswerSorted(req, s.resolved.queried, budget, s.replies, s.arrival);
    AnswerKeyed(req, s.resolved.queried, budget, s.replies, s.arrival);
    var rows, pageMore, byteCut, pos := MergeStreams(g.streams, budget.limit, budget.maxBytes);
    var resp := BuildResponse(q.fast, view, s.resolved, g, rows, pageMore, byteCut);
    return Ok(resp);
  }

  lemma CutResponse(
    fast: bool, view: View, resolved: ResolvedTargets, g: Gathered, rows: seq<Event>, more: bool, byteCut: bool)
    ensures var resp := Respond(fast, view, resolved, g, rows, more, byteCut);
            && (g.cut ==> resp.nextCursor == NoCursor && resp.budgetCut && !resp.exhausted)
            && (resp.items == if g.cut && TwoWorkers(resolved.queried) then [] else Deduped(rows))
            && (Duplicated(rows) && !(g.cut && TwoWorkers(resolved.queried)) ==>
                  DuplicateRank(resp.quality.duplicate) >= 2)
            && DuplicateRank(resp.quality.duplicate) >= DuplicateRank(g.quality.duplicate)
            && resp.quality.stats == g.quality.stats
  {
    hide Duplicated, SummaryOf, FinalCoverage, WorkerOrder, TwoWorkers;
    WorkersCounted(resolved.queried);
    assert Deduped([]) == [];
    assert Lower("unresolved") == "unresolved";
  }

  lemma CoverageTells(
    fast: bool, view: View, resolved: ResolvedTargets, g: Gathered, rows: seq<Event>, more: bool, byteCut: bool)
    ensures var resp := Respond(fast, view, resolved, g, rows, more, byteCut);
            && (byteCut ==>
                  resp.budgetCut && !resp.coverage.complete && "BUDGET_EXCEEDED" in resp.coverage.partialReasons)
            && (forall x :: x in g.summary.partialReasons && x != "" ==> x in resp.coverage.partialReasons)
            && resp.coverage.pending == fast
            && (g.summary.enumeration in {EnumOpen, EnumStale, EnumCancelled} ==>
                  resp.coverage.enumeration == g.summary.enumeration)
            && (g.summary.enumeration in {EnumOther, EnumExhausted} ==>
                  resp.coverage.enumeration == if g.cut || byteCut || g.open || more then EnumOpen else EnumExhausted)
  {
    hide Deduped, Duplicated, Entries, Summarize, WorkerOrder, AppendUnique, AppendAll, Worst;
  }

  method BuildResponse(
    fast: bool, view: View, resolved: ResolvedTargets, g: Gathered,
    merged: seq<Event>, more: bool, byteCut: bool) returns (resp: SearchResponse)
    requires KeyedByTarget(g.coverage)
    ensures resp == Respond(fast, view, resolved, g, merged, more, byteCut)
    ensures g.cut ==> resp.nextCursor == NoCursor && resp.budgetCut && !resp.exhausted
    ensures g.cut && TwoWorkers(resolved.queried) ==> resp.items == []
    ensures !(g.cut && TwoWorkers(resolved.queried)) ==> resp.items == Deduped(merged)
    ensures Duplicated(merged) && !(g.cut && TwoWorkers(resolved.queried)) ==>
              DuplicateRank(resp.quality.duplicate) >= 2
    ensures DuplicateRank(resp.quality.duplicate) >= DuplicateRank(g.quality.duplicate) &&
            resp.quality.stats == g.quality.stats
    ensures byteCut ==> resp.budgetCut && !resp.coverage.complete && "BUDGET_EXCEEDED" in resp.coverage.partialReasons
    ensures forall x :: x in g.summary.partialReasons && x != "" ==> x in resp.coverage.partialReasons
    ensures resp.coverage.pending == fast && resp.view == view && resp.gaps == g.gaps
    ensures g.summary.enumeration in {EnumOpen, EnumStale, EnumCancelled} ==>
              resp.coverage.enumeration == g.summary.enumeration
    ensures g.summary.enumeration in {EnumOther, EnumExhausted} ==>
              resp.coverage.enumeration == if g.cut || byteCut || g.open || more then EnumOpen else EnumExhausted
  {
    CutResponse(fast, view, resolved, g, merged, more, byteCut);
    CoverageTells(fast, view, resolved, g, merged, more, byteCut);
    hide TwoWorkers;
    hide Deduped, Duplicated, SummaryOf, FinalCoverage, Worst, WorkerOrder;
    var rows, pageMore, quality := merged, more, g.quality;
    if g.cut {
      var workers, _ := ByWorker(resolved.queried);
      if |workers| > 1 {
        rows := [];
        pageMore := false;
      }
    }
    var deduped, duplicated := DedupeMergedRows(rows);
    rows := deduped;
    if duplicated {
      quality := quality.(duplicate := Worst(Duplicates, quality.duplicate, "unresolved"));
    }
    var hasMore := pageMore || g.open;
    var enumeration := EnumExhausted;
    if hasMore || byteCut || g.cut {
      enumeration := EnumOpen;
    }
    var cov := AssembleCoverage(fast, resolved, g, enumeration, byteCut);
    var next := NoCursor;
    if !g.cut && (hasMore || byteCut) && |rows| > 0 {
      next := EncodePageCursor(PageCursor(view.viewID, view.orderVersion, rows[|rows|-1].Key(), view.limit));
    }
    resp := SearchResponse(view, cov, quality, rows, !hasMore && !byteCut && !g.cut && cov.complete, next,
                           byteCut || g.cut, g.gaps);
  }

  /** The targets' summary, degraded by what the workers and the byte budget add. */
  method AssembleCoverage(fast: bool, resolved: ResolvedTargets, g: Gathered, enumeration: Enumeration, byteCut: bool)
    returns (cov: Coverage)
    requires KeyedByTarget(g.coverage)
    ensures cov == FinalCoverage(
              SummaryOf(resolved.all, g.coverage, resolved.onlineOnly, resolved.excluded, enumeration),
              g.summary, fast, byteCut)
  {
    hide Entries, Summarize, AppendAll, AppendUnique;
    cov := BuildCoverage(resolved.all, g.coverage, resolved.onlineOnly, resolved.excluded, enumeration);
    if fast {
      cov := cov.(pending := true);
    }
    if !g.summary.complete {
      cov := cov.(complete := false);
    }
    cov := cov.(partialReasons := AppendAll(cov.partialReasons, g.summary.partialReasons));
    if g.summary.enumeration != EnumOther && g.summary.enumeration != EnumExhausted {
      cov := cov.(enumeration := g.summary.enumeration);
    }
    if byteCut {
      cov := cov.(partialReasons := AppendUnique(cov.partialReasons, "BUDGET_EXCEEDED"), complete := false);
    }
  }
}
