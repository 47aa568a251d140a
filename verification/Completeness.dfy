/**
 * A fresh page claims complete coverage exactly when every target resolved for it was covered and nothing was cut.
 * What a reused view asks for besides those targets is the subject of module ViewReuse.
 */
module Completeness {
  import opened Text
  import opened Sorting
  import opened LogTypes
  import opened Targets
  import opened Budget
  import opened Fanout
  import opened SearchPage
  import FanoutSearch
  import OrderFree

  /** What makes one queried target count as success (see SuccessExactly). */
  predicate Answers(req: FanoutRequest, t: TargetInfo, reply: Reply) {
    && Usable(req, reply).Some?
    && var resp := Usable(req, reply).value;
       var own := LastResult(resp.targets, WorkerTargetID(t));
       if own.Some? then own.value.state == StateSuccess && !resp.truncated
       else resp.targets != [] && t.readiness == Online
  }

  /** The queried target with this id, the last if there are several, has a worker that was asked and covers it. */
  ghost predicate Covered(
    req: FanoutRequest, queried: seq<TargetInfo>, replies: map<string, Reply>, arrival: seq<string>, id: string)
  {
    && LastWithID(queried, id).Some?
    && var t := LastWithID(queried, id).value;
       t.workerID in arrival && t.workerID in replies && Answers(req, t, replies[t.workerID])
  }

  predicate SummaryComplete(resp: Option<WorkerResponse>) {
    resp.Some? && resp.value.coverage.Some? ==> resp.value.coverage.value.complete
  }

  ghost predicate SummariesComplete(req: FanoutRequest, replies: map<string, Reply>, arrival: seq<string>) {
    forall w :: w in arrival && w in replies ==> SummaryComplete(Usable(req, replies[w]))
  }

  ghost predicate AllFunded(queried: seq<TargetInfo>, budget: QueryBudget) {
    forall i :: 0 <= i < |WorkerOrder(queried)| ==> IsFunded(WorkerOrder(queried), budget, i)
  }

  // ----- one target's entry -----

  lemma EntrySuccess(t: TargetInfo, byID: map<string, TargetCoverage>, excluded: seq<TargetInfo>)
    ensures EntryFor(t, byID, excluded).state == StateSuccess <==> t.id in byID && byID[t.id].state == StateSuccess
  {
    if t.id !in byID && Excluded(t, excluded) {
      var e := FirstWithID(excluded, t.id);
      ReadinessSuccess(e, ["online_only_excluded"]);
      assert Failing(["online_only_excluded"][0]);
    }
  }

  lemma {:induction false} CoverMapValue(
    req: FanoutRequest, w: string, reply: Reply, targets: seq<TargetInfo>, id: string)
    requires !reply.Cancelled? && LastWithID(targets, id).Some?
    ensures var m := CoverMap(req, w, reply, targets);
            id in m && m[id] == TargetEntry(req, w, reply, LastWithID(targets, id).value)
  {
    hide TargetEntry;
    var n := |targets| - 1;
    if targets[n].id != id {
      CoverMapValue(req, w, reply, targets[..n], id);
    }
  }

  lemma {:induction false} LastOfWorker(queried: seq<TargetInfo>, id: string)
    requires LastWithID(queried, id).Some?
    ensures var t := LastWithID(queried, id).value; LastWithID(OfWorker(queried, t.workerID), id) == Some(t)
  {
    var n := |queried| - 1;
    var rest, last := OfWorker(queried[..n], LastWithID(queried, id).value.workerID), queried[n];
    assert (rest + [last])[..|rest|] == rest;
    if last.id != id {
      LastOfWorker(queried[..n], id);
    }
  }

  lemma {:induction false} BaseCoverage(queried: seq<TargetInfo>, order: seq<string>, budget: QueryBudget, k: nat)
    requires k <= |order|
    ensures var g := FanoutSearch.Base(queried, order, budget, k);
            && (forall id :: id in g.coverage ==> g.coverage[id].state == StatePartial)
            && (g.summary.complete <==> forall i :: 0 <= i < k ==> IsFunded(order, budget, i))
  {
    hide IsFunded, AppendUnique;
    if k > 0 {
      var g := FanoutSearch.Base(queried, order, budget, k - 1);
      BaseCoverage(queried, order, budget, k - 1);
      UnfundedPartial(g, OfWorker(queried, order[k - 1]));
    }
  }

  lemma UnfundedPartial(g: Gathered, targets: seq<TargetInfo>)
    requires forall id :: id in g.coverage ==> g.coverage[id].state == StatePartial
    ensures var more := FanoutSearch.AddUnfunded(g, targets);
            && (forall id :: id in more.coverage ==> more.coverage[id].state == StatePartial)
            && !more.summary.complete
  {
  }

  /** The coverage of worker w's outcome says success of an id exactly when it is w's and its reply covers it. */
  lemma OutcomeSuccess(req: FanoutRequest, queried: seq<TargetInfo>, w: string, reply: Reply, id: string)
    requires OneHome(queried) && !reply.Cancelled?
    ensures var m := CoverMap(req, w, reply, OfWorker(queried, w));
            (id in m && m[id].state == StateSuccess) <==>
            && LastWithID(queried, id).Some?
            && LastWithID(queried, id).value.workerID == w && Answers(req, LastWithID(queried, id).value, reply)
  {
    hide TargetEntry, CoverMap, Answers, LastWithID;
    var targets := OfWorker(queried, w);
    if Names(targets, id) {
      var i :| 0 <= i < |targets| && targets[i].id == id;
      OrderFree.OfWorkerMember(queried, w, targets[i]);
      var j :| 0 <= j < |queried| && queried[j] == targets[i];
      assert Names(queried, id);
      LastOfWorker(queried, id);
      CoverMapValue(req, w, reply, targets, id);
      AnswersIsSuccess(req, w, reply, LastWithID(queried, id).value);
    } else if LastWithID(queried, id).Some? && LastWithID(queried, id).value.workerID == w {
      LastOfWorker(queried, id);
    }
  }

  lemma AnswersIsSuccess(req: FanoutRequest, w: string, reply: Reply, t: TargetInfo)
    requires !reply.Cancelled?
    ensures TargetEntry(req, w, reply, t).state == StateSuccess <==> Answers(req, t, reply)
  {
    SuccessExactly(req, w, reply, t);
  }

  // ----- all targets -----

  lemma GatheredSuccess(
    req: FanoutRequest, queried: seq<TargetInfo>, budget: QueryBudget, replies: map<string, Reply>,
    arrival: seq<string>, id: string)
    requires Distinct(arrival) && OneHome(queried) && forall w :: w in arrival ==> w in replies
    requires FanoutSearch.AllFine(FanoutSearch.Outcomes(req, queried, replies, arrival))
    ensures var g := OrderFree.AnswerOf(req, queried, budget, replies, arrival);
            (id in g.coverage && g.coverage[id].state == StateSuccess) <==> Covered(req, queried, replies, arrival, id)
  {
    hide OutcomeOf, CoverMap, Answers, Distinct, AddAll, OrderFree.Separate, FanoutSearch.Base, WorkerOrder,
        SomeUnsettled;
    var order := WorkerOrder(queried);
    var base := FanoutSearch.Base(queried, order, budget, |order|);
    BaseCoverage(queried, order, budget, |order|);
    OrderFree.OutcomesSeparate(req, queried, replies, arrival);
    var results := FanoutSearch.Outcomes(req, queried, replies, arrival);
    var outs := FanoutSearch.Values(results);
    OrderFree.CoverageOf(base, outs, id);
    forall i | 0 <= i < |arrival|
      ensures (id in outs[i].coverage && outs[i].coverage[id].state == StateSuccess) <==>
              && LastWithID(queried, id).Some? && LastWithID(queried, id).value.workerID == arrival[i]
              && Answers(req, LastWithID(queried, id).value, replies[arrival[i]])
    {
      assert results[i].Ok?;
      FineReply(req, arrival[i], OfWorker(queried, arrival[i]), replies[arrival[i]]);
      OrderFree.OutcomeOwnData(req, arrival[i], OfWorker(queried, arrival[i]), replies[arrival[i]]);
      OutcomeSuccess(req, queried, arrival[i], replies[arrival[i]], id);
    }
    forall i | 0 <= i < |outs| ensures outs[i] in outs {}
  }

  lemma FineReply(req: FanoutRequest, w: string, targets: seq<TargetInfo>, reply: Reply)
    requires OutcomeOf(req, w, targets, reply).Ok?
    ensures !reply.Cancelled?
    ensures OutcomeOf(req, w, targets, reply).value.summary ==
            if Usable(req, reply).Some? then Usable(req, reply).value.coverage else None
  {
  }

  lemma GatheredSummary(
    req: FanoutRequest, queried: seq<TargetInfo>, budget: QueryBudget, replies: map<string, Reply>,
        arrival: seq<string>)
    requires forall w :: w in arrival ==> w in replies
    requires FanoutSearch.AllFine(FanoutSearch.Outcomes(req, queried, replies, arrival))
    ensures OrderFree.AnswerOf(req, queried, budget, replies, arrival).summary.complete <==>
            AllFunded(queried, budget) && SummariesComplete(req, replies, arrival)
  {
    hide OutcomeOf, AddAll, FanoutSearch.Base, WorkerOrder, IsFunded, Usable, SomeUnsettled;
    var order := WorkerOrder(queried);
    var base := FanoutSearch.Base(queried, order, budget, |order|);
    BaseCoverage(queried, order, budget, |order|);
    var results := FanoutSearch.Outcomes(req, queried, replies, arrival);
    var outs := FanoutSearch.Values(results);
    OrderFree.FlagsOf(base, outs);
    forall i | 0 <= i < |arrival|
      ensures outs[i] in outs && arrival[i] in arrival
      ensures outs[i].summary ==
              if Usable(req, replies[arrival[i]]).Some? then Usable(req, replies[arrival[i]]).value.coverage else None
    {
      assert results[i].Ok?;
      FineReply(req, arrival[i], OfWorker(queried, arrival[i]), replies[arrival[i]]);
    }
    forall w | w in arrival ensures exists i :: 0 <= i < |arrival| && arrival[i] == w {}
  }

  /**
   * Completeness is never claimed silently of the targets resolved today, and never withheld without cause: a page is
   * complete exactly when there is a target, every resolved target is covered by a usable reply of an asked worker,
   * onlineOnly left none out, every worker was funded, no worker's own summary is partial, and no byte budget cut the
   * page.
   */
  lemma CompleteExactly(
    q: Query, s: Surroundings, budget: QueryBudget, rows: seq<Event>, pageMore: bool, byteCut: bool)
    requires FanoutSearch.Arrives(s.arrival, s.resolved.queried, budget, s.replies) && OneHome(s.resolved.queried)
    requires FanoutSearch.AllFine(
               FanoutSearch.Outcomes(FanoutRequest(q.fast, s.generations), s.resolved.queried, s.replies, s.arrival))
    ensures var req := FanoutRequest(q.fast, s.generations);
            var g := OrderFree.AnswerOf(req, s.resolved.queried, budget, s.replies, s.arrival);
            Respond(q.fast, s.view, s.resolved, g, rows, pageMore, byteCut).coverage.complete <==>
            && s.resolved.all != [] && !(s.resolved.onlineOnly && s.resolved.excluded != [])
            && (forall t :: t in s.resolved.all ==> Covered(req, s.resolved.queried, s.replies, s.arrival, t.id))
            && AllFunded(s.resolved.queried, budget) && SummariesComplete(req, s.replies, s.arrival) && !byteCut
  {
    hide Covered, AllFunded, SummariesComplete, Distinct, FanoutSearch.AllFine, FanoutSearch.Outcomes,
      OrderFree.AnswerOf, EntryFor, Entries, FanoutSearch.Launched, Summarize, WorkerOrder;
    var req := FanoutRequest(q.fast, s.generations);
    var g := OrderFree.AnswerOf(req, s.resolved.queried, budget, s.replies, s.arrival);
    AnswerKeyed(req, s.resolved.queried, budget, s.replies, s.arrival);
    GatheredSummary(req, s.resolved.queried, budget, s.replies, s.arrival);
    forall t | t in s.resolved.all
      ensures EntryFor(t, g.coverage, s.resolved.excluded).state == StateSuccess <==>
              Covered(req, s.resolved.queried, s.replies, s.arrival, t.id)
    {
      EntrySuccess(t, g.coverage, s.resolved.excluded);
      GatheredSuccess(req, s.resolved.queried, budget, s.replies, s.arrival, t.id);
    }
    AllEntriesSuccess(s.resolved.all, g.coverage, s.resolved.excluded);
    var hasMore := (pageMore && !(g.cut && |WorkerOrder(s.resolved.queried)| > 1)) || g.open;
    Targets.CompleteExactly(s.resolved.all, g.coverage, s.resolved.onlineOnly, s.resolved.excluded,
                            if hasMore || byteCut || g.cut then EnumOpen else EnumExhausted);
  }

  lemma {:induction false} AllEntriesSuccess(
    all: seq<TargetInfo>, byID: map<string, TargetCoverage>, excluded: seq<TargetInfo>)
    requires KeyedByTarget(byID)
    ensures AllSuccess(Entries(all, byID, excluded)) <==>
            forall t :: t in all ==> EntryFor(t, byID, excluded).state == StateSuccess
  {
    if all != [] {
      var before, t := all[..|all|-1], all[|all|-1];
      assert all == before + [t];
      AllEntriesSuccess(before, byID, excluded);
      if Excluded(t, before) {
        var i :| 0 <= i < |before| && before[i].id == t.id;
        EntrySuccess(t, byID, excluded);
        EntrySuccess(before[i], byID, excluded);
        assert before[i] in before;
      } else {
        AllSuccessSnoc(Entries(before, byID, excluded), EntryFor(t, byID, excluded));
      }
    }
  }

  lemma AllSuccessSnoc(entries: seq<TargetCoverage>, tc: TargetCoverage)
    ensures AllSuccess(entries + [tc]) <==> AllSuccess(entries) && tc.state == StateSuccess
  {
    if AllSuccess(entries + [tc]) {
      forall i | 0 <= i < |entries| ensures entries[i].state == StateSuccess {
        assert (entries + [tc])[i].state == StateSuccess;
      }
      assert (entries + [tc])[|entries|].state == StateSuccess;
    }
  }
}
