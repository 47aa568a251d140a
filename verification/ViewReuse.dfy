/**
 * Searching with a view that exists: its targets are fixed, today's resolution only names them, and a target that no
 * longer resolves is asked for but never reported.
 */
module ViewReuse {
  import opened Text
  import opened Sorting
  import opened LogTypes
  import opened Merge
  import opened Targets
  import opened Budget
  import opened Fanout
  import opened SearchPage
  import FanoutSearch
  import OrderFree
  import Completeness
  import Paging
  import HonestRuns
  import Export

  // ----- the targets of a reused view -----

  /** What stands in for a target that no longer resolves. */
  function Placeholder(id: string): TargetInfo {
    TargetInfo(id, "", "", NotReady, false, "", "")
  }

  function ViewTarget(infos: seq<TargetInfo>, id: string): (t: TargetInfo)
    ensures t.id == id
  {
    if LastWithID(infos, id).Some? then LastWithID(infos, id).value else Placeholder(id)
  }

  function ViewTargets(infos: seq<TargetInfo>, viewIDs: seq<string>): (r: seq<TargetInfo>)
    ensures |r| == |viewIDs| && forall i :: 0 <= i < |r| ==> r[i] == ViewTarget(infos, viewIDs[i])
  {
    seq(|viewIDs|, i requires 0 <= i < |viewIDs| => ViewTarget(infos, viewIDs[i]))
  }

  function Outside(infos: seq<TargetInfo>, viewIDs: seq<string>): seq<TargetInfo> {
    if infos == [] then []
    else
      var before, t := Outside(infos[..|infos|-1], viewIDs), infos[|infos|-1];
      if t.id in viewIDs then before else before + [t]
  }

  function ReusedTargets(infos: seq<TargetInfo>, viewIDs: seq<string>, onlineOnly: bool): ResolvedTargets {
    ResolvedTargets(infos, ViewTargets(infos, viewIDs), Outside(infos, viewIDs), onlineOnly)
  }

  ghost predicate KeepsLast(byID: map<string, TargetInfo>, infos: seq<TargetInfo>) {
    forall id :: if id in byID then LastWithID(infos, id) == Some(byID[id]) else LastWithID(infos, id).None?
  }

  lemma KeepsLastSnoc(byID: map<string, TargetInfo>, infos: seq<TargetInfo>, t: TargetInfo)
    requires KeepsLast(byID, infos)
    ensures KeepsLast(byID[t.id := t], infos + [t])
  {
    assert (infos + [t])[..|infos|] == infos;
  }

  method IndexByID(infos: seq<TargetInfo>) returns (byID: map<string, TargetInfo>)
    ensures KeepsLast(byID, infos)
  {
    byID := map[];
    for i := 0 to |infos|
      invariant KeepsLast(byID, infos[..i])
    {
      KeepsLastSnoc(byID, infos[..i], infos[i]);
      assert infos[..i+1] == infos[..i] + [infos[i]];
      byID := byID[infos[i].id := infos[i]];
    }
    assert infos[..|infos|] == infos;
  }

  /** The last target resolved under the id, or, when none was, one that is not ready and that no worker holds. */
  ghost predicate StandsFor(t: TargetInfo, id: string, infos: seq<TargetInfo>) {
    && t.id == id
    && (Names(infos, id) ==>
          exists i :: 0 <= i < |infos| && infos[i] == t && forall j :: i < j < |infos| ==> infos[j].id != id)
    && (!Names(infos, id) ==> t.readiness == NotReady && t.workerID == "" && !t.historicalHolder)
  }

  lemma {:induction false} TargetStandsFor(infos: seq<TargetInfo>, id: string)
    ensures StandsFor(ViewTarget(infos, id), id, infos)
  {
    if infos != [] {
      var n := |infos| - 1;
      if infos[n].id != id {
        TargetStandsFor(infos[..n], id);
        assert infos == infos[..n] + [infos[n]];
        assert Names(infos, id) <==> Names(infos[..n], id);
      }
    }
  }

  /** What was resolved besides: exactly the targets of other ids, in their order. */
  lemma {:induction false} OutsideExactly(infos: seq<TargetInfo>, viewIDs: seq<string>)
    ensures forall t :: multiset(Outside(infos, viewIDs))[t] == if t.id in viewIDs then 0 else multiset(infos)[t]
    ensures KeepsOrder(Outside(infos, viewIDs), infos)
  {
    if infos == [] {
      AllKeepOrder(infos);
    } else {
      var before, t := infos[..|infos|-1], infos[|infos|-1];
      OutsideExactly(before, viewIDs);
      assert infos == before + [t];
      KeepsOrderSnoc(Outside(before, viewIDs), before, t);
    }
  }

  /** A target for every id of the view, and beside them exactly the targets of other ids, in their order. */
  ghost predicate SplitByView(rt: ResolvedTargets, viewIDs: seq<string>) {
    && |rt.queried| == |viewIDs|
    && (forall i :: 0 <= i < |viewIDs| ==> StandsFor(rt.queried[i], viewIDs[i], rt.all))
    && (forall t :: multiset(rt.excluded)[t] == if t.id in viewIDs then 0 else multiset(rt.all)[t])
    && KeepsOrder(rt.excluded, rt.all)
  }

  lemma ReuseTells(infos: seq<TargetInfo>, viewIDs: seq<string>, onlineOnly: bool)
    ensures ReusedTargets(infos, viewIDs, onlineOnly).all == infos
    ensures SplitByView(ReusedTargets(infos, viewIDs, onlineOnly), viewIDs)
  {
    forall i | 0 <= i < |viewIDs| ensures StandsFor(ViewTarget(infos, viewIDs[i]), viewIDs[i], infos) {
      TargetStandsFor(infos, viewIDs[i]);
    }
    OutsideExactly(infos, viewIDs);
    hide StandsFor, KeepsOrder, ViewTarget, Outside;
  }

  /** The reuse branch of resolving a query: the view's ids in their order, and what was resolved besides. */
  method ResolveForReuse(infos: seq<TargetInfo>, viewIDs: seq<string>, onlineOnly: bool) returns (rt: ResolvedTargets)
    ensures rt == ReusedTargets(infos, viewIDs, onlineOnly)
    ensures rt.all == infos && SplitByView(rt, viewIDs)
  {
    hide LastWithID, StandsFor, KeepsOrder;
    var byID := IndexByID(infos);
    rt := ResolvedTargets(infos, [], [], onlineOnly);
    for i := 0 to |viewIDs|
      invariant rt == ResolvedTargets(infos, ViewTargets(infos, viewIDs)[..i], [], onlineOnly)
    {
      var id := viewIDs[i];
      assert if id in byID then LastWithID(infos, id) == Some(byID[id]) else LastWithID(infos, id).None?;
      if id in byID {
        rt := rt.(queried := rt.queried + [byID[id]]);
      } else {
        rt := rt.(queried := rt.queried + [Placeholder(id)]);
      }
    }
    hide KeepsLast;
    var excluded := NotInView(infos, rt.queried, viewIDs);
    rt := rt.(excluded := excluded);
    hide *;
    ReuseTells(infos, viewIDs, onlineOnly);
  }

  method NotInView(infos: seq<TargetInfo>, queried: seq<TargetInfo>, ghost viewIDs: seq<string>)
    returns (excluded: seq<TargetInfo>)
    requires |queried| == |viewIDs| && forall i :: 0 <= i < |queried| ==> queried[i].id == viewIDs[i]
    ensures excluded == Outside(infos, viewIDs)
  {
    var inView: set<string> := {};
    for i := 0 to |queried|
      invariant forall id :: id in inView <==> id in viewIDs[..i]
    {
      inView := inView + {queried[i].id};
    }
    assert viewIDs[..|viewIDs|] == viewIDs;
    excluded := [];
    for i := 0 to |infos|
      invariant excluded == Outside(infos[..i], viewIDs)
    {
      assert infos[..i+1][..i] == infos[..i];
      if infos[i].id !in inView {
        excluded := excluded + [infos[i]];
      }
    }
    assert infos[..|infos|] == infos;
  }

  /** A reused view's targets are a function of their ids, so no id is at home twice. */
  lemma ViewHome(infos: seq<TargetInfo>, viewIDs: seq<string>)
    ensures OneHome(ViewTargets(infos, viewIDs))
  {
    forall t | t in ViewTargets(infos, viewIDs) ensures t == ViewTarget(infos, t.id) {
      var i :| 0 <= i < |viewIDs| && ViewTargets(infos, viewIDs)[i] == t;
    }
  }

  // ----- what a complete page of a reused view covers -----

  /** Nobody is reached under the empty worker id, which only a placeholder or an unplaced target carries. */
  predicate NobodyUnnamed(replies: map<string, Reply>) {
    "" in replies ==> replies[""].DialFailed?
  }

  /** Every target of the view was covered by a usable reply of an asked worker. */
  ghost predicate ViewCovered(q: Query, s: Surroundings, viewIDs: seq<string>) {
    forall id :: id in viewIDs ==>
      Completeness.Covered(FanoutRequest(q.fast, s.generations), s.resolved.queried, s.replies, s.arrival, id)
  }

  /** Every target of the view still resolves. */
  predicate StillResolves(infos: seq<TargetInfo>, viewIDs: seq<string>) {
    forall id :: id in viewIDs ==> Names(infos, id)
  }

  lemma VanishedUncovered(q: Query, s: Surroundings, infos: seq<TargetInfo>, viewIDs: seq<string>, id: string)
    requires s.resolved.queried == ViewTargets(infos, viewIDs) && NobodyUnnamed(s.replies) && !Names(infos, id)
    ensures !Completeness.Covered(FanoutRequest(q.fast, s.generations), s.resolved.queried, s.replies, s.arrival, id)
  {
    forall t | t in s.resolved.queried && t.id == id ensures t.workerID == "" {
      var i :| 0 <= i < |viewIDs| && s.resolved.queried[i] == t;
      assert t == ViewTarget(infos, viewIDs[i]);
    }
  }

  lemma PresentCovered(
    q: Query, s: Surroundings, budget: QueryBudget, rows: seq<Event>, pageMore: bool, byteCut: bool, id: string)
    requires FanoutSearch.Arrives(s.arrival, s.resolved.queried, budget, s.replies) && OneHome(s.resolved.queried)
    requires FanoutSearch.AllFine(
               FanoutSearch.Outcomes(FanoutRequest(q.fast, s.generations), s.resolved.queried, s.replies, s.arrival))
    requires var g := OrderFree.AnswerOf(
                        FanoutRequest(q.fast, s.generations), s.resolved.queried, budget, s.replies, s.arrival);
             Respond(q.fast, s.view, s.resolved, g, rows, pageMore, byteCut).coverage.complete
    requires Names(s.resolved.all, id)
    ensures Completeness.Covered(FanoutRequest(q.fast, s.generations), s.resolved.queried, s.replies, s.arrival, id)
  {
    hide Respond, Completeness.Covered, FanoutSearch.Arrives, FanoutSearch.AllFine, FanoutSearch.Outcomes,
      OrderFree.AnswerOf, OneHome;
    Completeness.CompleteExactly(q, s, budget, rows, pageMore, byteCut);
    var i :| 0 <= i < |s.resolved.all| && s.resolved.all[i].id == id;
    assert s.resolved.all[i] in s.resolved.all;
  }

  /**
   * A complete fresh page of a reused view covers the whole view exactly when every target of the view still resolves.
   */
  lemma CompletePageCoversViewExactly(
    q: Query, s: Surroundings, resp: SearchResponse, infos: seq<TargetInfo>, viewIDs: seq<string>, onlineOnly: bool)
    requires s.resolved == ReusedTargets(infos, viewIDs, onlineOnly) && NobodyUnnamed(s.replies)
    requires FreshPage(q, s, resp) && resp.coverage.complete
    ensures ViewCovered(q, s, viewIDs) <==> StillResolves(infos, viewIDs)
  {
    ViewHome(infos, viewIDs);
    var budget := ReadBudget(s.view.limit, q.budget);
    var limited := s.(view := s.view.(limit := budget.limit));
    var g := OrderFree.AnswerOf(
      FanoutRequest(q.fast, s.generations), s.resolved.queried, budget, s.replies, s.arrival);
    var rows, pageMore, byteCut :| resp == Respond(q.fast, limited.view, s.resolved, g, rows, pageMore, byteCut);
    hide Respond, Completeness.Covered, FanoutSearch.Arrives, FanoutSearch.AllFine, FanoutSearch.Outcomes,
      OrderFree.AnswerOf, ViewTargets, Outside, OneHome, FreshPage, NobodyUnnamed, ReadBudget;
    forall id | Names(infos, id)
      ensures Completeness.Covered(FanoutRequest(q.fast, s.generations), s.resolved.queried, s.replies, s.arrival, id)
    {
      PresentCovered(q, limited, budget, rows, pageMore, byteCut, id);
    }
    forall id | !Names(infos, id)
      ensures !Completeness.Covered(FanoutRequest(q.fast, s.generations), s.resolved.queried, s.replies, s.arrival, id)
    {
      VanishedUncovered(q, s, infos, viewIDs, id);
    }
  }

  /** A vanished target is not even named by the page's coverage. */
  lemma VanishedUnreported(
    q: Query, s: Surroundings, resp: SearchResponse, infos: seq<TargetInfo>, viewIDs: seq<string>, onlineOnly: bool,
    i: nat)
    requires s.resolved == ReusedTargets(infos, viewIDs, onlineOnly) && FreshPage(q, s, resp)
    requires i < |resp.coverage.targets|
    ensures Names(infos, resp.coverage.targets[i].targetID)
  {
    var budget := ReadBudget(s.view.limit, q.budget);
    var req := FanoutRequest(q.fast, s.generations);
    AnswerKeyed(req, s.resolved.queried, budget, s.replies, s.arrival);
    var g := OrderFree.AnswerOf(req, s.resolved.queried, budget, s.replies, s.arrival);
    var rows, pageMore, byteCut :|
      resp == Respond(q.fast, s.view.(limit := budget.limit), s.resolved, g, rows, pageMore, byteCut);
    EntriesMatch(infos, g.coverage, Outside(infos, viewIDs), resp.coverage.targets[i].targetID);
    assert resp.coverage.targets == Entries(infos, g.coverage, Outside(infos, viewIDs));
    hide *;
    assert Lists(resp.coverage.targets, resp.coverage.targets[i].targetID) by { ListsAt(resp.coverage.targets, i); }
  }

  lemma ListsAt(entries: seq<TargetCoverage>, i: nat)
    requires i < |entries|
    ensures Lists(entries, entries[i].targetID)
  {
  }

  // ----- the input on which a complete page leaves a view target unread -----

  /** One target that answered honestly and has no events, one that is gone. */
  function OneGone(q: Query, t: TargetInfo, gone: string, view: View): Surroundings {
    var reply := HonestRuns.HonestReply(FanoutRequest(q.fast, map[]), [t], [], None, 0);
    Surroundings(
      view, ReusedTargets([t], [t.id, gone], false), map[], None,
      map[t.workerID := reply, "" := DialFailed("no worker client")], [t.workerID, ""])
  }

  lemma OneGoneOrder(q: Query, t: TargetInfo, gone: string, view: View)
    requires gone != t.id && t.workerID != ""
    ensures OneGone(q, t, gone, view).resolved.queried == [t, Placeholder(gone)]
    ensures WorkerOrder([t, Placeholder(gone)]) == [t.workerID, ""]
    ensures OfWorker([t, Placeholder(gone)], t.workerID) == [t]
    ensures OfWorker([t, Placeholder(gone)], "") == [Placeholder(gone)]
  {
    var q := [t, Placeholder(gone)];
    assert [t][..0] == [] && q[..1] == [t];
    assert LastWithID([t], t.id) == Some(t);
    assert LastWithID([t], gone).None?;
    assert WorkerOrder([t]) == [t.workerID];
    assert OfWorker([t], t.workerID) == [t] && OfWorker([t], "") == [];
  }

  lemma TwoLaunched(order: seq<string>, budget: QueryBudget)
    requires |order| == 2 && order[0] != order[1] && IsFunded(order, budget, 0) && IsFunded(order, budget, 1)
    ensures FanoutSearch.Launched(order, budget, 2) == order
  {
    assert FanoutSearch.Launched(order, budget, 1) == [order[0]];
  }

  /**
   * Although its comment promises a not-ready entry, the code calls this page complete: the one resolved target
   * answered, and the other target of the view, whose worker could not even be dialled, counts for nothing.
   */
  lemma VanishedTargetLeftUnread(q: Query, t: TargetInfo, gone: string, view: View)
    returns (s: Surroundings, resp: SearchResponse)
    requires BindCursor(q).Ok? && gone != t.id && t.workerID != ""
    requires var budget := ReadBudget(view.limit, BindCursor(q).value.budget);
             IsFunded([t.workerID, ""], budget, 0) && IsFunded([t.workerID, ""], budget, 1)
    ensures s.view == view && s.cached.None? && s.resolved == ReusedTargets([t], [t.id, gone], false)
    ensures NobodyUnnamed(s.replies) && PageOf(q, s, resp) && resp.coverage.complete
    ensures !ViewCovered(q, s, [t.id, gone]) && !StillResolves([t], [t.id, gone])
  {
    s := OneGone(q, t, gone, view);
    OneGoneShape(q, t, gone, view);
    hide *;
    resp := OneGonePage(q, t, gone, view);
    VanishedUncovered(q, s, [t], [t.id, gone], gone);
    GoneIsOfView(q, t, gone, s);
  }

  lemma OneGoneShape(q: Query, t: TargetInfo, gone: string, view: View)
    requires gone != t.id && t.workerID != ""
    ensures var s := OneGone(q, t, gone, view);
            && s.view == view && s.cached.None? && s.resolved == ReusedTargets([t], [t.id, gone], false)
            && s.resolved.queried == ViewTargets([t], [t.id, gone]) && NobodyUnnamed(s.replies) && !Names([t], gone)
  {
    hide ViewTargets, Outside, HonestRuns.HonestReply;
  }

  lemma OneGoneComplete(q: Query, t: TargetInfo, gone: string, view: View, budget: QueryBudget)
    requires gone != t.id && t.workerID != ""
    requires IsFunded([t.workerID, ""], budget, 0) && IsFunded([t.workerID, ""], budget, 1)
    ensures var s := OneGone(q, t, gone, view);
            var req := FanoutRequest(q.fast, s.generations);
            && FanoutSearch.Arrives(s.arrival, s.resolved.queried, budget, s.replies)
            && FanoutSearch.AllFine(FanoutSearch.Outcomes(req, s.resolved.queried, s.replies, s.arrival))
            && var g := OrderFree.AnswerOf(req, s.resolved.queried, budget, s.replies, s.arrival);
               Respond(q.fast, s.view, s.resolved, g, [], false, false).coverage.complete
  {
    var s := OneGone(q, t, gone, view);
    OneGoneArrives(q, t, gone, view, budget);
    OneGoneFine(q, t, gone, view);
    OneGoneCovers(q, t, gone, view);
    OneGoneSummaries(q, t, gone, view);
    assert !(s.resolved.onlineOnly && s.resolved.excluded != []);
    hide Respond, Completeness.Covered, FanoutSearch.Arrives, FanoutSearch.AllFine, FanoutSearch.Outcomes,
      OrderFree.AnswerOf, Completeness.SummariesComplete, Completeness.AllFunded, ReusedTargets, WorkerOrder, OneHome,
      OneGone;
    Completeness.CompleteExactly(q, s, budget, [], false, false);
  }

  /** With no streams the page merges nothing. */
  lemma OneGonePage(q: Query, t: TargetInfo, gone: string, view: View) returns (resp: SearchResponse)
    requires BindCursor(q).Ok? && gone != t.id && t.workerID != ""
    requires var budget := ReadBudget(view.limit, BindCursor(q).value.budget);
             IsFunded([t.workerID, ""], budget, 0) && IsFunded([t.workerID, ""], budget, 1)
    ensures PageOf(q, OneGone(q, t, gone, view), resp) && resp.coverage.complete
  {
    var budget, s := ReadBudget(view.limit, BindCursor(q).value.budget), OneGone(q, t, gone, view);
    assert BindCursor(q).value.fast == q.fast;
    OneGoneComplete(q, t, gone, view, budget);
    OneGoneNoRows(q, t, gone, view, budget);
    OneGoneShape(q, t, gone, view);
    hide *;
    resp := EmptyPage(q, s, budget);
    var g := OrderFree.AnswerOf(FanoutRequest(q.fast, s.generations), s.resolved.queried, budget, s.replies, s.arrival);
    HonestRuns.ViewOnly(q.fast, s.view, s.view.(limit := budget.limit), s.resolved, g, [], false, false);
  }

  lemma EmptyPage(q: Query, s: Surroundings, budget: QueryBudget) returns (resp: SearchResponse)
    requires BindCursor(q).Ok? && BindCursor(q).value.fast == q.fast && s.cached.None?
    requires budget == ReadBudget(s.view.limit, BindCursor(q).value.budget)
    requires FanoutSearch.Arrives(s.arrival, s.resolved.queried, budget, s.replies)
    requires FanoutSearch.AllFine(
               FanoutSearch.Outcomes(FanoutRequest(q.fast, s.generations), s.resolved.queried, s.replies, s.arrival))
    requires OrderFree.AnswerOf(
               FanoutRequest(q.fast, s.generations), s.resolved.queried, budget, s.replies, s.arrival).streams == []
    ensures PageOf(q, s, resp)
    ensures var g := OrderFree.AnswerOf(
                       FanoutRequest(q.fast, s.generations), s.resolved.queried, budget, s.replies, s.arrival);
            resp == Respond(q.fast, s.view.(limit := budget.limit), s.resolved, g, [], false, false)
  {
    var g := OrderFree.AnswerOf(FanoutRequest(q.fast, s.generations), s.resolved.queried, budget, s.replies, s.arrival);
    hide Respond, FanoutSearch.Arrives, FanoutSearch.AllFine, FanoutSearch.Outcomes, OrderFree.AnswerOf, ReadBudget,
      BindCursor, Merged;
    resp := Respond(q.fast, s.view.(limit := budget.limit), s.resolved, g, [], false, false);
    NothingToMerge(budget.limit, budget.maxBytes);
    assert Lanes(g.streams) == [];
  }

  lemma NothingToMerge(limit: nat, maxBytes: nat)
    ensures Merged([], limit, maxBytes, [], false, false, [])
  {
    var none: seq<Event> := [];
    assert multiset(none) == multiset{};
  }

  lemma GoneIsOfView(q: Query, t: TargetInfo, gone: string, s: Surroundings)
    requires gone != t.id
    requires !Completeness.Covered(
                FanoutRequest(q.fast, s.generations), s.resolved.queried, s.replies, s.arrival, gone)
    ensures !ViewCovered(q, s, [t.id, gone]) && !StillResolves([t], [t.id, gone])
  {
    hide Completeness.Covered;
    assert gone in [t.id, gone];
    assert !Names([t], gone);
  }

  lemma OneGoneArrives(q: Query, t: TargetInfo, gone: string, view: View, budget: QueryBudget)
    requires gone != t.id && t.workerID != ""
    requires IsFunded([t.workerID, ""], budget, 0) && IsFunded([t.workerID, ""], budget, 1)
    ensures var s := OneGone(q, t, gone, view);
            && FanoutSearch.Arrives(s.arrival, s.resolved.queried, budget, s.replies)
            && Completeness.AllFunded(s.resolved.queried, budget)
            && OneHome(s.resolved.queried)
  {
    OneGoneOrder(q, t, gone, view);
    TwoLaunched([t.workerID, ""], budget);
    hide ReusedTargets, IsFunded, HonestRuns.HonestReply;
  }

  /** The honest reply without events is accepted. */
  lemma EmptyReplyFine(req: FanoutRequest, t: TargetInfo)
    requires req.generations == map[]
    ensures var out := OutcomeOf(req, t.workerID, [t], HonestRuns.HonestReply(req, [t], [], None, 0));
            out.Ok? && out.value.streams == []
  {
    assert OfWorker([t], t.workerID) == [t] by {
      assert [t][..0] == [];
    }
    HonestRuns.HonestReplies(req, [t], [], None, 0, t.workerID);
    hide CoverMap, HonestRuns.AllWell;
  }

  lemma OneGoneFine(q: Query, t: TargetInfo, gone: string, view: View)
    requires gone != t.id && t.workerID != ""
    ensures var s := OneGone(q, t, gone, view);
            var results := FanoutSearch.Outcomes(
                             FanoutRequest(q.fast, s.generations), s.resolved.queried, s.replies, s.arrival);
            FanoutSearch.AllFine(results) && forall i :: 0 <= i < |results| ==> results[i].value.streams == []
  {
    hide CoverMap, ReusedTargets, HonestRuns.HonestReply;
    OneGoneOrder(q, t, gone, view);
    EmptyReplyFine(FanoutRequest(q.fast, map[]), t);
  }

  lemma OneGoneNoRows(q: Query, t: TargetInfo, gone: string, view: View, budget: QueryBudget)
    requires gone != t.id && t.workerID != ""
    requires var s := OneGone(q, t, gone, view);
             FanoutSearch.Arrives(s.arrival, s.resolved.queried, budget, s.replies)
    ensures var s := OneGone(q, t, gone, view);
            var req := FanoutRequest(q.fast, s.generations);
            && FanoutSearch.AllFine(FanoutSearch.Outcomes(req, s.resolved.queried, s.replies, s.arrival))
            && OrderFree.AnswerOf(req, s.resolved.queried, budget, s.replies, s.arrival).streams == []
  {
    OneGoneFine(q, t, gone, view);
    var s := OneGone(q, t, gone, view);
    hide OneGone, FanoutSearch.Outcomes, FanoutSearch.Arrives, WorkerOrder, AddAll, StreamLe, FanoutSearch.Base,
      SomeUnsettled;
    var order := WorkerOrder(s.resolved.queried);
    var outs := FanoutSearch.Values(FanoutSearch.Outcomes(
      FanoutRequest(q.fast, s.generations), s.resolved.queried, s.replies, s.arrival));
    OrderFree.BaseEmpty(s.resolved.queried, order, budget, |order|);
    NoStreamsAdded(FanoutSearch.Base(s.resolved.queried, order, budget, |order|), outs);
  }

  lemma {:induction false} NoStreamsAdded(base: Gathered, outs: seq<WorkerOutcome>)
    requires base.streams == [] && forall i :: 0 <= i < |outs| ==> outs[i].streams == []
    ensures AddAll(base, outs).streams == []
  {
    hide MergeSummary, Worst;
    if outs != [] {
      NoStreamsAdded(base, outs[..|outs|-1]);
    }
  }

  lemma OneGoneCovers(q: Query, t: TargetInfo, gone: string, view: View)
    requires gone != t.id && t.workerID != ""
    ensures var s := OneGone(q, t, gone, view);
            && s.resolved.all == [t]
            && Completeness.Covered(
                 FanoutRequest(q.fast, s.generations), s.resolved.queried, s.replies, s.arrival, t.id)
  {
    OneGoneOrder(q, t, gone, view);
    assert [t, Placeholder(gone)][..1] == [t];
    assert OfWorker([t], t.workerID) == [t] by {
      assert [t][..0] == [];
    }
    HonestRuns.HonestAnswers(FanoutRequest(q.fast, map[]), [t], [], None, 0, t);
    hide ReusedTargets, Completeness.Answers, WorkerOrder, OfWorker, HonestRuns.HonestReply;
  }

  lemma OneGoneSummaries(q: Query, t: TargetInfo, gone: string, view: View)
    requires t.workerID != ""
    ensures var s := OneGone(q, t, gone, view);
            Completeness.SummariesComplete(FanoutRequest(q.fast, s.generations), s.replies, s.arrival)
  {
    hide ReusedTargets;
  }

  // ----- the export over a reused view -----

  /** Page i was read past the cache with the view's targets as they resolved then. */
  ghost predicate ReusedPage(
    q: Query, s: Surroundings, infos: seq<TargetInfo>, viewIDs: seq<string>, onlineOnly: bool)
  {
    && BindCursor(q).Ok? && s.cached.None?
    && s.resolved == ReusedTargets(infos, viewIDs, onlineOnly) && NobodyUnnamed(s.replies)
  }

  /**
   * A published artifact is read from the whole view exactly when every target of the view still resolved at every one
   * of its pages. After the export has created its view, all its pages take this way.
   */
  lemma ArtifactCoversViewExactly(
    first: Query, env: Export.Environment, qs: seq<Query>, ss: seq<Surroundings>, pages: seq<SearchResponse>,
    infos: seq<seq<TargetInfo>>, viewIDs: seq<string>, onlineOnly: bool,
    limits: Export.ExportBudget, res: Export.ExportResult, encode: Event -> Option<string>)
    requires Export.PagesRead(first, env, qs, ss, pages) && Export.Sound(limits, pages, res, encode)
    requires |infos| == |pages|
    requires forall i :: 0 <= i < |pages| ==> ReusedPage(qs[i], ss[i], infos[i], viewIDs, onlineOnly)
    ensures (forall i :: 0 <= i < |pages| ==> ViewCovered(qs[i], ss[i], viewIDs))
            <==> forall i :: 0 <= i < |pages| ==> StillResolves(infos[i], viewIDs)
  {
    hide ReusedPage, ViewCovered, StillResolves, PageOf;
    forall i | 0 <= i < |pages| ensures ViewCovered(qs[i], ss[i], viewIDs) <==> StillResolves(infos[i], viewIDs) {
      assert Export.WholePage(pages[i]) && PageOf(qs[i], ss[i], pages[i]);
      PageCoversViewExactly(qs[i], ss[i], pages[i], infos[i], viewIDs, onlineOnly);
    }
  }

  lemma PageCoversViewExactly(
    q: Query, s: Surroundings, page: SearchResponse, infos: seq<TargetInfo>, viewIDs: seq<string>, onlineOnly: bool)
    requires PageOf(q, s, page) && ReusedPage(q, s, infos, viewIDs, onlineOnly)
    requires page.coverage.complete
    ensures ViewCovered(q, s, viewIDs) <==> StillResolves(infos, viewIDs)
  {
    hide FreshPage, ReusedTargets, Completeness.Covered, StillResolves, NobodyUnnamed;
    var bound := BindCursor(q).value;
    assert bound.fast == q.fast;
    CompletePageCoversViewExactly(bound, s, page, infos, viewIDs, onlineOnly);
  }
}
