/** One fan-out: what each worker's reply becomes, and how the replies are gathered as they arrive. */
module Fanout {
  import opened Text
  import opened LogTypes
  import opened Merge
  import opened Targets
  import opened Budget
  import opened Sorting

  datatype Quality = Quality(duplicate: string, stats: string)

  datatype PositionGap = PositionGap(
    workerID: string, storageNamespace: string, from: string, to: string, reasonCode: string,
    operator: string, atUTC: string, logSourceID: string, sourceGeneration: string)

  datatype WorkerTargetResult = WorkerTargetResult(
    targetID: string, state: CoverageState, reasons: seq<string>,
    closedVisibleSeq: string, catalogGeneration: string)

  datatype WorkerResponse = WorkerResponse(
    viewID: string, items: seq<Event>, targets: seq<WorkerTargetResult>, coverage: Option<Coverage>,
    gaps: seq<PositionGap>, exhausted: bool, truncated: bool, unsupported: bool, error: string, quality: Quality)

  /** How the search call itself ended. */
  datatype Answer = CallFailed(message: string) | NoResponse | Responded(response: WorkerResponse)

  /** The id of a worker view; a view under the empty id counts as not bound. */
  type BoundID = id: string | id != "" witness "v"

  /** What the coordinator meets at one worker; the answer of an unbound worker counts on the fast path only. */
  datatype Reply =
    | Cancelled(message: string)
    | DialFailed(message: string)
    | Unbound(reason: string, answer: Answer)
    | Bound(viewID: BoundID, answer: Answer)

  /** What the request fixes for every worker of one fan-out. */
  datatype FanoutRequest = FanoutRequest(fast: bool, generations: map<string, string>)

  datatype WorkerOutcome = WorkerOutcome(
    workerID: string, streams: seq<EventStream>, coverage: map<string, TargetCoverage>,
    summary: Option<Coverage>, gaps: seq<PositionGap>, cut: bool, open: bool, quality: Quality)

  // ----- one worker -----

  function WorkerTargetID(t: TargetInfo): string {
    if t.workerTargetID != "" then t.workerTargetID else t.id
  }

  /** The last result for a target id, as a map filled in order keeps it. */
  function LastResult(results: seq<WorkerTargetResult>, id: string): (r: Option<WorkerTargetResult>)
    ensures r.Some? ==> r.value in results && r.value.targetID == id
  {
    if results == [] then None
    else if results[|results|-1].targetID == id then Some(results[|results|-1])
    else LastResult(results[..|results|-1], id)
  }

  function FirstResult(results: seq<WorkerTargetResult>, id: string): (r: Option<WorkerTargetResult>)
    ensures r.Some? ==> r.value in results && r.value.targetID == id
  {
    if results == [] then None
    else if results[0].targetID == id then Some(results[0])
    else FirstResult(results[1..], id)
  }

  function FirstNonEmpty(a: string, b: string): string {
    if a != "" then a else b
  }

  /** The worker answered with an error: its own entry is kept, but never as success. */
  function WorkerErrorCoverage(t: TargetInfo, workerID: string, results: seq<WorkerTargetResult>, message: string)
    : (tc: TargetCoverage)
    ensures tc.targetID == t.id && tc.state != StateSuccess
  {
    var own := FirstResult(results, WorkerTargetID(t));
    if own.Some? then
      var r := own.value;
      var state := if r.state == StateOther("") || r.state == StateSuccess then StatePartial else r.state;
      TargetCoverage(t.id, state, r.reasons + ["worker_error", message],
                     r.closedVisibleSeq, r.catalogGeneration, workerID, t.historicalHolder)
    else
      var tc := CoverageFromReadiness(t, ["worker_error", message]);
      if tc.state == StateSuccess then tc.(state := StatePartial) else tc
  }

  function AbsentTargetReasons(results: seq<WorkerTargetResult>): seq<string> {
    if results == [] then ["target_missing_in_worker_response"] else []
  }

  /** The entry of a target in a usable answer. */
  function AnsweredEntry(t: TargetInfo, workerID: string, resp: WorkerResponse): (tc: TargetCoverage)
    ensures tc.targetID == t.id
  {
    var own := LastResult(resp.targets, WorkerTargetID(t));
    if own.None? then
      var tc := CoverageFromReadiness(t, AbsentTargetReasons(resp.targets));
      if resp.targets == [] && tc.state == StateSuccess then tc.(state := StateNotReady) else tc
    else
      var r := own.value;
      var tc := TargetCoverage(
        t.id, r.state, r.reasons, FirstNonEmpty(r.closedVisibleSeq, t.closedVisibleSeq),
        FirstNonEmpty(r.catalogGeneration, t.catalogGeneration), workerID, t.historicalHolder);
      if tc.state == StateSuccess && resp.truncated then
        tc.(state := StatePartial, reasons := tc.reasons + ["worker_truncated"])
      else if tc.state == StateUnspecified then
        tc.(state := StateNotReady, reasons := tc.reasons + ["unspecified_worker_state"])
      else tc
  }

  /** The answer the coordinator goes on to read, if the worker could be asked at all. */
  function Asked(req: FanoutRequest, reply: Reply): Option<Answer> {
    match reply
    case Bound(_, answer) => Some(answer)
    case Unbound(_, answer) => if req.fast then Some(answer) else None
    case _ => None
  }

  /** The response whose rows count. */
  function Usable(req: FanoutRequest, reply: Reply): Option<WorkerResponse> {
    match Asked(req, reply)
    case Some(Responded(resp)) => if resp.unsupported || resp.error != "" then None else Some(resp)
    case _ => None
  }

  /** The coverage entry of one target of one worker. */
  function TargetEntry(req: FanoutRequest, workerID: string, reply: Reply, t: TargetInfo): (tc: TargetCoverage)
    requires !reply.Cancelled?
    ensures tc.targetID == t.id
  {
    match reply
    case DialFailed(message) =>
      var tc := CoverageFromReadiness(t, ["dial_failed", message]);
      if t.readiness == Online then tc.(state := StateOffline) else tc
    case Unbound(reason, _) =>
      if !req.fast then
        var tc := CoverageFromReadiness(t, ["worker_view_failed", reason]);
        if tc.state == StateSuccess then tc.(state := StateNotReady) else tc
      else AnswerEntry(reply.answer, workerID, t)
    case Bound(_, answer) => AnswerEntry(answer, workerID, t)
  }

  function AnswerEntry(answer: Answer, workerID: string, t: TargetInfo): (tc: TargetCoverage)
    ensures tc.targetID == t.id
  {
    match answer
    case CallFailed(message) =>
      var tc := CoverageFromReadiness(t, ["search_failed", message]);
      if t.readiness == Online then tc.(state := StatePartial) else tc
    case NoResponse => CoverageFromReadiness(t, ["empty_worker_response"])
    case Responded(resp) =>
      if resp.unsupported then CoverageFromReadiness(t, ["log_rpc_unsupported"])
      else if resp.error != "" then WorkerErrorCoverage(t, workerID, resp.targets, resp.error)
      else AnsweredEntry(t, workerID, resp)
  }

  /**
   * A target counts as success exactly when its worker could be asked and gave a usable answer that either
   * reports the target as success without truncation, or lists other targets only and the target is online.
   */
  lemma SuccessExactly(req: FanoutRequest, workerID: string, reply: Reply, t: TargetInfo)
    requires !reply.Cancelled?
    ensures TargetEntry(req, workerID, reply, t).state == StateSuccess <==>
            && Usable(req, reply).Some?
            && var resp := Usable(req, reply).value;
               var own := LastResult(resp.targets, WorkerTargetID(t));
               if own.Some? then own.value.state == StateSuccess && !resp.truncated
               else resp.targets != [] && t.readiness == Online
  {
    hide CoverageFromReadiness, WorkerErrorCoverage, Failing;
    match reply
    case DialFailed(message) =>
      ReadinessSuccess(t, ["dial_failed", message]);
    case Unbound(reason, answer) =>
      if req.fast { AnswerSuccess(answer, workerID, t); }
    case Bound(_, answer) =>
      AnswerSuccess(answer, workerID, t);
  }

  /** What becomes of an online target whose worker gives no usable answer; it is never success. */
  lemma FailedEntry(req: FanoutRequest, w: string, reply: Reply, t: TargetInfo)
    requires !reply.Cancelled? && Usable(req, reply).None? && t.readiness == Online
    ensures TargetEntry(req, w, reply, t).state != StateSuccess
    ensures reply.DialFailed? ==> TargetEntry(req, w, reply, t).state == StateOffline
    ensures reply.Unbound? && !req.fast ==> TargetEntry(req, w, reply, t).state == StateNotReady
    ensures Asked(req, reply).Some? ==>
              var answer, state := Asked(req, reply).value, TargetEntry(req, w, reply, t).state;
              && (answer.CallFailed? || answer.NoResponse? ==> state == StatePartial)
              && (answer.Responded? && answer.response.unsupported ==> state == StateNotReady)
  {
    SuccessExactly(req, w, reply, t);
    FailingReasons();
    assert Failing("worker_view_failed") && Failing("search_failed");
    match reply
    case DialFailed(message) =>
    case Unbound(reason, answer) =>
      if req.fast {
        FailedAnswer(answer, w, t);
      } else {
        OnlineState(t, "worker_view_failed", [reason]);
        assert ["worker_view_failed"] + [reason] == ["worker_view_failed", reason];
      }
    case Bound(_, answer) => FailedAnswer(answer, w, t);
  }

  /** The entry of a target that is not online tells its readiness, whichever way its worker fails. */
  lemma FailedElsewhere(req: FanoutRequest, w: string, reply: Reply, t: TargetInfo)
    requires !reply.Cancelled? && t.readiness != Online
    requires Asked(req, reply).Some? ==>
               var answer := Asked(req, reply).value; answer.Responded? ==> answer.response.unsupported
    ensures var state := TargetEntry(req, w, reply, t).state;
            && (t.readiness == Offline ==> state == StateOffline)
            && (t.readiness == ArchiveMissing ==> state == StateArchiveMissing)
            && (t.readiness == NotReady || t.readiness == Unsupported ==> state == StateNotReady)
            && (t.readiness == UnknownReadiness ==> state == StateUnspecified)
  {
    hide CoverageFromReadiness;
    match reply
    case DialFailed(message) =>
      ReadinessTells(t, ["dial_failed", message]);
    case Unbound(reason, answer) =>
      ReadinessTells(t, ["worker_view_failed", reason]);
      if req.fast { FailedAnswerElsewhere(answer, w, t); }
    case Bound(_, answer) => FailedAnswerElsewhere(answer, w, t);
  }

  lemma FailedAnswerElsewhere(answer: Answer, w: string, t: TargetInfo)
    requires t.readiness != Online && (answer.Responded? ==> answer.response.unsupported)
    ensures exists reasons :: AnswerEntry(answer, w, t) == CoverageFromReadiness(t, reasons)
    ensures var state := AnswerEntry(answer, w, t).state;
            && (t.readiness == Offline ==> state == StateOffline)
            && (t.readiness == ArchiveMissing ==> state == StateArchiveMissing)
            && (t.readiness == NotReady || t.readiness == Unsupported ==> state == StateNotReady)
            && (t.readiness == UnknownReadiness ==> state == StateUnspecified)
  {
    hide CoverageFromReadiness, WorkerErrorCoverage, AnsweredEntry;
    match answer
    case CallFailed(message) => ReadinessTells(t, ["search_failed", message]);
    case NoResponse => ReadinessTells(t, ["empty_worker_response"]);
    case Responded(_) => ReadinessTells(t, ["log_rpc_unsupported"]);
  }

  /** The i-th result is the worker's last word on the target, by the name under which the worker knows it. */
  predicate LastWord(results: seq<WorkerTargetResult>, t: TargetInfo, i: nat) {
    var name := if t.workerTargetID == "" then t.id else t.workerTargetID;
    i < |results| && results[i].targetID == name && forall j :: i < j < |results| ==> results[j].targetID != name
  }

  /** The i-th result is its first word on it. */
  predicate FirstWord(results: seq<WorkerTargetResult>, t: TargetInfo, i: nat) {
    var name := if t.workerTargetID == "" then t.id else t.workerTargetID;
    i < |results| && results[i].targetID == name && forall j :: 0 <= j < i ==> results[j].targetID != name
  }

  lemma {:induction false} LastWordCounts(results: seq<WorkerTargetResult>, t: TargetInfo, i: nat)
    requires LastWord(results, t, i)
    ensures LastResult(results, WorkerTargetID(t)) == Some(results[i])
  {
    if i < |results| - 1 {
      LastWordCounts(results[..|results|-1], t, i);
    }
  }

  lemma {:induction false} FirstWordCounts(results: seq<WorkerTargetResult>, t: TargetInfo, i: nat)
    requires FirstWord(results, t, i)
    ensures FirstResult(results, WorkerTargetID(t)) == Some(results[i])
  {
    if i > 0 {
      assert results[0].targetID != WorkerTargetID(t);
      FirstWordCounts(results[1..], t, i - 1);
    }
  }

  /**
   * The worker's last word on a target is what its entry tells: its sequence and generation when it gives them, its
   * state and reasons unless the answer was cut. Under a bound view the generation is the one the view fixed.
   */
  lemma ReportedTells(req: FanoutRequest, w: string, reply: Reply, targets: seq<TargetInfo>, t: TargetInfo, i: nat)
    requires Usable(req, reply).Some? && t in targets && LastWord(Usable(req, reply).value.targets, t, i)
    ensures var resp, tc := Usable(req, reply).value, TargetEntry(req, w, reply, t);
            var own := resp.targets[i];
            && tc.workerID == w
            && (own.closedVisibleSeq != "" ==> tc.closedVisibleSeq == own.closedVisibleSeq)
            && (own.catalogGeneration != "" ==> tc.catalogGeneration == own.catalogGeneration)
            && (own.closedVisibleSeq == "" ==> tc.closedVisibleSeq == t.closedVisibleSeq)
            && (own.catalogGeneration == "" ==> tc.catalogGeneration == t.catalogGeneration)
            && (own.state == StateSuccess && resp.truncated ==>
                  tc.state == StatePartial && tc.reasons == own.reasons + ["worker_truncated"])
            && (own.state == StateUnspecified ==> tc.state == StateNotReady && own.reasons < tc.reasons)
            && (own.state != StateUnspecified && (own.state == StateSuccess ==> !resp.truncated) ==>
                  tc.state == own.state && tc.reasons == own.reasons)
    ensures reply.Bound? && t.id in req.generations && req.generations[t.id] != "" &&
            OutcomeOf(req, w, targets, reply).Ok? ==>
              TargetEntry(req, w, reply, t).catalogGeneration == req.generations[t.id]
  {
    if reply.Bound? {
      BindingTells(req, w, targets, reply);
    }
    LastWordCounts(Usable(req, reply).value.targets, t, i);
    hide OutcomeOf, CoverageFromReadiness, WorkerErrorCoverage, LastResult, LastWord;
  }

  /** With an error the worker's first word on a target counts, but never as success; the error is told. */
  lemma ErrorTells(req: FanoutRequest, w: string, reply: Reply, t: TargetInfo, i: nat)
    requires !reply.Cancelled? && Asked(req, reply).Some? && Asked(req, reply).value.Responded?
    requires var resp := Asked(req, reply).value.response;
             !resp.unsupported && resp.error != "" && FirstWord(resp.targets, t, i)
    ensures var resp, tc := Asked(req, reply).value.response, TargetEntry(req, w, reply, t);
            var own := resp.targets[i];
            && tc.reasons == own.reasons + ["worker_error", resp.error]
            && tc.state ==
               (if own.state == StateSuccess || own.state == StateOther("") then StatePartial else own.state)
            && tc.catalogGeneration == own.catalogGeneration && tc.closedVisibleSeq == own.closedVisibleSeq
  {
    FirstWordCounts(Asked(req, reply).value.response.targets, t, i);
    hide CoverageFromReadiness, FirstResult, FirstWord;
  }

  lemma OnlineState(t: TargetInfo, reason: string, rest: seq<string>)
    requires t.readiness == Online && Failing(reason) && reason != "dial_failed"
    ensures CoverageFromReadiness(t, [reason] + rest).state ==
            if reason in {"log_rpc_unsupported", "online_only_excluded", "missing_coverage", "worker_view_failed"}
            then StateNotReady else StatePartial
  {
    hide CoverageFromReadiness;
    FirstFailingDecides(t, [], reason, rest);
    assert [] + [reason] + rest == [reason] + rest;
  }

  lemma FailedAnswer(answer: Answer, w: string, t: TargetInfo)
    requires t.readiness == Online
    ensures var state := AnswerEntry(answer, w, t).state;
            && (answer.CallFailed? ==> state == StatePartial)
            && (answer.NoResponse? ==> state == StatePartial)
            && (answer.Responded? && answer.response.unsupported ==> state == StateNotReady)
  {
    hide CoverageFromReadiness, WorkerErrorCoverage, AnsweredEntry;
    FailingReasons();
    assert ["empty_worker_response"] + [] == ["empty_worker_response"];
    assert ["log_rpc_unsupported"] + [] == ["log_rpc_unsupported"];
    OnlineState(t, "empty_worker_response", []);
    OnlineState(t, "log_rpc_unsupported", []);
  }

  lemma AnswerSuccess(answer: Answer, workerID: string, t: TargetInfo)
    ensures AnswerEntry(answer, workerID, t).state == StateSuccess <==>
            && answer.Responded? && !answer.response.unsupported && answer.response.error == ""
            && var own := LastResult(answer.response.targets, WorkerTargetID(t));
               if own.Some? then own.value.state == StateSuccess && !answer.response.truncated
               else answer.response.targets != [] && t.readiness == Online
  {
    hide CoverageFromReadiness, WorkerErrorCoverage, Failing;
    FailingReasons();
    match answer
    case CallFailed(message) =>
      ReadinessSuccess(t, ["search_failed", message]);
    case NoResponse =>
      ReadinessSuccess(t, ["empty_worker_response"]);
      assert Failing(["empty_worker_response"][0]);
    case Responded(resp) =>
      ReadinessSuccess(t, ["log_rpc_unsupported"]);
      assert Failing(["log_rpc_unsupported"][0]);
      ReadinessSuccess(t, []);
  }

  lemma FailingReasons()
    ensures Failing("empty_worker_response") && Failing("log_rpc_unsupported")
  {
  }

  // ----- the whole outcome of one worker -----

  /** Whether the answer is bound to the worker view and catalog generations the query view fixed. */
  predicate BindingHolds(req: FanoutRequest, reply: Reply, targets: seq<TargetInfo>, resp: WorkerResponse) {
    reply.Bound? ==>
      && resp.viewID == reply.viewID
      && forall i :: 0 <= i < |targets| && targets[i].id in req.generations && req.generations[targets[i].id] != "" ==>
           var own := LastResult(resp.targets, WorkerTargetID(targets[i]));
           own.Some? && own.value.catalogGeneration == req.generations[targets[i].id]
  }

  function CoverMap(req: FanoutRequest, workerID: string, reply: Reply, targets: seq<TargetInfo>)
    : (m: map<string, TargetCoverage>)
    requires !reply.Cancelled?
    ensures KeyedByTarget(m)
    ensures forall id :: id in m <==> Names(targets, id)
  {
    if targets == [] then map[]
    else
      var t := targets[|targets|-1];
      NamesAny(targets);
      CoverMap(req, workerID, reply, targets[..|targets|-1])[t.id := TargetEntry(req, workerID, reply, t)]
  }

  predicate CutReason(reasons: seq<string>) {
    "BUDGET_EXCEEDED" in reasons || "TRUNCATED" in reasons
  }

  predicate Ongoing(e: Enumeration) {
    e == EnumOpen || e == EnumStale || e == EnumCancelled
  }

  function OwnGaps(workerID: string, gaps: seq<PositionGap>): seq<PositionGap> {
    seq(|gaps|, i requires 0 <= i < |gaps| => gaps[i].(workerID := workerID))
  }

  /** The single stream of a worker with rows: sorted, and tied to its target when it serves just one. */
  function OwnStreams(workerID: string, targets: seq<TargetInfo>, items: seq<Event>): seq<EventStream> {
    if items == [] then []
    else [EventStream(workerID, if |targets| == 1 then targets[0].id else "", SortEvents(items))]
  }

  /** What one worker contributes; an error only for a cancelled call or a broken view binding. */
  function OutcomeOf(req: FanoutRequest, workerID: string, targets: seq<TargetInfo>, reply: Reply)
    : Result<WorkerOutcome, string>
  {
    if reply.Cancelled? then Err(reply.message)
    else
      var usable := Usable(req, reply);
      var coverage := CoverMap(req, workerID, reply, targets);
      if usable.None? then Ok(WorkerOutcome(workerID, [], coverage, None, [], false, false, Quality("", "")))
      else if !BindingHolds(req, reply, targets, usable.value) then Err("view reuse mismatch")
      else
        var resp := usable.value;
        Ok(WorkerOutcome(
             workerID, OwnStreams(workerID, targets, resp.items), coverage, resp.coverage,
             OwnGaps(workerID, resp.gaps),
             (resp.coverage.Some? && CutReason(resp.coverage.value.partialReasons)) || resp.truncated,
             (resp.coverage.Some? && Ongoing(resp.coverage.value.enumeration)) || !resp.exhausted,
             resp.quality))
  }

  /** The worker's usable answer leaves rows out that its place in the order does not show. */
  predicate CutReply(req: FanoutRequest, reply: Reply) {
    && Usable(req, reply).Some?
    && var resp := Usable(req, reply).value;
       resp.truncated ||
       (resp.coverage.Some? && ("BUDGET_EXCEEDED" in resp.coverage.value.partialReasons ||
                                "TRUNCATED" in resp.coverage.value.partialReasons))
  }

  /** The worker's usable answer leaves it open whether more is to come. */
  predicate OpenReply(req: FanoutRequest, reply: Reply) {
    && Usable(req, reply).Some?
    && var resp := Usable(req, reply).value;
       !resp.exhausted ||
       (resp.coverage.Some? &&
        (resp.coverage.value.enumeration == EnumOpen || resp.coverage.value.enumeration == EnumStale ||
         resp.coverage.value.enumeration == EnumCancelled))
  }

  function Rows(streams: seq<EventStream>): seq<Event> {
    if streams == [] then [] else Rows(streams[..|streams|-1]) + streams[|streams|-1].items
  }

  function UsableRows(req: FanoutRequest, reply: Reply): seq<Event> {
    if Usable(req, reply).Some? then Usable(req, reply).value.items else []
  }

  /**
   * What a worker's outcome says of its reply: cut and open as the reply is, an entry for each of its targets, the
   * usable rows newest first, and an error for an answer under another view than the one bound.
   */
  ghost predicate OutcomeMeans(
    req: FanoutRequest, w: string, targets: seq<TargetInfo>, reply: Reply, out: Result<WorkerOutcome, string>)
  {
    && (reply.Bound? && Usable(req, reply).Some? && Usable(req, reply).value.viewID != reply.viewID ==> out.Err?)
    && (out.Ok? ==>
          && (out.value.cut <==> CutReply(req, reply)) && (out.value.open <==> OpenReply(req, reply))
          && (forall id :: id in out.value.coverage <==> Names(targets, id))
          && multiset(Rows(out.value.streams)) == multiset(UsableRows(req, reply))
          && forall s :: s in out.value.streams ==> s.workerID == w && NewestFirst(s.items))
  }

  lemma OutcomeFlags(req: FanoutRequest, w: string, targets: seq<TargetInfo>, reply: Reply)
    ensures OutcomeMeans(req, w, targets, reply, OutcomeOf(req, w, targets, reply))
  {
    if reply.Bound? && Usable(req, reply).Some? {
      BindingTells(req, w, targets, reply);
    }
    if OutcomeOf(req, w, targets, reply).Ok? {
      FlagsTell(req, w, targets, reply);
      OutcomeHolds(req, w, targets, reply);
    }
    hide OutcomeOf, CutReply, OpenReply, Usable, NewestFirst, Names, Rows, UsableRows;
  }

  lemma FlagsTell(req: FanoutRequest, w: string, targets: seq<TargetInfo>, reply: Reply)
    requires OutcomeOf(req, w, targets, reply).Ok?
    ensures OutcomeOf(req, w, targets, reply).value.cut <==> CutReply(req, reply)
    ensures OutcomeOf(req, w, targets, reply).value.open <==> OpenReply(req, reply)
  {
    hide BindingHolds, OwnStreams, OwnGaps, CoverMap, Usable;
  }

  lemma OutcomeHolds(req: FanoutRequest, w: string, targets: seq<TargetInfo>, reply: Reply)
    requires OutcomeOf(req, w, targets, reply).Ok?
    ensures var out := OutcomeOf(req, w, targets, reply).value;
            && (forall id :: id in out.coverage <==> Names(targets, id))
            && multiset(Rows(out.streams)) == multiset(UsableRows(req, reply))
            && forall s :: s in out.streams ==> s.workerID == w && NewestFirst(s.items)
  {
    StreamsHold(w, targets, UsableRows(req, reply));
    hide BindingHolds, OwnStreams, OwnGaps, Names, Rows, NewestFirst, CutReason, Ongoing, Usable;
  }

  lemma StreamsHold(w: string, targets: seq<TargetInfo>, items: seq<Event>)
    ensures multiset(Rows(OwnStreams(w, targets, items))) == multiset(items)
    ensures items == [] ==> OwnStreams(w, targets, items) == []
    ensures forall s :: s in OwnStreams(w, targets, items) ==> s.workerID == w && NewestFirst(s.items)
  {
    SortEventsSorts(items);
    SortedIsNewestFirst(SortEvents(items));
    hide SortEvents, NewestFirst, Sorted;
    var streams := OwnStreams(w, targets, items);
    if items != [] {
      assert streams[..0] == [];
      assert Rows(streams) == SortEvents(items);
    }
  }

  /** What a bound worker must answer under: its own view, and for every target the generation the view fixed. */
  lemma BindingTells(req: FanoutRequest, w: string, targets: seq<TargetInfo>, reply: Reply)
    requires reply.Bound? && Usable(req, reply).Some?
    ensures Usable(req, reply).value.viewID != reply.viewID ==> OutcomeOf(req, w, targets, reply).Err?
    ensures forall t :: t in targets && t.id in req.generations && req.generations[t.id] != "" ==>
              OutcomeOf(req, w, targets, reply).Ok? ==>
                var own := LastResult(Usable(req, reply).value.targets, WorkerTargetID(t));
                own.Some? && own.value.catalogGeneration == req.generations[t.id]
  {
    hide CoverMap, OwnStreams, LastResult;
  }

  /** The same, as the loops that fill the coverage map and sort the rows. */
  method FanoutOne(req: FanoutRequest, workerID: string, targets: seq<TargetInfo>, reply: Reply)
    returns (out: Result<WorkerOutcome, string>)
    ensures out == OutcomeOf(req, workerID, targets, reply)
    ensures OutcomeMeans(req, workerID, targets, reply, out)
  {
    OutcomeFlags(req, workerID, targets, reply);
    hide TargetEntry, SortEvents, CutReason, OutcomeMeans;
    if reply.Cancelled? {
      return Err(reply.message);
    }
    var usable := Usable(req, reply);
    if usable.Some? && !BindingHolds(req, reply, targets, usable.value) {
      return Err("view reuse mismatch");
    }
    var coverage: map<string, TargetCoverage> := map[];
    for i := 0 to |targets|
      invariant coverage == CoverMap(req, workerID, reply, targets[..i])
    {
      assert targets[..i+1][..i] == targets[..i];
      coverage := coverage[targets[i].id := TargetEntry(req, workerID, reply, targets[i])];
    }
    assert targets[..|targets|] == targets;
    if usable.None? {
      return Ok(WorkerOutcome(workerID, [], coverage, None, [], false, false, Quality("", "")));
    }
    var resp := usable.value;
    var cut, open := false, false;
    if resp.coverage.Some? {
      open := Ongoing(resp.coverage.value.enumeration);
      cut := CutReason(resp.coverage.value.partialReasons);
    }
    cut, open := cut || resp.truncated, open || !resp.exhausted;
    var streams := [];
    if |resp.items| > 0 {
      var items := new Event[|resp.items|](i requires 0 <= i < |resp.items| => resp.items[i]);
      assert items[..] == resp.items;
      SortEventsInPlace(items);
      var primary := "";
      if |targets| == 1 {
        primary := targets[0].id;
      }
      streams := [EventStream(workerID, primary, items[..])];
    }
    return Ok(WorkerOutcome(
                workerID, streams, coverage, resp.coverage, OwnGaps(workerID, resp.gaps), cut, open, resp.quality));
  }

  // ----- worst-of merging -----

  function Lower(s: string): string {
    seq(|s|, i requires 0 <= i < |s| => if 'A' <= s[i] <= 'Z' then (s[i] as int + 32) as char else s[i])
  }

  function DuplicateRank(q: string): nat {
    var l := Lower(q);
    if l == "conflict" then 3 else if l == "unresolved" then 2 else if l == "exact" then 1 else 0
  }

  function StatsRank(q: string): nat {
    var l := Lower(q);
    if l == "unavailable" then 3 else if l == "partial" then 2 else if l == "exact" then 1 else 0
  }

  /** Two texts that differ in nothing but the case of their letters. */
  predicate SameButCase(a: string, b: string) {
    |a| == |b| &&
    forall i :: 0 <= i < |a| ==>
      || a[i] == b[i]
      || ('A' <= a[i] <= 'Z' && b[i] as int == a[i] as int + 32)
      || ('A' <= b[i] <= 'Z' && a[i] as int == b[i] as int + 32)
  }

  lemma RankIgnoresCase(dim: Dimension, a: string, b: string)
    requires SameButCase(a, b)
    ensures Rank(dim, a) == Rank(dim, b)
  {
    assert Lower(a) == Lower(b);
  }

  datatype Dimension = Duplicates | Statistics

  function Rank(dim: Dimension, q: string): nat {
    if dim == Duplicates then DuplicateRank(q) else StatsRank(q)
  }

  /** The worse of two quality texts; the first one stays on a tie. */
  function Worst(dim: Dimension, a: string, b: string): string {
    if Rank(dim, b) > Rank(dim, a) then b else a
  }

  function EnumRank(e: Enumeration): nat {
    match e
    case EnumCancelled => 4
    case EnumStale => 3
    case EnumOpen => 2
    case EnumExhausted => 1
    case EnumOther => 0
  }

  /** `mergeWorkerCoverage`: completeness and reasons accumulate, the worse enumeration wins. */
  function MergeSummary(dst: Coverage, src: Option<Coverage>): Coverage {
    if src.None? then dst
    else
      dst.(complete := dst.complete && src.value.complete,
           partialReasons := AppendAll(dst.partialReasons, src.value.partialReasons),
           enumeration := if EnumRank(src.value.enumeration) > EnumRank(dst.enumeration)
                          then src.value.enumeration else dst.enumeration)
  }

  // ----- gathering -----

  datatype Gathered = Gathered(
    streams: seq<EventStream>, coverage: map<string, TargetCoverage>, quality: Quality,
    cut: bool, open: bool, summary: Coverage, gaps: seq<PositionGap>)

  function Add(g: Gathered, o: WorkerOutcome): Gathered {
    Gathered(
      g.streams + o.streams, g.coverage + o.coverage,
      Quality(Worst(Duplicates, g.quality.duplicate, o.quality.duplicate),
              Worst(Statistics, g.quality.stats, o.quality.stats)),
      g.cut || o.cut, g.open || o.open, MergeSummary(g.summary, o.summary), g.gaps + o.gaps)
  }

  function AddAll(g: Gathered, outs: seq<WorkerOutcome>): Gathered {
    if outs == [] then g else Add(AddAll(g, outs[..|outs|-1]), outs[|outs|-1])
  }

  function StreamKey(s: EventStream): seq<string> {
    [s.workerID]
  }

  function GapKey(g: PositionGap): seq<string> {
    [g.workerID, g.logSourceID, g.sourceGeneration, g.storageNamespace]
  }

  predicate StreamLe(a: EventStream, b: EventStream) {
    CompareFields(StreamKey(a), StreamKey(b)) <= 0
  }

  predicate GapLe(a: PositionGap, b: PositionGap) {
    CompareFields(GapKey(a), GapKey(b)) <= 0
  }

  predicate SomeUnsettled(coverage: map<string, TargetCoverage>) {
    exists id :: id in coverage && (coverage[id].state == StatePartial || coverage[id].state == StateStale)
  }

  /** The worst of the enumerations the workers report stands: cancelled, then stale, then open, then exhausted. */
  lemma {:induction false} EnumerationWorst(g: Gathered, outs: seq<WorkerOutcome>)
    ensures var e := AddAll(g, outs).summary.enumeration;
            && (e == EnumCancelled <==> Reports(g, outs, EnumCancelled))
            && (e == EnumStale <==> !Reports(g, outs, EnumCancelled) && Reports(g, outs, EnumStale))
            && (e == EnumOpen <==>
                  !Reports(g, outs, EnumCancelled) && !Reports(g, outs, EnumStale) && Reports(g, outs, EnumOpen))
            && (e == EnumOther ==> !Reports(g, outs, EnumExhausted))
  {
    if outs != [] {
      var n := |outs| - 1;
      assert outs == outs[..n] + [outs[n]];
      EnumerationWorst(g, outs[..n]);
      forall e ensures Reports(g, outs, e) <==>
                         Reports(g, outs[..n], e) ||
                         (outs[n].summary.Some? && outs[n].summary.value.enumeration == e) {
      }
    }
  }

  ghost predicate Reports(g: Gathered, outs: seq<WorkerOutcome>, e: Enumeration) {
    g.summary.enumeration == e || exists o :: o in outs && o.summary.Some? && o.summary.value.enumeration == e
  }

  /** A partial or stale entry is held against the duplicate quality, and nothing else is. */
  lemma UnsettledDegrades(g: Gathered)
    ensures forall id :: id in g.coverage && g.coverage[id].state in {StatePartial, StateStale} ==>
              DuplicateRank(Finish(g).quality.duplicate) >= 2
    ensures DuplicateRank(Finish(g).quality.duplicate) >= DuplicateRank(g.quality.duplicate)
    ensures (forall id :: id in g.coverage ==> g.coverage[id].state !in {StatePartial, StateStale}) ==>
              Finish(g).quality == g.quality
    ensures Finish(g).quality.stats == g.quality.stats
  {
    hide SortBy;
    assert Lower("unresolved") == "unresolved";
  }

  /** What the fan-out does once every reply is in: order the streams and gaps, degrade the quality. */
  function Finish(g: Gathered): Gathered {
    g.(streams := SortBy(g.streams, StreamLe),
       quality := if SomeUnsettled(g.coverage)
                  then g.quality.(duplicate := Worst(Duplicates, g.quality.duplicate, "unresolved")) else g.quality,
       gaps := SortBy(g.gaps, GapLe))
  }
}
