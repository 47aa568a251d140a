/** Target resolution, per-target coverage and the coverage summary. */
module Targets {
  import opened Text
  import opened Sorting

  datatype Readiness = Online | Offline | NotReady | ArchiveMissing | Unsupported | UnknownReadiness

  /** `Other` is any wire text outside the enumeration, the empty text included. */
  datatype CoverageState =
    | StateUnspecified | StateSuccess | StateOffline | StateNotReady | StateArchiveMissing
    | StatePartial | StateStale | StateOther(text: string)

  datatype Enumeration = EnumOpen | EnumExhausted | EnumStale | EnumCancelled | EnumOther

  datatype TargetInfo = TargetInfo(
    id: string, workerTargetID: string, workerID: string, readiness: Readiness,
    historicalHolder: bool, closedVisibleSeq: string, catalogGeneration: string)

  datatype TargetCoverage = TargetCoverage(
    targetID: string, state: CoverageState, reasons: seq<string>,
    closedVisibleSeq: string, catalogGeneration: string, workerID: string, historicalHolder: bool)

  datatype Coverage = Coverage(
    complete: bool, partialReasons: seq<string>, targets: seq<TargetCoverage>,
    enumeration: Enumeration, pending: bool)

  datatype ResolvedTargets = ResolvedTargets(
    all: seq<TargetInfo>, queried: seq<TargetInfo>, excluded: seq<TargetInfo>, onlineOnly: bool)

  // ----- resolution and grouping -----

  function Select(infos: seq<TargetInfo>, online: bool): seq<TargetInfo> {
    if infos == [] then []
    else
      var rest, t := Select(infos[..|infos|-1], online), infos[|infos|-1];
      if t.readiness.Online? == online then rest + [t] else rest
  }

  /** part lists some of the targets of whole, each place once, in the order of whole. */
  ghost predicate KeepsOrder(part: seq<TargetInfo>, whole: seq<TargetInfo>) {
    exists at: seq<nat> :: PlacesIn(at, part, whole)
  }

  ghost predicate PlacesIn(at: seq<nat>, part: seq<TargetInfo>, whole: seq<TargetInfo>) {
    && |at| == |part|
    && (forall i :: 0 <= i < |at| ==> at[i] < |whole| && part[i] == whole[at[i]])
    && (forall i, j :: 0 <= i < j < |at| ==> at[i] < at[j])
  }

  lemma KeepsOrderSnoc(part: seq<TargetInfo>, whole: seq<TargetInfo>, t: TargetInfo)
    requires KeepsOrder(part, whole)
    ensures KeepsOrder(part, whole + [t]) && KeepsOrder(part + [t], whole + [t])
  {
    var at: seq<nat> :| PlacesIn(at, part, whole);
    assert PlacesIn(at, part, whole + [t]);
    assert PlacesIn(at + [|whole|], part + [t], whole + [t]);
  }

  lemma AllKeepOrder(whole: seq<TargetInfo>)
    ensures KeepsOrder(whole, whole)
  {
    assert PlacesIn(seq(|whole|, i requires 0 <= i < |whole| => i), whole, whole);
  }

  /** Both halves keep the given order; one holds the online targets, the other the rest. */
  lemma {:induction false} SelectSplits(infos: seq<TargetInfo>)
    ensures forall t :: t in Select(infos, true) ==> t.readiness == Online
    ensures forall t :: t in Select(infos, false) ==> t.readiness != Online
    ensures KeepsOrder(Select(infos, true), infos) && KeepsOrder(Select(infos, false), infos)
  {
    if infos == [] {
      AllKeepOrder(infos);
    } else {
      var before, t := infos[..|infos|-1], infos[|infos|-1];
      SelectSplits(before);
      assert infos == before + [t];
      KeepsOrderSnoc(Select(before, true), before, t);
      KeepsOrderSnoc(Select(before, false), before, t);
      hide KeepsOrder;
    }
  }

  /**
   * All authorised targets stay in the answer; only an explicit onlineOnly moves some out of the fan-out, namely those
   * that are not online.
   */
  method ResolveTargets(infos: seq<TargetInfo>, onlineOnly: bool) returns (out: ResolvedTargets)
    ensures out.all == infos && out.onlineOnly == onlineOnly
    ensures !onlineOnly ==> out.queried == infos && out.excluded == []
    ensures onlineOnly ==> out.queried == Select(infos, true) && out.excluded == Select(infos, false)
    ensures onlineOnly ==>
              (forall t :: t in out.queried ==> t.readiness == Online) &&
              forall t :: t in out.excluded ==> t.readiness != Online
    ensures KeepsOrder(out.queried, infos) && KeepsOrder(out.excluded, infos)
    ensures multiset(out.queried) + multiset(out.excluded) == multiset(infos)
  {
    hide KeepsOrder;
    out := ResolvedTargets(infos, [], [], onlineOnly);
    for i := 0 to |infos|
      invariant out.all == infos && out.onlineOnly == onlineOnly
      invariant !onlineOnly ==> out.queried == infos[..i] && out.excluded == []
      invariant onlineOnly ==> out.queried == Select(infos[..i], true) && out.excluded == Select(infos[..i], false)
    {
      var t := infos[i];
      assert infos[..i+1][..i] == infos[..i];
      if onlineOnly && t.readiness != Online {
        out := out.(excluded := out.excluded + [t]);
        continue;
      }
      out := out.(queried := out.queried + [t]);
    }
    assert infos[..|infos|] == infos;
    SelectSplits(infos);
    ResolveConserves(infos);
    AllKeepOrder(infos);
    NothingKeepsOrder(infos);
  }

  lemma NothingKeepsOrder(whole: seq<TargetInfo>)
    ensures KeepsOrder([], whole)
  {
    assert PlacesIn([], [], whole);
  }

  /** No target is dropped: each one is queried or excluded, never both. */
  lemma {:induction false} ResolveConserves(infos: seq<TargetInfo>)
    ensures multiset(Select(infos, true)) + multiset(Select(infos, false)) == multiset(infos)
  {
    if infos != [] {
      assert infos == infos[..|infos|-1] + [infos[|infos|-1]];
      ResolveConserves(infos[..|infos|-1]);
    }
  }

  function OfWorker(queried: seq<TargetInfo>, worker: string): seq<TargetInfo> {
    if queried == [] then []
    else
      var rest, t := OfWorker(queried[..|queried|-1], worker), queried[|queried|-1];
      if t.workerID == worker then rest + [t] else rest
  }

  /** The workers in the order they first appear. */
  function WorkerOrder(queried: seq<TargetInfo>): (r: seq<string>)
    ensures Distinct(r)
    ensures forall w :: w in r <==> exists i :: 0 <= i < |queried| && queried[i].workerID == w
  {
    if queried == [] then []
    else
      var before, w := WorkerOrder(queried[..|queried|-1]), queried[|queried|-1].workerID;
      assert queried == queried[..|queried|-1] + [queried[|queried|-1]];
      assert forall v :: v in before <==> exists i :: 0 <= i < |queried| - 1 && queried[i].workerID == v;
      if w in before then before else before + [w]
  }

  /** Groups the queried targets by worker, keeping the order of first appearance. */
  method ByWorker(queried: seq<TargetInfo>) returns (order: seq<string>, groups: map<string, seq<TargetInfo>>)
    ensures order == WorkerOrder(queried)
    ensures forall w :: w in groups <==> w in order
    ensures forall w :: w in groups ==> groups[w] == OfWorker(queried, w)
  {
    order, groups := [], map[];
    for i := 0 to |queried|
      invariant order == WorkerOrder(queried[..i])
      invariant forall w :: w in groups <==> w in order
      invariant forall w :: w in groups ==> groups[w] == OfWorker(queried[..i], w)
      invariant forall w :: w !in groups ==> OfWorker(queried[..i], w) == []
    {
      var t := queried[i];
      assert queried[..i+1][..i] == queried[..i];
      if t.workerID !in groups {
        order := order + [t.workerID];
      }
      groups := groups[t.workerID := (if t.workerID in groups then groups[t.workerID] else []) + [t]];
    }
    assert queried[..|queried|] == queried;
  }

  // ----- coverage of one target -----

  function FromReadiness(r: Readiness): CoverageState {
    match r
    case Online => StateSuccess
    case Offline => StateOffline
    case NotReady => StateNotReady
    case ArchiveMissing => StateArchiveMissing
    case Unsupported => StateNotReady
    case UnknownReadiness => StateUnspecified
  }

  const NOT_QUERYABLE: set<string> :=
    {"log_rpc_unsupported", "online_only_excluded", "missing_coverage", "worker_view_failed"}

  const QUERY_FAILED: set<string> :=
    {"worker_error", "search_failed", "stats_failed", "facets_failed", "fields_failed",
     "empty_worker_response", "target_missing_in_worker_response", "fanout_budget_exceeded"}

  function Downgrade(state: CoverageState, reason: string): CoverageState {
    if state != StateSuccess then state
    else if reason in NOT_QUERYABLE then StateNotReady
    else if reason in QUERY_FAILED then StatePartial
    else if reason == "dial_failed" then StateOffline
    else state
  }

  function DowngradeAll(state: CoverageState, reasons: seq<string>): CoverageState {
    if reasons == [] then state else Downgrade(DowngradeAll(state, reasons[..|reasons|-1]), reasons[|reasons|-1])
  }

  function ReadinessReasons(r: Readiness): seq<string> {
    match r
    case Unsupported => ["log_rpc_unsupported"]
    case ArchiveMissing => ["archive_missing"]
    case Offline => ["offline"]
    case NotReady => ["not_ready"]
    case _ => []
  }

  /** The entry of a target that took no successful part in a query. */
  function CoverageFromReadiness(t: TargetInfo, reasons: seq<string>): (tc: TargetCoverage)
    ensures tc.targetID == t.id
  {
    var rs := reasons + ReadinessReasons(t.readiness);
    TargetCoverage(
      t.id, DowngradeAll(FromReadiness(t.readiness), rs),
      if t.historicalHolder then rs + ["historical_holder"] else rs,
      t.closedVisibleSeq, t.catalogGeneration, t.workerID, t.historicalHolder)
  }

  predicate Failing(reason: string) {
    reason in NOT_QUERYABLE || reason in QUERY_FAILED || reason == "dial_failed"
  }

  lemma {:induction false} DowngradeSuccess(state: CoverageState, reasons: seq<string>)
    ensures DowngradeAll(state, reasons) == StateSuccess <==>
            state == StateSuccess && forall i :: 0 <= i < |reasons| ==> !Failing(reasons[i])
  {
    hide Failing;
    if reasons != [] {
      DowngradeSuccess(state, reasons[..|reasons|-1]);
      DowngradeOne(DowngradeAll(state, reasons[..|reasons|-1]), reasons[|reasons|-1]);
    }
  }

  lemma DowngradeOne(state: CoverageState, reason: string)
    ensures Downgrade(state, reason) == StateSuccess <==> state == StateSuccess && !Failing(reason)
  {
  }

  /** An entry built from readiness is success exactly for an online target with no failing reason. */
  lemma ReadinessSuccess(t: TargetInfo, reasons: seq<string>)
    ensures CoverageFromReadiness(t, reasons).state == StateSuccess <==>
            t.readiness == Online && forall i :: 0 <= i < |reasons| ==> !Failing(reasons[i])
  {
    hide Failing;
    DowngradeSuccess(FromReadiness(t.readiness), reasons + ReadinessReasons(t.readiness));
    assert t.readiness == Online ==> reasons + ReadinessReasons(t.readiness) == reasons;
  }

  /** A target that is not online is told by its readiness, whatever the reasons; reasons only downgrade success. */
  lemma ReadinessTells(t: TargetInfo, reasons: seq<string>)
    ensures var state := CoverageFromReadiness(t, reasons).state;
            && (t.readiness == Offline ==> state == StateOffline)
            && (t.readiness == ArchiveMissing ==> state == StateArchiveMissing)
            && (t.readiness == NotReady || t.readiness == Unsupported ==> state == StateNotReady)
            && (t.readiness == UnknownReadiness ==> state == StateUnspecified)
  {
    DowngradeKeeps(FromReadiness(t.readiness), reasons + ReadinessReasons(t.readiness));
  }

  /** An entry made without an answer gives the reasons it was made with, then its target's readiness as one. */
  lemma ReadinessNamed(t: TargetInfo, reasons: seq<string>)
    ensures var tc := CoverageFromReadiness(t, reasons);
            && reasons <= tc.reasons
            && (t.readiness == Offline ==> "offline" in tc.reasons)
            && (t.readiness == NotReady ==> "not_ready" in tc.reasons)
            && (t.readiness == ArchiveMissing ==> "archive_missing" in tc.reasons)
            && (t.readiness == Unsupported ==> "log_rpc_unsupported" in tc.reasons)
            && (t.historicalHolder ==> tc.historicalHolder && "historical_holder" in tc.reasons)
            && (t.readiness == Online && !t.historicalHolder ==> tc.reasons == reasons)
  {
    assert "offline" in ["offline"] && "not_ready" in ["not_ready"] && "archive_missing" in ["archive_missing"];
    assert "log_rpc_unsupported" in ["log_rpc_unsupported"] && "historical_holder" in ["historical_holder"];
  }

  lemma {:induction false} DowngradeKeeps(state: CoverageState, reasons: seq<string>)
    ensures state != StateSuccess ==> DowngradeAll(state, reasons) == state
  {
    if reasons != [] {
      DowngradeKeeps(state, reasons[..|reasons|-1]);
    }
  }

  /** The first failing reason decides what becomes of an online target. */
  lemma {:induction false} FirstFailingDecides(t: TargetInfo, before: seq<string>, reason: string, rest: seq<string>)
    requires t.readiness == Online && Failing(reason) && forall i :: 0 <= i < |before| ==> !Failing(before[i])
    ensures CoverageFromReadiness(t, before + [reason] + rest).state ==
            if reason == "dial_failed" then StateOffline
            else if reason in {"log_rpc_unsupported", "online_only_excluded", "missing_coverage", "worker_view_failed"}
            then StateNotReady else StatePartial
  {
    var rs := before + [reason] + rest + ReadinessReasons(Online);
    DowngradeSuccess(StateSuccess, before);
    assert (before + [reason])[..|before|] == before;
    DowngradeFrom(before + [reason], rest, StateSuccess);
    assert before + [reason] + rest == rs;
  }

  lemma {:induction false} DowngradeFrom(a: seq<string>, b: seq<string>, state: CoverageState)
    requires DowngradeAll(state, a) != StateSuccess
    ensures DowngradeAll(state, a + b) == DowngradeAll(state, a)
  {
    if b == [] {
      assert a + b == a;
    } else {
      assert (a + b)[..|a + b|-1] == a + b[..|b|-1];
      DowngradeFrom(a, b[..|b|-1], state);
    }
  }

  // ----- the summary -----

  function Upper(s: string): string {
    seq(|s|, i requires 0 <= i < |s| => if 'a' <= s[i] <= 'z' then (s[i] as int - 32) as char else s[i])
  }

  const WIRE_REASONS: set<string> :=
    {"ENGINE_NOT_READY", "LOG_UNSUPPORTED", "LEGACY", "REHYDRATE_FAILED", "BACKLOG", "TRUNCATED", "OFFLINE",
     "ARCHIVE_MISSING", "GAP", "VIEW_STALE", "DUPLICATE_UNRESOLVED", "PERMISSION_REVOKED", "CANCELLED",
     "BUDGET_EXCEEDED", "EXPORT_INCOMPLETE", "RECOVERY_REQUIRED"}

  /** The wire name of a reason, empty when it has none. */
  function NormalizeReason(reason: string): string {
    WireOf(Upper(TrimSpace(reason)))
  }

  function WireOf(upper: string): string {
    if upper in WIRE_REASONS then upper
    else if upper == "ARCHIVE_NOT_RESTORED" then "ARCHIVE_MISSING"
    else if upper == "LOG_RPC_UNSUPPORTED" then "LOG_UNSUPPORTED"
    else if upper in {"NOT_READY", "MISSING_COVERAGE", "TARGET_MISSING_IN_WORKER_RESPONSE",
                      "EMPTY_WORKER_RESPONSE", "WORKER_VIEW_FAILED"} then "ENGINE_NOT_READY"
    else if upper in {"ROW_OR_BYTE_BUDGET_CUT", "FACET_TRUNCATED", "FANOUT_BUDGET_EXCEEDED", "WORKER_TRUNCATED"}
    then "TRUNCATED"
    else if upper in {"JOURNAL_INCOMPLETE", "CONFLICT_GENERATION", "PROJECTION_INCOMPLETE"} then "RECOVERY_REQUIRED"
    else ""
  }

  function ReasonForState(state: CoverageState): (r: string)
    ensures r != ""
  {
    match state
    case StateOffline => "OFFLINE"
    case StateArchiveMissing => "ARCHIVE_MISSING"
    case StateStale => "VIEW_STALE"
    case StatePartial => "GAP"
    case _ => "ENGINE_NOT_READY"
  }

  /** What the wire calls a worker that cannot serve logs, and one that is away. */
  lemma AwayTells()
    ensures NormalizeReason("log_rpc_unsupported") == "LOG_UNSUPPORTED"
    ensures NormalizeReason("offline") == "OFFLINE"
  {
    hide WireOf;
    WireNames();
    WireName("log_rpc_unsupported", "LOG_RPC_UNSUPPORTED");
    WireName("offline", "OFFLINE");
  }

  /** What it calls a cut answer; of a failed dial it knows nothing, so the target's state tells it. */
  lemma CutTells()
    ensures NormalizeReason("worker_truncated") == "TRUNCATED" && NormalizeReason("dial_failed") == ""
  {
    hide WireOf;
    WireNames();
    WireName("worker_truncated", "WORKER_TRUNCATED");
    WireName("dial_failed", "DIAL_FAILED");
  }

  lemma WireName(reason: string, upper: string)
    requires reason != "" && !IsSpace(reason[0]) && !IsSpace(reason[|reason|-1]) && Upper(reason) == upper
    ensures NormalizeReason(reason) == WireOf(upper)
  {
  }

  lemma WireNames()
    ensures WireOf("LOG_RPC_UNSUPPORTED") == "LOG_UNSUPPORTED" && WireOf("OFFLINE") == "OFFLINE"
    ensures WireOf("WORKER_TRUNCATED") == "TRUNCATED" && WireOf("DIAL_FAILED") == ""
  {
  }

  /** An entry none of whose reasons the wire knows is told by its state. */
  lemma StateTells(tc: TargetCoverage)
    requires forall i :: 0 <= i < |tc.reasons| ==> NormalizeReason(tc.reasons[i]) == ""
    ensures tc.state == StateOffline ==> Summarize([tc]) == ["OFFLINE"]
    ensures tc.state == StateArchiveMissing ==> Summarize([tc]) == ["ARCHIVE_MISSING"]
    ensures tc.state == StateStale ==> Summarize([tc]) == ["VIEW_STALE"]
    ensures tc.state == StatePartial ==> Summarize([tc]) == ["GAP"]
    ensures tc.state == StateNotReady || tc.state == StateUnspecified ==> Summarize([tc]) == ["ENGINE_NOT_READY"]
  {
    hide NormalizeReason, AppendAll;
    NothingToAppend(Normalized(tc.reasons));
    assert [tc][..0] == [];
  }

  function AppendUnique(reasons: seq<string>, reason: string): (r: seq<string>)
    ensures Distinct(reasons) ==> Distinct(r)
    ensures reasons <= r
    ensures forall x :: x in r <==> x in reasons || (x == reason && reason != "")
  {
    if reason == "" || reason in reasons then reasons else reasons + [reason]
  }

  function AppendAll(reasons: seq<string>, more: seq<string>): (r: seq<string>)
    ensures Distinct(reasons) ==> Distinct(r)
    ensures reasons <= r
    ensures forall x :: x in r <==> x in reasons || (x in more && x != "")
  {
    if more == [] then reasons else AppendUnique(AppendAll(reasons, more[..|more|-1]), more[|more|-1])
  }

  function Normalized(reasons: seq<string>): seq<string> {
    seq(|reasons|, i requires 0 <= i < |reasons| => NormalizeReason(reasons[i]))
  }

  lemma {:induction false} NothingToAppend(more: seq<string>)
    requires forall i :: 0 <= i < |more| ==> more[i] == ""
    ensures AppendAll([], more) == []
  {
    if more != [] {
      NothingToAppend(more[..|more|-1]);
    }
  }

  /** A target short of success adds its own wire reasons, or its state's when those add nothing new. */
  function AddEntry(reasons: seq<string>, tc: TargetCoverage): (r: seq<string>)
    ensures tc.state == StateSuccess ==> r == reasons
    ensures tc.state != StateSuccess ==> r != []
    ensures Distinct(reasons) ==> Distinct(r)
  {
    if tc.state == StateSuccess then reasons
    else
      var own := AppendAll(reasons, Normalized(tc.reasons));
      if |own| == |reasons| then AppendUnique(own, ReasonForState(tc.state)) else own
  }

  function Summarize(entries: seq<TargetCoverage>): (r: seq<string>)
    ensures Distinct(r)
  {
    if entries == [] then [] else AddEntry(Summarize(entries[..|entries|-1]), entries[|entries|-1])
  }

  /** A summary with an entry of an offline or unsupported target says so, whatever else it says. */
  lemma {:induction false} AwayTold(entries: seq<TargetCoverage>, t: TargetInfo, reasons: seq<string>)
    requires CoverageFromReadiness(t, reasons) in entries
    ensures t.readiness == Offline ==> "OFFLINE" in Summarize(entries)
    ensures t.readiness == Unsupported ==> "LOG_UNSUPPORTED" in Summarize(entries)
  {
    var n, tc := |entries| - 1, CoverageFromReadiness(t, reasons);
    if tc == entries[n] {
      AwayTells();
      ReadinessNamed(t, reasons);
      ReadinessTells(t, reasons);
      hide CoverageFromReadiness, NormalizeReason;
      forall i | 0 <= i < |tc.reasons| ensures NormalizeReason(tc.reasons[i]) in Normalized(tc.reasons) {
        assert Normalized(tc.reasons)[i] == NormalizeReason(tc.reasons[i]);
      }
    } else {
      AwayTold(entries[..n], t, reasons);
      hide CoverageFromReadiness;
    }
  }

  predicate Excluded(t: TargetInfo, excluded: seq<TargetInfo>) {
    exists i :: 0 <= i < |excluded| && excluded[i].id == t.id
  }

  function FirstWithID(infos: seq<TargetInfo>, id: string): (r: TargetInfo)
    requires exists i :: 0 <= i < |infos| && infos[i].id == id
    ensures r in infos && r.id == id
  {
    if infos[0].id == id then infos[0] else FirstWithID(infos[1..], id)
  }

  /** What the summary says of one authorised target: never success unless a worker's entry says so. */
  function EntryFor(t: TargetInfo, byID: map<string, TargetCoverage>, excluded: seq<TargetInfo>): TargetCoverage {
    if t.id in byID then byID[t.id]
    else if Excluded(t, excluded) then CoverageFromReadiness(FirstWithID(excluded, t.id), ["online_only_excluded"])
    else
      var tc := CoverageFromReadiness(t, ["missing_coverage"]);
      if tc.state == StateSuccess then tc.(state := StateNotReady) else tc
  }

  predicate KeyedByTarget(byID: map<string, TargetCoverage>) {
    forall id :: id in byID ==> byID[id].targetID == id
  }

  /** One entry per authorised target, in their order, a repeated id counted once. */
  function Entries(all: seq<TargetInfo>, byID: map<string, TargetCoverage>, excluded: seq<TargetInfo>)
    : seq<TargetCoverage>
  {
    if all == [] then []
    else
      var before, t := all[..|all|-1], all[|all|-1];
      if Excluded(t, before) then Entries(before, byID, excluded)
      else Entries(before, byID, excluded) + [EntryFor(t, byID, excluded)]
  }

  predicate AllSuccess(entries: seq<TargetCoverage>) {
    forall i :: 0 <= i < |entries| ==> entries[i].state == StateSuccess
  }

  lemma {:induction false} SummaryEmpty(entries: seq<TargetCoverage>)
    ensures Summarize(entries) == [] <==> AllSuccess(entries)
  {
    if entries != [] {
      SummaryEmpty(entries[..|entries|-1]);
    }
  }

  predicate Lists(entries: seq<TargetCoverage>, id: string) {
    exists k :: 0 <= k < |entries| && entries[k].targetID == id
  }

  predicate Names(infos: seq<TargetInfo>, id: string) {
    exists i :: 0 <= i < |infos| && infos[i].id == id
  }

  lemma NamesSnoc(infos: seq<TargetInfo>, id: string)
    requires infos != []
    ensures Names(infos, id) <==> Names(infos[..|infos|-1], id) || infos[|infos|-1].id == id
  {
    var n := |infos| - 1;
    if Names(infos[..n], id) {
      var i :| 0 <= i < n && infos[..n][i].id == id;
      assert infos[i].id == id;
    }
    if Names(infos, id) {
      var i :| 0 <= i < |infos| && infos[i].id == id;
      if i < n { assert infos[..n][i].id == id; }
    }
  }

  lemma NamesAny(infos: seq<TargetInfo>)
    requires infos != []
    ensures forall id :: Names(infos, id) <==> Names(infos[..|infos|-1], id) || infos[|infos|-1].id == id
  {
    forall id ensures Names(infos, id) <==> Names(infos[..|infos|-1], id) || infos[|infos|-1].id == id {
      NamesSnoc(infos, id);
    }
  }

  lemma ListsSnoc(entries: seq<TargetCoverage>, tc: TargetCoverage, id: string)
    ensures Lists(entries + [tc], id) <==> Lists(entries, id) || tc.targetID == id
  {
    var all := entries + [tc];
    if k :| 0 <= k < |entries| && entries[k].targetID == id { assert all[k].targetID == id; }
    if tc.targetID == id { assert all[|entries|].targetID == id; }
  }

  lemma EntryKeyed(t: TargetInfo, byID: map<string, TargetCoverage>, excluded: seq<TargetInfo>)
    requires KeyedByTarget(byID)
    ensures EntryFor(t, byID, excluded).targetID == t.id
  {
  }

  /** The entries name exactly the authorised targets, each once. */
  lemma {:induction false} EntriesMatch(
    all: seq<TargetInfo>, byID: map<string, TargetCoverage>, excluded: seq<TargetInfo>, id: string)
    requires KeyedByTarget(byID)
    ensures Lists(Entries(all, byID, excluded), id) <==> Names(all, id)
    ensures forall i, j :: 0 <= i < j < |Entries(all, byID, excluded)| ==>
              Entries(all, byID, excluded)[i].targetID != Entries(all, byID, excluded)[j].targetID
  {
    hide EntryFor, Lists, Names;
    if all == [] {
      NothingListed(id);
    } else {
      var before, t := all[..|all|-1], all[|all|-1];
      var es := Entries(before, byID, excluded);
      NamesSnoc(all, id);
      EntriesMatch(before, byID, excluded, id);
      EntriesMatch(before, byID, excluded, t.id);
      EntryKeyed(t, byID, excluded);
      ExcludedIsNames(t, before);
      if !Excluded(t, before) {
        ListsSnoc(es, EntryFor(t, byID, excluded), id);
        NotListed(es, t.id);
      }
    }
  }

  lemma NothingListed(id: string)
    ensures !Lists([], id) && !Names([], id)
  {
  }

  lemma ExcludedIsNames(t: TargetInfo, infos: seq<TargetInfo>)
    ensures Excluded(t, infos) <==> Names(infos, t.id)
  {
  }

  lemma NotListed(entries: seq<TargetCoverage>, id: string)
    ensures !Lists(entries, id) <==> forall k :: 0 <= k < |entries| ==> entries[k].targetID != id
  {
  }

  /** Without repeated ids the entries follow the authorised targets one by one. */
  lemma {:induction false} EntriesInOrder(
    all: seq<TargetInfo>, byID: map<string, TargetCoverage>, excluded: seq<TargetInfo>)
    requires Distinct(Ids(all))
    ensures |Entries(all, byID, excluded)| == |all|
    ensures forall i :: 0 <= i < |all| ==> Entries(all, byID, excluded)[i] == EntryFor(all[i], byID, excluded)
  {
    hide EntryFor;
    if all != [] {
      var n := |all| - 1;
      assert Ids(all[..n]) == Ids(all)[..n];
      EntriesInOrder(all[..n], byID, excluded);
      assert !Excluded(all[n], all[..n]) by {
        assert forall i :: 0 <= i < n ==> all[..n][i].id == Ids(all)[i] != Ids(all)[n];
      }
      assert forall i :: 0 <= i < n ==> all[..n][i] == all[i];
    }
  }

  /** The last target under an id, as a map filled in order keeps it. */
  function LastWithID(infos: seq<TargetInfo>, id: string): (r: Option<TargetInfo>)
    ensures r.Some? <==> Names(infos, id)
    ensures r.Some? ==> r.value in infos && r.value.id == id
  {
    if infos == [] then None
    else if infos[|infos|-1].id == id then Some(infos[|infos|-1])
    else
      NamesSnoc(infos, id);
      LastWithID(infos[..|infos|-1], id)
  }

  /** No id is at home under two workers. */
  predicate OneHome(infos: seq<TargetInfo>) {
    forall s, t :: s in infos && t in infos && s.id == t.id ==> s.workerID == t.workerID
  }

  function Ids(infos: seq<TargetInfo>): seq<string> {
    seq(|infos|, i requires 0 <= i < |infos| => infos[i].id)
  }

  lemma NoNames()
    ensures forall id :: !Names([], id)
  {
  }

  lemma EntriesSnoc(all: seq<TargetInfo>, i: nat, byID: map<string, TargetCoverage>, excluded: seq<TargetInfo>)
    requires i < |all|
    ensures Entries(all[..i+1], byID, excluded) ==
            if Names(all[..i], all[i].id) then Entries(all[..i], byID, excluded)
            else Entries(all[..i], byID, excluded) + [EntryFor(all[i], byID, excluded)]
    ensures forall id :: Names(all[..i+1], id) <==> Names(all[..i], id) || all[i].id == id
  {
    hide EntryFor;
    assert all[..i+1][..i] == all[..i];
    ExcludedIsNames(all[i], all[..i]);
    forall id ensures Names(all[..i+1], id) <==> Names(all[..i], id) || all[i].id == id {
      NamesSnoc(all[..i+1], id);
    }
  }

  /** The entry of one target: a worker's, an excluded target's, or one for missing coverage. */
  method BuildEntry(t: TargetInfo, byID: map<string, TargetCoverage>, excluded: seq<TargetInfo>)
    returns (tc: TargetCoverage)
    requires KeyedByTarget(byID)
    ensures tc == EntryFor(t, byID, excluded) && tc.targetID == t.id
  {
    EntryKeyed(t, byID, excluded);
    hide CoverageFromReadiness;
    if t.id in byID {
      tc := byID[t.id];
    } else if Excluded(t, excluded) {
      tc := CoverageFromReadiness(FirstWithID(excluded, t.id), ["online_only_excluded"]);
    } else {
      tc := CoverageFromReadiness(t, ["missing_coverage"]);
      if tc.state == StateSuccess {
        tc := tc.(state := StateNotReady);
      }
    }
  }

  /** Appends to entries unless the target was seen. */
  method BuildEntries(all: seq<TargetInfo>, byID: map<string, TargetCoverage>, excluded: seq<TargetInfo>)
    returns (entries: seq<TargetCoverage>)
    requires KeyedByTarget(byID)
    ensures entries == Entries(all, byID, excluded)
  {
    hide EntryFor, Names, Excluded;
    NoNames();
    entries := [];
    var seen: set<string> := {};
    for i := 0 to |all|
      invariant entries == Entries(all[..i], byID, excluded)
      invariant forall id :: id in seen <==> Names(all[..i], id)
    {
      var t := all[i];
      EntriesSnoc(all, i, byID, excluded);
      var tc := BuildEntry(t, byID, excluded);
      if tc.targetID !in seen {
        seen := seen + {tc.targetID};
        entries := entries + [tc];
      }
    }
    assert all[..|all|] == all;
  }

  /** The coverage summary over the given entries. */
  function SummaryOf(
    all: seq<TargetInfo>, byID: map<string, TargetCoverage>, onlineOnly: bool,
    excluded: seq<TargetInfo>, enumeration: Enumeration): Coverage
  {
    var entries := Entries(all, byID, excluded);
    var left := onlineOnly && excluded != [];
    var reasons := Summarize(entries);
    var more := if left then AppendUnique(reasons, "OFFLINE") else reasons;
    Coverage(entries != [] && reasons == [] && !left,
             if entries == [] then AppendUnique(more, "ENGINE_NOT_READY") else more,
             entries, enumeration, false)
  }

  /**
   * The summary is complete exactly when there is a target, every target is success and nothing was left
   * out by onlineOnly, and exactly then it gives no partial reason.
   */
  lemma CompleteExactly(
    all: seq<TargetInfo>, byID: map<string, TargetCoverage>, onlineOnly: bool,
    excluded: seq<TargetInfo>, enumeration: Enumeration)
    requires KeyedByTarget(byID)
    ensures var cov := SummaryOf(all, byID, onlineOnly, excluded, enumeration);
            && (cov.complete <==>
                  all != [] && AllSuccess(Entries(all, byID, excluded)) && !(onlineOnly && excluded != []))
            && (cov.complete <==> cov.partialReasons == [])
            && Distinct(cov.partialReasons)
  {
    var entries := Entries(all, byID, excluded);
    SummaryEmpty(entries);
    if all != [] {
      EntriesMatch(all, byID, excluded, all[0].id);
      assert Names(all, all[0].id);
    }
  }

  /** Builds the summary; each entry short of success adds its reasons. */
  method BuildCoverage(
    all: seq<TargetInfo>, byID: map<string, TargetCoverage>, onlineOnly: bool,
    excluded: seq<TargetInfo>, enumeration: Enumeration)
    returns (cov: Coverage)
    requires KeyedByTarget(byID)
    ensures cov == SummaryOf(all, byID, onlineOnly, excluded, enumeration)
    ensures onlineOnly && excluded != [] ==> !cov.complete && "OFFLINE" in cov.partialReasons
    ensures cov.targets == [] ==> !cov.complete && "ENGINE_NOT_READY" in cov.partialReasons
  {
    var entries := BuildEntries(all, byID, excluded);
    var reasons := CollectReasons(entries);
    var complete := |entries| > 0 && |reasons| == 0;
    if onlineOnly && |excluded| > 0 {
      reasons := AppendUnique(reasons, "OFFLINE");
      complete := false;
    }
    if |entries| == 0 {
      complete := false;
      reasons := AppendUnique(reasons, "ENGINE_NOT_READY");
    }
    cov := Coverage(complete, reasons, entries, enumeration, false);
  }

  /** The partial reasons of every entry short of success. */
  method CollectReasons(entries: seq<TargetCoverage>) returns (reasons: seq<string>)
    ensures reasons == Summarize(entries)
  {
    hide NormalizeReason, ReasonForState;
    reasons := [];
    for i := 0 to |entries|
      invariant reasons == Summarize(entries[..i])
    {
      var tc := entries[i];
      assert entries[..i+1][..i] == entries[..i];
      if tc.state != StateSuccess {
        var before := |reasons|;
        reasons := AppendNormalized(reasons, tc.reasons);
        if |reasons| == before {
          reasons := AppendUnique(reasons, ReasonForState(tc.state));
        }
      }
    }
    assert entries[..|entries|] == entries;
  }

  method AppendNormalized(was: seq<string>, raw: seq<string>) returns (reasons: seq<string>)
    ensures reasons == AppendAll(was, Normalized(raw))
  {
    hide NormalizeReason;
    reasons := was;
    for k := 0 to |raw|
      invariant reasons == AppendAll(was, Normalized(raw)[..k])
    {
      assert Normalized(raw)[..k+1][..k] == Normalized(raw)[..k];
      reasons := AppendUnique(reasons, NormalizeReason(raw[k]));
    }
    assert Normalized(raw)[..|raw|] == Normalized(raw);
  }
}
