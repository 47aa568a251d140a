/** The bounded export: pages are read until the end, and an artifact appears only when nothing is missing. */
module Export {
  import opened Text
  import opened Sorting
  import opened LogTypes
  import opened Dedupe
  import opened Targets
  import opened Budget
  import opened Cursor
  import opened Fanout
  import opened SearchPage
  import opened Paging
  import FanoutSearch
  import OrderFree
  import Merge

  const DEFAULT_EXPORT_ROWS := 10_000
  const DEFAULT_EXPORT_BYTES: nat := 0x400_0000

  datatype ExportBudget = ExportBudget(maxRows: int, maxBytes: nat)
  {
    function Normalize(): (b: ExportBudget)
      ensures b.maxRows > 0 && b.maxBytes > 0
      ensures (maxRows > 0 ==> b.maxRows == maxRows) && (maxBytes > 0 ==> b.maxBytes == maxBytes)
    {
      ExportBudget(if maxRows <= 0 then DEFAULT_EXPORT_ROWS else maxRows,
                   if maxBytes == 0 then DEFAULT_EXPORT_BYTES else maxBytes)
    }
  }

  /** The server's budget, which a request can only tighten. */
  function Effective(server: ExportBudget, request: QueryBudget): (b: ExportBudget)
    ensures b.maxRows > 0 && b.maxBytes > 0
    ensures b.maxRows <= server.Normalize().maxRows && b.maxBytes <= server.Normalize().maxBytes
    ensures request.limit > 0 ==> b.maxRows <= request.limit
    ensures request.maxBytes > 0 ==> b.maxBytes <= request.maxBytes
    ensures b.maxRows in {server.Normalize().maxRows, request.limit}
    ensures b.maxBytes in {server.Normalize().maxBytes, request.maxBytes}
  {
    var s := server.Normalize();
    ExportBudget(if 0 < request.limit < s.maxRows then request.limit else s.maxRows,
                 if 0 < request.maxBytes < s.maxBytes then request.maxBytes else s.maxBytes)
  }

  /** Why the caller stopped fetching pages. */
  datatype ExportCut = ExportCut(budget: bool, rows: bool, bytes: bool, worker: bool)

  datatype ExportResult = ExportResult(
    coverage: Coverage, quality: Quality, items: seq<Event>, incomplete: bool, reasons: seq<string>,
    budgetExceeded: bool, cut: bool, artifact: Option<string>, rowBytes: nat)

  // ----- the artifact gate -----

  predicate QualityFine(q: Quality) {
    DuplicateRank(q.duplicate) < 2 && StatsRank(q.stats) < 2
  }

  /** Fine are all qualities but four, in whatever case they are spelled. */
  lemma QualityFineExactly(q: Quality)
    ensures QualityFine(q) <==>
            && Lower(q.duplicate) != "unresolved" && Lower(q.duplicate) != "conflict"
            && Lower(q.stats) != "partial" && Lower(q.stats) != "unavailable"
  {
  }

  predicate Encodable(items: seq<Event>, encode: Event -> Option<string>) {
    forall i :: 0 <= i < |items| ==> encode(items[i]).Some?
  }

  /** The encoded lines, one after the other. */
  function Lines(items: seq<Event>, encode: Event -> Option<string>): string
    requires Encodable(items, encode)
  {
    if items == [] then "" else Lines(items[..|items|-1], encode) + encode(items[|items|-1]).value
  }

  predicate WithinBudget(limits: ExportBudget, items: seq<Event>) {
    (limits.maxRows > 0 ==> |items| <= limits.maxRows) && (limits.maxBytes > 0 ==> Bytes(items) <= limits.maxBytes)
  }

  /** Everything that must hold before an artifact may be published. */
  predicate Publishable(
    limits: ExportBudget, coverage: Coverage, quality: Quality, items: seq<Event>, cut: ExportCut,
    encode: Event -> Option<string>)
  {
    && coverage.complete
    && !cut.worker && !cut.budget && !cut.rows && !cut.bytes
    && WithinBudget(limits, items)
    && QualityFine(quality)
    && Encodable(items, encode)
    && (limits.maxBytes > 0 ==> |Lines(items, encode)| <= limits.maxBytes)
  }

  /** Builds the result; the artifact is there exactly when the export is publishable, an empty one included. */
  method BuildExportWithCut(
    limits: ExportBudget, coverage: Coverage, quality: Quality, items: seq<Event>, cut: ExportCut,
    encode: Event -> Option<string>)
    returns (res: ExportResult)
    ensures res.coverage == coverage && res.quality == quality && res.items == items && res.cut == cut.worker
    ensures res.rowBytes == Bytes(items)
    ensures res.artifact.Some? <==> !res.incomplete
    ensures res.artifact.Some? <==> Publishable(limits, coverage, quality, items, cut, encode)
    ensures res.artifact.Some? ==> res.artifact.value == Lines(items, encode)
    ensures res.incomplete <==> res.reasons != []
    ensures GateReasons(limits, coverage, |items|, Bytes(items), cut) != [] ==>
              res.reasons == GateReasons(limits, coverage, |items|, Bytes(items), cut)
    ensures res.artifact.Some? ==>
              && Lower(quality.duplicate) != "unresolved" && Lower(quality.duplicate) != "conflict"
              && Lower(quality.stats) != "partial" && Lower(quality.stats) != "unavailable"
    ensures res.budgetExceeded ==> res.incomplete
    ensures cut.budget || cut.rows || cut.bytes || !WithinBudget(limits, items) ==> res.budgetExceeded
  {
    QualityFineExactly(quality);
    hide AppendAll, DuplicateRank, StatsRank, Bytes, Lines, Encodable, Lower;
    var used := SumBytes(items);
    var reasons := GateReasons(limits, coverage, |items|, used, cut);
    var exceeded := cut.budget || cut.rows || cut.bytes || (limits.maxRows > 0 && |items| > limits.maxRows) ||
                    (limits.maxBytes > 0 && used > limits.maxBytes);
    res := ExportResult(coverage, quality, items, true, reasons, exceeded, cut.worker, None, used);
    if |reasons| > 0 {
      return;
    }
    if !QualityFine(quality) {
      res := res.(reasons := ["quality_" + Lower(quality.duplicate), "stats_" + Lower(quality.stats)]);
      return;
    }
    var buf := EncodeLines(items, encode);
    if buf.None? {
      res := res.(reasons := ["artifact_encode_failed"]);
      return;
    }
    if limits.maxBytes > 0 && |buf.value| > limits.maxBytes {
      res := res.(reasons := ["artifact_byte_budget_exceeded"], budgetExceeded := true);
      return;
    }
    res := res.(incomplete := false, artifact := Some(buf.value));
  }

  method SumBytes(items: seq<Event>) returns (used: nat)
    ensures used == Bytes(items)
  {
    hide Event.ApproxBytes;
    used := 0;
    for i := 0 to |items|
      invariant used == Bytes(items[..i])
    {
      assert items[..i+1] == items[..i] + [items[i]];
      BytesSnoc(items[..i], items[i]);
      used := used + items[i].ApproxBytes();
    }
    assert items[..|items|] == items;
  }

  /** Encodes the events one by one and stops at the first that cannot be encoded. */
  method EncodeLines(items: seq<Event>, encode: Event -> Option<string>) returns (buf: Option<string>)
    ensures buf.Some? <==> Encodable(items, encode)
    ensures buf.Some? ==> buf.value == Lines(items, encode)
  {
    var out := "";
    for i := 0 to |items|
      invariant Encodable(items[..i], encode)
      invariant out == Lines(items[..i], encode)
    {
      var line := encode(items[i]);
      if line.None? {
        return None;
      }
      assert items[..i+1][..i] == items[..i];
      out := out + line.value;
    }
    assert items[..|items|] == items;
    return Some(out);
  }

  /** The reasons that stand before any quality or encoding check. */
  function GateReasons(limits: ExportBudget, coverage: Coverage, rows: nat, used: nat, cut: ExportCut): (r: seq<string>)
    ensures r == [] <==>
            coverage.complete && !cut.worker && !cut.budget && !cut.rows && !cut.bytes &&
            (limits.maxRows > 0 ==> rows <= limits.maxRows) && (limits.maxBytes > 0 ==> used <= limits.maxBytes)
  {
    var a := if coverage.complete then [] else AppendAll(["coverage_incomplete"], coverage.partialReasons);
    var b := if cut.worker then AppendUnique(a, "worker_or_list_truncated") else a;
    var c := if cut.budget || cut.rows || cut.bytes then AppendUnique(b, "budget_exceeded") else b;
    var d := if cut.rows then AppendUnique(c, "row_limit_exceeded") else c;
    var e := if cut.bytes then AppendUnique(d, "byte_budget_exceeded") else d;
    var f := if limits.maxRows > 0 && rows > limits.maxRows
             then AppendUnique(AppendUnique(e, "budget_exceeded"), "row_limit_exceeded") else e;
    if limits.maxBytes > 0 && used > limits.maxBytes
    then AppendUnique(AppendUnique(f, "budget_exceeded"), "byte_budget_exceeded") else f
  }

  /** Every reason names its cause, and every cause its reason. */
  lemma GateReasonsTell(limits: ExportBudget, coverage: Coverage, rows: nat, used: nat, cut: ExportCut, x: string)
    ensures var overRows := limits.maxRows > 0 && rows > limits.maxRows;
            var overBytes := limits.maxBytes > 0 && used > limits.maxBytes;
            x in GateReasons(limits, coverage, rows, used, cut) <==>
            || (!coverage.complete && (x == "coverage_incomplete" || (x in coverage.partialReasons && x != "")))
            || (cut.worker && x == "worker_or_list_truncated")
            || ((cut.budget || cut.rows || cut.bytes || overRows || overBytes) && x == "budget_exceeded")
            || ((cut.rows || overRows) && x == "row_limit_exceeded")
            || ((cut.bytes || overBytes) && x == "byte_budget_exceeded")
  {
    hide AppendUnique, AppendAll;
  }

  predicate CoverageHasCut(cov: Coverage) {
    exists i, j :: 0 <= i < |cov.targets| && 0 <= j < |cov.targets[i].reasons| &&
                   cov.targets[i].reasons[j] in {"worker_truncated", "stats_truncated", "fanout_budget_exceeded"}
  }

  // ----- the page loop -----

  /** What the export meets at each page, whatever the page number and query. */
  type Environment = (nat, Query) -> Surroundings

  /** The workers' replies to a search that asks them come in once each. */
  ghost predicate Ready(q: Query, s: Surroundings) {
    BindCursor(q).Ok? && s.cached.None? ==>
      FanoutSearch.Arrives(
        s.arrival, s.resolved.queried, ReadBudget(s.view.limit, BindCursor(q).value.budget), s.replies)
  }

  /** The query of the page after resp. */
  function NextQuery(q: Query, resp: SearchResponse): Query {
    var c := DecodePageCursor(resp.nextCursor);
    q.(cursor := resp.nextCursor, viewID := resp.view.viewID,
       budget := if c.Ok? then q.budget.(limit := c.value.pageLimit) else q.budget)
  }

  /** The pages an export has read, each the answer to the query the page before leads to. */
  ghost predicate PagesRead(
    first: Query, env: Environment, qs: seq<Query>, ss: seq<Surroundings>, pages: seq<SearchResponse>)
  {
    && |qs| == |ss| == |pages|
    && (forall i :: 0 <= i < |pages| ==> ss[i] == env(i, qs[i]) && PageOf(qs[i], ss[i], pages[i]))
    && (forall i :: 0 <= i < |pages| ==> qs[i] == QueryAt(first, pages, i))
  }

  function QueryAt(first: Query, pages: seq<SearchResponse>, i: nat): Query
    requires i <= |pages|
  {
    if i == 0 then first else NextQuery(QueryAt(first, pages, i - 1), pages[i-1])
  }

  /** The first page's query: the export's own view, its page limit, and no byte limit of the request. */
  function FirstQuery(q: Query, viewID: string, limits: ExportBudget): (first: Query)
    ensures first.viewID == viewID && first.budget.maxBytes == 0
    ensures first.budget.limit <= limits.maxRows && first.budget.limit <= 200
    ensures first.budget.limit == limits.maxRows || first.budget.limit == 200
  {
    q.(viewID := viewID,
       budget := q.budget.(limit := if limits.maxRows < DEFAULT_PAGE_LIMIT then limits.maxRows else DEFAULT_PAGE_LIMIT,
                           maxBytes := 0))
  }

  /** A page with a cursor is never empty, whether it is fresh or rebound from the cache. */
  lemma CursorNeedsRows(q: Query, s: Surroundings, resp: SearchResponse)
    requires PageOf(q, s, resp)
    ensures resp.nextCursor.Encoded? ==> resp.items != []
    ensures resp.nextCursor.Encoded? || resp.nextCursor.NoCursor?
  {
    hide Deduped, Duplicated, SummaryOf, FinalCoverage, InWindow, FanoutSearch.Arrives, FanoutSearch.AllFine,
      FanoutSearch.Outcomes, OrderFree.AnswerOf, WorkerOrder, Merge.Merged;
  }

  /** Complete, uncut and of good quality. */
  predicate WholePage(p: SearchResponse) {
    p.coverage.complete && !p.budgetCut && QualityFine(p.quality)
  }

  /** What the export keeps of the pages read so far. */
  ghost predicate Kept(pages: seq<SearchResponse>, items: seq<Event>, quality: Quality, used: nat) {
    && items == Deduped(Items(pages))
    && used == Bytes(Items(pages))
    && (Duplicated(Items(pages)) ==> DuplicateRank(quality.duplicate) >= 2)
    && (QualityFine(quality) ==> items == Items(pages))
    && (QualityFine(quality) <==>
          !Duplicated(Items(pages)) && forall i :: 0 <= i < |pages| ==> QualityFine(pages[i].quality))
  }

  lemma KeptNothing()
    ensures Kept([], [], Quality("", ""), 0)
  {
    assert Items([]) == [];
  }

  /** One page is taken in: its rows joined and deduplicated, its quality merged, its bytes counted. */
  lemma KeptPage(
    pages: seq<SearchResponse>, items: seq<Event>, quality: Quality, used: nat, resp: SearchResponse, after: Quality)
    requires Kept(pages, items, quality, used)
    requires DuplicateRank(after.duplicate) >= DuplicateRank(quality.duplicate)
    requires DuplicateRank(after.duplicate) >= DuplicateRank(resp.quality.duplicate)
    requires StatsRank(after.stats) >= StatsRank(quality.stats)
    requires StatsRank(after.stats) >= StatsRank(resp.quality.stats)
    requires Duplicated(items + resp.items) ==> DuplicateRank(after.duplicate) >= 2
    requires QualityFine(quality) && QualityFine(resp.quality) && !Duplicated(items + resp.items) ==> QualityFine(after)
    ensures Kept(pages + [resp], Deduped(items + resp.items), after, used + Bytes(resp.items))
  {
    hide DuplicateRank, StatsRank, Bytes, Deduped, Duplicated;
    var more := pages + [resp];
    assert more[..|pages|] == pages;
    assert Items(more) == Items(pages) + resp.items;
    DedupeLeft(Items(pages), resp.items);
    BytesSum(Items(pages), resp.items);
    DuplicatedPart(Items(pages), resp.items);
    if QualityFine(after) {
      assert QualityFine(quality);
      DedupeDistinct(items + resp.items);
    }
    if !Duplicated(Items(pages)) {
      DedupeDistinct(Items(pages));
    }
  }

  lemma DuplicatedPart(a: seq<Event>, b: seq<Event>)
    ensures Duplicated(a) ==> Duplicated(a + b)
  {
    if Duplicated(a) {
      var i, j :| 0 <= i < j < |a| && a[i].eventID == a[j].eventID;
      assert (a + b)[i].eventID == (a + b)[j].eventID;
    }
  }

  lemma WorstRanks(dim: Dimension, a: string, b: string)
    ensures Rank(dim, Worst(dim, a, b)) >= Rank(dim, a) && Rank(dim, Worst(dim, a, b)) >= Rank(dim, b)
    ensures Worst(dim, a, b) == a || Worst(dim, a, b) == b
  {
  }

  lemma UnresolvedRank()
    ensures Rank(Duplicates, "unresolved") == 2
  {
    assert Lower("unresolved") == "unresolved";
  }

  /** Merges one page into the accumulated items and quality. */
  method TakePage(
    ghost pages: seq<SearchResponse>, items: seq<Event>, quality: Quality, used: nat, resp: SearchResponse)
    returns (items': seq<Event>, quality': Quality, used': nat)
    requires Kept(pages, items, quality, used)
    ensures Kept(pages + [resp], items', quality', used')
    ensures used' == used + Bytes(resp.items)
  {
    hide Lower, Deduped, Duplicated, Bytes, Kept, DuplicateRank, StatsRank;
    UnresolvedRank();
    var deduped, duplicated := DedupeMergedRows(items + resp.items);
    items', quality' := deduped, quality;
    if duplicated {
      WorstRanks(Duplicates, quality.duplicate, "unresolved");
      quality' := quality'.(duplicate := Worst(Duplicates, quality'.duplicate, "unresolved"));
    }
    WorstRanks(Duplicates, quality'.duplicate, resp.quality.duplicate);
    WorstRanks(Statistics, quality'.stats, resp.quality.stats);
    quality' := Quality(Worst(Duplicates, quality'.duplicate, resp.quality.duplicate),
                        Worst(Statistics, quality'.stats, resp.quality.stats));
    KeptPage(pages, items, quality, used, resp, quality');
    var pageBytes := SumBytes(resp.items);
    used' := used + pageBytes;
  }

  lemma BytesAtLeast(rows: seq<Event>)
    ensures Bytes(rows) >= 32 * |rows|
  {
    if rows != [] {
      BytesAtLeast(rows[..|rows|-1]);
    }
  }

  /** Every page so far was whole, and each but the last one led on to the next. */
  ghost predicate WholeSoFar(pages: seq<SearchResponse>) {
    forall i :: 0 <= i < |pages| ==>
      pages[i].coverage.complete && !pages[i].budgetCut && !pages[i].exhausted && pages[i].nextCursor.Encoded?
  }

  /** Whether to stop after a page, and with which quality and attribution. */
  function StopAfter(limits: ExportBudget, resp: SearchResponse, quality: Quality, rows: nat, used: nat)
    : Option<(Quality, ExportCut)>
  {
    if rows > limits.maxRows || used > limits.maxBytes then
      Some((quality, ExportCut(true, rows > limits.maxRows, used > limits.maxBytes, true)))
    else if resp.budgetCut || !resp.coverage.complete then
      Some((resp.quality, ExportCut(resp.budgetCut, false, false, true)))
    else if resp.exhausted then Some((quality, ExportCut(false, false, false, CoverageHasCut(resp.coverage))))
    else if resp.nextCursor.NoCursor? || rows >= limits.maxRows then
      Some((quality, ExportCut(true, rows >= limits.maxRows, false, true)))
    else None
  }

  /** What a published artifact vouches for. */
  ghost predicate Sound(
    limits: ExportBudget, pages: seq<SearchResponse>, res: ExportResult, encode: Event -> Option<string>)
  {
    && pages != [] && (forall i :: 0 <= i < |pages| ==> WholePage(pages[i]))
    && pages[|pages|-1].exhausted
    && (forall i :: 0 <= i < |pages| - 1 ==> pages[i].nextCursor.Encoded?)
    && !Duplicated(Items(pages)) && res.items == Items(pages)
    && WithinBudget(limits, Items(pages))
    && QualityFine(res.quality)
    && Encodable(Items(pages), encode)
    && res.artifact == Some(Lines(Items(pages), encode))
  }

  /**
   * When an artifact is due: every page is whole and the last one exhausted, no event id comes twice, rows, bytes and
   * encoded lines stay within the limits, every event can be encoded, and no entry of the last page tells of a
   * truncation.
   */
  ghost predicate Publishing(limits: ExportBudget, pages: seq<SearchResponse>, encode: Event -> Option<string>) {
    && pages != [] && pages[|pages|-1].exhausted
    && (forall i :: 0 <= i < |pages| ==>
          pages[i].coverage.complete && !pages[i].budgetCut && QualityFine(pages[i].quality))
    && !Duplicated(Items(pages)) && |Items(pages)| <= limits.maxRows && Bytes(Items(pages)) <= limits.maxBytes
    && Encodable(Items(pages), encode) && |Lines(Items(pages), encode)| <= limits.maxBytes
    && forall tc, r :: tc in pages[|pages|-1].coverage.targets && r in tc.reasons ==>
         r != "worker_truncated" && r != "stats_truncated" && r != "fanout_budget_exceeded"
  }

  lemma NoCutTold(cov: Coverage)
    ensures !CoverageHasCut(cov) <==>
            forall tc, r :: tc in cov.targets && r in tc.reasons ==>
              r != "worker_truncated" && r != "stats_truncated" && r != "fanout_budget_exceeded"
  {
    forall tc, r | tc in cov.targets && r in tc.reasons && !CoverageHasCut(cov)
      ensures r != "worker_truncated" && r != "stats_truncated" && r != "fanout_budget_exceeded"
    {
      var i :| 0 <= i < |cov.targets| && cov.targets[i] == tc;
      var j :| 0 <= j < |tc.reasons| && tc.reasons[j] == r;
      assert cov.targets[i].reasons[j] == r;
    }
    if CoverageHasCut(cov) {
      var i, j :| 0 <= i < |cov.targets| && 0 <= j < |cov.targets[i].reasons| &&
                  cov.targets[i].reasons[j] in {"worker_truncated", "stats_truncated", "fanout_budget_exceeded"};
      assert cov.targets[i] in cov.targets && cov.targets[i].reasons[j] in cov.targets[i].reasons;
    }
  }

  /** The loop stops at once and publishes exactly when an artifact is due. */
  lemma StopPublishes(
    limits: ExportBudget, before: seq<SearchResponse>, resp: SearchResponse, items: seq<Event>, quality: Quality,
    used: nat, encode: Event -> Option<string>)
    requires limits.maxRows > 0 && limits.maxBytes > 0
    requires WholeSoFar(before) && Kept(before + [resp], items, quality, used)
    requires StopAfter(limits, resp, quality, |items|, used).Some?
    ensures var stop := StopAfter(limits, resp, quality, |items|, used).value;
            Publishable(limits, resp.coverage, stop.0, items, stop.1, encode) <==>
            Publishing(limits, before + [resp], encode)
    ensures Publishing(limits, before + [resp], encode) ==>
              items == Items(before + [resp]) && Encodable(items, encode)
  {
    hide Deduped, Duplicated, Bytes, Lines, Encodable, DuplicateRank, StatsRank, CoverageHasCut, Items;
    NoCutTold(resp.coverage);
    var pages := before + [resp];
    assert pages[|pages|-1] == resp;
    assert forall i :: 0 <= i < |before| ==> pages[i] == before[i];
  }

  /** Why a loop that read these pages may have stopped. */
  ghost predicate Stopped(limits: ExportBudget, pages: seq<SearchResponse>) {
    && pages != []
    && var last := pages[|pages|-1];
       last.exhausted || last.budgetCut || !last.coverage.complete || last.nextCursor == NoCursor ||
       |Deduped(Items(pages))| >= limits.maxRows || Bytes(Items(pages)) > limits.maxBytes
  }

  lemma StopsFor(
    limits: ExportBudget, pages: seq<SearchResponse>, before: seq<SearchResponse>, resp: SearchResponse,
    items: seq<Event>, quality: Quality, used: nat)
    requires pages == before + [resp] && Kept(pages, items, quality, used) && WholeSoFar(before)
    requires StopAfter(limits, resp, quality, |items|, used).Some?
    ensures Stopped(limits, pages) && pages[..|pages|-1] == before && WholeSoFar(pages[..|pages|-1])
  {
    hide Deduped, Duplicated, Bytes, DuplicateRank, StatsRank, CoverageHasCut, Items;
    assert pages[|pages|-1] == resp && pages[..|pages|-1] == before;
  }

  /** A stop that still lets an artifact through is a stop at the end of whole pages. */
  lemma StopSound(
    limits: ExportBudget, before: seq<SearchResponse>, resp: SearchResponse, items: seq<Event>, quality: Quality,
    used: nat, encode: Event -> Option<string>, res: ExportResult)
    requires WholeSoFar(before) && Kept(before + [resp], items, quality, used)
    requires StopAfter(limits, resp, quality, |items|, used).Some?
    requires var stop := StopAfter(limits, resp, quality, |items|, used).value;
             && res.quality == stop.0 && res.items == items
             && Publishable(limits, resp.coverage, stop.0, items, stop.1, encode)
             && res.artifact == Some(Lines(items, encode))
    ensures Sound(limits, before + [resp], res, encode)
  {
    hide Deduped, Duplicated, Bytes, Lines, Encodable, DuplicateRank, StatsRank, CoverageHasCut;
  }

  lemma GoesOn(
    limits: ExportBudget, before: seq<SearchResponse>, resp: SearchResponse, quality: Quality,
    rows: nat, was: nat, used: nat)
    requires StopAfter(limits, resp, quality, rows, used).None? && WholeSoFar(before)
    requires resp.nextCursor.Encoded? ==> resp.items != []
    requires resp.nextCursor.Encoded? || resp.nextCursor.NoCursor?
    requires used == was + Bytes(resp.items)
    ensures WholeSoFar(before + [resp]) && was + 32 <= used <= limits.maxBytes
  {
    BytesAtLeast(resp.items);
  }

  /**
   * Exports what a query selects. The loop ends for any environment, after at most one page per 32 bytes of the
   * budget; an artifact is there only when every page was complete, uncut and of good quality, the last one
   * exhausted, no event id came twice, and rows and bytes stay within the tighter of the two budgets.
   */
  method Export(
    q: Query, server: ExportBudget, created: Result<string, string>, env: Environment, encode: Event -> Option<string>)
    returns (r: Result<ExportResult, string>,
             ghost qs: seq<Query>, ghost ss: seq<Surroundings>, ghost pages: seq<SearchResponse>)
    requires forall i, any :: Ready(any, env(i, any))
    ensures r.Ok? ==>
              && (q.viewID == "" ==> created.Ok?)
              && var viewID := if q.viewID == "" then created.value else q.viewID;
                 PagesRead(FirstQuery(q, viewID, Effective(server, q.budget)), env, qs, ss, pages)
    ensures r.Ok? ==> 32 * (|pages| - 1) <= Effective(server, q.budget).maxBytes && pages != []
    ensures r.Ok? ==> (r.value.artifact.None? <==> r.value.incomplete)
    ensures r.Ok? ==> r.value.items == Deduped(Items(pages))
    ensures r.Ok? && r.value.artifact.Some? ==> Sound(Effective(server, q.budget), pages, r.value, encode)
    ensures r.Ok? ==> (r.value.artifact.Some? <==> Publishing(Effective(server, q.budget), pages, encode))
    ensures r.Ok? && r.value.artifact.Some? ==>
              Encodable(Items(pages), encode) && r.value.artifact == Some(Lines(Items(pages), encode))
    ensures r.Ok? ==> Stopped(Effective(server, q.budget), pages)
    ensures r.Ok? ==> WholeSoFar(pages[..|pages|-1])
    ensures r.Err? ==>
              (q.viewID == "" && created.Err?) ||
              (&& (q.viewID == "" ==> created.Ok?)
               && var viewID := if q.viewID == "" then created.value else q.viewID;
                  var first := FirstQuery(q, viewID, Effective(server, q.budget));
                  && PagesRead(first, env, qs, ss, pages) && WholeSoFar(pages)
                  && SearchFails(QueryAt(first, pages, |pages|), env(|pages|, QueryAt(first, pages, |pages|))))
  {
    hide *;
    qs, ss, pages := [], [], [];
    var limits := Effective(server, q.budget);
    var viewID := q.viewID;
    if viewID == "" {
      if created.Err? {
        return Err(created.error), qs, ss, pages;
      }
      viewID := created.value;
    }
    var searchQ := FirstQuery(q, viewID, limits);
    ghost var first := searchQ;
    var items: seq<Event>, quality, used: nat, n: nat := [], Quality("", ""), 0, 0;
    NothingRead(first, env);
    while true
      invariant |pages| == n && PagesRead(first, env, qs, ss, pages) && searchQ == QueryAt(first, pages, n)
      invariant Kept(pages, items, quality, used) && WholeSoFar(pages)
      invariant 32 * n <= used <= limits.maxBytes
      decreases limits.maxBytes - used
    {
      var s := env(n, searchQ);
      assert Ready(searchQ, s);
      var found := SearchReady(searchQ, s);
      if found.Err? {
        return Err(found.error), qs, ss, pages;
      }
      var resp := found.value;
      CursorNeedsRows(searchQ, s, resp);
      ghost var before, was := pages, used;
      items, quality, used := TakePage(pages, items, quality, used, resp);
      ReadOne(first, env, qs, ss, pages, searchQ, s, resp);
      qs, ss, pages := qs + [searchQ], ss + [s], pages + [resp];
      n := n + 1;
      var stop := StopAfter(limits, resp, quality, |items|, used);
      if stop.Some? {
        var res := BuildExportWithCut(limits, resp.coverage, stop.value.0, items, stop.value.1, encode);
        KeptItems(pages, items, quality, used);
        StopPublishes(limits, before, resp, items, quality, used, encode);
        if res.artifact.Some? {
          StopSound(limits, before, resp, items, quality, used, encode, res);
        }
        StopsFor(limits, pages, before, resp, items, quality, used);
        return Ok(res), qs, ss, pages;
      }
      GoesOn(limits, before, resp, quality, |items|, was, used);
      searchQ := NextQuery(searchQ, resp);
    }
  }

  /** The cursor is refused, or a worker asked past the cache ends the search. */
  ghost predicate SearchFails(q: Query, s: Surroundings) {
    BindCursor(q).Err? ||
    (&& s.cached.None? && (forall w :: w in s.arrival ==> w in s.replies)
     && !FanoutSearch.AllFine(FanoutSearch.Outcomes(
           FanoutRequest(q.fast, s.generations), s.resolved.queried, s.replies, s.arrival)))
  }

  method SearchReady(q: Query, s: Surroundings) returns (r: Result<SearchResponse, string>)
    requires Ready(q, s)
    ensures r.Ok? ==> PageOf(q, s, r.value)
    ensures r.Err? ==> SearchFails(q, s)
  {
    assert BindCursor(q).Ok? && s.cached.None? ==> forall w :: w in s.arrival ==> w in s.replies;
    hide PageOf, FanoutSearch.Arrives, FanoutSearch.AllFine, FanoutSearch.Outcomes;
    r := Search(q, s);
  }

  lemma NothingRead(first: Query, env: Environment)
    ensures PagesRead(first, env, [], [], []) && first == QueryAt(first, [], 0)
    ensures Kept([], [], Quality("", ""), 0) && WholeSoFar([])
  {
    KeptNothing();
  }

  lemma KeptItems(pages: seq<SearchResponse>, items: seq<Event>, quality: Quality, used: nat)
    requires Kept(pages, items, quality, used)
    ensures items == Deduped(Items(pages))
  {
  }

  /** One more page read. */
  lemma ReadOne(
    first: Query, env: Environment, qs: seq<Query>, ss: seq<Surroundings>, pages: seq<SearchResponse>,
    q: Query, s: Surroundings, resp: SearchResponse)
    requires PagesRead(first, env, qs, ss, pages) && q == QueryAt(first, pages, |pages|)
    requires s == env(|pages|, q) && PageOf(q, s, resp)
    ensures PagesRead(first, env, qs + [q], ss + [s], pages + [resp])
    ensures QueryAt(first, pages + [resp], |pages| + 1) == NextQuery(q, resp)
  {
    hide PageOf, NextQuery, QueryAt;
    var more := pages + [resp];
    QueryAtSnoc(first, pages, resp);
    forall i | 0 <= i <= |pages| ensures QueryAt(first, more, i) == QueryAt(first, pages, i) {
      QueryAtPrefix(first, pages, resp, i);
    }
  }

  lemma QueryAtSnoc(first: Query, pages: seq<SearchResponse>, resp: SearchResponse)
    ensures QueryAt(first, pages + [resp], |pages| + 1) == NextQuery(QueryAt(first, pages, |pages|), resp)
  {
    hide NextQuery;
    QueryAtPrefix(first, pages, resp, |pages|);
  }

  lemma {:induction false} QueryAtPrefix(first: Query, pages: seq<SearchResponse>, resp: SearchResponse, i: nat)
    requires i <= |pages|
    ensures QueryAt(first, pages + [resp], i) == QueryAt(first, pages, i)
  {
    hide NextQuery;
    if i > 0 {
      QueryAtPrefix(first, pages, resp, i - 1);
    }
  }

  // ----- the export of honest workers -----

  lemma PagesChain(
    first: Query, env: Environment, qs: seq<Query>, ss: seq<Surroundings>, pages: seq<SearchResponse>,
    queried: seq<TargetInfo>, contents: map<string, seq<Event>>)
    requires PagesRead(first, env, qs, ss, pages) && first.cursor == NoCursor
    requires forall i :: 0 <= i < |pages| ==> HonestPage(qs[i], ss[i], queried, contents)
    requires forall i :: 0 <= i < |pages| - 1 ==> pages[i].nextCursor.Encoded?
    ensures Chain(qs, ss, pages, queried, contents)
  {
    hide HonestPage, PageOf;
    forall i | 0 <= i < |pages| ensures Continues(qs[i], pages, i) {
      assert qs[i] == QueryAt(first, pages, i);
    }
  }

  /**
   * What an artifact is worth: read from the start and from honest, unchanging workers, it holds the sorted union
   * of all their events up to deduplication, and exactly that union when no event id repeats.
   */
  lemma ArtifactIsLossless(
    first: Query, env: Environment, qs: seq<Query>, ss: seq<Surroundings>, pages: seq<SearchResponse>,
    queried: seq<TargetInfo>, contents: map<string, seq<Event>>, all: seq<Event>,
    limits: ExportBudget, res: ExportResult, encode: Event -> Option<string>)
    requires PagesRead(first, env, qs, ss, pages) && first.cursor == NoCursor
    requires forall i :: 0 <= i < |pages| ==> HonestPage(qs[i], ss[i], queried, contents)
    requires OneHome(queried) && World(queried, contents) && IsUnion(queried, contents, all)
    requires Sound(limits, pages, res, encode)
    ensures res.items == Deduped(all) && Encodable(res.items, encode) && res.artifact == Some(Lines(res.items, encode))
    ensures !Duplicated(all) ==> res.items == all
  {
    hide HonestPage, World, IsUnion, PageOf, Chain, Deduped, Duplicated, OneHome, Lines, Encodable, WholePage,
      WithinBudget, QualityFine;
    var last := |pages| - 1;
    PagesChain(first, env, qs, ss, pages, queried, contents);
    PagingIsLossless(qs, ss, pages, queried, contents, all);
    assert PageOf(qs[last], ss[last], pages[last]);
    assert HonestPage(qs[last], ss[last], queried, contents);
    ExhaustedEnds(qs[last], ss[last], pages[last], queried, contents);
    DedupeDistinct(Items(pages));
    if !Duplicated(all) {
      DedupeDistinct(all);
    }
  }
}
