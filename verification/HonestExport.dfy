/** An export over honest workers: whatever its merges choose, it publishes the artifact of all their events. */
module HonestExport {
  import opened Text
  import opened LogTypes
  import opened Targets
  import opened Dedupe
  import opened Budget
  import opened Fanout
  import opened SearchPage
  import opened Paging
  import opened Cursor
  import opened HonestRuns
  import FanoutSearch
  import Export

  // ----- any run of the page loop -----

  lemma Unsnoc<T>(s: seq<T>) returns (before: seq<T>, last: T)
    requires s != []
    ensures s == before + [last] && before == s[..|s|-1] && last == s[|s|-1]
  {
    before, last := s[..|s|-1], s[|s|-1];
  }

  lemma PrefixRead(
    first: Query, env: Export.Environment, qs: seq<Query>, ss: seq<Surroundings>, pages: seq<SearchResponse>,
    q: Query, s: Surroundings, resp: SearchResponse)
    requires |qs| == |ss| == |pages| && Export.PagesRead(first, env, qs + [q], ss + [s], pages + [resp])
    ensures Export.PagesRead(first, env, qs, ss, pages)
    ensures q == Export.QueryAt(first, pages, |pages|) && s == env(|pages|, q) && PageOf(q, s, resp)
  {
    hide PageOf, Export.QueryAt;
    var more, n := pages + [resp], |pages|;
    forall i | 0 <= i <= n ensures Export.QueryAt(first, more, i) == Export.QueryAt(first, pages, i) {
      Export.QueryAtPrefix(first, pages, resp, i);
    }
    assert (qs + [q])[n] == q && (ss + [s])[n] == s && more[n] == resp;
    forall i | 0 <= i < n ensures qs[i] == (qs + [q])[i] && ss[i] == (ss + [s])[i] && pages[i] == more[i] {
    }
  }

  /** A run without its last page, and how that page was read. */
  lemma LastRead(
    first: Query, site: Site, qs: seq<Query>, ss: seq<Surroundings>, pages: seq<SearchResponse>)
    returns (qs0: seq<Query>, ss0: seq<Surroundings>, before: seq<SearchResponse>, q: Query, s: Surroundings,
             resp: SearchResponse)
    requires Export.PagesRead(first, SiteEnv(site), qs, ss, pages) && pages != []
    ensures qs == qs0 + [q] && ss == ss0 + [s] && pages == before + [resp]
    ensures Export.PagesRead(first, SiteEnv(site), qs0, ss0, before)
    ensures q == Export.QueryAt(first, before, |before|) && s == HonestSurroundings(q, site) && PageOf(q, s, resp)
    ensures Export.QueryAt(first, pages, |pages|) == Export.NextQuery(q, resp)
    ensures before == pages[..|pages|-1] && resp == pages[|pages|-1]
  {
    PagesPaired(first, site, qs, ss, pages);
    hide *;
    qs0, q := Unsnoc(qs);
    ss0, s := Unsnoc(ss);
    before, resp := Unsnoc(pages);
    PrefixRead(first, SiteEnv(site), qs0, ss0, before, q, s, resp);
    SiteMeets(site, |before|, q);
    Export.QueryAtSnoc(first, before, resp);
  }

  lemma SiteMeets(site: Site, i: nat, q: Query)
    ensures SiteEnv(site)(i, q) == HonestSurroundings(q, site)
  {
    hide HonestSurroundings;
  }

  lemma WholeBefore(before: seq<SearchResponse>, resp: SearchResponse)
    requires Export.WholeSoFar(before + [resp])
    ensures Export.WholeSoFar(before) && !resp.exhausted
  {
    assert (before + [resp])[|before|] == resp;
    assert forall i :: 0 <= i < |before| ==> before[i] == (before + [resp])[i];
  }

  /** Every run of the loop over an honest site has read whole pages with the first events, as far as it has come. */
  lemma {:induction false} RunStands(
    first: Query, site: Site, all: seq<Event>, qs: seq<Query>, ss: seq<Surroundings>, pages: seq<SearchResponse>)
    returns (m: nat)
    requires first.cursor == NoCursor && Spacious(first, site, all) && Pageable(first, site)
    requires Export.PagesRead(first, SiteEnv(site), qs, ss, pages) && Export.WholeSoFar(pages)
    ensures ReadSoFar(first, site, all, qs, ss, pages, Export.QueryAt(first, pages, |pages|), m)
    decreases |pages|
  {
    if pages == [] {
      PagesPaired(first, site, qs, ss, pages);
      m := 0;
      ReadNothing(first, site, all);
    } else {
      hide *;
      var qs0, ss0, before, q, s, resp := LastRead(first, site, qs, ss, pages);
      WholeBefore(before, resp);
      var was := RunStands(first, site, all, qs0, ss0, before);
      m := RunTakes(first, site, all, qs0, ss0, before, q, was, s, resp);
    }
  }

  /** One more page of a run that goes on. */
  lemma RunTakes(
    first: Query, site: Site, all: seq<Event>, qs: seq<Query>, ss: seq<Surroundings>, pages: seq<SearchResponse>,
    q: Query, was: nat, s: Surroundings, resp: SearchResponse)
    returns (m: nat)
    requires ReadSoFar(first, site, all, qs, ss, pages, q, was)
    requires s == HonestSurroundings(q, site) && PageOf(q, s, resp)
    ensures NextPage(q, site, all, was, s, resp) && m == was + |resp.items|
    ensures resp.exhausted ==> AllRead(first, site, all, qs + [q], ss + [s], pages + [resp])
    ensures !resp.exhausted ==>
              ReadSoFar(first, site, all, qs + [q], ss + [s], pages + [resp], Export.NextQuery(q, resp), m)
  {
    hide *;
    StandsAt(first, site, all, qs, ss, pages, q, was);
    PageIsNext(q, site, all, was, s, resp);
    TakeOneMore(first, site, all, qs, ss, pages, q, was, s, resp);
    m := was + |resp.items|;
  }

  /** A run that has stopped has read everything. */
  lemma StoppedRunIsWhole(
    first: Query, site: Site, all: seq<Event>, qs: seq<Query>, ss: seq<Surroundings>, pages: seq<SearchResponse>,
    limits: Export.ExportBudget)
    requires first.cursor == NoCursor && Spacious(first, site, all) && Pageable(first, site)
    requires Export.PagesRead(first, SiteEnv(site), qs, ss, pages)
    requires Export.Stopped(limits, pages) && Export.WholeSoFar(pages[..|pages|-1])
    requires |all| <= limits.maxRows && Bytes(all) <= limits.maxBytes
    ensures AllRead(first, site, all, qs, ss, pages)
  {
    StoppedHasPages(limits, pages);
    hide *;
    var qs0, ss0, before, q, s, resp := LastRead(first, site, qs, ss, pages);
    var was := RunStands(first, site, all, qs0, ss0, before);
    var m := RunTakes(first, site, all, qs0, ss0, before, q, was, s, resp);
    if !resp.exhausted {
      GoesOnReading(first, site, all, qs, ss, before, q, was, s, resp, m, limits);
    }
  }

  lemma StoppedHasPages(limits: Export.ExportBudget, pages: seq<SearchResponse>)
    requires Export.Stopped(limits, pages)
    ensures pages != []
  {
    hide Bytes, Deduped, Items;
  }

  /** A page that is not the last gives the loop no reason to stop. */
  lemma GoesOnReading(
    first: Query, site: Site, all: seq<Event>, qs: seq<Query>, ss: seq<Surroundings>, before: seq<SearchResponse>,
    q: Query, was: nat, s: Surroundings, resp: SearchResponse, m: nat, limits: Export.ExportBudget)
    requires NextPage(q, site, all, was, s, resp) && !resp.exhausted && m == was + |resp.items|
    requires ReadSoFar(first, site, all, qs, ss, before + [resp], Export.NextQuery(q, resp), m)
    requires |all| <= limits.maxRows && Bytes(all) <= limits.maxBytes
    ensures !Export.Stopped(limits, before + [resp])
  {
    hide *;
    LastPageFacts(q, site, all, was, s, resp);
    ReadItems(first, site, all, qs, ss, before + [resp], Export.NextQuery(q, resp), m);
    PrefixBytes(all, m);
    NoReasonToStop(all, m, before, resp, limits);
  }

  lemma PrefixBytes(all: seq<Event>, m: nat)
    requires m <= |all|
    ensures Bytes(all[..m]) <= Bytes(all) && |all[..m]| == m
  {
    hide Bytes;
    BytesOfSlice(all, 0, m);
    assert all[0..m] == all[..m];
  }

  lemma NoReasonToStop(
    all: seq<Event>, m: nat, before: seq<SearchResponse>, resp: SearchResponse, limits: Export.ExportBudget)
    requires m < |all| <= limits.maxRows && Items(before + [resp]) == all[..m]
    requires Bytes(all[..m]) <= limits.maxBytes
    requires !resp.exhausted && resp.nextCursor.Encoded? && resp.coverage.complete && !resp.budgetCut
    ensures !Export.Stopped(limits, before + [resp])
  {
    hide Bytes, Deduped, Items;
    assert (before + [resp])[|before|] == resp;
  }

  lemma LastPageFacts(q: Query, site: Site, all: seq<Event>, m: nat, s: Surroundings, last: SearchResponse)
    requires NextPage(q, site, all, m, s, last) && !last.exhausted
    ensures m + |last.items| < |all| && last.nextCursor.Encoded? && last.coverage.complete && !last.budgetCut
  {
    hide PageOf, HonestPage, NextRows, Export.CoverageHasCut, Export.QualityFine;
  }

  lemma ReadItems(
    first: Query, site: Site, all: seq<Event>, qs: seq<Query>, ss: seq<Surroundings>, pages: seq<SearchResponse>,
    q: Query, m: nat)
    requires ReadSoFar(first, site, all, qs, ss, pages, q, m)
    ensures m <= |all| && Items(pages) == all[..m]
  {
    hide Spacious, Export.PagesRead, HonestlyRead, Items, Pageable, AfterKey, CursorAt, Export.QueryAt;
  }

  // ----- the export -----

  /** The site answers every query, whatever its budget. */
  lemma SiteReady(site: Site, i: nat, q: Query)
    requires World(site.queried, site.contents)
    ensures Export.Ready(q, SiteEnv(site)(i, q))
  {
    var order := WorkerOrder(site.queried);
    if BindCursor(q).Ok? {
      LaunchedDistinct(order, PageBudget(q, site), |order|);
    }
    hide BindCursor, HonestReply, ReadBudget;
  }

  lemma SiteNeverFails(q: Query, site: Site, all: seq<Event>)
    requires Spacious(q, site, all)
    ensures !Export.SearchFails(q, HonestSurroundings(q, site))
  {
    SpaciousFacts(q, site, all);
    ServedGathers(q, site);
    BoundIsServed(q, site);
    hide Spacious, Served, HonestReply, BindCursor, FanoutSearch.AllFine, FanoutSearch.Outcomes;
  }

  lemma BoundIsServed(q: Query, site: Site)
    requires Served(q, site)
    ensures BindCursor(q).Ok?
  {
  }

  /**
   * For every honest world with distinct event ids and bytes to spare the export publishes the artifact of all events,
   * in order, when they fit its limits: no run of its page loop fails, stops early or withholds the artifact.
   */
  method ExportPublishes(
    q: Query, server: Export.ExportBudget, created: Result<string, string>, site: Site, ghost all: seq<Event>,
    encode: Event -> Option<string>)
    returns (r: Result<Export.ExportResult, string>)
    requires if q.viewID == "" then created == Ok(site.view.viewID) else q.viewID == site.view.viewID
    requires q.cursor == NoCursor
    requires var first := Export.FirstQuery(q, site.view.viewID, Export.Effective(server, q.budget));
             BindCursor(first).Ok? && Spacious(first, site, all) && Pageable(first, site)
    requires Fits(Export.Effective(server, q.budget), all, encode)
    ensures r.Ok? && r.value.items == all && r.value.artifact == Some(Export.Lines(all, encode))
  {
    ghost var limits := Export.Effective(server, q.budget);
    ghost var first := Export.FirstQuery(q, site.view.viewID, limits);
    assert first.cursor == NoCursor;
    SpaciousFacts(first, site, all);
    assert |all| <= limits.maxRows && Bytes(all) <= limits.maxBytes;
    hide *;
    forall i: nat, any: Query ensures Export.Ready(any, SiteEnv(site)(i, any)) {
      SiteReady(site, i, any);
    }
    ghost var qs, ss, pages;
    r, qs, ss, pages := Export.Export(q, server, created, SiteEnv(site), encode);
    if r.Err? {
      RunNeverFails(first, site, all, qs, ss, pages);
    } else {
      StoppedRunIsWhole(first, site, all, qs, ss, pages, limits);
      AllReadPublishes(first, site, all, qs, ss, pages, limits, encode);
      DedupeDistinct(all);
    }
  }

  lemma PagesPaired(
    first: Query, site: Site, qs: seq<Query>, ss: seq<Surroundings>, pages: seq<SearchResponse>)
    requires Export.PagesRead(first, SiteEnv(site), qs, ss, pages)
    ensures |qs| == |ss| == |pages|
  {
    hide PageOf, SiteEnv;
  }

  lemma RunNeverFails(
    first: Query, site: Site, all: seq<Event>, qs: seq<Query>, ss: seq<Surroundings>, pages: seq<SearchResponse>)
    requires first.cursor == NoCursor && Spacious(first, site, all) && Pageable(first, site)
    requires Export.PagesRead(first, SiteEnv(site), qs, ss, pages) && Export.WholeSoFar(pages)
    ensures var q := Export.QueryAt(first, pages, |pages|); !Export.SearchFails(q, SiteEnv(site)(|pages|, q))
  {
    hide Export.SearchFails, HonestSurroundings, Spacious, Pageable, Export.WholeSoFar, Export.PagesRead;
    var m := RunStands(first, site, all, qs, ss, pages);
    StandsAt(first, site, all, qs, ss, pages, Export.QueryAt(first, pages, |pages|), m);
    SiteNeverFails(Export.QueryAt(first, pages, |pages|), site, all);
  }
}
