/** Following NextCursor through unchanging, honest workers loses nothing and repeats nothing. */
module Paging {
  import opened Text
  import opened LogTypes
  import opened Merge
  import opened Dedupe
  import opened Targets
  import opened Budget
  import opened Cursor
  import opened Sorting
  import opened Fanout
  import opened SearchPage
  import FanoutSearch
  import OrderFree

  // ----- events after a key -----

  predicate Follows(e: Event, k: Option<SortKey>) {
    k.None? || k.value.Compare(e.Key()) < 0
  }

  /** The events strictly after the key. */
  function After(s: seq<Event>, k: Option<SortKey>): seq<Event> {
    if s == [] then []
    else
      var rest, e := After(s[..|s|-1], k), s[|s|-1];
      if Follows(e, k) then rest + [e] else rest
  }

  function First(s: seq<Event>, n: nat): seq<Event> {
    if |s| <= n then s else s[..n]
  }

  predicate Strict(s: seq<Event>) {
    Sorted(s) && DistinctKeys(s)
  }

  lemma {:induction false} AfterMember(s: seq<Event>, k: Option<SortKey>, e: Event)
    ensures e in After(s, k) <==> e in s && Follows(e, k)
  {
    if s != [] {
      assert s == s[..|s|-1] + [s[|s|-1]];
      AfterMember(s[..|s|-1], k, e);
    }
  }

  lemma {:induction false} AfterStrict(s: seq<Event>, k: Option<SortKey>)
    requires Strict(s)
    ensures Strict(After(s, k))
  {
    hide NotAfter;
    if s != [] {
      var n := |s| - 1;
      AfterStrict(s[..n], k);
      var rest := After(s[..n], k);
      forall i | 0 <= i < |rest| ensures NotAfter(rest[i], s[n]) && rest[i].Key() != s[n].Key() {
        AfterMember(s[..n], k, rest[i]);
        var j :| 0 <= j < n && s[..n][j] == rest[i];
        assert s[j] == rest[i];
      }
    }
  }

  /** The last event of a strictly ordered sequence follows every key before it, and not its own. */
  lemma LastFollows(s: seq<Event>, m: nat)
    requires Strict(s) && s != [] && 0 < m <= |s|
    ensures Follows(s[|s|-1], Some(s[m-1].Key())) <==> m < |s|
    ensures forall i :: 0 <= i < |s| ==> NotAfter(s[i], s[|s|-1])
  {
    var last := s[|s|-1];
    CompareAntisymmetric(s[m-1].Key(), last.Key());
    CompareAntisymmetric(last.Key(), last.Key());
    hide SortKey.Compare, Event.Key;
    assert m - 1 < |s| - 1 ==> NotAfter(s[m-1], last) && s[m-1].Key() != last.Key();
  }

  lemma StrictPrefix(s: seq<Event>)
    requires Strict(s) && s != []
    ensures Strict(s[..|s|-1])
  {
    hide NotAfter, Event.Key;
  }

  /** Past the key of its m-th event, a strictly ordered sequence goes on with its m-th suffix. */
  lemma {:induction false} AfterSuffix(s: seq<Event>, m: nat)
    requires Strict(s) && m <= |s|
    ensures After(s, if m == 0 then None else Some(s[m-1].Key())) == s[m..]
  {
    if s != [] {
      var n := |s| - 1;
      if m > 0 {
        LastFollows(s, m);
      }
      StrictPrefix(s);
      hide Sorted, DistinctKeys, SortKey.Compare, Event.Key, NotAfter;
      if m <= n {
        AfterSuffix(s[..n], m);
        assert s[..n][m..] + [s[n]] == s[m..];
      } else {
        NothingAfter(s[..n], s[n]);
      }
    }
  }

  lemma {:induction false} NothingAfter(s: seq<Event>, last: Event)
    requires forall i :: 0 <= i < |s| ==> NotAfter(s[i], last)
    ensures After(s, Some(last.Key())) == []
  {
    if s != [] {
      CompareAntisymmetric(s[|s|-1].Key(), last.Key());
      NothingAfter(s[..|s|-1], last);
    }
  }

  /** Two strictly ordered sequences with the same members are the same. */
  lemma SameMembersSame(a: seq<Event>, b: seq<Event>)
    requires Strict(a) && Strict(b)
    requires forall e :: e in a <==> e in b
    ensures a == b
  {
    hide NotAfter;
    forall e ensures multiset(a)[e] == multiset(b)[e] {
      CountOnce(a, e);
      CountOnce(b, e);
    }
    assert multiset(a) == multiset(b);
    SortedUnique(a, b);
  }

  lemma {:induction false} CountOnce(s: seq<Event>, e: Event)
    requires DistinctKeys(s)
    ensures multiset(s)[e] == if e in s then 1 else 0
  {
    if s != [] {
      var n := |s| - 1;
      assert s == s[..n] + [s[n]];
      CountOnce(s[..n], e);
      forall j | 0 <= j < n ensures s[..n][j] != s[n] {
        assert s[j].Key() != s[n].Key();
      }
    }
  }

  // ----- the world the pages are read from -----

  function PrimaryOf(queried: seq<TargetInfo>, w: string): string {
    var own := OfWorker(queried, w);
    if |own| == 1 then own[0].id else ""
  }

  /** A worker's events as they appear in a page. */
  function LaneOf(queried: seq<TargetInfo>, w: string, items: seq<Event>): seq<Event> {
    Lane(EventStream(w, PrimaryOf(queried, w), items))
  }

  ghost predicate DisjointKeys(a: seq<Event>, b: seq<Event>) {
    forall d, e :: d in a && e in b ==> d.Key() != e.Key()
  }

  /** Every queried worker has strictly ordered events, and no key is held by two workers. */
  ghost predicate World(queried: seq<TargetInfo>, contents: map<string, seq<Event>>) {
    && (forall w :: w in WorkerOrder(queried) ==> w in contents && Strict(contents[w]))
    && (forall v, w :: v in WorkerOrder(queried) && w in WorkerOrder(queried) && v != w ==>
                         DisjointKeys(contents[v], contents[w]))
  }

  /** The strictly ordered sequence of all events of all queried workers. */
  ghost predicate IsUnion(queried: seq<TargetInfo>, contents: map<string, seq<Event>>, all: seq<Event>) {
    && Strict(all)
    && forall e :: e in all <==>
         exists w :: w in WorkerOrder(queried) && w in contents && e in LaneOf(queried, w, contents[w])
  }

  /** A usable, uncut answer with the first `limit` events after the key; more behind them keeps it open. */
  ghost predicate Honest(
    req: FanoutRequest, queried: seq<TargetInfo>, items: seq<Event>, after: Option<SortKey>, limit: nat,
    w: string, reply: Reply)
  {
    var targets := OfWorker(queried, w);
    && OutcomeOf(req, w, targets, reply).Ok?
    && Usable(req, reply).Some?
    && !OutcomeOf(req, w, targets, reply).value.cut
    && Usable(req, reply).value.items == First(After(items, after), limit)
    && (|After(items, after)| > limit ==> !Usable(req, reply).value.exhausted)
  }

  lemma LaneSnoc(s: EventStream, items: seq<Event>, e: Event)
    ensures Lane(s.(items := items + [e])) == Lane(s.(items := items)) + [Label(s, e)]
  {
  }

  lemma {:induction false} LaneAfter(s: EventStream, k: Option<SortKey>)
    ensures Lane(s.(items := After(s.items, k))) == After(Lane(s), k)
    decreases |s.items|
  {
    hide Lane;
    if s.items == [] {
      EmptyLane(s);
    } else {
      var n := |s.items| - 1;
      var before, e := s.items[..n], s.items[n];
      var init := s.(items := before);
      LaneAfter(init, k);
      LaneSnoc(s, before, e);
      assert s.items == before + [e] && s.(items := before + [e]) == s;
      assert Lane(s)[..|Lane(s)|-1] == Lane(init);
      LaneSnoc(s, After(before, k), e);
      assert init.(items := After(before, k)) == s.(items := After(before, k));
    }
  }

  lemma LaneStrict(s: EventStream)
    requires Strict(s.items)
    ensures Strict(Lane(s))
  {
    forall i, j | 0 <= i < j < |Lane(s)|
      ensures NotAfter(Lane(s)[i], Lane(s)[j]) && Lane(s)[i].Key() != Lane(s)[j].Key()
    {
      assert NotAfter(s.items[i], s.items[j]) && s.items[i].Key() != s.items[j].Key();
    }
  }

  // ----- merging the first events of every stream -----

  /** The streams with everything behind the cursor, not just a page's worth. */
  function FullLanes(streams: seq<EventStream>, contents: map<string, seq<Event>>, k: Option<SortKey>)
    : (r: seq<seq<Event>>)
    requires forall s :: s in streams ==> s.workerID in contents
    ensures |r| == |streams|
  {
    seq(|streams|, i requires 0 <= i < |streams| => Lane(streams[i].(items := After(contents[streams[i].workerID], k))))
  }

  lemma {:induction false} TakenOfPrefixes(short: seq<seq<Event>>, long: seq<seq<Event>>, pos: seq<nat>)
    requires Positions(short, pos) && |short| == |long|
    requires forall i :: 0 <= i < |short| ==> short[i] <= long[i]
    ensures Positions(long, pos) && Taken(short, pos) == Taken(long, pos)
  {
    if short != [] {
      var n := |short| - 1;
      TakenOfPrefixes(short[..n], long[..n], pos[..n]);
      assert short[n][..pos[n]] == long[n][..pos[n]];
    }
  }

  lemma {:induction false} TakenContains(lanes: seq<seq<Event>>, pos: seq<nat>, i: nat)
    requires Positions(lanes, pos) && i < |lanes|
    ensures multiset(lanes[i][..pos[i]]) <= Taken(lanes, pos)
  {
    var n := |lanes| - 1;
    if i < n {
      TakenContains(lanes[..n], pos[..n], i);
      assert lanes[..n][i] == lanes[i] && pos[..n][i] == pos[i];
    }
  }

  /** A lane read to the end of its first `limit` events fills the page by itself. */
  lemma FullLaneFillsPage(lanes: seq<seq<Event>>, pos: seq<nat>, i: nat, rows: seq<Event>, limit: nat)
    requires Positions(lanes, pos) && i < |lanes| && pos[i] == limit
    requires multiset(rows) == Taken(lanes, pos) && |rows| <= limit
    ensures multiset(rows) == multiset(lanes[i][..limit])
  {
    TakenContains(lanes, pos, i);
    var part := multiset(lanes[i][..limit]);
    assert |multiset(rows)| == |rows| && |part| == limit;
    assert multiset(rows) == part + (multiset(rows) - part);
    assert |multiset(rows) - part| == 0;
  }

  /** Cutting every stream to its first `limit` events never changes a page of at most `limit` rows. */
  lemma CutStreamsSuffice(
    short: seq<seq<Event>>, long: seq<seq<Event>>, limit: nat, maxBytes: nat, rows: seq<Event>, pos: seq<nat>)
    requires limit > 0 && |short| == |long|
    requires forall i :: 0 <= i < |short| ==> short[i] == First(long[i], limit) && Sorted(long[i])
    requires Partial(short, limit, maxBytes, rows, pos)
    ensures Partial(long, limit, maxBytes, rows, pos)
  {
    hide NotAfter, Bytes;
    TakenOfPrefixes(short, long, pos);
    forall x, i, j | 0 <= x < |rows| && 0 <= i < |long| && pos[i] <= j < |long[i]|
      ensures NotAfter(rows[x], long[i][j])
    {
      assert BeforeRest(rows[x], short, pos);
      if j < |short[i]| {
        assert short[i][j] == long[i][j];
      } else if pos[i] < |short[i]| {
        assert NotAfter(rows[x], short[i][pos[i]]);
        assert NotAfter(long[i][pos[i]], long[i][j]);
        NotAfterTransitive(rows[x], long[i][pos[i]], long[i][j]);
      } else {
        FullLaneFillsPage(short, pos, i, rows, limit);
        assert rows[x] in multiset(rows);
        assert rows[x] in short[i][..limit];
        var y :| 0 <= y < limit && short[i][..limit][y] == rows[x];
        assert NotAfter(long[i][y], long[i][j]);
      }
    }
    assert forall x :: 0 <= x < |rows| ==> BeforeRest(rows[x], long, pos);
  }

  lemma NotAfterTransitive(x: Event, y: Event, z: Event)
    requires NotAfter(x, y) && NotAfter(y, z)
    ensures NotAfter(x, z)
  {
    LogTypes.CompareTransitive(x.Key(), y.Key(), z.Key());
  }

  // ----- the union behind a key -----

  /** One stream per worker with events behind the key, holding the first of them. */
  ghost predicate PageStreams(
    streams: seq<EventStream>, queried: seq<TargetInfo>, contents: map<string, seq<Event>>,
    k: Option<SortKey>, limit: nat)
  {
    && (forall s :: s in streams ==>
          && s.workerID in WorkerOrder(queried) && s.workerID in contents
          && s.targetID == PrimaryOf(queried, s.workerID)
          && s.items == First(After(contents[s.workerID], k), limit))
    && (forall i, j :: 0 <= i < j < |streams| ==> streams[i].workerID != streams[j].workerID)
    && (forall w :: w in WorkerOrder(queried) && w in contents && After(contents[w], k) != [] ==>
          exists s :: s in streams && s.workerID == w)
  }

  lemma {:induction false} FlattenDistinct(lanes: seq<seq<Event>>)
    requires forall i :: 0 <= i < |lanes| ==> DistinctKeys(lanes[i])
    requires forall i, j :: 0 <= i < j < |lanes| ==> DisjointKeys(lanes[i], lanes[j])
    ensures DistinctKeys(Flatten(lanes))
  {
    if lanes != [] {
      var n := |lanes| - 1;
      FlattenDistinct(lanes[..n]);
      var init := Flatten(lanes[..n]);
      forall x, y | 0 <= x < |init| && 0 <= y < |lanes[n]| ensures init[x].Key() != lanes[n][y].Key() {
        InFlatten(lanes[..n], init[x]);
        var i :| 0 <= i < n && init[x] in lanes[..n][i];
        assert DisjointKeys(lanes[i], lanes[n]);
      }
    }
  }

  lemma DistinctBag(a: seq<Event>, b: seq<Event>)
    requires multiset(a) == multiset(b) && DistinctKeys(a)
    ensures DistinctKeys(b)
  {
    forall i, j | 0 <= i < j < |b| ensures b[i].Key() != b[j].Key() {
      assert b[i] in multiset(b) && b[j] in multiset(b);
      var x :| 0 <= x < |a| && a[x] == b[i];
      var y :| 0 <= y < |a| && a[y] == b[j];
      if x == y {
        CountedTwice(b, i, j);
        CountOnce(a, b[i]);
      }
    }
  }

  lemma CountedTwice(s: seq<Event>, i: nat, j: nat)
    requires i < j < |s| && s[i] == s[j]
    ensures multiset(s)[s[i]] >= 2
  {
    assert s == s[..i] + [s[i]] + s[i+1..j] + [s[j]] + s[j+1..];
  }

  lemma LaneMembers(s: EventStream, e: Event)
    requires e in Lane(s)
    ensures exists x :: x in s.items && x.Key() == e.Key()
  {
    var i :| 0 <= i < |Lane(s)| && Lane(s)[i] == e;
    assert s.items[i] in s.items;
  }

  lemma LanesDisjoint(s: EventStream, t: EventStream)
    requires DisjointKeys(s.items, t.items)
    ensures DisjointKeys(Lane(s), Lane(t))
  {
    forall d, e | d in Lane(s) && e in Lane(t) ensures d.Key() != e.Key() {
      LaneMembers(s, d);
      LaneMembers(t, e);
    }
  }

  lemma AfterDisjoint(a: seq<Event>, b: seq<Event>, k: Option<SortKey>)
    requires DisjointKeys(a, b)
    ensures DisjointKeys(After(a, k), After(b, k))
  {
    forall d, e | d in After(a, k) && e in After(b, k) ensures d.Key() != e.Key() {
      AfterMember(a, k, d);
      AfterMember(b, k, e);
    }
  }

  lemma FullLanesDistinct(
    streams: seq<EventStream>, queried: seq<TargetInfo>, contents: map<string, seq<Event>>,
    k: Option<SortKey>, limit: nat)
    requires World(queried, contents) && PageStreams(streams, queried, contents, k, limit)
    ensures Strict(SortedUnion(FullLanes(streams, contents, k)))
    ensures forall i :: 0 <= i < |streams| ==> Sorted(FullLanes(streams, contents, k)[i])
  {
    hide Sorted, DistinctKeys, DisjointKeys, After, Lane, WorkerOrder;
    var lanes := FullLanes(streams, contents, k);
    forall i | 0 <= i < |lanes| ensures Strict(lanes[i]) {
      assert streams[i] in streams;
      AfterStrict(contents[streams[i].workerID], k);
      LaneStrict(streams[i].(items := After(contents[streams[i].workerID], k)));
    }
    forall i, j | 0 <= i < j < |lanes| ensures DisjointKeys(lanes[i], lanes[j]) {
      assert streams[i] in streams && streams[j] in streams;
      AfterDisjoint(contents[streams[i].workerID], contents[streams[j].workerID], k);
      LanesDisjoint(streams[i].(items := After(contents[streams[i].workerID], k)),
                    streams[j].(items := After(contents[streams[j].workerID], k)));
    }
    FlattenDistinct(lanes);
    SortEventsSorts(Flatten(lanes));
    DistinctBag(Flatten(lanes), SortedUnion(lanes));
  }

  lemma FullLane(
    streams: seq<EventStream>, queried: seq<TargetInfo>, contents: map<string, seq<Event>>,
    k: Option<SortKey>, limit: nat, i: nat)
    requires PageStreams(streams, queried, contents, k, limit) && i < |streams|
    ensures FullLanes(streams, contents, k)[i] ==
            After(LaneOf(queried, streams[i].workerID, contents[streams[i].workerID]), k)
  {
    assert streams[i] in streams;
    var w := streams[i].workerID;
    LaneAfter(EventStream(w, PrimaryOf(queried, w), contents[w]), k);
  }

  lemma BagMember(a: seq<Event>, b: seq<Event>, e: Event)
    requires multiset(a) == multiset(b)
    ensures e in a <==> e in b
  {
    assert e in a <==> e in multiset(a);
    assert e in b <==> e in multiset(b);
  }

  lemma UnionMember(
    streams: seq<EventStream>, queried: seq<TargetInfo>, contents: map<string, seq<Event>>,
    k: Option<SortKey>, limit: nat, all: seq<Event>, e: Event)
    requires PageStreams(streams, queried, contents, k, limit) && IsUnion(queried, contents, all)
    ensures e in SortedUnion(FullLanes(streams, contents, k)) <==> e in After(all, k)
  {
    hide Lane, WorkerOrder, Sorted, DistinctKeys, Follows, After, PrimaryOf;
    var lanes := FullLanes(streams, contents, k);
    SortEventsSorts(Flatten(lanes));
    BagMember(SortedUnion(lanes), Flatten(lanes), e);
    InFlatten(lanes, e);
    AfterMember(all, k, e);
    if i :| 0 <= i < |lanes| && e in lanes[i] {
      var w := streams[i].workerID;
      assert streams[i] in streams;
      FullLane(streams, queried, contents, k, limit, i);
      AfterMember(LaneOf(queried, w, contents[w]), k, e);
    }
    if e in After(all, k) {
      var w :| w in WorkerOrder(queried) && w in contents && e in LaneOf(queried, w, contents[w]);
      AfterMember(LaneOf(queried, w, contents[w]), k, e);
      LaneAfter(EventStream(w, PrimaryOf(queried, w), contents[w]), k);
      EmptyLane(EventStream(w, PrimaryOf(queried, w), After(contents[w], k)));
      var s :| s in streams && s.workerID == w;
      var i :| 0 <= i < |streams| && streams[i] == s;
      FullLane(streams, queried, contents, k, limit, i);
    }
  }

  lemma EmptyLane(s: EventStream)
    ensures s.items == [] ==> Lane(s) == []
  {
  }

  /** The streams' full contents behind the key are the union behind the key. */
  lemma UnionBehind(
    streams: seq<EventStream>, queried: seq<TargetInfo>, contents: map<string, seq<Event>>,
    k: Option<SortKey>, limit: nat, all: seq<Event>)
    requires World(queried, contents) && PageStreams(streams, queried, contents, k, limit)
    requires IsUnion(queried, contents, all)
    ensures SortedUnion(FullLanes(streams, contents, k)) == After(all, k)
    ensures Strict(After(all, k))
  {
    hide Sorted, DistinctKeys;
    FullLanesDistinct(streams, queried, contents, k, limit);
    AfterStrict(all, k);
    forall e ensures e in SortedUnion(FullLanes(streams, contents, k)) <==> e in After(all, k) {
      UnionMember(streams, queried, contents, k, limit, all, e);
    }
    SameMembersSame(SortedUnion(FullLanes(streams, contents, k)), After(all, k));
  }

  /** The rows merged from a page's streams are the first rows of the union behind the cursor. */
  lemma PageRows(
    streams: seq<EventStream>, queried: seq<TargetInfo>, contents: map<string, seq<Event>>,
    k: Option<SortKey>, limit: nat, maxBytes: nat, all: seq<Event>,
    rows: seq<Event>, pageMore: bool, byteCut: bool, pos: seq<nat>)
    requires limit > 0 && World(queried, contents) && PageStreams(streams, queried, contents, k, limit)
    requires IsUnion(queried, contents, all)
    requires Merged(Lanes(streams), limit, maxBytes, rows, pageMore, byteCut, pos)
    ensures rows <= After(all, k)
    ensures After(all, k) != [] ==> rows != []
    ensures !pageMore && !byteCut && (forall w :: w in WorkerOrder(queried) ==> |After(contents[w], k)| <= limit) ==>
              rows == After(all, k)
  {
    hide Sorted, DistinctKeys, After, WorkerOrder, Taken, Bytes, BeforeRest, SortEvents, PrimaryOf;
    var short, long := Lanes(streams), FullLanes(streams, contents, k);
    FullLanesDistinct(streams, queried, contents, k, limit);
    forall i | 0 <= i < |short| ensures short[i] == First(long[i], limit) {
      assert streams[i] in streams;
      LaneFirst(streams[i], After(contents[streams[i].workerID], k), limit);
    }
    CutStreamsSuffice(short, long, limit, maxBytes, rows, pos);
    UnionBehind(streams, queried, contents, k, limit, all);
    DistinctKeysOneEvent(SortedUnion(long));
    PartialIsPrefix(long, limit, maxBytes, rows, pos);
    if !pageMore && !byteCut && forall w :: w in WorkerOrder(queried) ==> |After(contents[w], k)| <= limit {
      forall i | 0 <= i < |long| ensures |long[i]| <= limit {
        assert streams[i] in streams;
      }
      ReadToEnd(short, long, limit, pos);
    }
    if rows == [] {
      EmptyPage(short, long, limit, pos);
    }
  }

  lemma ReadToEnd(short: seq<seq<Event>>, long: seq<seq<Event>>, limit: nat, pos: seq<nat>)
    requires |short| == |long| && Positions(short, pos) && Positions(long, pos) && AllTaken(short, pos)
    requires forall i :: 0 <= i < |short| ==> short[i] == First(long[i], limit) && |long[i]| <= limit
    ensures AllTaken(long, pos)
  {
  }

  /** A page with no rows only comes from streams with no events. */
  lemma EmptyPage(short: seq<seq<Event>>, long: seq<seq<Event>>, limit: nat, pos: seq<nat>)
    requires limit > 0 && |short| == |long| && Positions(short, pos) && Positions(long, pos)
    requires forall i :: 0 <= i < |short| ==> short[i] == First(long[i], limit)
    requires AllTaken(short, pos) && Taken(short, pos) == multiset{}
    ensures AllTaken(long, pos)
  {
    forall i | 0 <= i < |pos| ensures pos[i] == |long[i]| {
      TakenContains(short, pos, i);
      assert |multiset(short[i][..pos[i]])| == pos[i];
    }
  }

  lemma LaneFirst(s: EventStream, items: seq<Event>, limit: nat)
    requires s.items == First(items, limit)
    ensures Lane(s) == First(Lane(s.(items := items)), limit)
  {
  }

  /** All workers' lanes, in worker order. */
  function AllLanes(queried: seq<TargetInfo>, contents: map<string, seq<Event>>): (r: seq<seq<Event>>)
    requires forall w :: w in WorkerOrder(queried) ==> w in contents
    ensures |r| == |WorkerOrder(queried)|
  {
    var order := WorkerOrder(queried);
    seq(|order|, i requires 0 <= i < |order| => LaneOf(queried, order[i], contents[order[i]]))
  }

  /** The reference merge of everything is such a union, and the only one. */
  lemma UnionOfWorld(queried: seq<TargetInfo>, contents: map<string, seq<Event>>, all: seq<Event>)
    requires World(queried, contents)
    ensures IsUnion(queried, contents, all) <==> all == SortedUnion(AllLanes(queried, contents))
  {
    hide Sorted, DistinctKeys, DisjointKeys, Lane, SortEvents, PrimaryOf;
    var order, lanes := WorkerOrder(queried), AllLanes(queried, contents);
    var union := SortedUnion(lanes);
    forall i | 0 <= i < |lanes| ensures Strict(lanes[i]) {
      LaneStrict(EventStream(order[i], PrimaryOf(queried, order[i]), contents[order[i]]));
    }
    forall i, j | 0 <= i < j < |lanes| ensures DisjointKeys(lanes[i], lanes[j]) {
      OrderFree.DistinctAt(order, i, j);
      LanesDisjoint(EventStream(order[i], PrimaryOf(queried, order[i]), contents[order[i]]),
                    EventStream(order[j], PrimaryOf(queried, order[j]), contents[order[j]]));
    }
    FlattenDistinct(lanes);
    SortEventsSorts(Flatten(lanes));
    DistinctBag(Flatten(lanes), union);
    forall e ensures e in union <==> exists w :: w in order && w in contents && e in LaneOf(queried, w, contents[w]) {
      BagMember(union, Flatten(lanes), e);
      InFlatten(lanes, e);
      if w :| w in order && w in contents && e in LaneOf(queried, w, contents[w]) {
        var i :| 0 <= i < |order| && order[i] == w;
        assert e in lanes[i];
      }
    }
    if IsUnion(queried, contents, all) {
      SameMembersSame(all, union);
    }
  }

  // ----- what honest workers make the fan-out gather -----

  /** Every queried worker is asked and answers honestly. */
  ghost predicate AllHonest(
    req: FanoutRequest, queried: seq<TargetInfo>, contents: map<string, seq<Event>>, after: Option<SortKey>,
    budget: QueryBudget, replies: map<string, Reply>, arrival: seq<string>)
  {
    && (forall w :: w in WorkerOrder(queried) ==> w in arrival)
    && (forall w :: w in arrival ==>
          w in replies && w in contents && budget.limit > 0 &&
          Honest(req, queried, contents[w], after, budget.limit, w, replies[w]))
  }

  lemma {:induction false} AllFundedBase(queried: seq<TargetInfo>, order: seq<string>, budget: QueryBudget, k: nat)
    requires k <= |order| && forall i :: 0 <= i < |order| ==> IsFunded(order, budget, i)
    ensures FanoutSearch.Base(queried, order, budget, k) == FanoutSearch.NOTHING_GATHERED
  {
    if k > 0 {
      AllFundedBase(queried, order, budget, k - 1);
    }
  }

  lemma StrictSorts(s: seq<Event>)
    requires Strict(s)
    ensures SortEvents(s) == s
  {
    SortEventsSorts(s);
    SortedUnique(s, SortEvents(s));
  }

  lemma FirstStrict(s: seq<Event>, n: nat)
    requires Strict(s)
    ensures Strict(First(s, n))
  {
    hide NotAfter;
  }

  /** What an honest worker contributes. */
  lemma HonestOutcome(
    req: FanoutRequest, queried: seq<TargetInfo>, items: seq<Event>, after: Option<SortKey>, limit: nat,
    w: string, reply: Reply)
    requires Strict(items) && Honest(req, queried, items, after, limit, w, reply)
    ensures var o := OutcomeOf(req, w, OfWorker(queried, w), reply).value;
            var page := First(After(items, after), limit);
            && !o.cut
            && o.streams == (if page == [] then [] else [EventStream(w, PrimaryOf(queried, w), page)])
            && (!o.open ==> |After(items, after)| <= limit)
  {
    hide Sorted, DistinctKeys, After, CoverMap, BindingHolds, CutReason;
    AfterStrict(items, after);
    FirstStrict(After(items, after), limit);
    StrictSorts(First(After(items, after), limit));
  }

  lemma {:induction false} StreamsOf(base: Gathered, outs: seq<WorkerOutcome>, s: EventStream)
    ensures s in AddAll(base, outs).streams <==> s in base.streams || exists o :: o in outs && s in o.streams
  {
    hide MergeSummary, Worst;
    if outs != [] {
      assert outs == outs[..|outs|-1] + [outs[|outs|-1]];
      StreamsOf(base, outs[..|outs|-1], s);
    }
  }

  lemma {:induction false} ManyTies<T>(s: seq<T>, i: nat, j: nat, x: T, le: (T, T) -> bool)
    requires i < j < |s|
    requires le(x, s[i]) && le(s[i], x) && le(x, s[j]) && le(s[j], x)
    ensures |Ties(s, x, le)| >= 2
  {
    var n := |s| - 1;
    if j == n {
      TiesMember(s[..n], x, le, s[i]);
      assert s[..n][i] == s[i];
    } else {
      ManyTies(s[..n], i, j, x, le);
    }
  }

  lemma AtMostTies<T>(s: seq<T>, x: T, le: (T, T) -> bool)
    requires |s| <= 1
    ensures |Ties(s, x, le)| <= 1
  {
  }

  /** After the sort no two streams are of one worker. */
  lemma StreamsDistinct(base: Gathered, outs: seq<WorkerOutcome>, t: seq<EventStream>)
    requires t == SortBy(AddAll(base, outs).streams, StreamLe)
    requires base.streams == [] && base.gaps == [] && OrderFree.Separate(outs)
    requires forall o :: o in outs ==> |o.streams| <= 1
    ensures forall i, j :: 0 <= i < j < |t| ==> t[i].workerID != t[j].workerID
  {
    hide OrderFree.Separate;
    var all := AddAll(base, outs).streams;
    FanoutSearch.StreamOrder();
    SortBySorts(all, StreamLe);
    forall i, j | 0 <= i < j < |t| ensures t[i].workerID != t[j].workerID {
      if t[i].workerID == t[j].workerID {
        SameWorkerTies(t[i], t[j]);
        SameWorkerTies(t[i], t[i]);
        ManyTies(t, i, j, t[i], StreamLe);
        OrderFree.StreamTiesOf(base, outs, t[i]);
        if o :| o in outs && o.workerID == t[i].workerID {
          AtMostTies(o.streams, t[i], StreamLe);
        }
      }
    }
  }

  lemma SameWorkerTies(s: EventStream, t: EventStream)
    requires s.workerID == t.workerID
    ensures StreamLe(s, t) && StreamLe(t, s)
  {
    CompareFieldsEqual(StreamKey(s), StreamKey(t));
    CompareFieldsEqual(StreamKey(t), StreamKey(s));
  }

  /** The outcomes of honest workers, one for each arrival. */
  ghost predicate HonestOutcomes(
    outs: seq<WorkerOutcome>, arrival: seq<string>, queried: seq<TargetInfo>, contents: map<string, seq<Event>>,
    after: Option<SortKey>, limit: nat)
  {
    && |outs| == |arrival|
    && forall i :: 0 <= i < |arrival| ==>
         && arrival[i] in contents && !outs[i].cut
         && outs[i].streams == PageStream(arrival[i], queried, contents[arrival[i]], after, limit)
         && (!outs[i].open ==> |After(contents[arrival[i]], after)| <= limit)
  }

  /** A worker's stream for the page, if it has events behind the key. */
  function PageStream(w: string, queried: seq<TargetInfo>, items: seq<Event>, after: Option<SortKey>, limit: nat)
    : (r: seq<EventStream>)
    ensures |r| <= 1
    ensures forall s :: s in r ==> s.workerID == w
  {
    var page := First(After(items, after), limit);
    if page == [] then [] else [EventStream(w, PrimaryOf(queried, w), page)]
  }

  lemma HonestGather(
    req: FanoutRequest, queried: seq<TargetInfo>, contents: map<string, seq<Event>>, after: Option<SortKey>,
    budget: QueryBudget, replies: map<string, Reply>, arrival: seq<string>)
    requires (forall w :: w in arrival ==> w in WorkerOrder(queried))
    requires World(queried, contents) && AllHonest(req, queried, contents, after, budget, replies, arrival)
    requires budget.limit >= 0
    ensures FanoutSearch.AllFine(FanoutSearch.Outcomes(req, queried, replies, arrival))
    ensures HonestOutcomes(FanoutSearch.Values(FanoutSearch.Outcomes(req, queried, replies, arrival)), arrival,
                           queried, contents, after, budget.limit)
  {
    hide OutcomeOf, Sorted, DistinctKeys, After, PrimaryOf;
    forall i | 0 <= i < |arrival|
      ensures FanoutSearch.Outcomes(req, queried, replies, arrival)[i].Ok?
    {
      assert Honest(req, queried, contents[arrival[i]], after, budget.limit, arrival[i], replies[arrival[i]]);
    }
    forall i | 0 <= i < |arrival|
      ensures var o := FanoutSearch.Outcomes(req, queried, replies, arrival)[i].value;
              && !o.cut
              && o.streams == PageStream(arrival[i], queried, contents[arrival[i]], after, budget.limit)
              && (!o.open ==> |After(contents[arrival[i]], after)| <= budget.limit)
    {
      HonestOutcome(req, queried, contents[arrival[i]], after, budget.limit, arrival[i], replies[arrival[i]]);
    }
  }

  /** When every worker answers, every worker was funded. */
  lemma AllLaunched(queried: seq<TargetInfo>, budget: QueryBudget, replies: map<string, Reply>, arrival: seq<string>)
    requires FanoutSearch.Arrives(arrival, queried, budget, replies)
    requires forall w :: w in WorkerOrder(queried) ==> w in arrival
    ensures forall w :: w in arrival ==> w in WorkerOrder(queried)
    ensures forall i :: 0 <= i < |WorkerOrder(queried)| ==> IsFunded(WorkerOrder(queried), budget, i)
  {
    hide IsFunded;
    var order := WorkerOrder(queried);
    forall i | 0 <= i < |order| ensures IsFunded(order, budget, i) {
      assert order[i] in arrival;
      var j :| 0 <= j < |order| && order[j] == order[i] && IsFunded(order, budget, j);
    }
  }

  lemma HonestStreams(
    outs: seq<WorkerOutcome>, arrival: seq<string>, queried: seq<TargetInfo>, contents: map<string, seq<Event>>,
    after: Option<SortKey>, limit: nat, streams: seq<EventStream>)
    requires limit > 0 && HonestOutcomes(outs, arrival, queried, contents, after, limit)
    requires forall w :: w in arrival <==> w in WorkerOrder(queried)
    requires forall s :: s in streams <==> exists o :: o in outs && s in o.streams
    requires forall i, j :: 0 <= i < j < |streams| ==> streams[i].workerID != streams[j].workerID
    ensures PageStreams(streams, queried, contents, after, limit)
  {
    hide After, PrimaryOf, WorkerOrder, First;
    forall s | s in streams
      ensures && s.workerID in WorkerOrder(queried) && s.workerID in contents
              && s.targetID == PrimaryOf(queried, s.workerID)
              && s.items == First(After(contents[s.workerID], after), limit)
    {
      var o :| o in outs && s in o.streams;
      var i :| 0 <= i < |outs| && outs[i] == o;
      assert arrival[i] in arrival;
    }
    forall w | w in WorkerOrder(queried) && w in contents && After(contents[w], after) != []
      ensures exists s :: s in streams && s.workerID == w
    {
      StreamOf(outs, arrival, queried, contents, after, limit, w);
    }
  }

  /** A worker that has rows left has a stream. */
  lemma StreamOf(
    outs: seq<WorkerOutcome>, arrival: seq<string>, queried: seq<TargetInfo>, contents: map<string, seq<Event>>,
    after: Option<SortKey>, limit: nat, w: string)
    requires limit > 0 && HonestOutcomes(outs, arrival, queried, contents, after, limit)
    requires w in arrival && w in contents && After(contents[w], after) != []
    ensures exists o, s :: o in outs && s in o.streams && s.workerID == w
  {
    hide After, PrimaryOf, WorkerOrder;
    var i :| 0 <= i < |arrival| && arrival[i] == w;
    assert First(After(contents[w], after), limit) != [];
    var s := outs[i].streams[0];
    assert outs[i] in outs && s in outs[i].streams;
  }

  lemma {:induction false} SortedStreamsMembers(base: Gathered, outs: seq<WorkerOutcome>)
    requires base.streams == []
    ensures forall s :: s in SortBy(AddAll(base, outs).streams, StreamLe) <==> exists o :: o in outs && s in o.streams
  {
    hide StreamLe;
    var all := AddAll(base, outs).streams;
    FanoutSearch.StreamOrder();
    SortBySorts(all, StreamLe);
    var t := SortBy(all, StreamLe);
    forall s ensures s in t <==> exists o :: o in outs && s in o.streams {
      assert s in t <==> s in multiset(t);
      assert s in all <==> s in multiset(all);
      StreamsOf(base, outs, s);
    }
  }

  /** From honest workers the fan-out gathers a page's streams, uncut, and stays open while more remains. */
  lemma HonestAnswer(
    req: FanoutRequest, queried: seq<TargetInfo>, contents: map<string, seq<Event>>, after: Option<SortKey>,
    budget: QueryBudget, replies: map<string, Reply>, arrival: seq<string>)
    requires FanoutSearch.Arrives(arrival, queried, budget, replies) && OneHome(queried) && budget.limit > 0
    requires World(queried, contents) && AllHonest(req, queried, contents, after, budget, replies, arrival)
    ensures FanoutSearch.AllFine(FanoutSearch.Outcomes(req, queried, replies, arrival))
    ensures var g := OrderFree.AnswerOf(req, queried, budget, replies, arrival);
            && !g.cut
            && PageStreams(g.streams, queried, contents, after, budget.limit)
            && (!g.open ==> forall w :: w in WorkerOrder(queried) ==> |After(contents[w], after)| <= budget.limit)
  {
    hide Honest, OutcomeOf, FanoutSearch.Launched, FanoutSearch.Outcomes, FanoutSearch.Values, WorkerOrder, After,
      OrderFree.Separate, StreamLe, PageStreams, SortBy, AddAll, World, SomeUnsettled, OneHome;
    AllLaunched(queried, budget, replies, arrival);
    HonestGather(req, queried, contents, after, budget, replies, arrival);
    var outs := FanoutSearch.Values(FanoutSearch.Outcomes(req, queried, replies, arrival));
    var order := WorkerOrder(queried);
    AllFundedBase(queried, order, budget, |order|);
    OrderFree.OutcomesSeparate(req, queried, replies, arrival);
    var base := FanoutSearch.NOTHING_GATHERED;
    OrderFree.FlagsOf(base, outs);
    var t := SortBy(AddAll(base, outs).streams, StreamLe);
    StreamsDistinct(base, outs, t);
    SortedStreamsMembers(base, outs);
    HonestStreams(outs, arrival, queried, contents, after, budget.limit, t);
    if !AddAll(base, outs).open {
      forall w | w in order ensures |After(contents[w], after)| <= budget.limit {
        var i :| 0 <= i < |arrival| && arrival[i] == w;
        assert outs[i] in outs;
      }
    }
  }

  // ----- one page, and the chain of pages -----

  /** The key a bound query continues from. */
  function AfterKey(q: Query): Option<SortKey> {
    if q.cursor.Encoded? then Some(q.cursor.record.sortKey) else None
  }

  function CursorAt(all: seq<Event>, m: nat): Option<SortKey>
    requires m <= |all|
  {
    if m == 0 then None else Some(all[m-1].Key())
  }

  /** A page read past the cache from honest workers that are all asked. */
  ghost predicate ReadHonestly(q: Query, s: Surroundings, queried: seq<TargetInfo>, contents: map<string, seq<Event>>) {
    && BindCursor(q).Ok? && s.cached.None? && s.resolved.queried == queried
    && var budget := ReadBudget(s.view.limit, BindCursor(q).value.budget);
       && FanoutSearch.Arrives(s.arrival, queried, budget, s.replies)
       && AllHonest(FanoutRequest(q.fast, s.generations), queried, contents, AfterKey(q), budget, s.replies, s.arrival)
  }

  /** The window of a query leaves none of the rows out. */
  predicate WithinWindow(q: Query, items: seq<Event>) {
    q.fromUTC.valid && q.toUTC.valid ==>
      forall i :: 0 <= i < |items| ==>
        items[i].eventTime.valid && q.fromUTC.instant <= items[i].eventTime.instant < q.toUTC.instant
  }

  /** A page kept in the cache, read honestly before at the same place, with rows of this query's window. */
  ghost predicate Recalled(
    q: Query, kept: SearchResponse, queried: seq<TargetInfo>, contents: map<string, seq<Event>>)
  {
    && BindCursor(q).Ok? && WithinWindow(BindCursor(q).value, kept.items)
    && exists q0, s0 :: ReadHonestly(q0, s0, queried, contents) && PageOf(q0, s0, kept) && AfterKey(q0) == AfterKey(q)
  }

  /** A page that comes, now or through the cache, from honest workers that were all asked. */
  ghost predicate HonestPage(q: Query, s: Surroundings, queried: seq<TargetInfo>, contents: map<string, seq<Event>>) {
    match s.cached
    case None => ReadHonestly(q, s, queried, contents)
    case Some(kept) => Recalled(q, kept, queried, contents)
  }

  /** The page delivers the deduplicated rows from m up to next, and its cursor stands at next. */
  ghost predicate Delivers(all: seq<Event>, m: nat, resp: SearchResponse, next: nat) {
    && m <= next <= |all|
    && resp.items == Deduped(all[m..next])
    && (resp.nextCursor.Encoded? ==> m < next && resp.nextCursor.record.sortKey == all[next-1].Key())
    && (!resp.nextCursor.Encoded? ==> next == |all|)
  }

  lemma AfterTheRows(all: seq<Event>, m: nat, rows: seq<Event>)
    requires Strict(all) && m <= |all|
    requires rows <= After(all, CursorAt(all, m))
    ensures After(all, CursorAt(all, m)) == all[m..]
    ensures m + |rows| <= |all| && rows == all[m..m + |rows|]
  {
    hide Sorted, DistinctKeys, After;
    AfterSuffix(all, m);
    hide *;
    PrefixOfTail(all, m, rows);
  }

  lemma PrefixOfTail(all: seq<Event>, m: nat, rows: seq<Event>)
    requires m <= |all| && rows <= all[m..]
    ensures m + |rows| <= |all| && rows == all[m..m + |rows|]
  {
    assert rows == all[m..][..|rows|];
  }

  /** One page read honestly. */
  lemma ReadStep(
    q: Query, s: Surroundings, resp: SearchResponse, queried: seq<TargetInfo>, contents: map<string, seq<Event>>,
    all: seq<Event>, m: nat)
    returns (next: nat)
    requires OneHome(queried) && World(queried, contents) && IsUnion(queried, contents, all)
    requires ReadHonestly(q, s, queried, contents) && PageOf(q, s, resp)
    requires m <= |all| && AfterKey(q) == CursorAt(all, m)
    ensures Delivers(all, m, resp, next)
  {
    hide World, PageStreams, AllHonest, After, Sorted, DistinctKeys, FanoutSearch.AllFine, FanoutSearch.Outcomes,
      OrderFree.AnswerOf, FinalCoverage, SummaryOf, Duplicated, WorkerOrder, Merged, Deduped,
      OneHome, Lanes;
    var bound := BindCursor(q).value;
    var budget := ReadBudget(s.view.limit, bound.budget);
    var req := FanoutRequest(q.fast, s.generations);
    HonestAnswer(req, queried, contents, AfterKey(q), budget, s.replies, s.arrival);
    var g := OrderFree.AnswerOf(req, queried, budget, s.replies, s.arrival);
    var rows, pageMore, byteCut, pos :|
      && Merged(Lanes(g.streams), budget.limit, budget.maxBytes, rows, pageMore, byteCut, pos)
      && resp == Respond(q.fast, s.view.(limit := budget.limit), s.resolved, g, rows, pageMore, byteCut);
    PageRows(g.streams, queried, contents, AfterKey(q), budget.limit, budget.maxBytes, all,
             rows, pageMore, byteCut, pos);
    AfterTheRows(all, m, rows);
    if rows != [] {
      var _ := LastKept(rows);
    }
    next := DeliverRows(all, m, resp, rows);
  }

  lemma RowPlace(all: seq<Event>, m: nat, rows: seq<Event>, l: nat)
    requires m + |rows| <= |all| && rows == all[m..m + |rows|] && l < |rows|
    ensures rows[..l+1] == all[m..m+l+1] && rows[l] == all[m+l]
  {
  }

  /** Where the page's cursor stands among the events. */
  lemma DeliverRows(all: seq<Event>, m: nat, resp: SearchResponse, rows: seq<Event>) returns (next: nat)
    requires m + |rows| <= |all| && rows == all[m..m + |rows|] && resp.items == Deduped(rows)
    requires resp.nextCursor.Encoded? ==>
               resp.items != [] && resp.nextCursor.record.sortKey == resp.items[|resp.items|-1].Key()
    requires !resp.nextCursor.Encoded? ==> m + |rows| == |all|
    ensures Delivers(all, m, resp, next)
  {
    hide SortKey.Compare, Event.Key, Deduped;
    if resp.nextCursor.Encoded? {
      var l := LastKept(rows);
      RowPlace(all, m, rows, l);
      next := m + l + 1;
    } else {
      next := |all|;
    }
  }

  lemma {:induction false} WindowKeepsAll(q: Query, items: seq<Event>)
    requires q.fromUTC.valid && q.toUTC.valid && WithinWindow(q, items)
    ensures InWindow(q, items) == items
  {
    if items != [] {
      WindowKeepsAll(q, items[..|items|-1]);
    }
  }

  /** A kept page, rebound to another view, delivers the same rows and leads on from the same place. */
  lemma RebindDelivers(
    q: Query, s: Surroundings, kept: SearchResponse, resp: SearchResponse, all: seq<Event>, m: nat, next: nat)
    requires BindCursor(q).Ok? && WithinWindow(BindCursor(q).value, kept.items) && s.cached == Some(kept)
    requires PageOf(q, s, resp) && Delivers(all, m, kept, next)
    requires kept.nextCursor.Encoded? || kept.nextCursor == NoCursor
    requires kept.nextCursor.Encoded? ==>
               kept.items != [] && kept.nextCursor.record.sortKey == kept.items[|kept.items|-1].Key()
    ensures Delivers(all, m, resp, next)
  {
    var bound := BindCursor(q).value;
    if bound.fromUTC.valid && bound.toUTC.valid {
      WindowKeepsAll(bound, kept.items);
    }
    hide InWindow, Deduped, ReadBudget, FreshPage, BindCursor, WithinWindow, Event.Key;
  }

  /** One honest page, read now or recalled. */
  lemma PageStep(
    q: Query, s: Surroundings, resp: SearchResponse, queried: seq<TargetInfo>, contents: map<string, seq<Event>>,
    all: seq<Event>, m: nat)
    returns (next: nat)
    requires OneHome(queried) && World(queried, contents) && IsUnion(queried, contents, all)
    requires HonestPage(q, s, queried, contents) && PageOf(q, s, resp)
    requires m <= |all| && AfterKey(q) == CursorAt(all, m)
    ensures Delivers(all, m, resp, next)
  {
    hide ReadHonestly, PageOf, OneHome, World, IsUnion, Delivers, BindCursor, WithinWindow, AfterKey;
    match s.cached
    case None =>
      next := ReadStep(q, s, resp, queried, contents, all, m);
    case Some(kept) =>
      var q0, s0 :| ReadHonestly(q0, s0, queried, contents) && PageOf(q0, s0, kept) && AfterKey(q0) == AfterKey(q);
      next := ReadStep(q0, s0, kept, queried, contents, all, m);
      ReadIsFresh(q0, s0, queried, contents);
      FreshCursor(q0, s0, kept);
      RebindDelivers(q, s, kept, resp, all, m, next);
  }

  lemma ReadIsFresh(q: Query, s: Surroundings, queried: seq<TargetInfo>, contents: map<string, seq<Event>>)
    requires ReadHonestly(q, s, queried, contents)
    ensures BindCursor(q).Ok? && s.cached.None?
  {
  }

  /** The cursor of a fresh page stands at its last row; an exhausted page has none. */
  lemma FreshCursor(q: Query, s: Surroundings, resp: SearchResponse)
    requires PageOf(q, s, resp) && s.cached.None?
    ensures resp.nextCursor.Encoded? || resp.nextCursor == NoCursor
    ensures resp.nextCursor.Encoded? ==>
              resp.items != [] && resp.nextCursor.record.sortKey == resp.items[|resp.items|-1].Key()
    ensures resp.exhausted ==> !resp.nextCursor.Encoded?
  {
    hide Deduped, Duplicated, SummaryOf, FinalCoverage, InWindow, FanoutSearch.Arrives, FanoutSearch.AllFine,
      FanoutSearch.Outcomes, OrderFree.AnswerOf, WorkerOrder, Merged, Event.Key;
  }

  /** An exhausted honest page ends its chain, recalled or not. */
  lemma ExhaustedEnds(
    q: Query, s: Surroundings, resp: SearchResponse, queried: seq<TargetInfo>, contents: map<string, seq<Event>>)
    requires HonestPage(q, s, queried, contents) && PageOf(q, s, resp)
    ensures resp.exhausted ==> !resp.nextCursor.Encoded?
  {
    hide ReadHonestly, BindCursor, WithinWindow, AfterKey, FreshPage, InWindow, ReadBudget;
    match s.cached
    case None => FreshCursor(q, s, resp);
    case Some(kept) =>
      var q0, s0 :| ReadHonestly(q0, s0, queried, contents) && PageOf(q0, s0, kept) && AfterKey(q0) == AfterKey(q);
      ReadIsFresh(q0, s0, queried, contents);
      FreshCursor(q0, s0, kept);
  }

  /** Pages of which each continues at the cursor of the one before. */
  ghost predicate Chain(
    qs: seq<Query>, ss: seq<Surroundings>, pages: seq<SearchResponse>,
    queried: seq<TargetInfo>, contents: map<string, seq<Event>>)
  {
    && |qs| == |ss| == |pages|
    && (forall i :: 0 <= i < |pages| ==> HonestPage(qs[i], ss[i], queried, contents) && PageOf(qs[i], ss[i], pages[i]))
    && (forall i :: 0 <= i < |pages| ==> Continues(qs[i], pages, i))
  }

  /** The first page has no cursor; each later one takes the cursor of the page before. */
  predicate Continues(q: Query, pages: seq<SearchResponse>, i: nat)
    requires i < |pages|
  {
    if i == 0 then q.cursor == NoCursor
    else pages[i-1].nextCursor.Encoded? && q.cursor == pages[i-1].nextCursor
  }

  lemma ChainPrefix(
    qs: seq<Query>, ss: seq<Surroundings>, pages: seq<SearchResponse>,
    queried: seq<TargetInfo>, contents: map<string, seq<Event>>, n: nat)
    requires Chain(qs, ss, pages, queried, contents) && n <= |pages|
    ensures Chain(qs[..n], ss[..n], pages[..n], queried, contents)
  {
    hide HonestPage, PageOf;
    forall i | 0 <= i < n
      ensures HonestPage(qs[..n][i], ss[..n][i], queried, contents) && PageOf(qs[..n][i], ss[..n][i], pages[..n][i])
      ensures Continues(qs[..n][i], pages[..n], i)
    {
      assert HonestPage(qs[i], ss[i], queried, contents);
      assert Continues(qs[i], pages, i);
    }
  }

  lemma ChainAt(
    qs: seq<Query>, ss: seq<Surroundings>, pages: seq<SearchResponse>,
    queried: seq<TargetInfo>, contents: map<string, seq<Event>>, i: nat)
    requires Chain(qs, ss, pages, queried, contents) && i < |pages|
    ensures |qs| == |ss| == |pages|
    ensures HonestPage(qs[i], ss[i], queried, contents) && PageOf(qs[i], ss[i], pages[i])
    ensures i == 0 ==> AfterKey(qs[i]) == None
    ensures i > 0 ==> pages[i-1].nextCursor.Encoded? && AfterKey(qs[i]) == Some(pages[i-1].nextCursor.record.sortKey)
  {
    hide HonestPage, PageOf;
  }

  /** Joining a page to what came before it, modulo deduplication. */
  lemma JoinPage(before: seq<Event>, page: seq<Event>, all: seq<Event>, m: nat, next: nat)
    requires m <= next <= |all| && page == Deduped(all[m..next])
    requires Deduped(before) == Deduped(all[..m])
    ensures Deduped(before + page) == Deduped(all[..next])
    ensures !Duplicated(all) && before == all[..m] ==> before + page == all[..next]
  {
    hide Deduped, Duplicated;
    assert all[..m] + all[m..next] == all[..next];
    DedupeLeft(before, page);
    DedupeLeft(all[..m], page);
    DedupeRight(all[..m], all[m..next]);
    if !Duplicated(all) {
      PartDistinct(all, m, next);
      DedupeDistinct(all[m..next]);
    }
  }

  function Items(pages: seq<SearchResponse>): seq<Event> {
    if pages == [] then [] else Items(pages[..|pages|-1]) + pages[|pages|-1].items
  }

  lemma {:induction false} ChainDelivers(
    qs: seq<Query>, ss: seq<Surroundings>, pages: seq<SearchResponse>,
    queried: seq<TargetInfo>, contents: map<string, seq<Event>>, all: seq<Event>)
    returns (next: nat)
    requires OneHome(queried) && World(queried, contents) && IsUnion(queried, contents, all)
    requires Chain(qs, ss, pages, queried, contents)
    ensures next <= |all| && Deduped(Items(pages)) == Deduped(all[..next])
    ensures !Duplicated(all) ==> Items(pages) == all[..next]
    ensures pages != [] && pages[|pages|-1].nextCursor.Encoded? ==>
              |pages| <= next && pages[|pages|-1].nextCursor.record.sortKey == all[next-1].Key()
    ensures pages != [] && !pages[|pages|-1].nextCursor.Encoded? ==> next == |all| && |pages| <= |all| + 1
  {
    hide World, IsUnion, HonestPage, PageOf, Deduped, Duplicated, OneHome, Chain;
    next := 0;
    if pages == [] {
      assert all[..0] == Items(pages);
    } else {
      var n := |pages| - 1;
      ChainAt(qs, ss, pages, queried, contents, n);
      ChainPrefix(qs, ss, pages, queried, contents, n);
      var m := 0;
      assert all[..0] == Items(pages[..0]);
      if n > 0 {
        m := ChainDelivers(qs[..n], ss[..n], pages[..n], queried, contents, all);
      }
      next := PageStep(qs[n], ss[n], pages[n], queried, contents, all, m);
      JoinPage(Items(pages[..n]), pages[n].items, all, m, next);
    }
  }

  lemma PartDistinct(all: seq<Event>, m: nat, n: nat)
    requires m <= n <= |all| && !Duplicated(all)
    ensures !Duplicated(all[m..n])
  {
    forall i, j | 0 <= i < j < n - m ensures all[m..n][i].eventID != all[m..n][j].eventID {
      assert all[m+i].eventID != all[m+j].eventID;
    }
  }

  /**
   * Lossless paging. A chain of pages from honest, unchanging workers has at most one page more than there
   * are events. Once a page carries no cursor, the pages together hold the sorted union of all workers'
   * events up to deduplication, and exactly that union when no event id repeats.
   */
  lemma PagingIsLossless(
    qs: seq<Query>, ss: seq<Surroundings>, pages: seq<SearchResponse>,
    queried: seq<TargetInfo>, contents: map<string, seq<Event>>, all: seq<Event>)
    requires OneHome(queried) && World(queried, contents) && IsUnion(queried, contents, all)
    requires Chain(qs, ss, pages, queried, contents) && pages != []
    ensures |pages| <= |all| + 1
    ensures Deduped(Items(pages)) <= Deduped(all)
    ensures !pages[|pages|-1].nextCursor.Encoded? ==> Deduped(Items(pages)) == Deduped(all)
    ensures !Duplicated(all) ==> Items(pages) <= all
    ensures !Duplicated(all) && !pages[|pages|-1].nextCursor.Encoded? ==> Items(pages) == all
  {
    hide World, IsUnion, Chain, Deduped, Duplicated, OneHome;
    var next := ChainDelivers(qs, ss, pages, queried, contents, all);
    assert all[..|all|] == all;
    DedupePrefix(all, next);
  }

  /** The next page's query is accepted exactly when the client repeats no other view, order or page limit. */
  lemma NextPageBinds(q: Query, s: Surroundings, resp: SearchResponse, again: Query)
    requires PageOf(q, s, resp) && resp.nextCursor.Encoded? && again.cursor == resp.nextCursor
    requires s.view.viewID != "" && s.view.orderVersion == ORDER_VERSION
    ensures BindCursor(again).Ok? <==>
            && (again.viewID == "" || again.viewID == s.view.viewID)
            && (again.orderVersion == "" || again.orderVersion == ORDER_VERSION)
            && (again.budget.limit == 0 || again.budget.limit == resp.view.limit)
    ensures BindCursor(again).Ok? ==> BindCursor(again).value.budget.limit == resp.view.limit
  {
    hide Deduped, Duplicated, SummaryOf, FinalCoverage, InWindow, FanoutSearch.Arrives, FanoutSearch.AllFine,
      FanoutSearch.Outcomes, OrderFree.AnswerOf, WorkerOrder, Merged;
  }
}
