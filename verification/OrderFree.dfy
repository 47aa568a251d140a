/** The result of a fan-out is the same for every order in which the replies arrive. */
module OrderFree {
  import opened Text
  import opened Merge
  import opened Targets
  import opened Budget
  import opened Sorting
  import opened Fanout
  import opened FanoutSearch

  /** Each outcome carries only its own worker's streams and gaps. */
  ghost predicate OwnData(o: WorkerOutcome) {
    && (forall s :: s in o.streams ==> s.workerID == o.workerID)
    && (forall g :: g in o.gaps ==> g.workerID == o.workerID)
  }

  /** Outcomes of different workers that speak of different targets. */
  ghost predicate Separate(outs: seq<WorkerOutcome>) {
    && (forall i :: 0 <= i < |outs| ==> OwnData(outs[i]))
    && (forall i, j :: 0 <= i < j < |outs| ==> outs[i].workerID != outs[j].workerID)
    && (forall i, j :: 0 <= i < j < |outs| ==> outs[i].coverage.Keys !! outs[j].coverage.Keys)
  }

  ghost predicate SameOutcomes(a: seq<WorkerOutcome>, b: seq<WorkerOutcome>) {
    forall o :: o in a <==> o in b
  }

  // ----- coverage and flags -----

  lemma {:induction false} CoverageOf(g: Gathered, outs: seq<WorkerOutcome>, id: string)
    requires Separate(outs)
    ensures id in AddAll(g, outs).coverage <==>
            id in g.coverage || exists o :: o in outs && id in o.coverage
    ensures forall o :: o in outs && id in o.coverage ==> AddAll(g, outs).coverage[id] == o.coverage[id]
    ensures id in g.coverage && (forall o :: o in outs ==> id !in o.coverage) ==>
              AddAll(g, outs).coverage[id] == g.coverage[id]
  {
    if outs != [] {
      var n := |outs| - 1;
      assert outs == outs[..n] + [outs[n]];
      CoverageOf(g, outs[..n], id);
    }
  }

  lemma {:induction false} FlagsOf(g: Gathered, outs: seq<WorkerOutcome>)
    ensures AddAll(g, outs).cut <==> g.cut || exists o :: o in outs && o.cut
    ensures AddAll(g, outs).open <==> g.open || exists o :: o in outs && o.open
    ensures AddAll(g, outs).summary.complete <==>
            g.summary.complete && forall o :: o in outs && o.summary.Some? ==> o.summary.value.complete
    ensures forall r :: r in AddAll(g, outs).summary.partialReasons <==>
                        r in g.summary.partialReasons ||
                        (r != "" && exists o :: o in outs && o.summary.Some? && r in o.summary.value.partialReasons)
  {
    if outs != [] {
      var n := |outs| - 1;
      assert outs == outs[..n] + [outs[n]];
      FlagsOf(g, outs[..n]);
    }
  }

  lemma {:induction false} EnumerationOf(g: Gathered, outs: seq<WorkerOutcome>)
    ensures var e := AddAll(g, outs).summary.enumeration;
            && EnumRank(g.summary.enumeration) <= EnumRank(e)
            && (forall o :: o in outs && o.summary.Some? ==> EnumRank(o.summary.value.enumeration) <= EnumRank(e))
            && (e == g.summary.enumeration ||
                exists o :: o in outs && o.summary.Some? && o.summary.value.enumeration == e)
  {
    if outs != [] {
      var n := |outs| - 1;
      assert outs == outs[..n] + [outs[n]];
      EnumerationOf(g, outs[..n]);
    }
  }

  // ----- streams and gaps -----

  lemma StreamTie(x: EventStream, y: EventStream)
    requires StreamLe(x, y) && StreamLe(y, x)
    ensures x.workerID == y.workerID
  {
    CompareFieldsFlip(StreamKey(x), StreamKey(y));
    CompareFieldsEqual(StreamKey(x), StreamKey(y));
    assert StreamKey(x)[0] == StreamKey(y)[0];
  }

  lemma GapTie(x: PositionGap, y: PositionGap)
    requires GapLe(x, y) && GapLe(y, x)
    ensures x.workerID == y.workerID
  {
    CompareFieldsFlip(GapKey(x), GapKey(y));
    CompareFieldsEqual(GapKey(x), GapKey(y));
    assert GapKey(x)[0] == GapKey(y)[0];
  }

  lemma ForeignTies(o: WorkerOutcome, s: EventStream, g: PositionGap)
    requires OwnData(o)
    ensures o.workerID != s.workerID ==> Ties(o.streams, s, StreamLe) == []
    ensures o.workerID != g.workerID ==> Ties(o.gaps, g, GapLe) == []
  {
    if o.workerID != s.workerID && Ties(o.streams, s, StreamLe) != [] {
      var y := Ties(o.streams, s, StreamLe)[0];
      TiesMember(o.streams, s, StreamLe, y);
      StreamTie(s, y);
    }
    if o.workerID != g.workerID && Ties(o.gaps, g, GapLe) != [] {
      var y := Ties(o.gaps, g, GapLe)[0];
      TiesMember(o.gaps, g, GapLe, y);
      GapTie(g, y);
    }
  }

  lemma SeparateLast(outs: seq<WorkerOutcome>)
    requires Separate(outs) && outs != []
    ensures Separate(outs[..|outs|-1]) && OwnData(outs[|outs|-1])
    ensures forall o :: o in outs <==> o in outs[..|outs|-1] || o == outs[|outs|-1]
    ensures forall o :: o in outs[..|outs|-1] ==> o.workerID != outs[|outs|-1].workerID
  {
    assert outs == outs[..|outs|-1] + [outs[|outs|-1]];
  }

  /** The streams that tie with a given one all come, in order, from that worker's outcome. */
  lemma {:induction false} StreamTiesOf(base: Gathered, outs: seq<WorkerOutcome>, s: EventStream)
    requires base.streams == [] && Separate(outs)
    ensures forall o :: o in outs && o.workerID == s.workerID ==>
              Ties(AddAll(base, outs).streams, s, StreamLe) == Ties(o.streams, s, StreamLe)
    ensures (forall o :: o in outs ==> o.workerID != s.workerID) ==>
              Ties(AddAll(base, outs).streams, s, StreamLe) == []
  {
    hide StreamLe, Separate, OwnData;
    if outs != [] {
      var n := |outs| - 1;
      SeparateLast(outs);
      StreamTiesOf(base, outs[..n], s);
      ForeignTies(outs[n], s, PositionGap("", "", "", "", "", "", "", "", ""));
      TiesConcat(AddAll(base, outs[..n]).streams, outs[n].streams, s, StreamLe);
    }
  }

  /** So do the gaps. */
  lemma {:induction false} GapTiesOf(base: Gathered, outs: seq<WorkerOutcome>, g: PositionGap)
    requires base.gaps == [] && Separate(outs)
    ensures forall o :: o in outs && o.workerID == g.workerID ==>
              Ties(AddAll(base, outs).gaps, g, GapLe) == Ties(o.gaps, g, GapLe)
    ensures (forall o :: o in outs ==> o.workerID != g.workerID) ==>
              Ties(AddAll(base, outs).gaps, g, GapLe) == []
  {
    hide GapLe, Separate, OwnData;
    if outs != [] {
      var n := |outs| - 1;
      SeparateLast(outs);
      GapTiesOf(base, outs[..n], g);
      ForeignTies(outs[n], EventStream("", "", []), g);
      TiesConcat(AddAll(base, outs[..n]).gaps, outs[n].gaps, g, GapLe);
    }
  }

  lemma SortedSame(base: Gathered, a: seq<WorkerOutcome>, b: seq<WorkerOutcome>)
    requires base.streams == [] && base.gaps == []
    requires Separate(a) && Separate(b) && SameOutcomes(a, b)
    ensures SortBy(AddAll(base, a).streams, StreamLe) == SortBy(AddAll(base, b).streams, StreamLe)
    ensures SortBy(AddAll(base, a).gaps, GapLe) == SortBy(AddAll(base, b).gaps, GapLe)
  {
    hide StreamLe, GapLe, Separate;
    var x, y := AddAll(base, a), AddAll(base, b);
    StreamOrder();
    GapOrder();
    SortBySorts(x.streams, StreamLe);
    SortBySorts(y.streams, StreamLe);
    SortBySorts(x.gaps, GapLe);
    SortBySorts(y.gaps, GapLe);
    forall s ensures Ties(SortBy(x.streams, StreamLe), s, StreamLe) == Ties(SortBy(y.streams, StreamLe), s, StreamLe) {
      StreamTiesOf(base, a, s);
      StreamTiesOf(base, b, s);
    }
    forall g ensures Ties(SortBy(x.gaps, GapLe), g, GapLe) == Ties(SortBy(y.gaps, GapLe), g, GapLe) {
      GapTiesOf(base, a, g);
      GapTiesOf(base, b, g);
    }
    SortedTiesUnique(SortBy(x.streams, StreamLe), SortBy(y.streams, StreamLe), StreamLe);
    SortedTiesUnique(SortBy(x.gaps, GapLe), SortBy(y.gaps, GapLe), GapLe);
  }

  // ----- quality -----

  /** The worst of the texts met one after the other. */
  function TopOf(dim: Dimension, start: string, texts: seq<string>): string {
    if texts == [] then start else Worst(dim, TopOf(dim, start, texts[..|texts|-1]), texts[|texts|-1])
  }

  function QualityText(dim: Dimension, q: Quality): string {
    if dim == Duplicates then q.duplicate else q.stats
  }

  function Texts(dim: Dimension, outs: seq<WorkerOutcome>): (r: seq<string>)
    ensures |r| == |outs|
  {
    seq(|outs|, i requires 0 <= i < |outs| => QualityText(dim, outs[i].quality))
  }

  lemma {:induction false} QualityFold(dim: Dimension, g: Gathered, outs: seq<WorkerOutcome>)
    ensures QualityText(dim, AddAll(g, outs).quality) == TopOf(dim, QualityText(dim, g.quality), Texts(dim, outs))
  {
    hide Rank, MergeSummary;
    if outs != [] {
      QualityFold(dim, g, outs[..|outs|-1]);
      assert Texts(dim, outs)[..|outs|-1] == Texts(dim, outs[..|outs|-1]);
    }
  }

  lemma {:induction false} TopOfBounds(dim: Dimension, start: string, texts: seq<string>)
    ensures Rank(dim, start) <= Rank(dim, TopOf(dim, start, texts))
    ensures forall t :: t in texts ==> Rank(dim, t) <= Rank(dim, TopOf(dim, start, texts))
    ensures Rank(dim, TopOf(dim, start, texts)) == Rank(dim, start) ==> TopOf(dim, start, texts) == start
    ensures TopOf(dim, start, texts) == start || TopOf(dim, start, texts) in texts
  {
    hide Rank;
    if texts != [] {
      assert texts == texts[..|texts|-1] + [texts[|texts|-1]];
      TopOfBounds(dim, start, texts[..|texts|-1]);
    }
  }

  ghost predicate IsTop(dim: Dimension, start: string, texts: seq<string>, t: string) {
    && t in texts && Rank(dim, t) > Rank(dim, start)
    && forall u :: u in texts ==> Rank(dim, u) <= Rank(dim, t)
  }

  /** The texts that beat the start and that no other text beats are all spelled alike. */
  ghost predicate OneTopSpelling(dim: Dimension, start: string, texts: seq<string>) {
    forall s, t :: IsTop(dim, start, texts, s) && IsTop(dim, start, texts, t) ==> s == t
  }

  lemma {:induction false} FirstTopStays(dim: Dimension, start: string, top: string, rest: seq<string>)
    requires Rank(dim, top) > Rank(dim, start)
    requires forall u :: u in rest ==> Rank(dim, u) <= Rank(dim, top)
    ensures TopOf(dim, start, [top] + rest) == top
  {
    hide Rank;
    if rest == [] {
      assert [top] + rest == [top];
      assert [top][..0] == [];
    } else {
      var n := |rest| - 1;
      assert ([top] + rest)[..|rest|] == [top] + rest[..n];
      assert rest == rest[..n] + [rest[n]];
      FirstTopStays(dim, start, top, rest[..n]);
    }
  }

  lemma SameTextsSameTop(dim: Dimension, start: string, a: seq<string>, b: seq<string>)
    requires forall t :: t in a <==> t in b
    ensures Rank(dim, TopOf(dim, start, a)) == Rank(dim, TopOf(dim, start, b))
    ensures OneTopSpelling(dim, start, a) ==> TopOf(dim, start, a) == TopOf(dim, start, b)
  {
    hide Rank;
    TopOfBounds(dim, start, a);
    TopOfBounds(dim, start, b);
    if Rank(dim, TopOf(dim, start, a)) > Rank(dim, start) {
      assert IsTop(dim, start, a, TopOf(dim, start, a)) && IsTop(dim, start, a, TopOf(dim, start, b));
    }
  }

  lemma TwoSpellings(dim: Dimension, start: string, texts: seq<string>) returns (a: seq<string>, b: seq<string>)
    requires !OneTopSpelling(dim, start, texts)
    ensures multiset(a) == multiset(texts) == multiset(b)
    ensures TopOf(dim, start, a) != TopOf(dim, start, b)
  {
    hide Rank;
    var s, t :| IsTop(dim, start, texts, s) && IsTop(dim, start, texts, t) && s != t;
    var a' := MoveToFront(texts, s);
    var b' := MoveToFront(texts, t);
    FirstTopStays(dim, start, s, a');
    FirstTopStays(dim, start, t, b');
    a, b := [s] + a', [t] + b';
  }

  /**
   * The merged quality has the same rank for every arrangement of the texts; its text is the same for
   * every arrangement exactly when the worst rank is spelled in one way.
   */
  lemma QualityOrderFree(dim: Dimension, start: string, texts: seq<string>)
    ensures forall other :: multiset(other) == multiset(texts) ==>
              Rank(dim, TopOf(dim, start, other)) == Rank(dim, TopOf(dim, start, texts))
    ensures (forall other :: multiset(other) == multiset(texts) ==>
               TopOf(dim, start, other) == TopOf(dim, start, texts))
            <==> OneTopSpelling(dim, start, texts)
  {
    hide Rank, OneTopSpelling, TopOf;
    forall other | multiset(other) == multiset(texts)
      ensures Rank(dim, TopOf(dim, start, other)) == Rank(dim, TopOf(dim, start, texts))
      ensures OneTopSpelling(dim, start, texts) ==> TopOf(dim, start, other) == TopOf(dim, start, texts)
    {
      forall t ensures t in texts <==> t in other {
        assert t in texts <==> t in multiset(texts);
        assert t in other <==> t in multiset(other);
      }
      SameTextsSameTop(dim, start, texts, other);
    }
    if !OneTopSpelling(dim, start, texts) {
      var a, b := TwoSpellings(dim, start, texts);
    }
  }

  lemma MoveToFront(texts: seq<string>, x: string) returns (rest: seq<string>)
    requires x in texts
    ensures multiset([x] + rest) == multiset(texts)
    ensures forall u :: u in rest ==> u in texts
  {
    var i :| 0 <= i < |texts| && texts[i] == x;
    rest := texts[..i] + texts[i+1..];
    assert texts == texts[..i] + [x] + texts[i+1..];
  }

  // ----- the theorem -----

  /** The same answer, reasons compared as a set and quality by how bad it is. */
  ghost predicate SameAnswer(x: Gathered, y: Gathered) {
    && x.streams == y.streams
    && x.coverage == y.coverage
    && x.cut == y.cut && x.open == y.open
    && x.gaps == y.gaps
    && x.summary.complete == y.summary.complete
    && x.summary.enumeration == y.summary.enumeration
    && (forall r :: r in x.summary.partialReasons <==> r in y.summary.partialReasons)
    && (forall dim :: Rank(dim, QualityText(dim, x.quality)) == Rank(dim, QualityText(dim, y.quality)))
  }

  lemma CoverageSame(base: Gathered, a: seq<WorkerOutcome>, b: seq<WorkerOutcome>)
    requires Separate(a) && Separate(b) && SameOutcomes(a, b)
    ensures AddAll(base, a).coverage == AddAll(base, b).coverage
  {
    var x, y := AddAll(base, a).coverage, AddAll(base, b).coverage;
    forall id ensures (id in x <==> id in y) && (id in x ==> x[id] == y[id]) {
      CoverageOf(base, a, id);
      CoverageOf(base, b, id);
      if o :| o in a && id in o.coverage {
        assert o in b;
      }
    }
  }

  lemma SummarySame(base: Gathered, a: seq<WorkerOutcome>, b: seq<WorkerOutcome>)
    requires SameOutcomes(a, b) && base.summary.enumeration == EnumExhausted
    ensures var x, y := AddAll(base, a), AddAll(base, b);
            && x.cut == y.cut && x.open == y.open
            && x.summary.complete == y.summary.complete
            && x.summary.enumeration == y.summary.enumeration
            && (forall r :: r in x.summary.partialReasons <==> r in y.summary.partialReasons)
  {
    FlagsOf(base, a);
    FlagsOf(base, b);
    EnumerationOf(base, a);
    EnumerationOf(base, b);
  }

  lemma SameTexts(a: seq<WorkerOutcome>, b: seq<WorkerOutcome>, dim: Dimension)
    requires SameOutcomes(a, b)
    ensures forall t :: t in Texts(dim, a) <==> t in Texts(dim, b)
  {
    forall t ensures t in Texts(dim, a) <==> t in Texts(dim, b) {
      if t in Texts(dim, a) {
        var i :| 0 <= i < |a| && Texts(dim, a)[i] == t;
        assert a[i] in b;
        var j :| 0 <= j < |b| && b[j] == a[i];
        assert Texts(dim, b)[j] == t;
      }
      if t in Texts(dim, b) {
        var i :| 0 <= i < |b| && Texts(dim, b)[i] == t;
        assert b[i] in a;
        var j :| 0 <= j < |a| && a[j] == b[i];
        assert Texts(dim, a)[j] == t;
      }
    }
  }

  lemma QualitySame(base: Gathered, a: seq<WorkerOutcome>, b: seq<WorkerOutcome>, dim: Dimension)
    requires SameOutcomes(a, b)
    ensures Rank(dim, QualityText(dim, AddAll(base, a).quality)) == Rank(dim, QualityText(dim, AddAll(base, b).quality))
  {
    hide Rank, AddAll;
    var start := QualityText(dim, base.quality);
    QualityFold(dim, base, a);
    QualityFold(dim, base, b);
    TopOfBounds(dim, start, Texts(dim, a));
    TopOfBounds(dim, start, Texts(dim, b));
    SameTexts(a, b, dim);
  }

  /** Gathering the same outcomes in any order gives the same answer. */
  lemma GatherOrderFree(base: Gathered, a: seq<WorkerOutcome>, b: seq<WorkerOutcome>)
    requires base.streams == [] && base.gaps == [] && base.summary.enumeration == EnumExhausted
    requires Separate(a) && Separate(b) && SameOutcomes(a, b)
    ensures SameAnswer(Finish(AddAll(base, a)), Finish(AddAll(base, b)))
  {
    hide Separate, SameOutcomes, AddAll, Rank, SortBy, SomeUnsettled;
    CoverageSame(base, a, b);
    SortedSame(base, a, b);
    SummarySame(base, a, b);
    QualitySame(base, a, b, Duplicates);
    QualitySame(base, a, b, Statistics);
  }

  // ----- quality as the wire carries it -----

  /** What the adapter makes of the wire's enumeration, and the empty text of a worker that gave no quality. */
  function WireTexts(dim: Dimension): set<string> {
    if dim == Duplicates then {"", "unspecified", "exact", "unresolved", "conflict"}
    else {"", "unspecified", "exact", "partial", "unavailable"}
  }

  lemma WireRank(dim: Dimension, t: string)
    requires t in WireTexts(dim)
    ensures Rank(dim, t) ==
            if t == "exact" then 1 else if t == "unresolved" || t == "partial" then 2
            else if t == "conflict" || t == "unavailable" then 3 else 0
  {
    assert Lower(t) == t;
  }

  lemma WireRanksTell(dim: Dimension, s: string, t: string)
    requires s in WireTexts(dim) && t in WireTexts(dim) && Rank(dim, s) == Rank(dim, t) > 0
    ensures s == t
  {
    WireRank(dim, s);
    WireRank(dim, t);
    hide Rank;
    assert |"partial"| == 7 && |"unresolved"| == 10 && |"conflict"| == 8;
    assert |"unavailable"| == 11 && |"unspecified"| == 11;
    assert "unspecified"[2] == 's' && "unavailable"[2] == 'a';
  }

  /** Texts of the wire spell every rank in one way only. */
  lemma WireSpellsOnce(dim: Dimension, start: string, texts: seq<string>)
    requires forall t :: t in texts ==> t in WireTexts(dim)
    ensures OneTopSpelling(dim, start, texts)
  {
    hide Rank, WireTexts;
    forall s, t | IsTop(dim, start, texts, s) && IsTop(dim, start, texts, t) ensures s == t {
      WireRanksTell(dim, s, t);
    }
  }

  predicate WireQuality(q: Quality) {
    q.duplicate in WireTexts(Duplicates) && q.stats in WireTexts(Statistics)
  }

  /** So the merged quality too is the same text whatever the order, as the workers' adapter delivers it. */
  lemma WireQualityOrderFree(base: Gathered, a: seq<WorkerOutcome>, b: seq<WorkerOutcome>)
    requires Separate(a) && Separate(b) && SameOutcomes(a, b) && forall o :: o in a ==> WireQuality(o.quality)
    ensures Finish(AddAll(base, a)).quality == Finish(AddAll(base, b)).quality
  {
    CoverageSame(base, a, b);
    hide Separate, SortBy, SomeUnsettled, WireTexts;
    forall dim ensures QualityText(dim, AddAll(base, a).quality) == QualityText(dim, AddAll(base, b).quality) {
      hide Rank, AddAll;
      QualityFold(dim, base, a);
      QualityFold(dim, base, b);
      SameTexts(a, b, dim);
      WireSpellsOnce(dim, QualityText(dim, base.quality), Texts(dim, a));
      SameTextsSameTop(dim, QualityText(dim, base.quality), Texts(dim, a), Texts(dim, b));
    }
    hide AddAll, Worst;
    var x, y := AddAll(base, a).quality, AddAll(base, b).quality;
    assert QualityText(Duplicates, x) == QualityText(Duplicates, y);
    assert QualityText(Statistics, x) == QualityText(Statistics, y);
  }

  // ----- from replies to outcomes -----

  lemma {:induction false} OfWorkerMember(queried: seq<TargetInfo>, w: string, t: TargetInfo)
    ensures t in OfWorker(queried, w) <==> t in queried && t.workerID == w
  {
    if queried != [] {
      assert queried == queried[..|queried|-1] + [queried[|queried|-1]];
      OfWorkerMember(queried[..|queried|-1], w, t);
    }
  }

  lemma OutcomeOwnData(req: FanoutRequest, w: string, targets: seq<TargetInfo>, reply: Reply)
    requires OutcomeOf(req, w, targets, reply).Ok?
    ensures OutcomeOf(req, w, targets, reply).value.workerID == w
    ensures OwnData(OutcomeOf(req, w, targets, reply).value)
    ensures OutcomeOf(req, w, targets, reply).value.coverage == CoverMap(req, w, reply, targets)
  {
  }

  /** The worker at which a queried target with this id is at home. */
  ghost predicate HomeIs(queried: seq<TargetInfo>, id: string, w: string) {
    exists t :: t in queried && t.id == id && t.workerID == w
  }

  /** With every id under one worker, the outcomes of different workers are separate. */
  lemma OutcomesSeparate(req: FanoutRequest, queried: seq<TargetInfo>, replies: map<string, Reply>,
      arrival: seq<string>)
    requires Distinct(arrival) && (forall w :: w in arrival ==> w in replies) && OneHome(queried)
    requires AllFine(Outcomes(req, queried, replies, arrival))
    ensures Separate(Values(Outcomes(req, queried, replies, arrival)))
  {
    hide OwnData, OutcomeOf, CoverMap, Distinct;
    var outs := Values(Outcomes(req, queried, replies, arrival));
    forall i | 0 <= i < |outs|
      ensures OwnData(outs[i]) && outs[i].workerID == arrival[i]
      ensures forall id :: id in outs[i].coverage ==> HomeIs(queried, id, arrival[i])
    {
      var targets := OfWorker(queried, arrival[i]);
      assert Outcomes(req, queried, replies, arrival)[i].Ok?;
      OutcomeOwnData(req, arrival[i], targets, replies[arrival[i]]);
      forall id | id in outs[i].coverage ensures HomeIs(queried, id, arrival[i]) {
        var k :| 0 <= k < |targets| && targets[k].id == id;
        OfWorkerMember(queried, arrival[i], targets[k]);
      }
    }
    forall i, j | 0 <= i < j < |outs|
      ensures outs[i].workerID != outs[j].workerID && outs[i].coverage.Keys !! outs[j].coverage.Keys
    {
      assert arrival[i] != arrival[j] by { DistinctAt(arrival, i, j); }
      forall id | id in outs[i].coverage ensures id !in outs[j].coverage {
        assert HomeIs(queried, id, arrival[i]) && !HomeIs(queried, id, arrival[j]);
      }
    }
  }

  lemma DistinctAt<T>(s: seq<T>, i: nat, j: nat)
    requires Distinct(s) && i < j < |s|
    ensures s[i] != s[j]
  {
  }

  lemma {:induction false} BaseEmpty(queried: seq<TargetInfo>, order: seq<string>, budget: QueryBudget, k: nat)
    requires k <= |order|
    ensures var g := Base(queried, order, budget, k);
            && g.streams == [] && g.gaps == []
            && g.summary.enumeration == EnumExhausted && g.quality == Quality("exact", "")
  {
    if k > 0 {
      BaseEmpty(queried, order, budget, k - 1);
    }
  }

  /** The fan-out's answer for one order of arrival. */
  function AnswerOf(
    req: FanoutRequest, queried: seq<TargetInfo>, budget: QueryBudget, replies: map<string, Reply>,
        arrival: seq<string>)
    : Gathered
    requires forall w :: w in arrival ==> w in replies
    requires AllFine(Outcomes(req, queried, replies, arrival))
  {
    Finish(AddAll(Base(queried, WorkerOrder(queried), budget, |WorkerOrder(queried)|),
                  Values(Outcomes(req, queried, replies, arrival))))
  }

  lemma SameRepliesSameOutcomes(
    req: FanoutRequest, queried: seq<TargetInfo>, replies: map<string, Reply>, a: seq<string>, b: seq<string>)
    requires forall w :: w in a <==> w in b
    requires forall w :: w in a ==> w in replies
    requires AllFine(Outcomes(req, queried, replies, a))
    ensures AllFine(Outcomes(req, queried, replies, b))
    ensures forall o :: o in Values(Outcomes(req, queried, replies, a)) ==> o in Values(Outcomes(req, queried,
        replies, b))
  {
    hide OutcomeOf;
    var x, y := Outcomes(req, queried, replies, a), Outcomes(req, queried, replies, b);
    forall i | 0 <= i < |b| ensures y[i].Ok? {
      assert b[i] in a;
      var k :| 0 <= k < |a| && a[k] == b[i];
      assert x[k] == y[i];
    }
    forall o | o in Values(x) ensures o in Values(y) {
      var i :| 0 <= i < |a| && Values(x)[i] == o;
      assert a[i] in b;
      var k :| 0 <= k < |b| && b[k] == a[i];
      assert Values(y)[k] == o;
    }
  }

  /** For any two orders in which the same error-free replies arrive, the fan-out gives the same answer. */
  lemma ArrivalOrderIrrelevant(
    req: FanoutRequest, queried: seq<TargetInfo>, budget: QueryBudget, replies: map<string, Reply>,
    a: seq<string>, b: seq<string>)
    requires Arrives(a, queried, budget, replies) && Arrives(b, queried, budget, replies)
    requires OneHome(queried)
    requires AllFine(Outcomes(req, queried, replies, a))
    ensures AllFine(Outcomes(req, queried, replies, b))
    ensures SameAnswer(AnswerOf(req, queried, budget, replies, a), AnswerOf(req, queried, budget, replies, b))
  {
    hide Separate, SameAnswer, Outcomes, Values, AllFine, Launched, Base, WorkerOrder, Finish, AddAll;
    SameRepliesSameOutcomes(req, queried, replies, a, b);
    SameRepliesSameOutcomes(req, queried, replies, b, a);
    OutcomesSeparate(req, queried, replies, a);
    OutcomesSeparate(req, queried, replies, b);
    BaseEmpty(queried, WorkerOrder(queried), budget, |WorkerOrder(queried)|);
    GatherOrderFree(Base(queried, WorkerOrder(queried), budget, |WorkerOrder(queried)|),
                    Values(Outcomes(req, queried, replies, a)), Values(Outcomes(req, queried, replies, b)));
  }
}
