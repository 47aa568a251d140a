/** Second aggregation of the workers' statistics: mergeable counts, sums and bounds by time bucket and dimensions. */
module Stats {
  import opened Text
  import opened Sorting

  // ----- time buckets -----

  const SECOND := 1_000_000_000

  /** Go's `%`: the remainder takes the sign of the dividend. */
  function Rem(a: int, b: int): int
    requires b > 0
  {
    if a >= 0 then a % b else -((-a) % b)
  }

  /** The start of the bucket of an instant, both in nanoseconds since the Unix epoch. */
  function BucketStart(unix: int, bucket: int): int {
    if bucket <= 0 then unix - unix % SECOND
    else
      var start := unix - Rem(unix, bucket);
      if unix < 0 && Rem(unix, bucket) != 0 then start - bucket else start
  }

  function BucketSize(bucket: int): (size: int)
    ensures size > 0
  {
    if bucket <= 0 then SECOND else bucket
  }

  lemma StartHolds(unix: int, bucket: int)
    ensures BucketStart(unix, bucket) % BucketSize(bucket) == 0
    ensures BucketStart(unix, bucket) <= unix < BucketStart(unix, bucket) + BucketSize(bucket)
  {
    var size := BucketSize(bucket);
    if unix < 0 && bucket > 0 {
      var q, r := (-unix) / size, (-unix) % size;
      QuotientExact(-unix, size);
      MultipleMod(-q, size);
      MultipleMod(-q - 1, size);
      assert (-q) * size == -(q * size) && (-q - 1) * size == -(q * size) - size;
    } else {
      QuotientExact(unix, size);
      MultipleMod(unix / size, size);
    }
  }

  /** The start is the one multiple of the width that the instant has reached and whose successor it has not. */
  lemma BucketHolds(unix: int, bucket: int, start: int)
    ensures start == BucketStart(unix, bucket) <==>
            start % BucketSize(bucket) == 0 && start <= unix < start + BucketSize(bucket)
  {
    StartHolds(unix, bucket);
    hide BucketStart;
    if start % BucketSize(bucket) == 0 && start <= unix < start + BucketSize(bucket) {
      MultiplesApart(start, BucketStart(unix, bucket), BucketSize(bucket));
    }
  }

  lemma QuotientExact(a: int, size: int)
    requires size > 0
    ensures a - a % size == (a / size) * size
  {
  }

  lemma Spread(d: int, size: int)
    requires size > 0
    ensures (d >= 1 ==> d * size >= size) && (d <= -1 ==> d * size <= -size)
  {
  }

  lemma MultipleMod(q: int, size: int)
    requires size > 0
    ensures (q * size) % size == 0
  {
    var r := (q * size) % size;
    var p := (q * size) / size;
    assert q * size == p * size + r;
    assert (q - p) * size == r;
    Spread(q - p, size);
  }

  lemma MultiplesApart(a: int, b: int, size: int)
    requires size > 0 && a % size == 0 && b % size == 0 && -size < a - b < size
    ensures a == b
  {
    QuotientExact(a, size);
    QuotientExact(b, size);
    var d := a / size - b / size;
    assert d * size == a - b;
    Spread(d, size);
  }

  // ----- aggregates -----

  datatype Aggregate = Aggregate(count: nat, sum: real, min: real, max: real, hasMinMax: bool)
  {
    /** Counts and sums add; bounds widen; bounds nobody has measured stay unmeasured. */
    function Merge(b: Aggregate): Aggregate {
      var a := this.(count := count + b.count, sum := sum + b.sum);
      if b.count == 0 && !b.hasMinMax then a
      else if !hasMinMax && b.hasMinMax then a.(min := b.min, max := b.max, hasMinMax := true)
      else if !hasMinMax then a
      else if b.hasMinMax then
        a.(min := if b.min < min then b.min else min, max := if b.max > max then b.max else max)
      else a
    }

    function Avg(): (avg: real)
      ensures count == 0 ==> avg == 0.0
      ensures count != 0 ==> avg * count as real == sum
    {
      if count == 0 then 0.0 else sum / count as real
    }

    /** Its meaning: the bounds count only when they were measured. */
    function Meaning(): Tally {
      Tally(count, sum, if hasMinMax then Some((min, max)) else None)
    }
  }

  datatype Tally = Tally(count: nat, sum: real, bounds: Option<(real, real)>)

  function Wider(a: Option<(real, real)>, b: Option<(real, real)>): Option<(real, real)> {
    if a.None? then b
    else if b.None? then a
    else
      Some((if b.value.0 < a.value.0 then b.value.0 else a.value.0,
            if b.value.1 > a.value.1 then b.value.1 else a.value.1))
  }

  /** Two tallies together; none stands for no point at all. */
  function Plus(a: Option<Tally>, b: Option<Tally>): Option<Tally> {
    if a.None? then b
    else if b.None? then a
    else Some(Tally(a.value.count + b.value.count, a.value.sum + b.value.sum, Wider(a.value.bounds, b.value.bounds)))
  }

  lemma PlusLaws(a: Option<Tally>, b: Option<Tally>, c: Option<Tally>)
    ensures Plus(a, b) == Plus(b, a)
    ensures Plus(Plus(a, b), c) == Plus(a, Plus(b, c))
    ensures Plus(a, None) == a && Plus(None, a) == a
  {
  }

  lemma MergeTallies(a: Aggregate, b: Aggregate)
    ensures Some(a.Merge(b).Meaning()) == Plus(Some(a.Meaning()), Some(b.Meaning()))
  {
  }

  /** Counts and sums add up; measured bounds enclose what either side measured, and each is one of theirs. */
  lemma MergeEncloses(a: Aggregate, b: Aggregate)
    ensures var m := a.Merge(b);
            && m.count == a.count + b.count && m.sum == a.sum + b.sum
            && (m.hasMinMax <==> a.hasMinMax || b.hasMinMax)
            && (a.hasMinMax ==> m.min <= a.min && a.max <= m.max)
            && (b.hasMinMax ==> m.min <= b.min && b.max <= m.max)
            && (m.hasMinMax ==> (a.hasMinMax && m.min == a.min) || (b.hasMinMax && m.min == b.min))
            && (m.hasMinMax ==> (a.hasMinMax && m.max == a.max) || (b.hasMinMax && m.max == b.max))
  {
  }

  // ----- keys -----

  datatype Point = Point(dims: map<string, string>, bucket: string, agg: Aggregate)

  function Pairs(dims: map<string, string>, keys: seq<string>): seq<string>
    requires forall k :: k in keys ==> k in dims
  {
    if keys == [] then [] else [keys[0] + "=" + dims[keys[0]]] + Pairs(dims, keys[1..])
  }

  /** `tb=bucket|k=v|k=v...` with sorted keys. */
  function DimsKey(dims: map<string, string>, bucket: string): string {
    SortedKeysComplete(dims.Keys);
    Join(["tb=" + bucket] + Pairs(dims, SortedKeys(dims.Keys)), '|')
  }

  function KeyOf(p: Point): string {
    DimsKey(p.dims, p.bucket)
  }

  predicate PlainText(s: string) {
    '|' !in s
  }

  predicate PlainName(s: string) {
    '|' !in s && '=' !in s
  }

  /** No bucket and no value contains the byte between the pairs, and no dimension that or the byte inside a pair. */
  predicate Plain(p: Point) {
    PlainText(p.bucket) && forall k :: k in p.dims ==> PlainName(k) && PlainText(p.dims[k])
  }

  lemma {:induction false} PairsTell(d: map<string, string>, ds: seq<string>, e: map<string, string>, es: seq<string>)
    requires (forall k :: k in ds ==> k in d && PlainName(k) && PlainText(d[k]))
    requires (forall k :: k in es ==> k in e && PlainName(k) && PlainText(e[k]))
    requires Pairs(d, ds) == Pairs(e, es)
    ensures ds == es && forall k :: k in ds ==> d[k] == e[k]
  {
    if ds != [] && es != [] {
      assert Pairs(d, ds)[0] == Pairs(e, es)[0];
      assert ds[0] in ds && es[0] in es;
      FirstPieceTells(ds[0], d[ds[0]], es[0], e[es[0]], '=');
      assert Pairs(d, ds)[1..] == Pairs(e, es)[1..];
      PairsTell(d, ds[1..], e, es[1..]);
      assert ds == [ds[0]] + ds[1..] && es == [es[0]] + es[1..];
    }
  }

  lemma {:induction false} PairsFree(d: map<string, string>, ds: seq<string>)
    requires forall k :: k in ds ==> k in d && PlainName(k) && PlainText(d[k])
    ensures AllFree(Pairs(d, ds), '|')
  {
    if ds != [] {
      PairsFree(d, ds[1..]);
    }
  }

  /** Plain points share a key exactly when they share bucket and dimensions. */
  lemma KeyTells(p: Point, q: Point)
    requires Plain(p) && Plain(q)
    ensures KeyOf(p) == KeyOf(q) <==> p.bucket == q.bucket && p.dims == q.dims
  {
    if KeyOf(p) == KeyOf(q) {
      var ds, es := SortedKeys(p.dims.Keys), SortedKeys(q.dims.Keys);
      SortedKeysComplete(p.dims.Keys);
      SortedKeysComplete(q.dims.Keys);
      PairsFree(p.dims, ds);
      PairsFree(q.dims, es);
      var f, g := ["tb=" + p.bucket] + Pairs(p.dims, ds), ["tb=" + q.bucket] + Pairs(q.dims, es);
      JoinInjective(f, g, '|');
      assert f[0] == g[0] && f[0][3..] == p.bucket && g[0][3..] == q.bucket;
      assert f[1..] == Pairs(p.dims, ds) && g[1..] == Pairs(q.dims, es);
      PairsTell(p.dims, ds, q.dims, es);
      assert forall k :: k in p.dims <==> k in ds;
      assert forall k :: k in q.dims <==> k in es;
    }
  }

  /** Unstructured text does blur: these two points share a key. */
  lemma BlurredKey(agg: Aggregate)
    ensures var p := Point(map["a" := "1|b=2"], "", agg);
            var q := Point(map["a" := "1", "b" := "2"], "", agg);
            KeyOf(p) == KeyOf(q) && p.dims != q.dims && !Plain(p)
  {
    var d, e := map["a" := "1|b=2"], map["a" := "1", "b" := "2"];
    var sep: string := ['|'];
    assert d.Keys == {"a"} && e.Keys == {"a", "b"};
    KeysOfTwo();
    hide SortedKeys;
    OnePair(d, "a", [], "a=1|b=2");
    OnePair(e, "b", [], "b=2");
    OnePair(e, "a", ["b"], "a=1");
    assert ["a"] + ["b"] == ["a", "b"] && ["a"] + [] == ["a"] && ["b"] + [] == ["b"];
    assert Pairs(d, ["a"]) == ["a=1|b=2"] && Pairs(e, ["a", "b"]) == ["a=1", "b=2"];
    hide Pairs;
    JoinTwo("tb=", "a=1|b=2");
    JoinTwo("a=1", "b=2");
    JoinMore("tb=", ["a=1", "b=2"]);
    hide Join;
    assert "tb=" + "" == "tb=";
    assert ["tb=" + ""] + ["a=1|b=2"] == ["tb=", "a=1|b=2"];
    assert ["tb=" + ""] + (["a=1"] + ["b=2"]) == ["tb="] + ["a=1", "b=2"];
    assert "a=1" + sep + "b=2" == "a=1|b=2";
    assert DimsKey(d, "") == Join(["tb=", "a=1|b=2"], '|');
    assert DimsKey(e, "") == Join(["tb="] + ["a=1", "b=2"], '|');
    assert KeyOf(Point(d, "", agg)) == KeyOf(Point(e, "", agg));
    assert "b" in e && "b" !in d;
    assert d["a"][1] == '|';
    assert !PlainText(d["a"]);
  }

  lemma JoinTwo(x: string, y: string)
    ensures Join([x, y], '|') == x + ['|'] + y
  {
    assert [x, y][1..] == [y];
  }

  lemma JoinMore(x: string, rest: seq<string>)
    requires rest != []
    ensures Join([x] + rest, '|') == x + ['|'] + Join(rest, '|')
  {
    assert ([x] + rest)[1..] == rest;
  }

  lemma KeysOfTwo()
    ensures SortedKeys({"a"}) == ["a"] && SortedKeys({"a", "b"}) == ["a", "b"]
  {
    assert Compare("a", "b") == -1 && Compare("b", "a") == 1;
    assert {"a", "b"} - {"a"} == {"b"} && {"b"} - {"b"} == {} && {"a"} - {"a"} == {};
    assert SortedKeys({}) == [];
    assert SortedKeys({"a"})[0] == "a" && SortedKeys({"b"})[0] == "b";
    assert SortedKeys({"a", "b"})[0] == "a";
  }

  lemma OnePair(dims: map<string, string>, k: string, rest: seq<string>, text: string)
    requires k in dims && text == k + "=" + dims[k] && forall j :: j in rest ==> j in dims
    ensures Pairs(dims, [k] + rest) == [text] + Pairs(dims, rest)
  {
    assert ([k] + rest)[1..] == rest;
  }

  // ----- the merge -----

  /** The accumulator of every key: the first point of the key, with the later ones merged into it. */
  function Table(points: seq<Point>): map<string, Point> {
    if points == [] then map[]
    else
      var t, p := Table(points[..|points|-1]), points[|points|-1];
      var k := KeyOf(p);
      if k in t then t[k := t[k].(agg := t[k].agg.Merge(p.agg))] else t[k := p]
  }

  /** The keys in the order of their first points. */
  function FirstSeen(points: seq<Point>): seq<string> {
    if points == [] then []
    else
      var before, k := FirstSeen(points[..|points|-1]), KeyOf(points[|points|-1]);
      if k in before then before else before + [k]
  }

  lemma {:induction false} FirstSeenKeys(points: seq<Point>)
    ensures Distinct(FirstSeen(points))
    ensures forall k :: k in FirstSeen(points) <==> k in Table(points)
  {
    if points != [] {
      FirstSeenKeys(points[..|points|-1]);
    }
  }

  function Accumulated(points: seq<Point>): (r: seq<Point>)
    ensures |r| == |FirstSeen(points)|
  {
    FirstSeenKeys(points);
    seq(|FirstSeen(points)|, i requires 0 <= i < |FirstSeen(points)| => Table(points)[FirstSeen(points)[i]])
  }

  /** Bucket ascending, then dimensions ascending. */
  function ByBucketAndDims(): (Point, Point) -> bool {
    (p: Point, q: Point) => if p.bucket != q.bucket then Compare(p.bucket, q.bucket) <= 0
              else Compare(DimsKey(p.dims, ""), DimsKey(q.dims, "")) <= 0
  }

  function MergedPoints(points: seq<Point>): seq<Point> {
    SortBy(Accumulated(points), ByBucketAndDims())
  }

  /** One accumulator per key in a map, then a stable sort. */
  method MergeStatsPoints(points: seq<Point>) returns (out: seq<Point>)
    ensures out == MergedPoints(points) && Ascending(out)
  {
    MergedAscends(points);
    hide KeyOf, SortBy, Ascending;
    var order: seq<string> := [];
    var byKey: map<string, Point> := map[];
    for i := 0 to |points|
      invariant order == FirstSeen(points[..i]) && byKey == Table(points[..i])
    {
      assert points[..i + 1][..i] == points[..i];
      FirstSeenKeys(points[..i]);
      var p := points[i];
      var key := KeyOf(p);
      if key in byKey {
        byKey := byKey[key := byKey[key].(agg := byKey[key].agg.Merge(p.agg))];
        continue;
      }
      byKey := byKey[key := p];
      order := order + [key];
    }
    assert points[..|points|] == points;
    FirstSeenKeys(points);
    var merged: seq<Point> := [];
    for i := 0 to |order|
      invariant merged == Accumulated(points)[..i]
    {
      merged := merged + [byKey[order[i]]];
    }
    assert merged == Accumulated(points);
    out := SortBy(merged, ByBucketAndDims());
  }

  // ----- what a list of points says -----

  /** All the points of a key together, or none. */
  function Sum(points: seq<Point>, key: string): Option<Tally> {
    if points == [] then None
    else
      var before, p := Sum(points[..|points|-1], key), points[|points|-1];
      if KeyOf(p) == key then Plus(before, Some(p.agg.Meaning())) else before
  }

  lemma {:induction false} SumConcat(a: seq<Point>, b: seq<Point>, key: string)
    ensures Sum(a + b, key) == Plus(Sum(a, key), Sum(b, key))
  {
    hide KeyOf;
    if b == [] {
      assert a + b == a;
    } else {
      assert (a + b)[..|a + b|-1] == a + b[..|b|-1];
      SumConcat(a, b[..|b|-1], key);
      var last := if KeyOf(b[|b|-1]) == key then Some(b[|b|-1].agg.Meaning()) else None;
      PlusLaws(Sum(a, key), Sum(b[..|b|-1], key), last);
    }
  }

  lemma {:induction false} SumUnordered(a: seq<Point>, b: seq<Point>, key: string)
    requires multiset(a) == multiset(b)
    ensures Sum(a, key) == Sum(b, key)
  {
    hide KeyOf, Plus;
    assert |a| == |multiset(a)| && |b| == |multiset(b)|;
    if a != [] {
      var n := |a| - 1;
      assert a[n] in multiset(b);
      var j :| 0 <= j <= n && b[j] == a[n];
      var l, r := b[..j], b[j+1..];
      assert a == a[..n] + [a[n]];
      TakeOneOut(b, j);
      SumUnordered(a[..n], l + r, key);
      SumConcat(a[..n], [a[n]], key);
      SumConcat(l, [a[n]] + r, key);
      SumConcat([a[n]], r, key);
      SumConcat(l, r, key);
      PlusLaws(Sum(l, key), Sum([a[n]], key), Sum(r, key));
      PlusLaws(Sum(l, key), Sum(r, key), Sum([a[n]], key));
      PlusLaws(Sum([a[n]], key), Sum(r, key), None);
    }
  }

  lemma {:induction false} TableTells(points: seq<Point>, key: string)
    ensures Sum(points, key) == if key in Table(points) then Some(Table(points)[key].agg.Meaning()) else None
    ensures key in Table(points) ==> KeyOf(Table(points)[key]) == key
    ensures key in Table(points) ==>
              exists p :: p in points && p.dims == Table(points)[key].dims && p.bucket == Table(points)[key].bucket
  {
    if points != [] {
      var before, p := points[..|points|-1], points[|points|-1];
      assert points == before + [p];
      TableTells(before, key);
      if key in Table(before) {
        var w :| w in before && w.dims == Table(before)[key].dims && w.bucket == Table(before)[key].bucket;
        assert w in points;
        MergeTallies(Table(before)[key].agg, p.agg);
      }
      hide DimsKey, Plus;
      assert p in points;
    }
  }

  lemma {:induction false} SumOfDistinct(points: seq<Point>, key: string)
    requires forall i, j :: 0 <= i < j < |points| ==> KeyOf(points[i]) != KeyOf(points[j])
    ensures forall i :: 0 <= i < |points| && KeyOf(points[i]) == key ==>
                          Sum(points, key) == Some(points[i].agg.Meaning())
    ensures (forall i :: 0 <= i < |points| ==> KeyOf(points[i]) != key) ==> Sum(points, key) == None
  {
    hide KeyOf;
    if points != [] {
      SumOfDistinct(points[..|points|-1], key);
    }
  }

  lemma OrderIsPreorder()
    ensures Preorder(ByBucketAndDims())
  {
    hide DimsKey;
    var le := ByBucketAndDims();
    forall x, y ensures le(x, y) || le(y, x) {
      CompareFlip(x.bucket, y.bucket);
      CompareFlip(DimsKey(x.dims, ""), DimsKey(y.dims, ""));
    }
    forall x, y, z | le(x, y) && le(y, z) ensures le(x, z) {
      TextsInOrder(x.bucket, y.bucket, z.bucket);
      TextsInOrder(DimsKey(x.dims, ""), DimsKey(y.dims, ""), DimsKey(z.dims, ""));
    }
  }

  lemma TextsInOrder(a: string, b: string, c: string)
    ensures Compare(a, b) <= 0 && Compare(b, c) <= 0 ==> Compare(a, c) <= 0 && (a == c ==> a == b && b == c)
  {
    CompareEqual(a, b);
    CompareEqual(b, c);
    CompareEqual(a, c);
    if Compare(a, b) <= 0 && Compare(b, c) <= 0 {
      CompareTransitive(a, b, c);
    }
  }

  lemma AccumulatedShape(points: seq<Point>)
    ensures var acc := Accumulated(points);
            && Distinct(acc)
            && (forall p :: p in acc <==> KeyOf(p) in Table(points) && Table(points)[KeyOf(p)] == p)
  {
    var acc, order := Accumulated(points), FirstSeen(points);
    FirstSeenKeys(points);
    hide KeyOf, Table, FirstSeen;
    forall i | 0 <= i < |acc| ensures KeyOf(acc[i]) == order[i] {
      TableTells(points, order[i]);
    }
    forall p | KeyOf(p) in Table(points) && Table(points)[KeyOf(p)] == p ensures p in acc {
      var i :| 0 <= i < |order| && order[i] == KeyOf(p);
      assert acc[i] == p;
    }
  }

  /** The result of the merge: the accumulated points rearranged in order. */
  lemma MergedShape(points: seq<Point>)
    ensures var m := MergedPoints(points);
            && multiset(m) == multiset(Accumulated(points))
            && SortedBy(m, ByBucketAndDims())
            && (forall i, j :: 0 <= i < j < |m| ==> KeyOf(m[i]) != KeyOf(m[j]))
            && (forall p :: p in m <==> KeyOf(p) in Table(points) && Table(points)[KeyOf(p)] == p)
  {
    var acc, m := Accumulated(points), MergedPoints(points);
    OrderIsPreorder();
    SortBySorts(acc, ByBucketAndDims());
    hide KeyOf, SortBy, Table, FirstSeen, Preorder, Accumulated, ByBucketAndDims, Ties;
    AccumulatedShape(points);
    forall p ensures p in m <==> p in acc {
      assert p in m <==> p in multiset(m);
      assert p in acc <==> p in multiset(acc);
    }
    SameMultisetDistinct(acc, m);
    forall i, j | 0 <= i < j < |m| ensures KeyOf(m[i]) != KeyOf(m[j]) {
      assert m[i] in m && m[j] in m && m[i] != m[j];
    }
  }

  /** The bounds of a merged point are the least minimum and the greatest maximum measured under its key. */
  lemma {:induction false} MergedBounds(points: seq<Point>, key: string)
    requires key in Table(points)
    ensures var m := Table(points)[key].agg;
            && (m.hasMinMax <==> exists p :: p in points && KeyOf(p) == key && p.agg.hasMinMax)
            && (forall p :: p in points && KeyOf(p) == key && p.agg.hasMinMax ==>
                              m.min <= p.agg.min && p.agg.max <= m.max)
            && (m.hasMinMax ==>
                  && (exists p :: p in points && KeyOf(p) == key && p.agg.hasMinMax && p.agg.min == m.min)
                  && (exists p :: p in points && KeyOf(p) == key && p.agg.hasMinMax && p.agg.max == m.max))
  {
    hide KeyOf, Aggregate.Merge;
    var before, last := points[..|points|-1], points[|points|-1];
    assert points == before + [last];
    assert last in points && forall p :: p in before ==> p in points;
    if key in Table(before) {
      MergedBounds(before, key);
      if KeyOf(last) == key {
        MergeEncloses(Table(before)[key].agg, last.agg);
      }
    } else {
      forall p | p in before && KeyOf(p) == key ensures KeyOf(p) in Table(before) {
        PresentInTable(before, p);
      }
    }
  }

  /** Merging loses and adds nothing: the result says of every key what the points said of it. */
  lemma MergeKeepsSums(points: seq<Point>, key: string)
    ensures Sum(MergedPoints(points), key) == Sum(points, key)
  {
    hide KeyOf, Table, MergedPoints, SortBy;
    MergedShape(points);
    SumOfDistinct(MergedPoints(points), key);
    TableTells(points, key);
    if key in Table(points) {
      assert Table(points)[key] in MergedPoints(points);
    }
  }

  /** Given points that share a key share bucket and dimensions. */
  predicate KeysTell(points: seq<Point>) {
    forall p, q :: p in points && q in points && KeyOf(p) == KeyOf(q) ==> p.bucket == q.bucket && p.dims == q.dims
  }

  /** Plain points do. */
  lemma PlainKeysTell(points: seq<Point>)
    requires forall p :: p in points ==> Plain(p)
    ensures KeysTell(points)
  {
    hide KeyOf;
    forall p, q | p in points && q in points && KeyOf(p) == KeyOf(q) ensures p.bucket == q.bucket && p.dims == q.dims {
      KeyTells(p, q);
    }
  }

  /** The same points, up to bounds that nobody has measured. */
  predicate Agree(a: seq<Point>, b: seq<Point>) {
    && |a| == |b|
    && forall i :: 0 <= i < |a| ==>
         a[i].dims == b[i].dims && a[i].bucket == b[i].bucket && a[i].agg.Meaning() == b[i].agg.Meaning()
  }

  function Tidy(p: Point): Point {
    if p.agg.hasMinMax then p else p.(agg := p.agg.(min := 0.0, max := 0.0))
  }

  function TidyAll(points: seq<Point>): seq<Point> {
    seq(|points|, i requires 0 <= i < |points| => Tidy(points[i]))
  }

  /** A point of the result carries bucket and dimensions of some given point, under that point's key. */
  lemma MergedFrom(points: seq<Point>, q: Point)
    requires q in MergedPoints(points)
    ensures exists p :: p in points && p.bucket == q.bucket && p.dims == q.dims && KeyOf(p) == KeyOf(q)
  {
    hide MergedPoints;
    MergedShape(points);
    TableTells(points, KeyOf(q));
    var p :| p in points && p.dims == q.dims && p.bucket == q.bucket;
  }

  lemma DimsKeySplits(dims: map<string, string>, bucket: string)
    ensures |DimsKey(dims, "")| >= 3 && DimsKey(dims, bucket) == "tb=" + bucket + DimsKey(dims, "")[3..]
  {
    SortedKeysComplete(dims.Keys);
    var pairs := Pairs(dims, SortedKeys(dims.Keys));
    var f, g := ["tb=" + bucket] + pairs, ["tb=" + ""] + pairs;
    assert f[1..] == pairs && g[1..] == pairs;
    assert "tb=" + "" == "tb=";
    hide SortedKeys, Pairs;
    if pairs != [] {
      var rest := ['|'] + Join(pairs, '|');
      assert Join(f, '|') == ("tb=" + bucket) + rest;
      assert Join(g, '|') == "tb=" + rest;
      assert ("tb=" + rest)[3..] == rest;
    }
  }

  /** Points that tie in the order of the result share a key. */
  lemma TiedPointsEqual(p: Point, q: Point)
    requires ByBucketAndDims()(p, q) && ByBucketAndDims()(q, p)
    ensures KeyOf(p) == KeyOf(q)
  {
    LeastUniqueIfTied(p.bucket, q.bucket);
    LeastUniqueIfTied(DimsKey(p.dims, ""), DimsKey(q.dims, ""));
    DimsKeySplits(p.dims, p.bucket);
    DimsKeySplits(q.dims, q.bucket);
    hide DimsKey;
  }

  lemma LeastUniqueIfTied(a: string, b: string)
    ensures Compare(a, b) <= 0 && Compare(b, a) <= 0 ==> a == b
  {
    if Compare(a, b) <= 0 && Compare(b, a) <= 0 {
      LeastUnique(a, b);
    }
  }

  lemma TidyFacts(points: seq<Point>)
    requires forall i, j :: 0 <= i < j < |points| ==> KeyOf(points[i]) != KeyOf(points[j])
    requires SortedBy(points, ByBucketAndDims())
    ensures var t := TidyAll(points);
            SortedBy(t, ByBucketAndDims()) && Distinct(t) && OnlyEqualsTie(t, ByBucketAndDims())
  {
    hide DimsKey;
    var t := TidyAll(points);
    forall i, j | 0 <= i < |t| && 0 <= j < |t| && ByBucketAndDims()(t[i], t[j]) && ByBucketAndDims()(t[j], t[i])
      ensures t[i] == t[j]
    {
      TiedPointsEqual(points[i], points[j]);
    }
    forall i, j | 0 <= i < j < |t| ensures ByBucketAndDims()(t[i], t[j]) {
      assert ByBucketAndDims()(points[i], points[j]);
    }
  }

  /** The bucket and dimensions under which a key comes out. */
  function Label(points: seq<Point>, key: string): Option<(string, map<string, string>)> {
    if key in Table(points) then Some((Table(points)[key].bucket, Table(points)[key].dims)) else None
  }

  /** Two lists say the same of a key: the same counts and sums under the same bucket and dimensions. */
  predicate SayTheSame(a: seq<Point>, b: seq<Point>, key: string) {
    Sum(a, key) == Sum(b, key) && Label(a, key) == Label(b, key)
  }

  /** Two lists that say the same of every key merge to the same result. */
  lemma SameSumsSameMerge(a: seq<Point>, b: seq<Point>)
    requires forall key :: SayTheSame(a, b, key)
    ensures Agree(MergedPoints(a), MergedPoints(b))
  {
    var m, n := MergedPoints(a), MergedPoints(b);
    hide MergedPoints, KeyOf, SayTheSame;
    MergedShape(a);
    MergedShape(b);
    TidyFacts(m);
    TidyFacts(n);
    TidySubset(a, b);
    SayingIsSymmetric(a, b);
    TidySubset(b, a);
    DistinctSameMultiset(TidyAll(m), TidyAll(n));
    SortedArrangementUnique(TidyAll(m), TidyAll(n), ByBucketAndDims());
    forall i | 0 <= i < |m|
      ensures |n| == |m|
      ensures m[i].dims == n[i].dims && m[i].bucket == n[i].bucket && m[i].agg.Meaning() == n[i].agg.Meaning()
    {
      assert |TidyAll(m)| == |TidyAll(n)|;
      assert TidyAll(m)[i] == Tidy(m[i]) && TidyAll(n)[i] == Tidy(n[i]);
    }
    assert |TidyAll(m)| == |TidyAll(n)|;
  }

  lemma SayingIsSymmetric(a: seq<Point>, b: seq<Point>)
    requires forall key :: SayTheSame(a, b, key)
    ensures forall key :: SayTheSame(b, a, key)
  {
    hide Sum, Label;
    forall key ensures SayTheSame(b, a, key) {
      assert SayTheSame(a, b, key);
    }
  }

  lemma TidyTwin(a: seq<Point>, b: seq<Point>, p: Point)
    requires SayTheSame(a, b, KeyOf(p)) && p in MergedPoints(a)
    ensures exists q :: q in MergedPoints(b) && Tidy(q) == Tidy(p)
  {
    var key := KeyOf(p);
    MergedShape(a);
    MergedShape(b);
    TableTells(a, key);
    TableTells(b, key);
    hide MergedPoints, KeyOf, Table, Sum;
    assert Table(b)[key] in MergedPoints(b);
  }

  lemma TidySubset(a: seq<Point>, b: seq<Point>)
    requires forall key :: SayTheSame(a, b, key)
    ensures forall x :: x in TidyAll(MergedPoints(a)) ==> x in TidyAll(MergedPoints(b))
  {
    var m, n := MergedPoints(a), MergedPoints(b);
    hide MergedPoints, KeyOf, SayTheSame, Tidy;
    forall i | 0 <= i < |m| ensures Tidy(m[i]) in TidyAll(n) {
      assert m[i] in m;
      TidyTwin(a, b, m[i]);
      var q :| q in n && Tidy(q) == Tidy(m[i]);
      var j :| 0 <= j < |n| && n[j] == q;
      assert TidyAll(n)[j] == Tidy(q);
    }
  }

  // ----- labels -----

  lemma SameLabelSameKey(p: Point, q: Point)
    requires p.bucket == q.bucket && p.dims == q.dims
    ensures KeyOf(p) == KeyOf(q)
  {
  }

  /** The first list that has a key names it. */
  lemma {:induction false} LabelConcat(a: seq<Point>, b: seq<Point>, key: string)
    ensures Label(a + b, key) == if Label(a, key).Some? then Label(a, key) else Label(b, key)
  {
    hide KeyOf;
    if b == [] {
      assert a + b == a;
    } else {
      assert (a + b)[..|a + b|-1] == a + b[..|b|-1];
      LabelConcat(a, b[..|b|-1], key);
      LabelConcat(a, b[..|b|-1], KeyOf(b[|b|-1]));
    }
  }

  lemma {:induction false} LabelOfDistinct(points: seq<Point>, p: Point)
    requires forall i, j :: 0 <= i < j < |points| ==> KeyOf(points[i]) != KeyOf(points[j])
    requires p in points
    ensures Label(points, KeyOf(p)) == Some((p.bucket, p.dims))
  {
    hide KeyOf;
    var before, last := points[..|points|-1], points[|points|-1];
    assert points == before + [last];
    if p in before {
      LabelOfDistinct(before, p);
    } else if KeyOf(last) in Table(before) {
      TableTells(before, KeyOf(last));
      var w :| w in before && w.dims == Table(before)[KeyOf(p)].dims && w.bucket == Table(before)[KeyOf(p)].bucket;
      SameLabelSameKey(w, Table(before)[KeyOf(p)]);
    }
  }

  /** Merging keeps every key's bucket and dimensions. */
  lemma LabelMerged(points: seq<Point>, key: string)
    ensures Label(MergedPoints(points), key) == Label(points, key)
  {
    hide KeyOf, Table, MergedPoints;
    MergedShape(points);
    TableTells(points, key);
    TableTells(MergedPoints(points), key);
    MergeKeepsSums(points, key);
    if key in Table(points) {
      LabelOfDistinct(MergedPoints(points), Table(points)[key]);
    }
  }

  /** While keys tell their points, every list of the same points names a key alike. */
  lemma LabelUnordered(a: seq<Point>, b: seq<Point>, key: string)
    requires KeysTell(a) && (forall p :: p in a <==> p in b) && Sum(a, key) == Sum(b, key)
    ensures Label(a, key) == Label(b, key)
  {
    TableTells(a, key);
    TableTells(b, key);
    hide KeyOf, Table, Sum;
    if key in Table(a) {
      var p :| p in a && p.dims == Table(a)[key].dims && p.bucket == Table(a)[key].bucket;
      var q :| q in b && q.dims == Table(b)[key].dims && q.bucket == Table(b)[key].bucket;
      SameLabelSameKey(p, Table(a)[key]);
      SameLabelSameKey(q, Table(b)[key]);
    }
  }

  // ----- the laws -----

  lemma SameMembers(a: seq<Point>, b: seq<Point>)
    requires multiset(a) == multiset(b)
    ensures forall p :: p in a <==> p in b
  {
    forall p ensures p in a <==> p in b {
      assert p in a <==> p in multiset(a);
      assert p in b <==> p in multiset(b);
    }
  }

  /** The order in which points arrive does not matter while their keys tell them. */
  lemma MergeUnordered(a: seq<Point>, b: seq<Point>)
    requires KeysTell(a) && multiset(a) == multiset(b)
    ensures Agree(MergedPoints(a), MergedPoints(b))
  {
    hide MergedPoints, KeyOf, Sum, Label;
    SameMembers(a, b);
    forall key ensures SayTheSame(a, b, key) {
      SumUnordered(a, b, key);
      LabelUnordered(a, b, key);
    }
    SameSumsSameMerge(a, b);
  }

  /** Of the points that share a key the first gives the result its bucket and dimensions. */
  lemma {:induction false} FirstNames(p: Point, rest: seq<Point>)
    ensures var t := Table([p] + rest);
            KeyOf(p) in t && t[KeyOf(p)].bucket == p.bucket && t[KeyOf(p)].dims == p.dims
  {
    hide KeyOf;
    if rest == [] {
      assert [p] + rest == [p] && [p][..0] == [];
    } else {
      assert ([p] + rest)[..|rest|] == [p] + rest[..|rest|-1];
      FirstNames(p, rest[..|rest|-1]);
    }
  }

  lemma FirstInMerged(p: Point, rest: seq<Point>, q: Point)
    requires q in MergedPoints([p] + rest) && KeyOf(q) == KeyOf(p)
    ensures q.bucket == p.bucket && q.dims == p.dims
  {
    hide MergedPoints, KeyOf, Table;
    MergedShape([p] + rest);
    FirstNames(p, rest);
  }

  /** Whatever the order, the points merge to the same result. */
  ghost predicate OrderFree(points: seq<Point>) {
    forall b :: multiset(b) == multiset(points) ==> Agree(MergedPoints(points), MergedPoints(b))
  }

  lemma OrderFreeAt(a: seq<Point>, b: seq<Point>)
    requires OrderFree(a) && multiset(b) == multiset(a)
    ensures Agree(MergedPoints(a), MergedPoints(b))
  {
  }

  /** Putting a given point first gives its bucket and dimensions to its key, wherever that key comes out. */
  lemma PutFirst(a: seq<Point>, p: Point, i: nat)
    requires OrderFree(a) && p in a && i < |MergedPoints(a)| && KeyOf(MergedPoints(a)[i]) == KeyOf(p)
    ensures MergedPoints(a)[i].bucket == p.bucket && MergedPoints(a)[i].dims == p.dims
  {
    hide MergedPoints, KeyOf, OrderFree;
    var k :| 0 <= k < |a| && a[k] == p;
    var rest := a[..k] + a[k+1..];
    TakeOneOut(a, k);
    assert multiset([p] + rest) == multiset(a);
    OrderFreeAt(a, [p] + rest);
    var m, n := MergedPoints(a), MergedPoints([p] + rest);
    SameLabelSameKey(m[i], n[i]);
    FirstInMerged(p, rest, n[i]);
  }

  /** The merge is independent of order exactly when the given points' keys tell their buckets and dimensions. */
  lemma OrderFreeExactly(a: seq<Point>)
    ensures OrderFree(a) <==> KeysTell(a)
  {
    hide MergedPoints, Agree;
    if KeysTell(a) {
      forall b | multiset(b) == multiset(a) ensures Agree(MergedPoints(a), MergedPoints(b)) {
        MergeUnordered(a, b);
      }
    }
    if OrderFree(a) {
      hide KeyOf, OrderFree;
      forall p, q | p in a && q in a && KeyOf(p) == KeyOf(q) ensures p.bucket == q.bucket && p.dims == q.dims {
        var i := PlaceOfKey(a, p);
        PutFirst(a, p, i);
        PutFirst(a, q, i);
      }
    }
  }

  lemma PlaceOfKey(points: seq<Point>, p: Point) returns (i: nat)
    requires p in points
    ensures i < |MergedPoints(points)| && KeyOf(MergedPoints(points)[i]) == KeyOf(p)
  {
    hide MergedPoints, KeyOf;
    MergedShape(points);
    PresentInTable(points, p);
    TableTells(points, KeyOf(p));
    var q := Table(points)[KeyOf(p)];
    assert q in MergedPoints(points);
    i :| 0 <= i < |MergedPoints(points)| && MergedPoints(points)[i] == q;
  }

  /** Merging merged parts is merging everything at once, whether or not keys tell the points. */
  lemma MergeRegroups(a: seq<Point>, b: seq<Point>)
    ensures Agree(MergedPoints(MergedPoints(a) + MergedPoints(b)), MergedPoints(a + b))
  {
    hide MergedPoints, KeyOf, Sum, Label;
    forall key ensures SayTheSame(MergedPoints(a) + MergedPoints(b), a + b, key) {
      SumConcat(MergedPoints(a), MergedPoints(b), key);
      SumConcat(a, b, key);
      MergeKeepsSums(a, key);
      MergeKeepsSums(b, key);
      LabelConcat(MergedPoints(a), MergedPoints(b), key);
      LabelConcat(a, b, key);
      LabelMerged(a, key);
      LabelMerged(b, key);
    }
    SameSumsSameMerge(MergedPoints(a) + MergedPoints(b), a + b);
  }

  /** The result ascends: by bucket, then by the text of the dimensions. */
  ghost predicate Ascending(points: seq<Point>) {
    forall i, j :: 0 <= i < j < |points| ==>
      && Ascends(points[i].bucket, points[j].bucket)
      && (points[i].bucket == points[j].bucket ==>
            Ascends(DimsKey(points[i].dims, ""), DimsKey(points[j].dims, "")))
  }

  lemma MergedAscends(points: seq<Point>)
    ensures Ascending(MergedPoints(points))
  {
    MergedShape(points);
    var m := MergedPoints(points);
    hide MergedPoints, KeyOf, Ascends, DimsKey;
    forall i, j | 0 <= i < j < |m|
      ensures Ascends(m[i].bucket, m[j].bucket)
      ensures m[i].bucket == m[j].bucket ==> Ascends(DimsKey(m[i].dims, ""), DimsKey(m[j].dims, ""))
    {
      assert ByBucketAndDims()(m[i], m[j]);
      CompareAscends(m[i].bucket, m[j].bucket);
      CompareEqual(m[i].bucket, m[j].bucket);
      CompareAscends(DimsKey(m[i].dims, ""), DimsKey(m[j].dims, ""));
    }
  }

  /** The result ascends strictly, so no bucket and dimensions come out twice. */
  lemma MergedStrictlyAscends(points: seq<Point>, i: nat, j: nat)
    requires i < j < |MergedPoints(points)|
    ensures var m := MergedPoints(points);
            ByBucketAndDims()(m[i], m[j]) && !ByBucketAndDims()(m[j], m[i])
  {
    var m := MergedPoints(points);
    MergedShape(points);
    hide MergedPoints, KeyOf;
    if ByBucketAndDims()(m[j], m[i]) {
      TiedPointsEqual(m[i], m[j]);
    }
  }

  ghost predicate ComesOut(points: seq<Point>, p: Point) {
    exists q :: q in MergedPoints(points) && q.bucket == p.bucket && q.dims == p.dims
  }

  /** All buckets and dimensions that occur come out exactly when the keys tell them. */
  lemma MergedCoversExactly(points: seq<Point>)
    ensures (forall p :: p in points ==> ComesOut(points, p)) <==> KeysTell(points)
  {
    MergedShape(points);
    hide MergedPoints, KeyOf, Table;
    if KeysTell(points) {
      forall p | p in points ensures ComesOut(points, p) {
        var i := PlaceOfKey(points, p);
        assert MergedPoints(points)[i] in MergedPoints(points);
        MergedFrom(points, MergedPoints(points)[i]);
      }
    }
    if forall p :: p in points ==> ComesOut(points, p) {
      forall p, q | p in points && q in points && KeyOf(p) == KeyOf(q)
        ensures p.bucket == q.bucket && p.dims == q.dims
      {
        assert ComesOut(points, p) && ComesOut(points, q);
        var x :| x in MergedPoints(points) && x.bucket == p.bucket && x.dims == p.dims;
        var y :| y in MergedPoints(points) && y.bucket == q.bucket && y.dims == q.dims;
        SameLabelSameKey(x, p);
        SameLabelSameKey(y, q);
      }
    }
  }

  lemma {:induction false} PresentInTable(points: seq<Point>, p: Point)
    requires p in points
    ensures KeyOf(p) in Table(points)
  {
    hide KeyOf;
    var before := points[..|points|-1];
    assert points == before + [points[|points|-1]];
    if p in before {
      PresentInTable(before, p);
    }
  }

  function TotalCount(points: seq<Point>): nat {
    if points == [] then 0 else TotalCount(points[..|points|-1]) + points[|points|-1].agg.count
  }

  function TotalSum(points: seq<Point>): real {
    if points == [] then 0.0 else TotalSum(points[..|points|-1]) + points[|points|-1].agg.sum
  }

  lemma {:induction false} TotalsConcat(a: seq<Point>, b: seq<Point>)
    ensures TotalCount(a + b) == TotalCount(a) + TotalCount(b)
    ensures TotalSum(a + b) == TotalSum(a) + TotalSum(b)
  {
    if b == [] {
      assert a + b == a;
    } else {
      assert (a + b)[..|a + b|-1] == a + b[..|b|-1];
      TotalsConcat(a, b[..|b|-1]);
    }
  }

  lemma TotalsOne(p: Point)
    ensures TotalCount([p]) == p.agg.count && TotalSum([p]) == p.agg.sum
  {
    assert [p][..0] == [];
  }

  lemma TotalsAround(s: seq<Point>, j: nat)
    requires j < |s|
    ensures TotalCount(s) == TotalCount(s[..j]) + s[j].agg.count + TotalCount(s[j+1..])
    ensures TotalSum(s) == TotalSum(s[..j]) + s[j].agg.sum + TotalSum(s[j+1..])
  {
    hide TotalCount, TotalSum;
    TakeOneOut(s, j);
    TotalsOne(s[j]);
    TotalsConcat(s[..j], [s[j]] + s[j+1..]);
    TotalsConcat([s[j]], s[j+1..]);
  }

  lemma {:induction false} TotalsUnordered(a: seq<Point>, b: seq<Point>)
    requires multiset(a) == multiset(b)
    ensures TotalCount(a) == TotalCount(b) && TotalSum(a) == TotalSum(b)
  {
    assert |a| == |multiset(a)| && |b| == |multiset(b)|;
    if a != [] {
      var n := |a| - 1;
      assert a[n] in multiset(b);
      var j :| 0 <= j <= n && b[j] == a[n];
      PrefixMultiset(a);
      TakeOneOut(b, j);
      TotalsUnordered(a[..n], b[..j] + b[j+1..]);
      TotalsConcat(b[..j], b[j+1..]);
      TotalsAround(b, j);
    }
  }

  lemma TotalsReplace(s: seq<Point>, j: nat, p: Point)
    requires j < |s|
    ensures TotalCount(s[j := p]) == TotalCount(s) - s[j].agg.count + p.agg.count
    ensures TotalSum(s[j := p]) == TotalSum(s) - s[j].agg.sum + p.agg.sum
  {
    hide TotalCount, TotalSum;
    TotalsAround(s, j);
    TotalsAround(s[j := p], j);
    assert s[j := p][..j] == s[..j] && s[j := p][j+1..] == s[j+1..];
  }

  lemma AccumulateMerges(before: seq<Point>, p: Point, j: nat)
    requires j < |FirstSeen(before)| && FirstSeen(before)[j] == KeyOf(p)
    ensures var was := Accumulated(before);
            Accumulated(before + [p]) == was[j := was[j].(agg := was[j].agg.Merge(p.agg))]
  {
    hide KeyOf;
    var points, order, was := before + [p], FirstSeen(before), Accumulated(before);
    assert points[..|points|-1] == before && points[|points|-1] == p;
    FirstSeenKeys(before);
    FirstSeenKeys(points);
    assert FirstSeen(points) == order;
    forall i | 0 <= i < |order| ensures Accumulated(points)[i] == was[j := was[j].(agg := was[j].agg.Merge(p.agg))][i] {
      assert order[i] == order[j] ==> i == j;
    }
  }

  lemma AccumulateAppends(before: seq<Point>, p: Point)
    requires KeyOf(p) !in FirstSeen(before)
    ensures Accumulated(before + [p]) == Accumulated(before) + [p]
  {
    hide KeyOf;
    var points, order, was := before + [p], FirstSeen(before), Accumulated(before);
    assert points[..|points|-1] == before && points[|points|-1] == p;
    FirstSeenKeys(before);
    FirstSeenKeys(points);
    assert FirstSeen(points) == order + [KeyOf(p)];
    forall i | 0 <= i < |order| ensures Accumulated(points)[i] == was[i] {
      assert order[i] in order;
    }
  }

  lemma {:induction false} TotalsAccumulate(points: seq<Point>)
    ensures TotalCount(Accumulated(points)) == TotalCount(points)
    ensures TotalSum(Accumulated(points)) == TotalSum(points)
  {
    if points == [] {
      assert Accumulated(points) == [];
    } else {
      var before, p := points[..|points|-1], points[|points|-1];
      TotalsAccumulate(before);
      assert points == before + [p];
      hide KeyOf, Accumulated, FirstSeen;
      if j :| 0 <= j < |FirstSeen(before)| && FirstSeen(before)[j] == KeyOf(p) {
        AccumulateMerges(before, p, j);
        var was := Accumulated(before);
        TotalsReplace(was, j, was[j].(agg := was[j].agg.Merge(p.agg)));
      } else {
        AccumulateAppends(before, p);
        TotalsConcat(Accumulated(before), [p]);
        TotalsOne(p);
      }
    }
  }

  /** Every event counted and every value summed is counted and summed once in the result. */
  lemma MergeConserves(points: seq<Point>)
    ensures TotalCount(MergedPoints(points)) == TotalCount(points)
    ensures TotalSum(MergedPoints(points)) == TotalSum(points)
  {
    hide MergedPoints, Accumulated, KeyOf;
    MergedShape(points);
    TotalsUnordered(MergedPoints(points), Accumulated(points));
    TotalsAccumulate(points);
  }

  /** The mean of a key's points, weighted by their counts, as a sum still to be divided. */
  function WeightedSum(points: seq<Point>, key: string): real {
    if points == [] then 0.0
    else
      var p := points[|points|-1];
      WeightedSum(points[..|points|-1], key) + if KeyOf(p) == key then p.agg.Avg() * p.agg.count as real else 0.0
  }

  /** What points that counted nothing nevertheless summed. */
  function Stray(points: seq<Point>, key: string): real {
    if points == [] then 0.0
    else
      var p := points[|points|-1];
      Stray(points[..|points|-1], key) + if KeyOf(p) == key && p.agg.count == 0 then p.agg.sum else 0.0
  }

  lemma PartSplits(a: Aggregate)
    ensures a.Avg() * a.count as real + (if a.count == 0 then a.sum else 0.0) == a.sum
  {
    if a.count > 0 {
      AvgTimesCount(a);
    }
  }

  lemma {:induction false} SumSplits(points: seq<Point>, key: string)
    ensures WeightedSum(points, key) + Stray(points, key) ==
            if Sum(points, key).Some? then Sum(points, key).value.sum else 0.0
  {
    hide KeyOf, Aggregate.Avg;
    if points != [] {
      SumSplits(points[..|points|-1], key);
      PartSplits(points[|points|-1].agg);
    }
  }

  lemma AvgTimesCount(a: Aggregate)
    requires a.count > 0
    ensures a.Avg() * a.count as real == a.sum
  {
  }

  /** The average of a merged point is the weighted mean of its parts, exactly when nothing stray was summed. */
  lemma AvgIsWeightedMean(points: seq<Point>, q: Point)
    requires q in MergedPoints(points) && q.agg.count > 0
    ensures q.agg.Avg() == WeightedSum(points, KeyOf(q)) / q.agg.count as real <==> Stray(points, KeyOf(q)) == 0.0
  {
    hide MergedPoints, KeyOf;
    MergedShape(points);
    TableTells(points, KeyOf(q));
    SumSplits(points, KeyOf(q));
    hide Table, MergedPoints, WeightedSum, Stray, Sum;
    DivideTells(q.agg.sum, WeightedSum(points, KeyOf(q)), q.agg.count as real);
  }

  lemma DivideTells(x: real, y: real, n: real)
    requires n > 0.0
    ensures x / n == y / n <==> x == y
  {
    assert (x / n) * n == x && (y / n) * n == y;
  }
}
