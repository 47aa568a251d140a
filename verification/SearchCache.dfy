/** The response cache of the coordinator: its key, its guards, and the warmer's writes ahead of time. */
module SearchCache {
  import opened Text
  import opened LogTypes
  import opened Sorting
  import opened Budget
  import opened Cursor
  import opened SearchPage
  import FanoutSearch
  import Paging
  import Targets

  const FIELD_SEP := '\U{1f}'
  const TARGET_SEP := '\U{1e}'

  const SECOND := 1_000_000_000
  const MINUTE := 60 * SECOND
  const MAX_ENTRIES := 2048

  /** A request as the cache sees it: its query, whom it may see, and what is searched for. */
  datatype Request = Request(
    query: Query, authorized: seq<string>, filter: string, onlineOnly: bool, allowDrift: bool, bypass: bool)

  /** What lies outside: reading and printing RFC 3339 times, the digest, the text of a cursor. */
  datatype Codec = Codec(
    parse: string -> Option<int>, format: int -> string, digest: string -> string, cursorText: RawCursor -> string)

  ghost predicate Faithful(c: Codec) {
    && (forall t :: c.parse(c.format(t)).None? || c.parse(c.format(t)).value == t)
    && (forall t, u :: c.format(t) == c.format(u) ==> t == u)
    && (forall x, y :: c.digest(x) == c.digest(y) ==> x == y)
    && (forall x :: FIELD_SEP !in c.digest(x) && c.digest(x) != "-")
    && (forall t :: FIELD_SEP !in c.format(t))
    && (forall x, y :: c.cursorText(x) == c.cursorText(y) ==> x == y)
    && (forall x :: FIELD_SEP !in c.cursorText(x))
  }

  // ----- the key -----

  function StampOf(c: Codec, text: string): Stamp {
    match c.parse(text)
    case Some(t) => Stamp(text, true, t)
    case None => Stamp(text, false, 0)
  }

  /** The times of a request are what their texts say. */
  predicate Readable(c: Codec, r: Request) {
    r.query.fromUTC == StampOf(c, r.query.fromUTC.text) && r.query.toUTC == StampOf(c, r.query.toUTC.text)
  }

  /** A time cut to its minute; text that is no time stays. */
  function Bucket(c: Codec, s: Stamp): string {
    if s.valid then c.format(s.instant - s.instant % MINUTE) else s.text
  }

  function TargetsDigest(c: Codec, ids: seq<string>): string {
    if ids == [] then "-" else c.digest(Join(SortTexts(ids), TARGET_SEP))
  }

  function Flag(b: bool): string {
    if b then "true" else "false"
  }

  function Fields(c: Codec, r: Request): seq<string> {
    [TargetsDigest(c, r.authorized),
     Printed(r.query.budget.maxFanout),
     Printed(r.query.budget.timeoutMS),
     Bucket(c, r.query.fromUTC),
     Bucket(c, r.query.toUTC),
     TrimSpace(r.filter),
     Flag(r.onlineOnly),
     r.query.orderVersion,
     Printed(r.query.budget.limit),
     Printed(r.query.budget.maxBytes),
     Flag(r.query.fast),
     Flag(r.allowDrift),
     r.query.viewID,
     c.cursorText(r.query.cursor)]
  }

  function Key(c: Codec, r: Request): string {
    Join(Fields(c, r), FIELD_SEP)
  }

  /** What a caller can check of a request before it asks: order version and view id hold no separator. */
  predicate Plain(r: Request) {
    FIELD_SEP !in r.query.orderVersion && FIELD_SEP !in r.query.viewID
  }

  /** Each end of the window is a time or left out, as the validation of queries demands. */
  predicate WindowRead(r: Request) {
    && (r.query.fromUTC.valid || r.query.fromUTC.text == "")
    && (r.query.toUTC.valid || r.query.toUTC.text == "")
  }

  predicate SameWindow(a: Request, b: Request) {
    a.query.fromUTC.text == b.query.fromUTC.text && a.query.toUTC.text == b.query.toUTC.text
  }

  /** Target ids are made by the control plane and never contain the byte that joins them. */
  predicate PlainTargets(r: Request) {
    AllFree(r.authorized, TARGET_SEP)
  }

  /** The same request in everything but the window. */
  predicate Alike(a: Request, b: Request) {
    && multiset(a.authorized) == multiset(b.authorized)
    && a.query.(fromUTC := b.query.fromUTC, toUTC := b.query.toUTC) == b.query
    && TrimSpace(a.filter) == TrimSpace(b.filter)
    && a.onlineOnly == b.onlineOnly && a.allowDrift == b.allowDrift
  }

  lemma DigestTells(c: Codec, a: Request, b: Request)
    requires Faithful(c) && PlainTargets(a) && PlainTargets(b)
    ensures TargetsDigest(c, a.authorized) == TargetsDigest(c, b.authorized) <==>
            multiset(a.authorized) == multiset(b.authorized)
  {
    var s, t := SortTexts(a.authorized), SortTexts(b.authorized);
    SortTextsTells(a.authorized, b.authorized);
    SortTextsTells(b.authorized, a.authorized);
    assert |a.authorized| == |multiset(a.authorized)| && |b.authorized| == |multiset(b.authorized)|;
    hide SortBy, Join;
    if a.authorized != [] && b.authorized != [] && c.digest(Join(s, TARGET_SEP)) == c.digest(Join(t, TARGET_SEP)) {
      SameElements(s, a.authorized);
      SameElements(t, b.authorized);
      JoinInjective(s, t, TARGET_SEP);
    }
  }

  lemma SameElements(s: seq<string>, t: seq<string>)
    requires multiset(s) == multiset(t) && AllFree(t, TARGET_SEP)
    ensures AllFree(s, TARGET_SEP)
  {
    forall i | 0 <= i < |s| ensures TARGET_SEP !in s[i] {
      assert s[i] in multiset(s);
      assert s[i] in t;
    }
  }

  lemma DigitsPlain(n: int)
    ensures FIELD_SEP !in Printed(n)
  {
    var d := Decimal(if n < 0 then -n else n);
    assert forall i :: 0 <= i < |d| ==> d[i] in DIGITS;
  }

  /** Times cut to the minute, numbers, flags, digests and cursors never hold the separator. */
  lemma FieldsPlain(c: Codec, r: Request)
    requires Faithful(c)
    ensures var f := Fields(c, r);
            && |f| == 14
            && FIELD_SEP !in f[0] && FIELD_SEP !in f[1] && FIELD_SEP !in f[2]
            && (r.query.fromUTC.valid || r.query.fromUTC.text == "" ==> FIELD_SEP !in f[3])
            && (r.query.toUTC.valid || r.query.toUTC.text == "" ==> FIELD_SEP !in f[4])
            && (Plain(r) ==> AllFree(f[6..], FIELD_SEP))
  {
    hide Printed, SortTexts, TrimSpace;
    DigitsPlain(r.query.budget.maxFanout);
    DigitsPlain(r.query.budget.timeoutMS);
    DigitsPlain(r.query.budget.limit);
    DigitsPlain(r.query.budget.maxBytes);
    assert forall x :: FIELD_SEP !in c.digest(x);
  }

  lemma FieldsTell(c: Codec, a: Request, b: Request)
    requires Faithful(c) && PlainTargets(a) && PlainTargets(b)
    ensures Fields(c, a) == Fields(c, b) <==>
            Alike(a, b)
            && Bucket(c, a.query.fromUTC) == Bucket(c, b.query.fromUTC)
            && Bucket(c, a.query.toUTC) == Bucket(c, b.query.toUTC)
  {
    hide Printed, TargetsDigest, TrimSpace, PlainTargets, Bucket;
    DigestTells(c, a, b);
    if Fields(c, a) == Fields(c, b) {
      var f, g := Fields(c, a), Fields(c, b);
      assert forall i :: 0 <= i < 14 ==> f[i] == g[i];
      assert f[0] == g[0] && f[1] == g[1] && f[2] == g[2] && f[3] == g[3] && f[4] == g[4];
      assert f[5] == g[5] && f[6] == g[6] && f[7] == g[7] && f[8] == g[8] && f[9] == g[9];
      assert f[10] == g[10] && f[11] == g[11] && f[12] == g[12] && f[13] == g[13];
      PrintedInjective(a.query.budget.maxFanout, b.query.budget.maxFanout);
      PrintedInjective(a.query.budget.timeoutMS, b.query.budget.timeoutMS);
      PrintedInjective(a.query.budget.limit, b.query.budget.limit);
      PrintedInjective(a.query.budget.maxBytes, b.query.budget.maxBytes);
      FlagTells(a.onlineOnly, b.onlineOnly);
      FlagTells(a.query.fast, b.query.fast);
      FlagTells(a.allowDrift, b.allowDrift);
    }
  }

  lemma FlagTells(a: bool, b: bool)
    requires Flag(a) == Flag(b)
    ensures a == b
  {
    assert Flag(true)[0] == 't' && Flag(false)[0] == 'f';
  }

  /** The first three fields of equal keys are equal, and so is what follows them. */
  lemma PeelFront(c: Codec, a: Request, b: Request)
    requires Faithful(c) && Key(c, a) == Key(c, b)
    ensures var f, g := Fields(c, a), Fields(c, b);
            && |f| == |g| == 14 && f[0] == g[0] && f[1] == g[1] && f[2] == g[2]
            && Join(f[3..], FIELD_SEP) == Join(g[3..], FIELD_SEP)
  {
    FieldsPlain(c, a);
    FieldsPlain(c, b);
    hide Fields, Faithful, Plain;
    var f, g := Fields(c, a), Fields(c, b);
    FirstOfJoin(f, g, FIELD_SEP);
    FirstOfJoin(f[1..], g[1..], FIELD_SEP);
    assert f[1..][1..] == f[2..] && g[1..][1..] == g[2..];
    FirstOfJoin(f[2..], g[2..], FIELD_SEP);
    assert f[2..][1..] == f[3..] && g[2..][1..] == g[3..];
  }

  /** A piece is told when both are free of the separator, or when it is known to be the same. */
  lemma PeelOne(f: seq<string>, g: seq<string>)
    requires |f| > 1 && |g| > 1 && Join(f, FIELD_SEP) == Join(g, FIELD_SEP)
    requires f[0] == g[0] || (FIELD_SEP !in f[0] && FIELD_SEP !in g[0])
    ensures f[0] == g[0] && Join(f[1..], FIELD_SEP) == Join(g[1..], FIELD_SEP)
  {
    if f[0] == g[0] {
      var head := f[0] + [FIELD_SEP];
      assert Join(f, FIELD_SEP) == head + Join(f[1..], FIELD_SEP);
      assert Join(g, FIELD_SEP) == head + Join(g[1..], FIELD_SEP);
      assert (head + Join(f[1..], FIELD_SEP))[|head|..] == (head + Join(g[1..], FIELD_SEP))[|head|..];
    } else {
      FirstOfJoin(f, g, FIELD_SEP);
    }
  }

  predicate Tells(x: string, y: string) {
    x == y || (FIELD_SEP !in x && FIELD_SEP !in y)
  }

  lemma PeelTwoAndTail(f: seq<string>, g: seq<string>)
    requires |f| == |g| > 3 && Join(f, FIELD_SEP) == Join(g, FIELD_SEP) && Tells(f[0], g[0]) && Tells(f[1], g[1])
    requires AllFree(f[3..], FIELD_SEP) && AllFree(g[3..], FIELD_SEP)
    ensures f == g
  {
    hide Join;
    PeelOne(f, g);
    PeelOne(f[1..], g[1..]);
    assert f[1..][1..] == f[2..] && g[1..][1..] == g[2..];
    assert f[2..][1..] == f[3..] && g[2..][1..] == g[3..];
    JoinTellsTail(f[2..], g[2..], FIELD_SEP);
    assert f == [f[0], f[1]] + f[2..] && g == [g[0], g[1]] + g[2..];
  }

  /** Equal keys and equal minutes leave nothing open, whatever the filter. */
  lemma PeelRest(c: Codec, a: Request, b: Request)
    requires Faithful(c) && Plain(a) && Plain(b) && Key(c, a) == Key(c, b)
    requires (WindowRead(a) && WindowRead(b)) ||
             (a.query.fromUTC == b.query.fromUTC && a.query.toUTC == b.query.toUTC)
    ensures Fields(c, a) == Fields(c, b)
  {
    PeelFront(c, a, b);
    FieldsPlain(c, a);
    FieldsPlain(c, b);
    var f, g := Fields(c, a), Fields(c, b);
    assert Tells(f[3], g[3]) && Tells(f[4], g[4]);
    hide Fields, Faithful, Plain, Key, Join, Tells;
    assert f[3..][0] == f[3] && f[3..][1] == f[4] && g[3..][0] == g[3] && g[3..][1] == g[4];
    assert f[3..][3..] == f[6..] && g[3..][3..] == g[6..];
    PeelTwoAndTail(f[3..], g[3..]);
    assert f == [f[0], f[1], f[2]] + f[3..] && g == [g[0], g[1], g[2]] + g[3..];
  }

  /** Requests share a key exactly when they are alike and their windows fall into the same minutes. */
  lemma KeyTells(c: Codec, a: Request, b: Request)
    requires Faithful(c) && Plain(a) && Plain(b) && PlainTargets(a) && PlainTargets(b) && WindowRead(a) && WindowRead(b)
    ensures Key(c, a) == Key(c, b) <==>
            Alike(a, b)
            && Bucket(c, a.query.fromUTC) == Bucket(c, b.query.fromUTC)
            && Bucket(c, a.query.toUTC) == Bucket(c, b.query.toUTC)
  {
    FieldsTell(c, a, b);
    if Key(c, a) == Key(c, b) {
      hide Alike, Bucket, Fields, Faithful, Plain, PlainTargets, Join, Key;
      PeelRest(c, a, b);
    }
    hide Alike, Bucket, Fields, Faithful, Plain, PlainTargets, Join;
  }

  /** For one and the same window, whatever its text, they share a key exactly when they are alike. */
  lemma KeyTellsInWindow(c: Codec, a: Request, b: Request)
    requires Faithful(c) && Readable(c, a) && Readable(c, b) && SameWindow(a, b)
    requires Plain(a) && Plain(b) && PlainTargets(a) && PlainTargets(b)
    ensures Key(c, a) == Key(c, b) <==> Alike(a, b)
  {
    FieldsTell(c, a, b);
    if Key(c, a) == Key(c, b) {
      hide Alike, Bucket, Fields, Faithful, Plain, PlainTargets, Join, Key;
      PeelRest(c, a, b);
    }
    hide Alike, Bucket, Fields, Faithful, Plain, PlainTargets, Join;
  }

  /** Whatever else a request contains, its key never matches a request for other targets. */
  lemma OtherTargetsOtherKey(c: Codec, a: Request, b: Request)
    requires Faithful(c) && PlainTargets(a) && PlainTargets(b) && Key(c, a) == Key(c, b)
    ensures multiset(a.authorized) == multiset(b.authorized)
  {
    hide PlainTargets, Join, Printed;
    FirstOfJoin(Fields(c, a), Fields(c, b), FIELD_SEP);
    DigestTells(c, a, b);
  }

  /** The order version must be plain: these two requests are not alike, their filters differ, but they share a key. */
  lemma OrderVersionBlursFields(c: Codec, r: Request)
    ensures var sep: string := [FIELD_SEP];
            var a := r.(filter := "a", onlineOnly := false,
                query := r.query.(orderVersion := "b" + sep + "false" + sep + "c"));
            var b := r.(filter := "a" + sep + "false" + sep + "b", onlineOnly := false,
                query := r.query.(orderVersion := "c"));
            Key(c, a) == Key(c, b) && !Alike(a, b) && !Plain(a)
  {
    var sep: string := [FIELD_SEP];
    var a := r.(filter := "a", onlineOnly := false, query := r.query.(orderVersion := "b" + sep + "false" + sep + "c"));
    var b := r.(filter := "a" + sep + "false" + sep + "b", onlineOnly := false, query := r.query.(orderVersion := "c"));
    var f, g := Fields(c, a), Fields(c, b);
    TrimSpaceKeeps(a.filter);
    TrimSpaceKeeps(b.filter);
    assert a.query.orderVersion[1] == FIELD_SEP;
    hide Printed, TargetsDigest, Bucket, TrimSpace, Join;
    assert f[..5] == g[..5] && f[8..] == g[8..];
    BlurredJoin(f, g, "a", "false", "b", "c");
  }

  lemma BlurredJoin(f: seq<string>, g: seq<string>, w: string, x: string, y: string, z: string)
    requires |f| == |g| == 14 && f[..5] == g[..5] && f[8..] == g[8..]
    requires var sep: string := [FIELD_SEP];
             && f[5] == w && f[6] == x && f[7] == y + sep + x + sep + z
             && g[5] == w + sep + x + sep + y && g[6] == x && g[7] == z
    ensures Join(f, FIELD_SEP) == Join(g, FIELD_SEP)
  {
    assert f[5..][3..] == f[8..] && g[5..][3..] == g[8..];
    JoinThree(f[5..], Join(f[8..], FIELD_SEP));
    JoinThree(g[5..], Join(f[8..], FIELD_SEP));
    Regroup(w, x, y, z, Join(f[8..], FIELD_SEP));
    hide Join;
    JoinSameHead(f, g, 5);
  }

  lemma TrimSpaceKeeps(s: string)
    requires s != [] && !IsSpace(s[0]) && !IsSpace(s[|s|-1])
    ensures TrimSpace(s) == s
  {
  }

  lemma Regroup(w: string, x: string, y: string, z: string, tail: string)
    ensures var sep: string := [FIELD_SEP];
            w + sep + x + sep + (y + sep + x + sep + z) + sep + tail
            == (w + sep + x + sep + y) + sep + x + sep + z + sep + tail
  {
  }

  lemma JoinThree(f: seq<string>, tail: string)
    requires |f| > 3 && tail == Join(f[3..], FIELD_SEP)
    ensures var sep: string := [FIELD_SEP];
            Join(f, FIELD_SEP) == f[0] + sep + f[1] + sep + f[2] + sep + tail
  {
    assert f[1..][1..] == f[2..] && f[2..][1..] == f[3..];
    assert Join(f[2..], FIELD_SEP) == f[2] + [FIELD_SEP] + tail;
    assert Join(f[1..], FIELD_SEP) == f[1] + [FIELD_SEP] + Join(f[2..], FIELD_SEP);
  }

  lemma {:induction false} JoinSameHead(f: seq<string>, g: seq<string>, n: nat)
    requires n < |f| && n < |g| && f[..n] == g[..n] && Join(f[n..], FIELD_SEP) == Join(g[n..], FIELD_SEP)
    ensures Join(f, FIELD_SEP) == Join(g, FIELD_SEP)
  {
    if n > 0 {
      assert f[0] == f[..n][0] && g[0] == g[..n][0];
      assert f[1..][..n - 1] == f[..n][1..] && g[1..][..n - 1] == g[..n][1..];
      assert f[1..][n - 1..] == f[n..] && g[1..][n - 1..] == g[n..];
      JoinSameHead(f[1..], g[1..], n - 1);
    } else {
      assert f[0..] == f && g[0..] == g;
    }
  }

  // ----- writing ahead -----

  /** A time a minute later; text that is no time stays. */
  function Shift(c: Codec, s: Stamp): Stamp {
    if s.valid then StampOf(c, c.format(s.instant + MINUTE)) else s
  }

  function NextMinute(c: Codec, r: Request): Request {
    r.(query := r.query.(fromUTC := Shift(c, r.query.fromUTC), toUTC := Shift(c, r.query.toUTC)))
  }

  predicate Moves(c: Codec, r: Request) {
    || Shift(c, r.query.fromUTC).text != r.query.fromUTC.text
    || Shift(c, r.query.toUTC).text != r.query.toUTC.text
  }

  lemma FormatTells(c: Codec, t: int, u: int)
    requires Faithful(c) && t != u
    ensures c.format(t) != c.format(u)
  {
  }

  lemma ParseTells(c: Codec, t: int)
    requires Faithful(c)
    ensures c.parse(c.format(t)).None? || c.parse(c.format(t)) == Some(t)
  {
  }

  lemma ShiftChangesBucket(c: Codec, s: Stamp)
    requires Faithful(c) && s == StampOf(c, s.text)
    ensures Shift(c, s).text != s.text <==> s.valid
    ensures s.valid ==> Bucket(c, Shift(c, s)) != Bucket(c, s)
  {
    hide Faithful;
    if s.valid {
      var t := s.instant;
      ParseTells(c, t + MINUTE);
      assert (t + MINUTE) % MINUTE == t % MINUTE && t % MINUTE >= 0;
      FormatTells(c, t + MINUTE - t % MINUTE, t - t % MINUTE);
      FormatTells(c, t + MINUTE, t - t % MINUTE);
    }
  }

  lemma ShiftedBucketPlain(c: Codec, s: Stamp)
    requires Faithful(c) && s.valid
    ensures FIELD_SEP !in Bucket(c, Shift(c, s)) && FIELD_SEP !in Bucket(c, s)
  {
  }

  /**
   * What the warmer writes ahead is never served: whoever asks with its key asks for another window than the rows
   * were read for, and the exact window guard turns that away.
   */
  lemma WrittenAheadNeverServed(c: Codec, warmed: Request, asked: Request)
    requires Faithful(c) && Readable(c, warmed) && Readable(c, asked)
    requires Moves(c, warmed) && Key(c, NextMinute(c, warmed)) == Key(c, asked)
    ensures !SameWindow(warmed, asked)
  {
    var ahead := NextMinute(c, warmed);
    ShiftChangesBucket(c, warmed.query.fromUTC);
    ShiftChangesBucket(c, warmed.query.toUTC);
    PeelFront(c, ahead, asked);
    if SameWindow(warmed, asked) {
      var f, g := Fields(c, ahead), Fields(c, asked);
      assert f[3] == Bucket(c, Shift(c, warmed.query.fromUTC)) && g[3] == Bucket(c, warmed.query.fromUTC);
      assert f[4] == Bucket(c, Shift(c, warmed.query.toUTC)) && g[4] == Bucket(c, warmed.query.toUTC);
      if warmed.query.fromUTC.valid {
        ShiftedBucketPlain(c, warmed.query.fromUTC);
        hide Fields, Bucket, Shift, Faithful, Key;
        PeelOne(f[3..], g[3..]);
      } else {
        ShiftedBucketPlain(c, warmed.query.toUTC);
        hide Fields, Bucket, Faithful, Key;
        PeelOne(f[3..], g[3..]);
        assert f[3..][1..] == f[4..] && g[3..][1..] == g[4..];
        hide Shift;
        PeelOne(f[4..], g[4..]);
      }
    }
  }

  // ----- how long -----

  /** Short windows live briefly, all others longer; an answer still to be checked lives shorter. */
  function TimeToLive(r: Request, pending: bool): (ttl: int)
    ensures 0 < ttl <= 180 * SECOND
  {
    var span := r.query.toUTC.instant - r.query.fromUTC.instant;
    if r.query.fromUTC.valid && r.query.toUTC.valid && 0 < span < 30 * MINUTE then
      if pending then 25 * SECOND else 60 * SECOND
    else if pending then 50 * SECOND else 180 * SECOND
  }

  // ----- the cache -----

  datatype Entry = Entry(resp: SearchResponse, expireAt: int)

  /** Where an entry comes from: the request that was searched, when it was stored, and whether ahead of time. */
  datatype Origin = Origin(request: Request, storedAt: int, ahead: bool)

  /** What is still pending is kept for less time than what is final, and a narrow window for less than a wide one. */
  lemma PendingExpiresFirst(r: Request, wide: Request, pending: bool)
    ensures 2 * TimeToLive(r, true) <= TimeToLive(r, false)
    ensures var span := r.query.toUTC.instant - r.query.fromUTC.instant;
            && r.query.fromUTC.valid && r.query.toUTC.valid && 0 < span < 30 * 60 * 1_000_000_000
            && !(wide.query.fromUTC.valid && wide.query.toUTC.valid &&
                 0 < wide.query.toUTC.instant - wide.query.fromUTC.instant < 30 * 60 * 1_000_000_000) ==>
              2 * TimeToLive(r, pending) <= TimeToLive(wide, pending)
  {
  }

  function StoredUnder(c: Codec, o: Origin): Request {
    if o.ahead then NextMinute(c, o.request) else o.request
  }

  /** The response is a page that some fan-out produced for this request and its window. */
  ghost predicate FreshFor(r: Request, resp: SearchResponse) {
    && resp.view.fromUTC == r.query.fromUTC && resp.view.toUTC == r.query.toUTC
    && BindCursor(r.query).Ok?
    && exists s :: FreshPage(BindCursor(r.query).value, s, resp)
  }

  ghost predicate Accounted(c: Codec, key: string, e: Entry, o: Origin) {
    && key == Key(c, StoredUnder(c, o))
    && Readable(c, o.request) && FreshFor(o.request, e.resp)
    && (o.ahead ==> Moves(c, o.request))
    && (e.resp.items != [] || e.resp.coverage.complete)
    && e.expireAt == o.storedAt + TimeToLive(StoredUnder(c, o), e.resp.coverage.pending)
  }

  /**
   * An answer from the cache: not expired, never one written ahead, and read for the caller's exact window, targets
   * and conditions, whatever they are.
   */
  ghost predicate Served(c: Codec, asked: Request, now: int, resp: SearchResponse, o: Origin) {
    && FreshFor(o.request, resp) && !o.ahead
    && now <= o.storedAt + 180 * SECOND
    && o.request.query.fromUTC == asked.query.fromUTC && o.request.query.toUTC == asked.query.toUTC
    && (PlainTargets(asked) && PlainTargets(o.request) ==>
          && multiset(o.request.authorized) == multiset(asked.authorized)
          && (Plain(asked) && Plain(o.request) ==> Alike(o.request, asked)))
  }

  lemma HitIsServed(c: Codec, asked: Request, now: int, e: Entry, o: Origin)
    requires Faithful(c) && Readable(c, asked) && Accounted(c, Key(c, asked), e, o) && now <= e.expireAt
    requires e.resp.view.fromUTC.text == asked.query.fromUTC.text && e.resp.view.toUTC.text == asked.query.toUTC.text
    ensures Served(c, asked, now, e.resp, o)
  {
    hide Key, Plain, PlainTargets, Alike, Faithful, FreshPage, Moves, NextMinute, BindCursor;
    if o.ahead {
      WrittenAheadNeverServed(c, o.request, asked);
    } else if PlainTargets(asked) && PlainTargets(o.request) {
      OtherTargetsOtherKey(c, o.request, asked);
      if Plain(asked) && Plain(o.request) {
        KeyTellsInWindow(c, o.request, asked);
      }
    }
  }

  ghost predicate AllAccounted(c: Codec, entries: map<string, Entry>, origins: map<string, Origin>) {
    && origins.Keys == entries.Keys
    && forall k :: k in entries ==> Accounted(c, k, entries[k], origins[k])
  }

  lemma AddAccounted(
    c: Codec, entries: map<string, Entry>, origins: map<string, Origin>, key: string, e: Entry, o: Origin)
    requires AllAccounted(c, entries, origins) && Accounted(c, key, e, o)
    ensures AllAccounted(c, entries[key := e], origins[key := o])
  {
    hide Accounted;
  }

  lemma DropAccounted(c: Codec, entries: map<string, Entry>, origins: map<string, Origin>, key: string)
    requires AllAccounted(c, entries, origins)
    ensures AllAccounted(c, entries - {key}, origins - {key})
  {
    hide Accounted;
  }

  lemma BindTwice(r: Request)
    requires BindCursor(r.query).Ok?
    ensures var q := BindCursor(r.query).value;
            BindCursor(q).Ok? && BindCursor(q).value == q && q.fromUTC == r.query.fromUTC && q.toUTC == r.query.toUTC
  {
  }

  /**
   * What the cache serves may stand in a chain of pages: it was read at the same cursor, so if its workers were honest
   * the chain loses nothing by it.
   */
  lemma ServedIsRecalled(
    c: Codec, asked: Request, now: int, kept: SearchResponse, o: Origin, s0: Surroundings,
    queried: seq<Targets.TargetInfo>, contents: map<string, seq<Event>>)
    requires Served(c, asked, now, kept, o) && BindCursor(asked.query).Ok?
    requires PlainTargets(asked) && PlainTargets(o.request) && Plain(asked) && Plain(o.request)
    requires Paging.ReadHonestly(o.request.query, s0, queried, contents) && PageOf(o.request.query, s0, kept)
    requires Paging.WithinWindow(BindCursor(asked.query).value, kept.items)
    ensures Paging.Recalled(asked.query, kept, queried, contents)
  {
    hide Paging.ReadHonestly, PageOf, BindCursor, Paging.WithinWindow, FreshPage, PlainTargets;
    assert o.request.query.cursor == asked.query.cursor;
    assert Paging.AfterKey(o.request.query) == Paging.AfterKey(asked.query);
  }

  class Cache {
    const codec: Codec
    var entries: map<string, Entry>
    ghost var origins: map<string, Origin>

    ghost predicate Valid()
      reads this
    {
      && Faithful(codec)
      && |entries| <= MAX_ENTRIES + 1
      && AllAccounted(codec, entries, origins)
    }

    constructor (codec: Codec)
      requires Faithful(codec)
      ensures Valid() && this.codec == codec && entries == map[]
    {
      hide Faithful, Accounted;
      this.codec := codec;
      entries, origins := map[], map[];
    }

    /** A hit is an entry that has not expired and was read for exactly this window; an expired entry goes. */
    method Lookup(asked: Request, now: int) returns (r: Option<SearchResponse>, ghost o: Option<Origin>)
      requires Valid() && Readable(codec, asked)
      modifies this
      ensures Valid()
      ensures var key, was := Key(codec, asked), old(entries);
              && entries == (if key in was && now > was[key].expireAt then was - {key} else was)
              && (r.Some? <==>
                  key in was && now <= was[key].expireAt
                  && was[key].resp.view.fromUTC.text == asked.query.fromUTC.text
                  && was[key].resp.view.toUTC.text == asked.query.toUTC.text)
      ensures r.Some? ==> o.Some? && Served(codec, asked, now, r.value, o.value)
    {
      hide Key, Faithful, Accounted, Served;
      r, o := None, None;
      var key := Key(codec, asked);
      if key !in entries {
        return;
      }
      var e := entries[key];
      if now > e.expireAt {
        DropAccounted(codec, entries, origins, key);
        entries, origins := entries - {key}, origins - {key};
        SmallerMap(old(entries), key);
        return;
      }
      if e.resp.view.fromUTC.text != asked.query.fromUTC.text || e.resp.view.toUTC.text != asked.query.toUTC.text {
        return;
      }
      HitIsServed(codec, asked, now, e, origins[key]);
      r, o := Some(e.resp), Some(origins[key]);
    }

    /** Keeps a response unless it is empty and incomplete; a full cache is emptied first. */
    method Store(under: Request, resp: Option<SearchResponse>, now: int, ghost o: Origin)
      requires Valid() && under == StoredUnder(codec, o) && o.storedAt == now
      requires Readable(codec, o.request) && (o.ahead ==> Moves(codec, o.request))
      requires resp.Some? ==> FreshFor(o.request, resp.value)
      modifies this
      ensures Valid()
      ensures entries ==
              if resp.None? || (resp.value.items == [] && !resp.value.coverage.complete) then old(entries)
              else (if |old(entries)| > MAX_ENTRIES then map[] else old(entries))
                   [Key(codec, under) := Entry(resp.value, now + TimeToLive(under, resp.value.coverage.pending))]
    {
      hide Key, Faithful, FreshFor, Readable, Moves, TimeToLive, AllAccounted, StoredUnder;
      if resp.None? {
        return;
      }
      if |resp.value.items| == 0 && !resp.value.coverage.complete {
        return;
      }
      var ttl := TimeToLive(under, resp.value.coverage.pending);
      var key := Key(codec, under);
      if |entries| > MAX_ENTRIES {
        entries, origins := map[], map[];
        NothingToAccount(codec);
      }
      var e := Entry(resp.value, now + ttl);
      AddAccounted(codec, entries, origins, key, e, o);
      GrowsByOne(entries, key, e);
      entries, origins := entries[key := e], origins[key := o];
    }

    /**
     * A search through the cache. Whatever the answer, it carries the caller's own view; it is either fresh or
     * rebound from an answer that was read for the same request and window.
     */
    method Search(asked: Request, s: Surroundings, now: int, later: int) returns (r: Result<SearchResponse, string>)
      requires Valid() && Readable(codec, asked) && s.cached.None?
      requires s.view.fromUTC == asked.query.fromUTC && s.view.toUTC == asked.query.toUTC
      requires BindCursor(asked.query).Ok? ==>
                 FanoutSearch.Arrives(s.arrival, s.resolved.queried,
                                      ReadBudget(s.view.limit, BindCursor(asked.query).value.budget), s.replies)
      modifies this
      ensures Valid()
      ensures r.Ok? ==>
                && BindCursor(asked.query).Ok?
                && Answer(codec, asked.(query := BindCursor(asked.query).value), s, now, r.value)
    {
      hide Valid, Readable, Served, FreshPage, Accounted, ReadBudget, Rebind, FanoutSearch.Arrives;
      var bound := BindCursor(asked.query);
      if bound.Err? {
        return Err(bound.error);
      }
      var q := asked.(query := bound.value);
      BindTwice(asked);
      BoundReadable(codec, asked);
      var hit: Option<SearchResponse> := None;
      ghost var o: Option<Origin> := None;
      if !asked.bypass {
        hit, o := Lookup(q, now);
      }
      r := SearchPage.Search(asked.query, s.(cached := hit));
      if r.Ok? {
        if hit.Some? {
          ServedAnswer(codec, q, s, now, hit.value, o.value, r.value);
        } else {
          FreshAnswer(codec, asked, s.(cached := hit), now, r.value);
          assert s.(cached := hit) == s;
          Store(q, Some(r.value), later, Origin(q, later, false));
        }
      }
    }

    /** Searches past the cache and also keeps the answer under the window a minute later. */
    method WarmSearch(asked: Request, s: Surroundings, now: int, later: int) returns (r: Result<SearchResponse, string>)
      requires Valid() && Readable(codec, asked) && s.cached.None?
      requires s.view.fromUTC == asked.query.fromUTC && s.view.toUTC == asked.query.toUTC
      requires BindCursor(asked.query).Ok? ==>
                 FanoutSearch.Arrives(s.arrival, s.resolved.queried,
                                      ReadBudget(s.view.limit, BindCursor(asked.query).value.budget), s.replies)
      modifies this
      ensures Valid()
      ensures r.Ok? ==> BindCursor(asked.query).Ok? && FreshPage(BindCursor(asked.query).value, s, r.value)
    {
      hide Valid, FreshPage, ReadBudget, FanoutSearch.Arrives, BindCursor, Key;
      var warm := asked.(bypass := true);
      r := Search(warm, s, now, later);
      if r.Err? {
        return;
      }
      var resp := r.value;
      if |resp.items| == 0 && !resp.coverage.complete {
        return;
      }
      var ahead := NextMinute(codec, warm);
      if ahead.query.fromUTC.text == warm.query.fromUTC.text && ahead.query.toUTC.text == warm.query.toUTC.text {
        return;
      }
      Store(ahead, Some(resp), later, Origin(warm, later, true));
    }
  }

  /** What a search may answer: a fresh page, or one served from the cache and rebound to the caller's view. */
  ghost predicate Answer(c: Codec, q: Request, s: Surroundings, now: int, resp: SearchResponse) {
    var view := s.view.(limit := ReadBudget(s.view.limit, q.query.budget).limit);
    && resp.view == view
    && (|| FreshPage(q.query, s, resp)
        || (!q.bypass && exists cached, o :: Served(c, q, now, cached, o) && resp == Rebind(q.query, view, cached)))
  }

  lemma ServedAnswer(
    c: Codec, q: Request, s: Surroundings, now: int, cached: SearchResponse, o: Origin, resp: SearchResponse)
    requires Served(c, q, now, cached, o) && !q.bypass
    requires resp == Rebind(q.query, s.view.(limit := ReadBudget(s.view.limit, q.query.budget).limit), cached)
    ensures Answer(c, q, s, now, resp)
  {
    hide Served, InWindow, FreshPage;
  }

  lemma FreshAnswer(c: Codec, asked: Request, s: Surroundings, now: int, resp: SearchResponse)
    requires s.cached.None? && PageOf(asked.query, s, resp)
    ensures Answer(c, asked.(query := BindCursor(asked.query).value), s, now, resp)
    ensures s.view.fromUTC == asked.query.fromUTC && s.view.toUTC == asked.query.toUTC ==>
              FreshFor(asked, resp) && FreshFor(asked.(query := BindCursor(asked.query).value), resp)
  {
    hide Served, ReadBudget, FanoutSearch.Arrives, FanoutSearch.AllFine, FinalCoverage, SafeRows;
    BindTwice(asked);
    assert FreshPage(BindCursor(asked.query).value, s, resp);
  }

  lemma BoundReadable(c: Codec, r: Request)
    requires Readable(c, r) && BindCursor(r.query).Ok?
    ensures Readable(c, r.(query := BindCursor(r.query).value))
  {
  }

  lemma NothingToAccount(c: Codec)
    ensures AllAccounted(c, map[], map[])
  {
  }

  lemma SmallerMap(m: map<string, Entry>, key: string)
    requires key in m
    ensures |m - {key}| < |m|
  {
    assert (m - {key}).Keys == m.Keys - {key};
    assert |(m - {key}).Keys| == |m - {key}| && |m.Keys| == |m|;
  }

  lemma GrowsByOne(m: map<string, Entry>, key: string, e: Entry)
    ensures |m[key := e]| <= |m| + 1
  {
    assert m[key := e].Keys == m.Keys + {key};
    assert |m[key := e].Keys| == |m[key := e]| && |m.Keys| == |m|;
  }
}
