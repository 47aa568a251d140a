/** The event model shared by the log coordinator: sort keys, events and their order. */
module LogTypes {
  import opened Text
  import opened Sorting

  /** A time as sent: its text, whether that parses as RFC 3339, and the instant, counted from Go's zero time. */
  datatype Stamp = Stamp(text: string, valid: bool, instant: int)
  {
    /** A text that does not parse stands for the zero time. */
    function Time(): int {
      if valid then instant else 0
    }
  }

  datatype SortKey = SortKey(
    time: int, logSourceID: string, sourceGeneration: string,
    recordStart: nat, recordEnd: nat, eventID: string)
  {
    /** Time, record start and record end descend; source, generation and event id ascend. */
    function Compare(b: SortKey): int {
      if time != b.time then (if time > b.time then -1 else 1)
      else if Text.Compare(logSourceID, b.logSourceID) != 0 then Text.Compare(logSourceID, b.logSourceID)
      else if Text.Compare(sourceGeneration, b.sourceGeneration) != 0
      then Text.Compare(sourceGeneration, b.sourceGeneration)
      else if recordStart != b.recordStart then (if recordStart > b.recordStart then -1 else 1)
      else if recordEnd != b.recordEnd then (if recordEnd > b.recordEnd then -1 else 1)
      else Text.Compare(eventID, b.eventID)
    }
  }

  lemma CompareAntisymmetric(a: SortKey, b: SortKey)
    ensures a.Compare(b) == 0 <==> a == b
    ensures a.Compare(b) == -b.Compare(a)
  {
    CompareEqual(a.logSourceID, b.logSourceID);
    CompareEqual(a.sourceGeneration, b.sourceGeneration);
    CompareEqual(a.eventID, b.eventID);
    CompareFlip(a.logSourceID, b.logSourceID);
    CompareFlip(a.sourceGeneration, b.sourceGeneration);
    CompareFlip(a.eventID, b.eventID);
  }

  lemma CompareTransitive(a: SortKey, b: SortKey, c: SortKey)
    requires a.Compare(b) <= 0 && b.Compare(c) <= 0
    ensures a.Compare(c) <= 0
  {
    TextFacts(a.logSourceID, b.logSourceID, c.logSourceID);
    TextFacts(a.sourceGeneration, b.sourceGeneration, c.sourceGeneration);
    TextFacts(a.eventID, b.eventID, c.eventID);
  }

  lemma TextFacts(a: string, b: string, c: string)
    ensures Text.Compare(a, b) == 0 <==> a == b
    ensures Text.Compare(b, c) == 0 <==> b == c
    ensures Text.Compare(a, c) == 0 <==> a == c
    ensures Text.Compare(a, b) <= 0 && Text.Compare(b, c) <= 0 ==>
              Text.Compare(a, c) <= 0 && (Text.Compare(a, c) == 0 ==> Text.Compare(a, b) == 0)
  {
    CompareEqual(a, b);
    CompareEqual(b, c);
    CompareEqual(a, c);
    if Text.Compare(a, b) <= 0 && Text.Compare(b, c) <= 0 {
      Text.CompareTransitive(a, b, c);
    }
  }

  datatype Event = Event(
    eventID: string, logSourceID: string, sourceGeneration: string,
    recordStart: nat, recordEnd: nat,
    eventTime: Stamp, ingestTime: string, level: string, stream: string,
    message: string, canonicalHash: string, targetID: string, workerID: string)
  {
    function Key(): SortKey {
      SortKey(eventTime.Time(), logSourceID, sourceGeneration, recordStart, recordEnd, eventID)
    }

    /** The byte estimate the budgets count; every event costs at least 32. */
    function ApproxBytes(): (n: nat)
      ensures n >= 32
    {
      |eventID| + |logSourceID| + |sourceGeneration| + |eventTime.text| + |ingestTime| + |level| +
      |stream| + |message| + |canonicalHash| + |targetID| + |workerID| + 32
    }
  }

  function Bytes(rows: seq<Event>): nat {
    if rows == [] then 0 else Bytes(rows[..|rows|-1]) + rows[|rows|-1].ApproxBytes()
  }

  lemma BytesSnoc(rows: seq<Event>, e: Event)
    ensures Bytes(rows + [e]) == Bytes(rows) + e.ApproxBytes()
  {
    assert (rows + [e])[..|rows|] == rows;
  }

  lemma {:induction false} BytesSum(a: seq<Event>, b: seq<Event>)
    ensures Bytes(a + b) == Bytes(a) + Bytes(b)
  {
    if b == [] {
      assert a + b == a;
    } else {
      assert (a + b)[..|a + b|-1] == a + b[..|b|-1];
      BytesSum(a, b[..|b|-1]);
    }
  }

  /** x may stand before y: its key does not sort after y's. */
  predicate NotAfter(x: Event, y: Event) {
    x.Key().Compare(y.Key()) <= 0
  }

  /** The three facts that make NotAfter a total preorder whose ties are equal keys. */
  lemma OrderFacts()
    ensures forall x: Event, y: Event :: NotAfter(x, y) || NotAfter(y, x)
    ensures forall x: Event, y: Event, z: Event {:trigger NotAfter(x, y), NotAfter(y, z)} ::
              NotAfter(x, y) && NotAfter(y, z) ==> NotAfter(x, z)
    ensures forall x: Event, y: Event {:trigger NotAfter(x, y), NotAfter(y, x)} ::
              NotAfter(x, y) && NotAfter(y, x) <==> x.Key() == y.Key()
  {
    forall x: Event, y: Event
      ensures NotAfter(x, y) || NotAfter(y, x)
      ensures NotAfter(x, y) && NotAfter(y, x) <==> x.Key() == y.Key()
    {
      CompareAntisymmetric(x.Key(), y.Key());
    }
    forall x: Event, y: Event, z: Event | NotAfter(x, y) && NotAfter(y, z) ensures NotAfter(x, z) {
      CompareTransitive(x.Key(), y.Key(), z.Key());
    }
  }

  predicate Sorted(s: seq<Event>) {
    forall i, j :: 0 <= i < j < |s| ==> NotAfter(s[i], s[j])
  }

  /** No two positions carry the same sort key. */
  predicate DistinctKeys(s: seq<Event>) {
    forall i, j :: 0 <= i < j < |s| ==> s[i].Key() != s[j].Key()
  }

  /**
   * The order of a page, field by field: times do not increase; at one time the log sources ascend, then the
   * generations; with those alike the records go down from the last by start, then by end; last the event ids ascend.
   */
  ghost predicate NewestFirst(rows: seq<Event>) {
    forall i, j :: 0 <= i < j < |rows| ==> Precedes(rows[i], rows[j])
  }

  ghost predicate Precedes(x: Event, y: Event) {
    var later, earlier := if x.eventTime.valid then x.eventTime.instant else 0,
                          if y.eventTime.valid then y.eventTime.instant else 0;
    && later >= earlier
    && (later == earlier ==>
          && Ascends(x.logSourceID, y.logSourceID)
          && (x.logSourceID == y.logSourceID ==>
                && Ascends(x.sourceGeneration, y.sourceGeneration)
                && (x.sourceGeneration == y.sourceGeneration ==>
                      && x.recordStart >= y.recordStart
                      && (x.recordStart == y.recordStart ==>
                            && x.recordEnd >= y.recordEnd
                            && (x.recordEnd == y.recordEnd ==> Ascends(x.eventID, y.eventID))))))
  }

  lemma NotAfterPrecedes(x: Event, y: Event)
    ensures NotAfter(x, y) <==> Precedes(x, y)
  {
    CompareAscends(x.logSourceID, y.logSourceID);
    CompareAscends(x.sourceGeneration, y.sourceGeneration);
    CompareAscends(x.eventID, y.eventID);
    CompareEqual(x.logSourceID, y.logSourceID);
    CompareEqual(x.sourceGeneration, y.sourceGeneration);
    CompareFlip(x.logSourceID, y.logSourceID);
    CompareFlip(x.sourceGeneration, y.sourceGeneration);
    hide Ascends, Text.Compare;
  }

  /** Sorted is newest first. */
  lemma SortedIsNewestFirst(rows: seq<Event>)
    ensures Sorted(rows) <==> NewestFirst(rows)
  {
    hide NotAfter, Precedes;
    forall i, j | 0 <= i < j < |rows| ensures NotAfter(rows[i], rows[j]) <==> Precedes(rows[i], rows[j]) {
      NotAfterPrecedes(rows[i], rows[j]);
    }
    if NewestFirst(rows) {
      forall i, j | 0 <= i < j < |rows| ensures NotAfter(rows[i], rows[j]) {
        NotAfterPrecedes(rows[i], rows[j]);
      }
    }
  }

  // ----- the reference sort -----

  function ByKey(): (Event, Event) -> bool {
    (x, y) => NotAfter(x, y)
  }

  lemma KeyOrder()
    ensures Preorder(ByKey())
  {
    hide SortKey.Compare;
    OrderFacts();
  }

  lemma SortedIsSortedBy(s: seq<Event>)
    ensures Sorted(s) <==> SortedBy(s, ByKey())
  {
  }

  /** Inserts e after every event of s that does not sort after it. */
  function Insert(s: seq<Event>, e: Event): seq<Event> {
    InsertBy(s, e, ByKey())
  }

  /** The stable sort by key. */
  function SortEvents(s: seq<Event>): seq<Event> {
    SortBy(s, ByKey())
  }

  lemma InsertUnfolds(s: seq<Event>, e: Event)
    ensures Insert(s, e) ==
            if s != [] && e.Key().Compare(s[|s|-1].Key()) < 0 then Insert(s[..|s|-1], e) + [s[|s|-1]] else s + [e]
  {
    if s != [] {
      CompareAntisymmetric(s[|s|-1].Key(), e.Key());
    }
  }

  lemma SortEventsSorts(s: seq<Event>)
    ensures Sorted(SortEvents(s))
    ensures multiset(SortEvents(s)) == multiset(s)
    ensures |SortEvents(s)| == |s|
  {
    KeyOrder();
    SortBySorts(s, ByKey());
    SortedIsSortedBy(SortEvents(s));
    hide SortEvents;
    assert |multiset(SortEvents(s))| == |multiset(s)|;
  }

  /** With distinct keys there is exactly one sorted arrangement. */
  lemma SortedUnique(a: seq<Event>, b: seq<Event>)
    requires Sorted(a) && Sorted(b) && DistinctKeys(a)
    requires multiset(a) == multiset(b)
    ensures a == b
  {
    hide SortKey.Compare, Event.Key;
    forall x, y | x in a && y in a && NotAfter(x, y) && NotAfter(y, x) ensures x == y {
      CompareAntisymmetric(x.Key(), y.Key());
    }
    forall x ensures x in b <==> x in a {
      assert x in b <==> x in multiset(b);
      assert x in a <==> x in multiset(a);
    }
    SortedArrangementUnique(a, b, ByKey());
  }
}
