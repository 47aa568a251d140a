/** Removal of repeated rows: a row goes when the latest earlier row with its id has its hash. */
module Dedupe {
  import opened Text
  import opened LogTypes

  /** The hash of the last row with this id. */
  function LastHash(rows: seq<Event>, id: string): Option<string> {
    if rows == [] then None
    else if rows[|rows|-1].eventID == id then Some(rows[|rows|-1].canonicalHash)
    else LastHash(rows[..|rows|-1], id)
  }

  predicate Repeats(before: seq<Event>, e: Event) {
    LastHash(before, e.eventID) == Some(e.canonicalHash)
  }

  function Deduped(rows: seq<Event>): (r: seq<Event>)
    ensures |r| <= |rows|
  {
    if rows == [] then []
    else
      var before, e := rows[..|rows|-1], rows[|rows|-1];
      if Repeats(before, e) then Deduped(before) else Deduped(before) + [e]
  }

  /** Some id occurs twice. */
  predicate Duplicated(rows: seq<Event>) {
    exists i, j :: 0 <= i < j < |rows| && rows[i].eventID == rows[j].eventID
  }

  lemma {:induction false} LastHashIsLast(rows: seq<Event>, id: string)
    ensures LastHash(rows, id).None? <==> forall i :: 0 <= i < |rows| ==> rows[i].eventID != id
    ensures LastHash(rows, id).Some? ==>
              exists i :: && 0 <= i < |rows| && rows[i].eventID == id
                          && rows[i].canonicalHash == LastHash(rows, id).value
                          && forall j :: i < j < |rows| ==> rows[j].eventID != id
  {
    if rows != [] {
      var n := |rows| - 1;
      LastHashIsLast(rows[..n], id);
      if rows[n].eventID != id && LastHash(rows, id).Some? {
        var i :| && 0 <= i < n && rows[..n][i].eventID == id
                 && rows[..n][i].canonicalHash == LastHash(rows, id).value
                 && forall j :: i < j < n ==> rows[..n][j].eventID != id;
        assert rows[i].eventID == id && rows[i].canonicalHash == LastHash(rows, id).value;
        assert forall j :: i < j < |rows| ==> rows[j].eventID != id;
      } else if rows[n].eventID != id {
        assert forall i :: 0 <= i < n ==> rows[i] == rows[..n][i];
      }
    }
  }

  /** Go's page-level deduplication, with its map from id to the hash last seen. */
  method DedupeMergedRows(rows: seq<Event>) returns (out: seq<Event>, duplicated: bool)
    ensures out == Deduped(rows)
    ensures duplicated <==> Duplicated(rows)
  {
    if |rows| < 2 {
      if |rows| == 1 {
        SnocUnfolds([], rows[0]);
        assert rows == [] + [rows[0]];
      }
      return rows, false;
    }
    hide Deduped, Duplicated, LastHash, Remembers;
    var seenHash: map<string, string> := map[];
    duplicated := false;
    out := [];
    NothingSeen();
    for i := 0 to |rows|
      invariant out == Deduped(rows[..i])
      invariant Remembers(seenHash, rows[..i])
      invariant duplicated <==> Duplicated(rows[..i])
    {
      var event := rows[i];
      assert rows[..i+1] == rows[..i] + [event];
      SnocDedupes(rows[..i], event);
      SnocDuplicates(rows[..i], event);
      SeenTells(seenHash, rows[..i], event);
      if event.eventID in seenHash {
        duplicated := true;
        if seenHash[event.eventID] == event.canonicalHash {
          continue;
        }
      }
      seenHash := seenHash[event.eventID := event.canonicalHash];
      out := out + [event];
    }
    assert rows[..|rows|] == rows;
  }

  /** The map holds, for every id met, the hash of its last row. */
  ghost predicate Remembers(seen: map<string, string>, rows: seq<Event>) {
    && (forall id :: id in seen <==> LastHash(rows, id).Some?)
    && (forall id :: id in seen ==> LastHash(rows, id) == Some(seen[id]))
  }

  lemma NothingSeen()
    ensures Remembers(map[], []) && Deduped([]) == [] && !Duplicated([])
  {
  }

  lemma SeenTells(seen: map<string, string>, rows: seq<Event>, e: Event)
    requires Remembers(seen, rows)
    ensures e.eventID in seen <==> exists i :: 0 <= i < |rows| && rows[i].eventID == e.eventID
    ensures Repeats(rows, e) <==> e.eventID in seen && seen[e.eventID] == e.canonicalHash
    ensures Remembers(seen[e.eventID := e.canonicalHash], rows + [e])
    ensures Repeats(rows, e) ==> Remembers(seen, rows + [e])
  {
    LastHashIsLast(rows, e.eventID);
    SnocUnfolds(rows, e);
    hide LastHash, Deduped;
  }

  lemma SnocDedupes(rows: seq<Event>, e: Event)
    ensures Deduped(rows + [e]) == if Repeats(rows, e) then Deduped(rows) else Deduped(rows) + [e]
  {
    assert (rows + [e])[..|rows|] == rows;
  }

  lemma SnocUnfolds(rows: seq<Event>, e: Event)
    ensures Deduped(rows + [e]) == if Repeats(rows, e) then Deduped(rows) else Deduped(rows) + [e]
    ensures forall id :: LastHash(rows + [e], id) ==
                         if e.eventID == id then Some(e.canonicalHash) else LastHash(rows, id)
  {
    assert (rows + [e])[..|rows|] == rows;
  }

  lemma SnocDuplicates(rows: seq<Event>, e: Event)
    ensures Duplicated(rows + [e]) <==> Duplicated(rows) || exists i :: 0 <= i < |rows| && rows[i].eventID == e.eventID
  {
    var t := rows + [e];
    if Duplicated(rows) {
      var i, j :| 0 <= i < j < |rows| && rows[i].eventID == rows[j].eventID;
      assert t[i].eventID == t[j].eventID;
    }
    if i :| 0 <= i < |rows| && rows[i].eventID == e.eventID {
      assert t[i].eventID == t[|rows|].eventID;
    }
  }

  lemma {:induction false} LastHashConcat(a: seq<Event>, b: seq<Event>, id: string)
    ensures LastHash(a + b, id) == if LastHash(b, id).Some? then LastHash(b, id) else LastHash(a, id)
  {
    if b == [] {
      assert a + b == a;
    } else {
      assert (a + b)[..|a + b|-1] == a + b[..|b|-1];
      LastHashConcat(a, b[..|b|-1], id);
    }
  }

  /** A dropped row never changes what the next row is compared with. */
  lemma {:induction false} LastHashKept(rows: seq<Event>, id: string)
    ensures LastHash(Deduped(rows), id) == LastHash(rows, id)
  {
    if rows != [] {
      var before, e := rows[..|rows|-1], rows[|rows|-1];
      assert rows == before + [e];
      SnocUnfolds(before, e);
      LastHashKept(before, id);
      LastHashKept(before, e.eventID);
      SnocUnfolds(Deduped(before), e);
    }
  }

  lemma {:induction false} DedupeIdempotent(rows: seq<Event>)
    ensures Deduped(Deduped(rows)) == Deduped(rows)
  {
    if rows != [] {
      var before, e := rows[..|rows|-1], rows[|rows|-1];
      assert rows == before + [e];
      SnocUnfolds(before, e);
      DedupeIdempotent(before);
      LastHashKept(before, e.eventID);
      SnocUnfolds(Deduped(before), e);
    }
  }

  lemma {:induction false} DedupeLeft(a: seq<Event>, b: seq<Event>)
    ensures Deduped(Deduped(a) + b) == Deduped(a + b)
  {
    hide Deduped;
    if b == [] {
      assert Deduped(a) + b == Deduped(a) && a + b == a;
      DedupeIdempotent(a);
    } else {
      var before, e := b[..|b|-1], b[|b|-1];
      DedupeLeft(a, before);
      assert b == before + [e];
      assert a + b == (a + before) + [e] && Deduped(a) + b == (Deduped(a) + before) + [e];
      SnocDedupes(a + before, e);
      SnocDedupes(Deduped(a) + before, e);
      LastHashConcat(a, before, e.eventID);
      LastHashConcat(Deduped(a), before, e.eventID);
      LastHashKept(a, e.eventID);
    }
  }

  lemma RepeatsAfter(a: seq<Event>, b: seq<Event>, e: Event)
    ensures Repeats(a + Deduped(b), e) == Repeats(a + b, e)
    ensures Repeats(b, e) ==> Repeats(a + b, e)
  {
    LastHashConcat(a, b, e.eventID);
    LastHashConcat(a, Deduped(b), e.eventID);
    LastHashKept(b, e.eventID);
    hide LastHash, Deduped;
  }

  lemma {:induction false} DedupeRight(a: seq<Event>, b: seq<Event>)
    ensures Deduped(a + Deduped(b)) == Deduped(a + b)
  {
    if b == [] {
      assert Deduped(b) == b;
    } else {
      hide Deduped, Repeats;
      var before, e := b[..|b|-1], b[|b|-1];
      assert b == before + [e] && a + b == (a + before) + [e];
      DedupeRight(a, before);
      RepeatsAfter(a, before, e);
      SnocDedupes(before, e);
      SnocDedupes(a + before, e);
      if !Repeats(before, e) {
        SnocDedupes(a + Deduped(before), e);
        assert a + (Deduped(before) + [e]) == (a + Deduped(before)) + [e];
      }
    }
  }

  /** Deduplicating page by page is deduplicating the whole sequence. */
  lemma DedupePageByPage(a: seq<Event>, b: seq<Event>)
    ensures Deduped(Deduped(a) + Deduped(b)) == Deduped(a + b)
  {
    DedupeLeft(a, Deduped(b));
    DedupeRight(a, b);
  }

  /** The kept rows are the given rows at increasing places. */
  ghost predicate Selects(kept: seq<Event>, rows: seq<Event>, at: seq<nat>) {
    && |at| == |kept|
    && (forall k :: 0 <= k < |at| ==> at[k] < |rows| && rows[at[k]] == kept[k])
    && (forall k, l :: 0 <= k < l < |at| ==> at[k] < at[l])
  }

  /** The i-th row repeats the one of its id nearest before it. */
  ghost predicate RepeatsNearest(rows: seq<Event>, i: nat)
    requires i < |rows|
  {
    exists j :: 0 <= j < i && Nearest(rows, j, i) && rows[j].canonicalHash == rows[i].canonicalHash
  }

  predicate Nearest(rows: seq<Event>, j: nat, i: nat)
    requires j < i < |rows|
  {
    rows[j].eventID == rows[i].eventID && forall k :: j < k < i ==> rows[k].eventID != rows[i].eventID
  }

  lemma {:induction false} NearestHash(before: seq<Event>, id: string)
    ensures LastHash(before, id).None? ==> forall j :: 0 <= j < |before| ==> before[j].eventID != id
    ensures LastHash(before, id).Some? ==>
              exists j :: 0 <= j < |before| && before[j].eventID == id
                          && LastHash(before, id) == Some(before[j].canonicalHash)
                          && forall k :: j < k < |before| ==> before[k].eventID != id
  {
    if before != [] && before[|before|-1].eventID != id {
      NearestHash(before[..|before|-1], id);
    }
  }

  lemma RepeatsTells(rows: seq<Event>, i: nat)
    requires i < |rows|
    ensures Repeats(rows[..i], rows[i]) <==> RepeatsNearest(rows, i)
  {
    NearestHash(rows[..i], rows[i].eventID);
    hide LastHash;
    if LastHash(rows[..i], rows[i].eventID).Some? {
      var j :| 0 <= j < i && rows[..i][j].eventID == rows[i].eventID
               && LastHash(rows[..i], rows[i].eventID) == Some(rows[..i][j].canonicalHash)
               && forall k :: j < k < i ==> rows[..i][k].eventID != rows[i].eventID;
      assert Nearest(rows, j, i) by {
        forall k | j < k < i ensures rows[k].eventID != rows[i].eventID {
          assert rows[..i][k] == rows[k];
        }
      }
    } else {
      forall j | 0 <= j < i ensures rows[j].eventID != rows[i].eventID {
        assert rows[..i][j] == rows[j];
      }
    }
  }

  /** The rows kept are exactly those that do not repeat the one of their id nearest before, in their order. */
  lemma {:induction false} DedupeSelects(rows: seq<Event>) returns (at: seq<nat>)
    ensures Selects(Deduped(rows), rows, at)
    ensures forall i :: 0 <= i < |rows| ==> (i in at <==> !RepeatsNearest(rows, i))
  {
    at := [];
    if rows != [] {
      var n := |rows| - 1;
      at := DedupeSelects(rows[..n]);
      RepeatsTells(rows, n);
      forall i | 0 <= i < n ensures RepeatsNearest(rows[..n], i) <==> RepeatsNearest(rows, i) {
        ShorterTells(rows, n, i);
      }
      hide RepeatsNearest, Repeats;
      if !Repeats(rows[..n], rows[n]) {
        at := at + [n];
      }
    }
  }

  lemma ShorterTells(rows: seq<Event>, n: nat, i: nat)
    requires i < n <= |rows|
    ensures RepeatsNearest(rows[..n], i) <==> RepeatsNearest(rows, i)
  {
    assert forall j :: 0 <= j < i ==> (Nearest(rows[..n], j, i) <==> Nearest(rows, j, i));
  }

  /** No (id, hash) pair is lost. */
  lemma {:induction false} DedupeKeepsContent(rows: seq<Event>, e: Event)
    requires e in rows
    ensures exists k :: && 0 <= k < |Deduped(rows)| && Deduped(rows)[k].eventID == e.eventID
                        && Deduped(rows)[k].canonicalHash == e.canonicalHash
  {
    var n := |rows| - 1;
    var before, last := rows[..n], rows[n];
    var d := Deduped(before);
    if e in before {
      DedupeKeepsContent(before, e);
      var k :| 0 <= k < |d| && d[k].eventID == e.eventID && d[k].canonicalHash == e.canonicalHash;
      assert Deduped(rows)[k] == d[k];
    } else if Repeats(before, last) {
      assert e == last;
      LastHashKept(before, last.eventID);
      LastHashIsLast(d, last.eventID);
      assert Deduped(rows) == d;
    } else {
      assert Deduped(rows)[|d|] == e;
    }
  }

  /** Two rows of one id that follow each other in the result differ in hash. */
  lemma {:induction false} DedupeLeavesNoRepeat(rows: seq<Event>, i: nat, j: nat)
    requires i < j < |Deduped(rows)|
    requires Deduped(rows)[i].eventID == Deduped(rows)[j].eventID
    requires forall k :: i < k < j ==> Deduped(rows)[k].eventID != Deduped(rows)[i].eventID
    ensures Deduped(rows)[i].canonicalHash != Deduped(rows)[j].canonicalHash
  {
    var n := |rows| - 1;
    var before, e := rows[..n], rows[n];
    var d := Deduped(before);
    if j < |d| {
      assert forall k :: 0 <= k < |d| ==> Deduped(rows)[k] == d[k];
      DedupeLeavesNoRepeat(before, i, j);
    } else {
      LastHashKept(before, e.eventID);
      LastHashIsLast(d, e.eventID);
      assert forall k :: 0 <= k < |d| ==> Deduped(rows)[k] == d[k];
      var m :| && 0 <= m < |d| && d[m].eventID == e.eventID
               && d[m].canonicalHash == LastHash(d, e.eventID).value
               && forall l :: m < l < |d| ==> d[l].eventID != e.eventID;
      assert m == i;
    }
  }

  /** Without a repeated id nothing is dropped. */
  lemma {:induction false} DedupeDistinct(rows: seq<Event>)
    requires !Duplicated(rows)
    ensures Deduped(rows) == rows
  {
    if rows != [] {
      var n := |rows| - 1;
      var before, e := rows[..n], rows[n];
      assert rows == before + [e];
      SnocDuplicates(before, e);
      DedupeDistinct(before);
      LastHashIsLast(before, e.eventID);
    }
  }

  /** The last kept row is a row after which everything is dropped. */
  lemma {:induction false} LastKept(rows: seq<Event>) returns (l: nat)
    requires rows != []
    ensures l < |rows| && Deduped(rows) != [] && Deduped(rows)[|Deduped(rows)|-1] == rows[l]
    ensures Deduped(rows[..l+1]) == Deduped(rows)
  {
    var n := |rows| - 1;
    if Repeats(rows[..n], rows[n]) {
      l := LastKept(rows[..n]);
      assert rows[..n][..l+1] == rows[..l+1];
    } else {
      l := n;
      assert rows[..n+1] == rows;
    }
  }

  /** What is kept of a beginning stays kept. */
  lemma {:induction false} DedupePrefix(rows: seq<Event>, n: nat)
    requires n <= |rows|
    ensures Deduped(rows[..n]) <= Deduped(rows)
  {
    if n == |rows| {
      assert rows[..n] == rows;
    } else {
      var init := rows[..|rows|-1];
      assert init[..n] == rows[..n];
      DedupePrefix(init, n);
    }
  }
}
