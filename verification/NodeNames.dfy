/** The migration that gives every active node its own name before the unique index is created. */
module NodeNames {
  import opened Text
  import opened Sorting

  // ----- the table -----

  datatype Node = Node(id: nat, name: string, deleted: bool, heartbeat: Option<int>, created: int)

  /** A scan of the table: rows by primary key. */
  predicate Table(rows: seq<Node>) {
    forall i, j :: 0 <= i < j < |rows| ==> rows[i].id < rows[j].id
  }

  predicate Holds(n: Node, name: string) {
    !n.deleted && n.name == name
  }

  function Matching(rows: seq<Node>, name: string): seq<Node> {
    if rows == [] then []
    else
      var before, n := Matching(rows[..|rows|-1], name), rows[|rows|-1];
      if Holds(n, name) then before + [n] else before
  }

  /** The names the active nodes hold. */
  function Names(rows: seq<Node>): set<string> {
    set n | n in rows && !n.deleted :: n.name
  }

  /** Latest heartbeat first, never seen last; then latest created; then smallest id. */
  predicate Before(a: Node, b: Node) {
    if a.heartbeat != b.heartbeat then
      a.heartbeat.Some? && (b.heartbeat.Some? ==> a.heartbeat.value > b.heartbeat.value)
    else if a.created != b.created then a.created > b.created
    else a.id <= b.id
  }

  function ByRecency(): (Node, Node) -> bool {
    (a, b) => Before(a, b)
  }

  /** The rows that hold a name, as the migration reads them. */
  function Group(rows: seq<Node>, name: string): seq<Node> {
    SortBy(Matching(rows, name), ByRecency())
  }

  function Duplicated(rows: seq<Node>): set<string> {
    set name | name in Names(rows) && |Matching(rows, name)| > 1
  }

  function Rename(rows: seq<Node>, id: nat, name: string): seq<Node> {
    seq(|rows|, i requires 0 <= i < |rows| => if rows[i].id == id then rows[i].(name := name) else rows[i])
  }

  /** The suffix-th name tried for a node: `name-dup-id`, then `name-dup-id-1`, `name-dup-id-2`, ... */
  function Candidate(name: string, id: nat, suffix: nat): string {
    var stem := name + "-dup-" + Decimal(id);
    if suffix == 0 then stem else stem + "-" + Decimal(suffix)
  }

  // ----- what the migration promises -----

  ghost predicate DistinctNames(rows: seq<Node>) {
    forall i, j :: 0 <= i < j < |rows| && !rows[i].deleted && !rows[j].deleted ==> rows[i].name != rows[j].name
  }

  /** The node of its name that stays: nobody else who holds the name comes before it. */
  ghost predicate Leads(rows: seq<Node>, n: Node) {
    n in rows && !n.deleted && forall m :: m in rows && Holds(m, n.name) ==> Before(n, m)
  }

  /** `late` is `early` with the nodes of `renamed` moved to names that nobody held and nobody shares. */
  ghost predicate Renamed(early: seq<Node>, late: seq<Node>, renamed: set<nat>) {
    && |late| == |early|
    && (forall i :: 0 <= i < |early| ==> RowAfter(early, early[i], late[i], renamed))
    && (forall i, j :: 0 <= i < j < |early| && early[i].id in renamed && early[j].id in renamed ==>
                         late[i].name != late[j].name)
  }

  ghost predicate RowAfter(early: seq<Node>, n: Node, m: Node, renamed: set<nat>) {
    if n.id !in renamed then m == n
    else
      && m == n.(name := m.name)
      && !n.deleted && !Leads(early, n)
      && m.name !in Names(early)
      && IsCandidate(n, m.name, |early|)
  }

  ghost predicate IsCandidate(n: Node, name: string, most: nat) {
    exists k :: 0 <= k <= most && name == Candidate(n.name, n.id, k)
  }

  // ----- reading a group -----

  lemma {:induction false} MatchingMembers(rows: seq<Node>, name: string, n: Node)
    ensures n in Matching(rows, name) <==> n in rows && Holds(n, name)
  {
    if rows != [] {
      assert rows == rows[..|rows|-1] + [rows[|rows|-1]];
      MatchingMembers(rows[..|rows|-1], name, n);
    }
  }

  lemma {:induction false} MatchingIsTable(rows: seq<Node>, name: string)
    requires Table(rows)
    ensures Table(Matching(rows, name))
  {
    if rows != [] {
      var before := rows[..|rows|-1];
      MatchingIsTable(before, name);
      forall n | n in Matching(before, name) ensures n.id < rows[|rows|-1].id {
        MatchingMembers(before, name, n);
        var k :| 0 <= k < |before| && before[k] == n;
        assert rows[k].id < rows[|rows|-1].id;
      }
    }
  }

  lemma {:induction false} MatchingLocal(a: seq<Node>, b: seq<Node>, name: string)
    requires |a| == |b|
    requires forall i :: 0 <= i < |a| ==> (Holds(a[i], name) || Holds(b[i], name) ==> a[i] == b[i])
    ensures Matching(a, name) == Matching(b, name)
  {
    if a != [] {
      MatchingLocal(a[..|a|-1], b[..|b|-1], name);
    }
  }

  lemma RecencyIsOrder()
    ensures Preorder(ByRecency())
  {
    var le := ByRecency();
    forall x, y ensures le(x, y) || le(y, x) {
    }
    forall x, y, z | le(x, y) && le(y, z) ensures le(x, z) {
    }
  }

  lemma {:induction false} TableCountsOnce(rows: seq<Node>, n: Node)
    requires Table(rows)
    ensures multiset(rows)[n] <= 1
  {
    if rows != [] {
      var before := rows[..|rows|-1];
      assert rows == before + [rows[|rows|-1]];
      TableCountsOnce(before, n);
      if n in before {
        assert n.id < rows[|rows|-1].id;
      }
    }
  }

  lemma RepeatsCountTwice(s: seq<Node>, i: nat, j: nat)
    requires i < j < |s| && s[i] == s[j]
    ensures multiset(s)[s[i]] >= 2
  {
    assert s == s[..j] + s[j..];
    assert s[i] in s[..j] && s[j] in s[j..] by {
      assert s[..j][i] == s[i] && s[j..][0] == s[j];
    }
    assert multiset(s[..j])[s[i]] >= 1 && multiset(s[j..])[s[i]] >= 1;
  }

  /** A group holds exactly the active rows of the name, once each, the one that leads first and no other leader. */
  lemma GroupShape(rows: seq<Node>, name: string)
    requires Table(rows)
    ensures var g := Group(rows, name);
            && (forall n :: n in g <==> n in rows && Holds(n, name))
            && (forall i, j :: 0 <= i < j < |g| ==> g[i].id != g[j].id)
            && (forall i :: 0 <= i < |g| ==> (Leads(rows, g[i]) <==> i == 0))
            && |g| == |Matching(rows, name)|
  {
    var found, g := Matching(rows, name), Group(rows, name);
    RecencyIsOrder();
    SortBySorts(found, ByRecency());
    assert |g| == |multiset(g)| && |found| == |multiset(found)|;
    forall n ensures n in g <==> n in rows && Holds(n, name) {
      MatchingMembers(rows, name, n);
      assert n in g <==> n in multiset(g);
      assert n in found <==> n in multiset(found);
    }
    forall i, j | 0 <= i < j < |g| ensures g[i].id != g[j].id {
      IdsDiffer(rows, name, i, j);
    }
    forall i | 0 <= i < |g| ensures Leads(rows, g[i]) <==> i == 0 {
      assert g[i] in g;
      LeadsFirst(rows, name, i);
    }
  }

  lemma IdsDiffer(rows: seq<Node>, name: string, i: nat, j: nat)
    requires Table(rows) && multiset(Group(rows, name)) == multiset(Matching(rows, name))
    requires i < j < |Group(rows, name)|
    ensures Group(rows, name)[i].id != Group(rows, name)[j].id
  {
    var found, g := Matching(rows, name), Group(rows, name);
    MatchingIsTable(rows, name);
    TableCountsOnce(found, g[i]);
    assert g[i] in multiset(g) && g[j] in multiset(g);
    assert g[i] in found && g[j] in found;
    if g[i] == g[j] {
      RepeatsCountTwice(g, i, j);
    }
  }

  lemma LeadsFirst(rows: seq<Node>, name: string, i: nat)
    requires Table(rows) && SortedBy(Group(rows, name), ByRecency()) && i < |Group(rows, name)|
    requires forall n :: n in Group(rows, name) <==> n in rows && Holds(n, name)
    requires forall i, j :: 0 <= i < j < |Group(rows, name)| ==> Group(rows, name)[i].id != Group(rows, name)[j].id
    ensures Leads(rows, Group(rows, name)[i]) <==> i == 0
  {
    var g := Group(rows, name);
    hide Group, Table;
    assert g[i] in g && g[0] in g;
    if i == 0 {
      forall m | m in rows && Holds(m, name) ensures Before(g[0], m) {
        assert m in g;
        var k :| 0 <= k < |g| && g[k] == m;
        assert k > 0 ==> ByRecency()(g[0], g[k]);
      }
    } else {
      assert ByRecency()(g[0], g[i]) && g[0].id != g[i].id;
      assert !Before(g[i], g[0]);
    }
  }

  // ----- a rename -----

  /** While only nodes that do not lead have moved, every name of the beginning is still held. */
  lemma NamesStayHeld(early: seq<Node>, late: seq<Node>, renamed: set<nat>)
    requires Table(early) && Renamed(early, late, renamed)
    ensures Names(early) <= Names(late)
  {
    forall name | name in Names(early) ensures name in Names(late) {
      GroupShape(early, name);
      var n :| n in early && !n.deleted && n.name == name;
      assert n in Group(early, name);
      var head := Group(early, name)[0];
      assert head in Group(early, name) && Leads(early, head);
      var i :| 0 <= i < |early| && early[i] == head;
      assert RowAfter(early, early[i], late[i], renamed);
      assert late[i] in late;
    }
  }

  lemma RenamesKeepTable(early: seq<Node>, late: seq<Node>, renamed: set<nat>)
    requires Table(early) && Renamed(early, late, renamed)
    ensures Table(late)
    ensures |Names(late)| <= |early|
  {
    hide Names, Leads, IsCandidate;
    forall i | 0 <= i < |early| ensures late[i].id == early[i].id {
      assert RowAfter(early, early[i], late[i], renamed);
    }
    NamesAtMostRows(late);
  }

  lemma {:induction false} NamesAtMostRows(rows: seq<Node>)
    ensures |Names(rows)| <= |rows|
  {
    if rows != [] {
      var before, n := rows[..|rows|-1], rows[|rows|-1];
      assert rows == before + [n];
      NamesAtMostRows(before);
      assert Names(rows) == Names(before) + (if n.deleted then {} else {n.name});
    } else {
      assert Names(rows) == {};
    }
  }

  lemma RowsAfterRename(early: seq<Node>, late: seq<Node>, renamed: set<nat>, p: nat, name: string)
    requires Table(early) && Renamed(early, late, renamed) && p < |early|
    requires RowAfter(early, early[p], early[p].(name := name), renamed + {early[p].id})
    requires early[p].id !in renamed
    ensures var next := Rename(late, early[p].id, name);
            forall i :: 0 <= i < |early| ==> RowAfter(early, early[i], next[i], renamed + {early[p].id})
  {
    hide Names, IsCandidate, Leads;
    var next := Rename(late, early[p].id, name);
    forall i | 0 <= i < |early| ensures RowAfter(early, early[i], next[i], renamed + {early[p].id}) {
      assert RowAfter(early, early[i], late[i], renamed);
      assert i != p ==> early[i].id != early[p].id;
    }
  }

  lemma NamesApartAfterRename(early: seq<Node>, late: seq<Node>, renamed: set<nat>, p: nat, name: string)
    requires Table(early) && Renamed(early, late, renamed) && p < |early| && name !in Names(late)
    requires early[p].id !in renamed
    ensures var next, now := Rename(late, early[p].id, name), renamed + {early[p].id};
            forall i, j :: 0 <= i < j < |early| && early[i].id in now && early[j].id in now ==>
                             next[i].name != next[j].name
  {
    var next, now := Rename(late, early[p].id, name), renamed + {early[p].id};
    forall i | 0 <= i < |early| && early[i].id in now
      ensures i == p ==> next[i].name == name
      ensures i != p ==> early[i].id in renamed && next[i] == late[i] && late[i].name != name
    {
      hide IsCandidate, Leads;
      assert RowAfter(early, early[i], late[i], renamed);
      assert i != p ==> early[i].id != early[p].id;
      assert late[i] in late;
    }
  }

  lemma RenameOneMore(early: seq<Node>, late: seq<Node>, renamed: set<nat>, n: Node, name: string, k: nat)
    requires Table(early) && Renamed(early, late, renamed)
    requires n in early && !n.deleted && !Leads(early, n) && n.id !in renamed
    requires name !in Names(late) && k <= |Names(late)| && name == Candidate(n.name, n.id, k)
    ensures Renamed(early, Rename(late, n.id, name), renamed + {n.id})
  {
    hide Candidate, Leads;
    NamesStayHeld(early, late, renamed);
    RenamesKeepTable(early, late, renamed);
    assert IsCandidate(n, name, |early|);
    var p :| 0 <= p < |early| && early[p] == n;
    RowsAfterRename(early, late, renamed, p, name);
    NamesApartAfterRename(early, late, renamed, p, name);
    hide Names, IsCandidate, Table, RowAfter;
  }

  /** The rows of a name are still as they were when none of them has moved. */
  lemma GroupUntouched(early: seq<Node>, late: seq<Node>, renamed: set<nat>, name: string)
    requires Table(early) && Renamed(early, late, renamed) && name in Names(early)
    requires forall n :: n in early && Holds(n, name) ==> n.id !in renamed
    ensures Matching(late, name) == Matching(early, name)
  {
    forall i | 0 <= i < |early| ensures Holds(early[i], name) || Holds(late[i], name) ==> early[i] == late[i] {
      hide IsCandidate, Leads, Names;
      assert early[i] in early;
      assert RowAfter(early, early[i], late[i], renamed);
    }
    MatchingLocal(early, late, name);
  }

  // ----- the names tried -----

  lemma CandidatesDiffer(name: string, id: nat, a: nat, b: nat)
    requires a < b
    ensures Candidate(name, id, a) != Candidate(name, id, b)
  {
    var stem := name + "-dup-" + Decimal(id);
    var s, t := Candidate(name, id, a), Candidate(name, id, b);
    if a == 0 {
      assert |s| < |t|;
    } else if s == t {
      assert s[|stem| + 1..] == Decimal(a) && t[|stem| + 1..] == Decimal(b);
      DecimalInjective(a, b);
    }
  }

  lemma {:induction false} CandidatesCount(name: string, id: nat, k: nat, taken: set<string>)
    requires forall j :: 0 <= j < k ==> Candidate(name, id, j) in taken
    ensures k <= |taken|
  {
    if k > 0 {
      var last := Candidate(name, id, k - 1);
      forall j | 0 <= j < k - 1 ensures Candidate(name, id, j) in taken - {last} {
        CandidatesDiffer(name, id, j, k - 1);
      }
      CandidatesCount(name, id, k - 1, taken - {last});
    }
  }

  lemma NothingMatches(rows: seq<Node>, name: string)
    ensures Matching(rows, name) == [] <==> name !in Names(rows)
  {
    if Matching(rows, name) != [] {
      MatchingMembers(rows, name, Matching(rows, name)[0]);
    }
    forall n | n in rows && Holds(n, name) ensures Matching(rows, name) != [] {
      MatchingMembers(rows, name, n);
    }
  }

  /** The search for a free name ends within one try more than there are active names, at the first free one. */
  method NextName(rows: seq<Node>, name: string, id: nat) returns (free: string, ghost suffix: nat)
    ensures suffix <= |Names(rows)| && free == Candidate(name, id, suffix)
    ensures free == name + "-dup-" + Decimal(id) + (if suffix == 0 then "" else "-" + Decimal(suffix))
    ensures free !in Names(rows)
    ensures forall j :: 0 <= j < suffix ==> Candidate(name, id, j) in Names(rows)
  {
    var s := 0;
    while true
      invariant 0 <= s <= |Names(rows)|
      invariant forall j :: 0 <= j < s ==> Candidate(name, id, j) in Names(rows)
      decreases |Names(rows)| + 1 - s
    {
      free := Candidate(name, id, s);
      NothingMatches(rows, free);
      if |Matching(rows, free)| == 0 {
        suffix := s;
        return;
      }
      s := s + 1;
      CandidatesCount(name, id, s, Names(rows));
    }
  }

  // ----- the migration -----

  /** The ids of the nodes that must give up their name, among the names of `done`. */
  ghost function Losers(rows: seq<Node>, done: set<string>): set<nat> {
    set n | n in rows && !n.deleted && n.name in done && !Leads(rows, n) :: n.id
  }

  /** The row is active before and still has its name. */
  predicate Keeper(early: seq<Node>, late: seq<Node>, i: int) {
    0 <= i < |early| == |late| && !early[i].deleted && late[i].name == early[i].name
  }

  /** The row is active and has the name. */
  predicate Holder(rows: seq<Node>, name: string, j: int) {
    0 <= j < |rows| && !rows[j].deleted && rows[j].name == name
  }

  /** n was seen no earlier than m; seen alike, it was created no earlier; created alike, its id is not greater. */
  predicate SeenSince(m: Node, n: Node) {
    && (m.heartbeat.Some? ==> n.heartbeat.Some? && m.heartbeat.value <= n.heartbeat.value)
    && (m.heartbeat == n.heartbeat ==> m.created <= n.created)
    && (m.heartbeat == n.heartbeat && m.created == n.created ==> n.id <= m.id)
  }

  class Nodes {
    var rows: seq<Node>

    /**
     * Afterwards no two active nodes share a name. The node of each name that was seen last keeps it, every other
     * one gets a fresh name made from its own name and id, and nothing else in the table changes.
     */
    method DedupeActiveNames()
      requires Table(rows)
      modifies this
      ensures Table(rows) && DistinctNames(rows)
      ensures Renamed(old(rows), rows, Losers(old(rows), Names(old(rows))))
      ensures forall i, j :: Keeper(old(rows), rows, i) && Holder(old(rows), old(rows)[i].name, j) ==>
                var n, m := old(rows)[i], old(rows)[j];
                && (m.heartbeat.Some? ==> n.heartbeat.Some? && m.heartbeat.value <= n.heartbeat.value)
                && (m.heartbeat == n.heartbeat ==> m.created <= n.created)
                && (m.heartbeat == n.heartbeat && m.created == n.created ==> n.id <= m.id)
      ensures forall j :: 0 <= j < |old(rows)| && !old(rows)[j].deleted ==>
                exists i :: Keeper(old(rows), rows, i) && old(rows)[i].name == old(rows)[j].name
    {
      hide Table, Renamed, Losers, DistinctNames, Names;
      ghost var start := rows;
      var pending := Duplicated(rows);
      ghost var done: set<string> := {};
      ghost var renamed: set<nat> := {};
      NothingMoved(start);
      while pending != {}
        invariant pending !! done && pending + done == Duplicated(start)
        invariant renamed == Losers(start, done) && Renamed(start, rows, renamed)
        decreases |pending|
      {
        var name :| name in pending;
        Untouched(start, done, name);
        renamed := DedupeName(name, start, renamed);
        LosersAdd(start, done, name);
        pending, done := pending - {name}, done + {name};
      }
      OnlyDuplicatesLose(start);
      RenamesKeepTable(start, rows, renamed);
      LosersGone(start, rows);
      forall i, j | Keeper(start, rows, i) && Holder(start, start[i].name, j)
        ensures SeenSince(start[j], start[i])
      {
        KeeperSeenLast(start, rows, i, j);
      }
      forall j | 0 <= j < |start| && !start[j].deleted
        ensures exists i :: Keeper(start, rows, i) && start[i].name == start[j].name
      {
        var i := KeeperExists(start, rows, j);
      }
    }

    /** One name: the first of its group keeps it, the others are renamed one after another. */
    method DedupeName(name: string, ghost start: seq<Node>, ghost before: set<nat>) returns (ghost renamed: set<nat>)
      requires Table(start) && Renamed(start, rows, before) && name in Names(start)
      requires forall n :: n in start && Holds(n, name) ==> n.id !in before
      modifies this
      ensures Renamed(start, rows, renamed)
      ensures renamed == before + Losers(start, {name})
    {
      hide Table, Renamed, Losers, Leads, Names, Candidate, Rename, Matching, SortBy;
      GroupUntouched(start, rows, before, name);
      GroupShape(start, name);
      var nodes := Group(rows, name);
      renamed := before;
      for i := 0 to |nodes|
        invariant Renamed(start, rows, renamed)
        invariant renamed == before + set k | 1 <= k < i :: nodes[k].id
      {
        if i == 0 { continue; }
        var n := nodes[i];
        assert n in nodes;
        var free, k := NextName(rows, n.name, n.id);
        RenameOneMore(start, rows, renamed, n, free, k);
        rows := Rename(rows, n.id, free);
        renamed := renamed + {n.id};
      }
      LosersOfName(start, name);
    }
  }

  lemma NothingMoved(rows: seq<Node>)
    ensures Losers(rows, {}) == {} && Renamed(rows, rows, {})
  {
  }

  lemma LosersOfName(rows: seq<Node>, name: string)
    requires Table(rows)
    ensures Losers(rows, {name}) == set k | 1 <= k < |Group(rows, name)| :: Group(rows, name)[k].id
  {
    GroupShape(rows, name);
    var g := Group(rows, name);
    hide Group, Leads;
    forall n | n in rows && Holds(n, name) && !Leads(rows, n) ensures exists k :: 1 <= k < |g| && g[k].id == n.id {
      assert n in g;
      var k :| 0 <= k < |g| && g[k] == n;
      assert k > 0;
    }
    forall k | 1 <= k < |g| ensures g[k].id in Losers(rows, {name}) {
      assert g[k] in g;
    }
  }

  lemma LosersAdd(rows: seq<Node>, done: set<string>, name: string)
    ensures Losers(rows, done + {name}) == Losers(rows, done) + Losers(rows, {name})
  {
  }

  lemma Untouched(rows: seq<Node>, done: set<string>, name: string)
    requires Table(rows) && name !in done
    ensures forall n :: n in rows && Holds(n, name) ==> n.id !in Losers(rows, done)
  {
    hide Leads;
    forall n, m | n in rows && m in rows && n.id == m.id ensures n == m {
      var i, j :| 0 <= i < |rows| && 0 <= j < |rows| && rows[i] == n && rows[j] == m;
    }
  }

  /** A name that one active node holds is nobody's to give up. */
  lemma OnlyDuplicatesLose(rows: seq<Node>)
    requires Table(rows)
    ensures Losers(rows, Duplicated(rows)) == Losers(rows, Names(rows))
  {
    forall n | n in rows && !n.deleted && !Leads(rows, n) ensures n.name in Duplicated(rows) {
      GroupShape(rows, n.name);
      var g := Group(rows, n.name);
      hide Leads, Group, Matching;
      assert n in g;
      var k :| 0 <= k < |g| && g[k] == n;
      assert k > 0;
    }
  }

  lemma LosersGone(early: seq<Node>, late: seq<Node>)
    requires Table(early) && Renamed(early, late, Losers(early, Names(early)))
    ensures DistinctNames(late)
  {
    var losers := Losers(early, Names(early));
    forall i, j | 0 <= i < j < |late| && !late[i].deleted && !late[j].deleted ensures late[i].name != late[j].name {
      hide IsCandidate, Losers;
      assert RowAfter(early, early[i], late[i], losers) && RowAfter(early, early[j], late[j], losers);
      assert early[i] in early && early[j] in early;
      if early[i].id !in losers && early[j].id !in losers {
        StayersLead(early, early[i]);
        StayersLead(early, early[j]);
        LeadersDiffer(early, early[i], early[j]);
      }
    }
  }

  lemma LeadersDiffer(rows: seq<Node>, n: Node, m: Node)
    requires Leads(rows, n) && Leads(rows, m) && n.id < m.id
    ensures n.name != m.name
  {
  }

  lemma StayersLead(rows: seq<Node>, n: Node)
    requires n in rows && !n.deleted && n.id !in Losers(rows, Names(rows))
    ensures Leads(rows, n)
  {
    hide Leads;
  }

  /** What the promise means for a single row: it moved if and only if it was active and did not lead its name. */
  lemma WhoKeepsItsName(early: seq<Node>, late: seq<Node>, i: nat)
    requires Table(early) && Renamed(early, late, Losers(early, Names(early))) && i < |early|
    ensures late[i] == early[i].(name := late[i].name)
    ensures late[i].name == early[i].name <==> early[i].deleted || Leads(early, early[i])
    ensures late[i].name != early[i].name ==> late[i].name !in Names(early)
  {
    var n, losers := early[i], Losers(early, Names(early));
    assert RowAfter(early, n, late[i], losers);
    assert n in early;
    if n.id in losers {
      assert n.name in Names(early);
    } else if !n.deleted {
      StayersLead(early, n);
    }
  }

  /** The node that keeps a name was seen last of those that held it. */
  lemma KeeperSeenLast(early: seq<Node>, late: seq<Node>, i: nat, j: nat)
    requires Table(early) && Renamed(early, late, Losers(early, Names(early)))
    requires Keeper(early, late, i) && Holder(early, early[i].name, j)
    ensures SeenSince(early[j], early[i])
  {
    WhoKeepsItsName(early, late, i);
    assert early[j] in early && Holds(early[j], early[i].name);
  }

  /** Some node keeps each name. */
  lemma KeeperExists(early: seq<Node>, late: seq<Node>, j: nat) returns (i: nat)
    requires Table(early) && Renamed(early, late, Losers(early, Names(early)))
    requires j < |early| && !early[j].deleted
    ensures Keeper(early, late, i) && early[i].name == early[j].name
  {
    var g := Group(early, early[j].name);
    GroupShape(early, early[j].name);
    hide Leads, Group, Matching;
    assert early[j] in early;
    assert early[j] in g && g[0] in g;
    i :| 0 <= i < |early| && early[i] == g[0];
    WhoKeepsItsName(early, late, i);
  }

  /** A table whose active names already differ is left as it is. */
  lemma SecondRunChangesNothing(early: seq<Node>, late: seq<Node>)
    requires Table(early) && DistinctNames(early) && Renamed(early, late, Losers(early, Names(early)))
    ensures late == early
  {
    forall i | 0 <= i < |early| ensures late[i] == early[i] {
      forall m | m in early && Holds(m, early[i].name) && !early[i].deleted ensures Before(early[i], m) {
        var j :| 0 <= j < |early| && early[j] == m;
        assert i == j;
      }
      WhoKeepsItsName(early, late, i);
    }
  }
}
