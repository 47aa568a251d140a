/** Heartbeat reconciliation: what a beat and a reconcile pass do to the instance table and the grace counts. */
module Heartbeat {
  import opened Text

  datatype Status = Running | Starting | Stopping | Stopped | Crashed | Damaged | OtherStatus(text: string)

  /** One row of the instance table; source "worker" marks a reason the heartbeat wrote itself. */
  datatype Row = Row(node: string, status: Status, reason: string, source: string)

  /** One instance as a worker reports it. */
  datatype Report = Report(uuid: string, state: Status, health: string, reason: string)

  const HEALTHY := "healthy"
  const CIRCUIT_BROKEN := "circuit_broken"
  const FROM_WORKER := "worker"
  const GRACE_BEATS: nat := 3
  const STILL_RUNNING := "evidence shows the instance still running"
  const NO_EVIDENCE := "evidence unavailable, within grace"

  type Table = map<string, Row>

  predicate RunningClass(s: Status) {
    s == Running || s == Starting || s == Stopping
  }

  // ----- one report -----

  /** A stopped or crashed report says nothing against DAMAGED. */
  predicate Guarded(r: Report, row: Row) {
    (r.state == Stopped || r.state == Crashed) && row.status == Damaged
  }

  function StatusWrite(r: Report, row: Row): Row {
    if Guarded(r, row) then row else row.(status := r.state)
  }

  /** Written after the status, with conditions of its own. */
  function ReasonWrite(r: Report, row: Row): Row {
    if Guarded(r, row) then row
    else if r.reason == "" then
      if r.state == Running && r.health == HEALTHY && row.source == FROM_WORKER then row.(reason := "", source := "")
      else row
    else if r.health != CIRCUIT_BROKEN && r.state == Crashed && row.reason != "" then row
    else row.(reason := r.reason, source := FROM_WORKER)
  }

  function Reported(r: Report, row: Row): Row {
    ReasonWrite(r, StatusWrite(r, row))
  }

  function SyncAll(db: Table, reports: seq<Report>): (t: Table)
    ensures t.Keys == db.Keys
  {
    if reports == [] then db
    else
      var before, r := SyncAll(db, reports[..|reports|-1]), reports[|reports|-1];
      if r.uuid in before then before[r.uuid := Reported(r, before[r.uuid])] else before
  }

  predicate Lists(reports: seq<Report>, uuid: string) {
    exists i :: 0 <= i < |reports| && reports[i].uuid == uuid
  }

  lemma {:induction false} UnlistedUntouched(db: Table, reports: seq<Report>, uuid: string)
    requires uuid in db && !Lists(reports, uuid)
    ensures SyncAll(db, reports)[uuid] == db[uuid]
  {
    if reports != [] {
      var n := |reports| - 1;
      assert reports[n].uuid != uuid;
      assert !Lists(reports[..n], uuid) by {
        assert forall i :: 0 <= i < n ==> reports[..n][i] == reports[i];
      }
      UnlistedUntouched(db, reports[..n], uuid);
    }
  }

  /** The reports of one instance, in the order of the beat. */
  function Own(reports: seq<Report>, uuid: string): seq<Report> {
    if reports == [] then []
    else
      var before, r := Own(reports[..|reports|-1], uuid), reports[|reports|-1];
      if r.uuid == uuid then before + [r] else before
  }

  function ReportedAll(row: Row, own: seq<Report>): Row {
    if own == [] then row else Reported(own[|own|-1], ReportedAll(row, own[..|own|-1]))
  }

  /** The last status that says something against DAMAGED, or the one at the start. */
  function Telling(start: Status, own: seq<Report>): Status {
    if own == [] then start
    else
      var r := own[|own|-1];
      if r.state == Stopped || r.state == Crashed then Telling(start, own[..|own|-1]) else r.state
  }

  lemma {:induction false} OwnReportsCount(db: Table, reports: seq<Report>, uuid: string)
    requires uuid in db
    ensures SyncAll(db, reports)[uuid] == ReportedAll(db[uuid], Own(reports, uuid))
    ensures Own(reports, uuid) != [] <==> Lists(reports, uuid)
  {
    hide Reported;
    if reports != [] {
      var n := |reports| - 1;
      OwnReportsCount(db, reports[..n], uuid);
      assert Lists(reports, uuid) <==> Lists(reports[..n], uuid) || reports[n].uuid == uuid by {
        assert forall i :: 0 <= i < n ==> reports[..n][i] == reports[i];
      }
    }
  }

  lemma {:induction false} LastReportRules(row: Row, own: seq<Report>)
    ensures Telling(row.status, own) == Damaged <==> ReportedAll(row, own).status == Damaged
    ensures own != [] ==>
              var last := own[|own|-1];
              ReportedAll(row, own).status ==
              if (last.state == Stopped || last.state == Crashed) && Telling(row.status, own) == Damaged then Damaged
              else last.state
  {
    if own != [] {
      LastReportRules(row, own[..|own|-1]);
    }
  }

  /**
   * A listed instance ends the beat with the status it was reported with last, whatever happens to its reason and to
   * other instances. Only DAMAGED outlives a stopped or crashed report: when nothing else was reported since it was
   * there, or since a report brought it.
   */
  lemma ListedEndsAsReported(db: Table, reports: seq<Report>, uuid: string)
    requires uuid in db && Lists(reports, uuid)
    ensures Own(reports, uuid) != []
    ensures var own := Own(reports, uuid);
            var last := own[|own|-1];
            SyncAll(db, reports)[uuid].status ==
            if (last.state == Stopped || last.state == Crashed) && Telling(db[uuid].status, own) == Damaged then Damaged
            else last.state
    ensures SyncAll(db, reports)[uuid] == ReportedAll(db[uuid], Own(reports, uuid))
  {
    OwnReportsCount(db, reports, uuid);
    LastReportRules(db[uuid], Own(reports, uuid));
  }

  predicate StoppedOrCrashed(reports: seq<Report>, uuid: string) {
    forall i :: 0 <= i < |reports| && reports[i].uuid == uuid ==>
                  reports[i].state == Stopped || reports[i].state == Crashed
  }

  /** DAMAGED outlives any number of stopped and crashed reports. */
  lemma {:induction false} DamagedSurvives(db: Table, reports: seq<Report>, uuid: string)
    requires uuid in db && db[uuid].status == Damaged
    requires StoppedOrCrashed(reports, uuid)
    ensures SyncAll(db, reports)[uuid] == db[uuid]
  {
    if reports != [] {
      var n := |reports| - 1;
      assert forall j :: 0 <= j < n ==> reports[..n][j] == reports[j];
      DamagedSurvives(db, reports[..n], uuid);
    }
  }

  /**
   * A non-empty reason of the control plane survives exactly the reports that carry none, that tell of a crash in
   * general terms, or that say nothing against DAMAGED.
   */
  lemma OwnReasonKept(r: Report, row: Row)
    requires row.source != "worker" && row.reason != ""
    ensures Reported(r, row).reason == row.reason && Reported(r, row).source == row.source <==>
            || r.reason == ""
            || (r.state == Crashed && r.health != "circuit_broken")
            || ((r.state == Stopped || r.state == Crashed) && row.status == Damaged)
  {
  }

  /** A reason of the heartbeat's own goes exactly with a healthy running report; no report takes it over silently. */
  lemma WorkerReasonCleared(r: Report, row: Row)
    requires row.source == "worker" && row.reason != ""
    ensures Reported(r, row).reason == "" <==> r.reason == "" && r.state == Running && r.health == "healthy"
    ensures Reported(r, row).reason == "" ==> Reported(r, row).source == ""
    ensures Reported(r, row).reason != "" ==>
              Reported(r, row).source == "worker" && Reported(r, row).reason in {row.reason, r.reason}
  {
  }

  /** A reported reason is written, as the heartbeat's, wherever nothing stands against it. */
  lemma ReasonReported(r: Report, row: Row)
    requires r.reason != "" && !((r.state == Stopped || r.state == Crashed) && row.status == Damaged)
    requires r.state == Crashed && r.health != "circuit_broken" ==> row.reason == ""
    ensures Reported(r, row).reason == r.reason && Reported(r, row).source == "worker"
  {
  }

  // ----- one reconcile pass -----

  /** What the evidence says of one missing instance. */
  datatype Verdict = IsRunning | NotRunning | Unknown

  function VerdictOf(evidence: Option<map<string, bool>>, uuid: string): Verdict {
    if evidence.None? || uuid !in evidence.value then Unknown
    else if evidence.value[uuid] then IsRunning else NotRunning
  }

  /** setStopped: the status always, the reason only when the heartbeat wrote it. */
  function StoppedRow(row: Row): Row {
    if row.source == FROM_WORKER then row.(status := Stopped, reason := "", source := "") else row.(status := Stopped)
  }

  type Grace = map<string, nat>

  function Count(g: Grace, uuid: string): nat {
    if uuid in g then g[uuid] else 0
  }

  /** The instance table and the grace counts. */
  datatype Book = Book(db: Table, grace: Grace)

  predicate Stops(b: Book, uuid: string, v: Verdict) {
    v == NotRunning || (v == Unknown && Count(b.grace, uuid) + 1 >= GRACE_BEATS)
  }

  function SettleOne(b: Book, uuid: string, v: Verdict): (r: Book)
    ensures r.db.Keys == b.db.Keys
  {
    var touch := (row: Row) =>
      if Stops(b, uuid, v) then StoppedRow(row)
      else row.(reason := if v == IsRunning then STILL_RUNNING else NO_EVIDENCE, source := FROM_WORKER);
    Book(if uuid in b.db then b.db[uuid := touch(b.db[uuid])] else b.db,
         if v == Unknown && !Stops(b, uuid, v) then b.grace[uuid := Count(b.grace, uuid) + 1] else b.grace - {uuid})
  }

  /** A stop empties a reason of the heartbeat's own and leaves any other one alone. */
  lemma StopKeepsOwnReason(b: Book, uuid: string, v: Verdict)
    requires uuid in b.db && Stops(b, uuid, v)
    ensures var row := SettleOne(b, uuid, v).db[uuid];
            && row.status == Stopped && row.node == b.db[uuid].node
            && (if b.db[uuid].source == "worker" then row.reason == "" && row.source == ""
                else row.reason == b.db[uuid].reason && row.source == b.db[uuid].source)
  {
  }

  /** An instance that is not stopped keeps its status and is told why. */
  lemma KeptIsToldWhy(b: Book, uuid: string, v: Verdict)
    requires uuid in b.db && !Stops(b, uuid, v)
    ensures var row := SettleOne(b, uuid, v).db[uuid];
            row.status == b.db[uuid].status && row.node == b.db[uuid].node && row.source == "worker" && row.reason != ""
  {
  }

  function ClearAll(g: Grace, reports: seq<Report>): Grace {
    if reports == [] then g else ClearAll(g, reports[..|reports|-1]) - {reports[|reports|-1].uuid}
  }

  lemma {:induction false} ClearedCounts(g: Grace, reports: seq<Report>, uuid: string)
    ensures uuid in ClearAll(g, reports) <==> uuid in g && !Lists(reports, uuid)
    ensures uuid in ClearAll(g, reports) ==> ClearAll(g, reports)[uuid] == g[uuid]
  {
    if reports != [] {
      var n := |reports| - 1;
      ClearedCounts(g, reports[..n], uuid);
      if Lists(reports[..n], uuid) {
        var i :| 0 <= i < n && reports[..n][i].uuid == uuid;
        assert reports[i].uuid == uuid;
      }
      if Lists(reports, uuid) && reports[n].uuid != uuid {
        var i :| 0 <= i < |reports| && reports[i].uuid == uuid;
        assert reports[..n][i].uuid == uuid;
      }
    }
  }

  // ----- all runs of beats -----

  /**
   * The atomic events: a beat, a reconcile task starting on a node and reading what is missing, one missing
   * instance being settled, the task ending, and the control plane writing a row on its own account.
   */
  datatype Event =
    | Beat(reports: seq<Report>)
    | StartTask(node: string, reported: set<string>)
    | Settle(node: string, uuid: string, verdict: Verdict)
    | EndTask(node: string)
    | OwnWrite(uuid: string, row: Row)

  /** tasks: for each node with a task in flight, the missing instances it has still to settle. */
  datatype World = World(book: Book, tasks: map<string, set<string>>)

  predicate Missing(db: Table, node: string, reported: set<string>, uuid: string) {
    uuid in db && db[uuid].node == node && RunningClass(db[uuid].status) && uuid !in reported
  }

  predicate Enabled(w: World, e: Event) {
    match e
    case Beat(_) => true
    case StartTask(_, _) => true
    case Settle(node, uuid, _) => node in w.tasks && uuid in w.tasks[node]
    case EndTask(node) => node in w.tasks && w.tasks[node] == {}
    case OwnWrite(uuid, row) => true
  }

  function Apply(w: World, e: Event): World
    requires Enabled(w, e)
  {
    match e
    case Beat(reports) => w.(book := Book(SyncAll(w.book.db, reports), ClearAll(w.book.grace, reports)))
    case StartTask(node, reported) =>
      // one task per node: a dispatch while one is in flight is dropped
      if node in w.tasks then w
      else w.(tasks := w.tasks[node := set u | u in w.book.db && Missing(w.book.db, node, reported, u)])
    case Settle(node, uuid, v) =>
      World(SettleOne(w.book, uuid, v), w.tasks[node := w.tasks[node] - {uuid}])
    case EndTask(node) => w.(tasks := w.tasks - {node})
    case OwnWrite(uuid, row) => w.(book := w.book.(db := w.book.db[uuid := row]))
  }

  /** What one instance went through, as far as its grace count cares. */
  datatype Mark = Listed | Definite | NoAnswer

  function MarkOf(e: Event, uuid: string): seq<Mark> {
    match e
    case Beat(reports) => if Lists(reports, uuid) then [Listed] else []
    case Settle(_, u, v) => if u != uuid then [] else [if v == Unknown then NoAnswer else Definite]
    case _ => []
  }

  function Marks(trace: seq<Event>, uuid: string): seq<Mark> {
    if trace == [] then [] else Marks(trace[..|trace|-1], uuid) + MarkOf(trace[|trace|-1], uuid)
  }

  /** How many passes in a row went without an answer, up to now. */
  function Unanswered(marks: seq<Mark>): nat {
    if marks == [] || marks[|marks|-1] != NoAnswer then 0 else 1 + Unanswered(marks[..|marks|-1])
  }

  /** Where a run of events leads, if every one of them is possible when it comes. */
  function RunTo(start: World, trace: seq<Event>): Option<World> {
    if trace == [] then Some(start)
    else
      match RunTo(start, trace[..|trace|-1])
      case None => None
      case Some(mid) => if Enabled(mid, trace[|trace|-1]) then Some(Apply(mid, trace[|trace|-1])) else None
  }

  predicate Runs(start: World, trace: seq<Event>, end: World) {
    RunTo(start, trace) == Some(end)
  }

  /** The stored count is the unanswered passes since the last listing or definite answer, counted by threes. */
  predicate GraceTells(g: Grace, uuid: string, marks: seq<Mark>) {
    && Count(g, uuid) == Unanswered(marks) % GRACE_BEATS
    && (uuid in g ==> 1 <= g[uuid] <= 2)
  }

  lemma GraceStep(w: World, e: Event, uuid: string, marks: seq<Mark>)
    requires Enabled(w, e) && GraceTells(w.book.grace, uuid, marks)
    ensures GraceTells(Apply(w, e).book.grace, uuid, marks + MarkOf(e, uuid))
  {
    hide Missing, SyncAll, RunningClass;
    match e
    case Beat(reports) =>
      ClearedCounts(w.book.grace, reports, uuid);
      if !Lists(reports, uuid) { assert marks + [] == marks; }
    case Settle(_, u, v) =>
      if u != uuid {
        assert marks + [] == marks;
      } else {
        assert (marks + MarkOf(e, uuid))[..|marks|] == marks;
      }
    case _ =>
      assert marks + [] == marks;
  }

  lemma {:induction false} GraceCountsPasses(start: World, trace: seq<Event>, end: World, uuid: string)
    requires start.book.grace == map[] && Runs(start, trace, end)
    ensures GraceTells(end.book.grace, uuid, Marks(trace, uuid))
  {
    hide Enabled, Apply, MarkOf, GraceTells;
    if trace == [] {
      NoGraceYet(uuid);
    } else {
      var n := |trace| - 1;
      var mid := RunTo(start, trace[..n]).value;
      GraceCountsPasses(start, trace[..n], mid, uuid);
      GraceStep(mid, trace[n], uuid, Marks(trace[..n], uuid));
    }
  }

  lemma NoGraceYet(uuid: string)
    ensures GraceTells(map[], uuid, [])
  {
  }

  /**
   * When a missing instance is stopped: exactly on definite evidence that it does not run, or on the third pass
   * in a row without an answer, with no listing and no definite answer in between.
   */
  lemma StopsExactly(start: World, trace: seq<Event>, w: World, node: string, uuid: string, v: Verdict)
    requires start.book.grace == map[] && Runs(start, trace, w)
    requires Enabled(w, Settle(node, uuid, v)) && uuid in w.book.db
    ensures var after := Apply(w, Settle(node, uuid, v)).book.db[uuid].status;
            var third := v == Unknown && Unanswered(Marks(trace, uuid) + [NoAnswer]) % GRACE_BEATS == 0;
            after == if v == NotRunning || third then Stopped else w.book.db[uuid].status
  {
    hide Runs, Marks;
    GraceCountsPasses(start, trace, w, uuid);
    OneMore(Marks(trace, uuid));
  }

  lemma OneMore(marks: seq<Mark>)
    ensures Unanswered(marks) % GRACE_BEATS + 1 >= GRACE_BEATS <==> Unanswered(marks + [NoAnswer]) % GRACE_BEATS == 0
  {
    assert (marks + [NoAnswer])[..|marks|] == marks;
    assert Unanswered(marks + [NoAnswer]) == 1 + Unanswered(marks);
  }

  /** Nothing but a report, a settling of the instance itself or the control plane changes a status. */
  lemma StatusChangesOnlyBy(w: World, e: Event, uuid: string)
    requires Enabled(w, e) && uuid in w.book.db
    ensures uuid in Apply(w, e).book.db
    ensures Apply(w, e).book.db[uuid].status != w.book.db[uuid].status ==>
              || (e.Beat? && Lists(e.reports, uuid))
              || (e.Settle? && e.uuid == uuid && Apply(w, e).book.db[uuid].status == Stopped)
              || (e.OwnWrite? && e.uuid == uuid)
  {
    if e.Beat? && !Lists(e.reports, uuid) {
      UnlistedUntouched(w.book.db, e.reports, uuid);
    }
  }

  /** Some task in flight has the instance still to settle. */
  ghost predicate InFlight(w: World, uuid: string) {
    exists node :: node in w.tasks && uuid in w.tasks[node]
  }

  /**
   * What a task holds it has held since it started: then no other task ran on the node, and the instance was missing
   * there. Since then the task has neither ended nor settled it, so a node never has two tasks, and a task settles an
   * instance at most once.
   */
  lemma {:induction false} HeldSince(start: World, trace: seq<Event>, end: World, node: string, uuid: string)
    returns (k: nat, reported: set<string>)
    requires start.tasks == map[] && Runs(start, trace, end) && node in end.tasks && uuid in end.tasks[node]
    ensures k < |trace| && trace[k] == StartTask(node, reported) && RunTo(start, trace[..k]).Some?
    ensures var w := RunTo(start, trace[..k]).value;
            node !in w.tasks && Missing(w.book.db, node, reported, uuid)
    ensures forall j :: k < j < |trace| ==> trace[j] != EndTask(node)
    ensures forall j, v :: k < j < |trace| ==> trace[j] != Settle(node, uuid, v)
  {
    hide SyncAll, ClearAll, SettleOne, Missing;
    var n := |trace| - 1;
    var mid := RunTo(start, trace[..n]).value;
    if node in mid.tasks && uuid in mid.tasks[node] {
      k, reported := HeldSince(start, trace[..n], mid, node, uuid);
      assert trace[..n][..k] == trace[..k];
      assert forall j :: k < j < n ==> trace[..n][j] == trace[j];
    } else {
      k, reported := n, trace[n].reported;
    }
  }

  /** Settling an instance that has become DAMAGED since its task read the table keeps DAMAGED unless it stops it. */
  lemma SettleOnDamaged(w: World, node: string, uuid: string, v: Verdict)
    requires Enabled(w, Settle(node, uuid, v)) && uuid in w.book.db && w.book.db[uuid].status == Damaged
    ensures Apply(w, Settle(node, uuid, v)).book.db[uuid].status == Damaged <==> !Stops(w.book, uuid, v)
  {
  }

  /** Nothing in the run but tasks speaks against DAMAGED: reports say stopped or crashed, own writes say DAMAGED. */
  predicate LeavesDamaged(trace: seq<Event>, uuid: string) {
    forall k :: 0 <= k < |trace| ==>
      match trace[k]
      case Beat(reports) => StoppedOrCrashed(reports, uuid)
      case OwnWrite(u, row) => u == uuid ==> row.status == Damaged
      case _ => true
  }

  predicate IsDamaged(w: World, uuid: string) {
    uuid in w.book.db && w.book.db[uuid].status == Damaged
  }

  lemma DamagedStep(w: World, e: Event, uuid: string)
    requires Enabled(w, e) && IsDamaged(w, uuid) && !InFlight(w, uuid) && LeavesDamaged([e], uuid)
    ensures IsDamaged(Apply(w, e), uuid) && !InFlight(Apply(w, e), uuid)
  {
    hide SyncAll, ClearAll;
    assert [e][0] == e;
    match e
    case Beat(reports) => DamagedSurvives(w.book.db, reports, uuid);
    case Settle(node, u, _) => assert u != uuid;
    case _ =>
  }

  /** DAMAGED that no task in flight has taken up stays through any such run, and no task ever takes it up. */
  lemma {:induction false} DamagedStays(start: World, trace: seq<Event>, end: World, uuid: string)
    requires Runs(start, trace, end) && LeavesDamaged(trace, uuid)
    requires IsDamaged(start, uuid) && !InFlight(start, uuid)
    ensures IsDamaged(end, uuid) && !InFlight(end, uuid)
  {
    hide Apply, Enabled, InFlight;
    if trace != [] {
      var n := |trace| - 1;
      var mid := RunTo(start, trace[..n]).value;
      DamagedStays(start, trace[..n], mid, uuid);
      DamagedStep(mid, trace[n], uuid);
    }
  }

  /** So DAMAGED is safe in a state exactly when no task in flight has the instance still to settle. */
  lemma DamagedIsSafeExactly(w: World, uuid: string)
    requires IsDamaged(w, uuid)
    ensures (forall trace, end :: LeavesDamaged(trace, uuid) && Runs(w, trace, end) ==> IsDamaged(end, uuid))
            <==> !InFlight(w, uuid)
  {
    if InFlight(w, uuid) {
      var node :| node in w.tasks && uuid in w.tasks[node];
      var e := Settle(node, uuid, NotRunning);
      SettleOnDamaged(w, node, uuid, NotRunning);
      assert [e][..0] == [] && RunTo(w, []) == Some(w);
      assert Runs(w, [e], Apply(w, e)) && LeavesDamaged([e], uuid);
      assert !IsDamaged(Apply(w, e), uuid);
    } else {
      forall trace, end | LeavesDamaged(trace, uuid) && Runs(w, trace, end) ensures IsDamaged(end, uuid) {
        DamagedStays(w, trace, end, uuid);
      }
    }
  }

  /** That exposure is real: a write of DAMAGED that falls between the two is lost to the stop. */
  lemma LateDamagedIsLost(node: string, uuid: string, row: Row) returns (start: World, trace: seq<Event>, end: World)
    requires row.node == node && row.status == Running
    ensures Runs(start, trace, end) && uuid in end.book.db && end.book.db[uuid].status == Stopped
    ensures |trace| == 3 && trace[0].StartTask? && trace[2].Settle?
    ensures trace[1] == OwnWrite(uuid, row.(status := Damaged))
  {
    start := World(Book(map[uuid := row], map[]), map[]);
    var e0, e1, e2 := StartTask(node, {}), OwnWrite(uuid, row.(status := Damaged)), Settle(node, uuid, NotRunning);
    var w1 := Apply(start, e0);
    assert w1.tasks[node] == {uuid};
    var w2 := Apply(w1, e1);
    end := Apply(w2, e2);
    trace := [e0, e1, e2];
    assert trace[..2] == [e0, e1] && [e0, e1][..1] == [e0] && [e0][..0] == [];
    assert Runs(start, [], start) && Runs(start, [e0], w1);
    assert Runs(start, [e0, e1], w2);
  }
}
