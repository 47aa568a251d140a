/** The handler's own code for heartbeats: the loops over reports and missing instances, on the shared fields. */
module ControlPlane {
  import opened Text
  import opened Sorting
  import opened Heartbeat

  class Handler {
    var db: Table
    var reconcileGrace: Grace
    var healthAlerted: map<string, string>
    var inflight: set<string>

    constructor (instances: Table)
      ensures db == instances && reconcileGrace == map[] && healthAlerted == map[] && inflight == {}
    {
      db, reconcileGrace, healthAlerted, inflight := instances, map[], map[], {};
    }

    method BumpReconcileGrace(uuid: string) returns (beats: nat)
      modifies this`reconcileGrace
      ensures beats == old(Count(reconcileGrace, uuid)) + 1
      ensures reconcileGrace == old(reconcileGrace)[uuid := beats]
    {
      beats := Count(reconcileGrace, uuid) + 1;
      reconcileGrace := reconcileGrace[uuid := beats];
    }

    method ClearReconcileGrace(uuid: string)
      modifies this`reconcileGrace
      ensures reconcileGrace == old(reconcileGrace) - {uuid}
    {
      reconcileGrace := reconcileGrace - {uuid};
    }

    /** Two updates: the status always, the reason only when the heartbeat wrote it. */
    method SetStopped(uuid: string)
      modifies this`db
      ensures db == if uuid in old(db) then old(db)[uuid := StoppedRow(old(db)[uuid])] else old(db)
      ensures forall u :: u in db <==> u in old(db)
      ensures forall u :: u in db && u != uuid ==> db[u] == old(db)[u]
      ensures uuid in db ==>
                && db[uuid].node == old(db)[uuid].node && db[uuid].status == Stopped
                && (if old(db)[uuid].source == "worker" then db[uuid].reason == "" && db[uuid].source == ""
                    else db[uuid].reason == old(db)[uuid].reason && db[uuid].source == old(db)[uuid].source)
    {
      if uuid in db {
        db := db[uuid := db[uuid].(status := Stopped)];
        if db[uuid].source == FROM_WORKER {
          db := db[uuid := db[uuid].(reason := "", source := "")];
        }
      }
    }

    /** One report: the status update, then the reason update under its own conditions. */
    method SyncOne(r: Report)
      modifies this`db
      ensures db == if r.uuid in old(db) then old(db)[r.uuid := Reported(r, old(db)[r.uuid])] else old(db)
    {
      if r.uuid !in db {
        return;
      }
      var value: Option<string>, onlyIfEmpty, clearing := None, false, false;
      if r.reason == "" && r.state == Running && r.health == HEALTHY {
        value, clearing := Some(""), true;
      } else if r.reason == "" {
      } else if r.health == CIRCUIT_BROKEN {
        value := Some(r.reason);
      } else if r.state == Crashed {
        value, onlyIfEmpty := Some(r.reason), true;
      } else {
        value := Some(r.reason);
      }
      var damagedGuard := r.state == Stopped || r.state == Crashed;
      if !(damagedGuard && db[r.uuid].status == Damaged) {
        db := db[r.uuid := db[r.uuid].(status := r.state)];
      }
      if value.Some? {
        var row := db[r.uuid];
        if !(damagedGuard && row.status == Damaged) && (onlyIfEmpty ==> row.reason == "") &&
           (clearing ==> row.source == FROM_WORKER)
        {
          db := db[r.uuid := row.(reason := value.value, source := if clearing then "" else FROM_WORKER)];
        }
      }
    }

    /** A beat: every report in turn, then the grace count of every listed instance is cleared. */
    method SyncInstanceStates(reports: seq<Report>)
      modifies this`db, this`reconcileGrace
      ensures db == SyncAll(old(db), reports) && reconcileGrace == ClearAll(old(reconcileGrace), reports)
    {
      for i := 0 to |reports|
        invariant db == SyncAll(old(db), reports[..i]) && reconcileGrace == old(reconcileGrace)
      {
        assert reports[..i+1][..i] == reports[..i];
        SyncOne(reports[i]);
      }
      for i := 0 to |reports|
        invariant db == SyncAll(old(db), reports[..|reports|])
        invariant reconcileGrace == ClearAll(old(reconcileGrace), reports[..i])
      {
        assert reports[..i+1][..i] == reports[..i];
        ClearReconcileGrace(reports[i].uuid);
      }
      assert reports[..|reports|] == reports;
    }

    /** One missing instance against the evidence. */
    method Settle(uuid: string, evidence: Option<map<string, bool>>)
      modifies this`db, this`reconcileGrace
      ensures Book(db, reconcileGrace) == SettleOne(old(Book(db, reconcileGrace)), uuid, VerdictOf(evidence, uuid))
      ensures evidence.Some? && uuid in evidence.value && evidence.value[uuid] ==>
                && reconcileGrace == old(reconcileGrace) - {uuid}
                && (uuid in db ==> db[uuid] == old(db)[uuid].(reason := STILL_RUNNING, source := FROM_WORKER))
      ensures evidence.Some? && uuid in evidence.value && !evidence.value[uuid] ==>
                reconcileGrace == old(reconcileGrace) - {uuid} && (uuid in db ==> db[uuid].status == Stopped)
      ensures evidence.None? || uuid !in evidence.value ==>
                var beats := (if uuid in old(reconcileGrace) then old(reconcileGrace)[uuid] else 0) + 1;
                if beats >= 3 then
                  reconcileGrace == old(reconcileGrace) - {uuid} && (uuid in db ==> db[uuid].status == Stopped)
                else
                  && reconcileGrace == old(reconcileGrace)[uuid := beats]
                  && (uuid in db ==> db[uuid] == old(db)[uuid].(reason := NO_EVIDENCE, source := FROM_WORKER))
    {
      var text := "";
      if evidence.Some? && uuid in evidence.value && evidence.value[uuid] {
        ClearReconcileGrace(uuid);
        text := STILL_RUNNING;
      } else if evidence.Some? && uuid in evidence.value {
        ClearReconcileGrace(uuid);
        SetStopped(uuid);
        return;
      } else {
        var beats := BumpReconcileGrace(uuid);
        if beats >= GRACE_BEATS {
          ClearReconcileGrace(uuid);
          SetStopped(uuid);
          return;
        }
        text := NO_EVIDENCE;
      }
      if uuid in db {
        db := db[uuid := db[uuid].(reason := text, source := FROM_WORKER)];
      }
    }

    /** evidenceReconcileDispatcher.Dispatch: a node with a task in flight is skipped, an empty name is ignored. */
    method Dispatch(node: string) returns (started: bool)
      modifies this`inflight
      ensures started <==> node != "" && node !in old(inflight)
      ensures inflight == if started then old(inflight) + {node} else old(inflight)
    {
      if node == "" || node in inflight {
        return false;
      }
      inflight := inflight + {node};
      return true;
    }

    method Finish(node: string)
      modifies this`inflight
      ensures inflight == old(inflight) - {node}
    {
      inflight := inflight - {node};
    }

    /** The query of a pass: the node's running instances that the heartbeat did not list, in any order. */
    method FindMissing(node: string, reported: set<string>) returns (missing: seq<string>)
      ensures Distinct(missing) && forall u :: u in missing <==> Missing(db, node, reported, u)
      ensures forall u :: u in missing <==>
                && u in db && db[u].node == node && u !in reported
                && (db[u].status == Running || db[u].status == Starting || db[u].status == Stopping)
    {
      missing := [];
      var left := db.Keys;
      while left != {}
        invariant left <= db.Keys && Distinct(missing)
        invariant forall u :: u in missing <==> u !in left && Missing(db, node, reported, u)
        decreases left
      {
        var u :| u in left;
        left := left - {u};
        if db[u].node == node && RunningClass(db[u].status) && u !in reported {
          missing := missing + [u];
        }
      }
    }

    /**
     * One whole reconcile pass of a node: without an evidence client every missing instance is stopped outright,
     * otherwise each is settled by its own verdict and its own grace count. No other instance is touched.
     */
    method ReconcileMissing(node: string, reported: set<string>, client: bool, evidence: Option<map<string, bool>>)
      modifies this`db, this`reconcileGrace
      ensures db.Keys == old(db.Keys)
      ensures forall u :: u in db && !Missing(old(db), node, reported, u) ==>
                db[u] == old(db)[u] && Count(reconcileGrace, u) == old(Count(reconcileGrace, u))
      ensures forall u :: u in db && Missing(old(db), node, reported, u) ==>
                if client then
                  var one := SettleOne(old(Book(db, reconcileGrace)), u, VerdictOf(evidence, u));
                  db[u] == one.db[u] && Count(reconcileGrace, u) == Count(one.grace, u)
                else db[u] == old(db)[u].(status := Stopped)
      ensures !client ==> reconcileGrace == old(reconcileGrace)
    {
      hide SettleOne;
      var missing := FindMissing(node, reported);
      if !client {
        for i := 0 to |missing|
          invariant reconcileGrace == old(reconcileGrace) && db.Keys == old(db.Keys)
          invariant forall u :: u in db ==>
                      db[u] == if u in missing[..i] then old(db)[u].(status := Stopped) else old(db)[u]
        {
          assert missing[i] in missing;
          db := db[missing[i] := db[missing[i]].(status := Stopped)];
        }
        assert missing[..|missing|] == missing;
        return;
      }
      for i := 0 to |missing|
        invariant Book(db, reconcileGrace) == SettleAll(old(Book(db, reconcileGrace)), missing[..i], evidence)
      {
        assert missing[..i+1][..i] == missing[..i];
        Settle(missing[i], evidence);
      }
      assert missing[..|missing|] == missing;
      SettleAllKeys(old(Book(db, reconcileGrace)), missing, evidence);
      forall u | u in db
        ensures u !in missing ==> db[u] == old(db)[u] && Count(reconcileGrace, u) == old(Count(reconcileGrace, u))
        ensures u in missing ==>
                  var one := SettleOne(old(Book(db, reconcileGrace)), u, VerdictOf(evidence, u));
                  db[u] == one.db[u] && Count(reconcileGrace, u) == Count(one.grace, u)
      {
        SettledOneByOne(old(Book(db, reconcileGrace)), missing, evidence, u);
      }
    }

    /** Alerts on a broken circuit once per reason until the instance recovers. */
    method MaybeNotifyCircuitBroken(node: string, r: Report) returns (notified: bool)
      modifies this`healthAlerted
      ensures healthAlerted == AlertedAfter(old(healthAlerted), node, r)
      ensures notified == Notifies(old(healthAlerted), node, r)
    {
      if r.uuid == "" {
        return false;
      }
      var key := AlertKey(node, r.uuid);
      if r.health != CIRCUIT_BROKEN {
        healthAlerted := healthAlerted - {key};
        return false;
      }
      if key in healthAlerted && healthAlerted[key] == r.reason {
        return false;
      }
      healthAlerted := healthAlerted[key := r.reason];
      return true;
    }
  }

  function SettleAll(b: Book, missing: seq<string>, evidence: Option<map<string, bool>>): Book {
    if missing == [] then b
    else
      var u := missing[|missing|-1];
      SettleOne(SettleAll(b, missing[..|missing|-1], evidence), u, VerdictOf(evidence, u))
  }

  lemma SettleTouchesOne(b: Book, u: string, v: Verdict, w: string)
    requires w != u
    ensures w in b.db ==> SettleOne(b, u, v).db[w] == b.db[w]
    ensures Count(SettleOne(b, u, v).grace, w) == Count(b.grace, w)
  {
  }

  lemma SettleReadsOne(a: Book, b: Book, u: string, v: Verdict)
    requires u in a.db && u in b.db && a.db[u] == b.db[u] && Count(a.grace, u) == Count(b.grace, u)
    ensures SettleOne(a, u, v).db[u] == SettleOne(b, u, v).db[u]
    ensures Count(SettleOne(a, u, v).grace, u) == Count(SettleOne(b, u, v).grace, u)
  {
  }

  lemma {:induction false} SettleAllKeys(b: Book, missing: seq<string>, evidence: Option<map<string, bool>>)
    ensures SettleAll(b, missing, evidence).db.Keys == b.db.Keys
  {
    hide SettleOne;
    if missing != [] {
      SettleAllKeys(b, missing[..|missing|-1], evidence);
    }
  }

  /** Settling several instances settles each as if it were alone, whatever their order. */
  lemma {:induction false} SettledOneByOne(
    b: Book, missing: seq<string>, evidence: Option<map<string, bool>>, u: string)
    requires Distinct(missing) && u in b.db
    ensures var all, one := SettleAll(b, missing, evidence), SettleOne(b, u, VerdictOf(evidence, u));
            && u in all.db
            && (if u in missing then all.db[u] == one.db[u] && Count(all.grace, u) == Count(one.grace, u)
                else all.db[u] == b.db[u] && Count(all.grace, u) == Count(b.grace, u))
  {
    hide SettleOne, Count;
    if missing != [] {
      var before, last := missing[..|missing|-1], missing[|missing|-1];
      assert missing == before + [last];
      SettledOneByOne(b, before, evidence, u);
      var mid := SettleAll(b, before, evidence);
      SettleAllKeys(b, before, evidence);
      if u == last {
        SettleReadsOne(mid, b, u, VerdictOf(evidence, u));
      } else {
        SettleTouchesOne(mid, last, VerdictOf(evidence, last), u);
      }
    }
  }

  // ----- circuit alerts over all beats -----

  function AlertKey(node: string, uuid: string): string {
    node + "|" + uuid
  }

  function AlertedAfter(alerted: map<string, string>, node: string, r: Report): map<string, string> {
    if r.uuid == "" then alerted
    else if r.health != CIRCUIT_BROKEN then alerted - {AlertKey(node, r.uuid)}
    else alerted[AlertKey(node, r.uuid) := r.reason]
  }

  predicate Notifies(alerted: map<string, string>, node: string, r: Report) {
    r.uuid != "" && r.health == CIRCUIT_BROKEN &&
    !(AlertKey(node, r.uuid) in alerted && alerted[AlertKey(node, r.uuid)] == r.reason)
  }

  /** One node's report of one instance. */
  datatype Sighting = Sighting(node: string, report: Report)

  function AlertedBy(history: seq<Sighting>): map<string, string> {
    if history == [] then map[]
    else
      var last := history[|history|-1];
      AlertedAfter(AlertedBy(history[..|history|-1]), last.node, last.report)
  }

  /** The node's last report of an instance, if there is one. */
  function LastReport(history: seq<Sighting>, node: string, uuid: string): Option<Report> {
    if history == [] then None
    else
      var last := history[|history|-1];
      if last.node == node && last.report.uuid == uuid then Some(last.report)
      else LastReport(history[..|history|-1], node, uuid)
  }

  /** Node ids never contain the byte that joins them to an instance's. */
  predicate PlainNodes(history: seq<Sighting>) {
    forall i :: 0 <= i < |history| ==> '|' !in history[i].node
  }

  lemma KeysDiffer(node: string, u: string, other: string, v: string)
    requires '|' !in node && '|' !in other
    ensures AlertKey(node, u) == AlertKey(other, v) <==> node == other && u == v
  {
    if AlertKey(node, u) == AlertKey(other, v) {
      assert "|" == ['|'];
      FirstPieceTells(node, u, other, v, '|');
    }
  }

  lemma {:induction false} AlertedIsLastBroken(history: seq<Sighting>, node: string, uuid: string)
    requires uuid != "" && '|' !in node && PlainNodes(history)
    ensures var last := LastReport(history, node, uuid);
            var alerted := AlertedBy(history);
            && (AlertKey(node, uuid) in alerted <==> last.Some? && last.value.health == CIRCUIT_BROKEN)
            && (AlertKey(node, uuid) in alerted ==> alerted[AlertKey(node, uuid)] == last.value.reason)
  {
    if history != [] {
      var last := history[|history|-1];
      AlertedIsLastBroken(history[..|history|-1], node, uuid);
      KeysDiffer(node, uuid, last.node, last.report.uuid);
      hide AlertKey;
    }
  }

  /**
   * Over the reports of all nodes: an alert goes out exactly when the circuit is broken and this node's last report of
   * the instance was not so for this reason.
   */
  lemma AlertsOncePerReason(history: seq<Sighting>, node: string, r: Report)
    requires '|' !in node && PlainNodes(history)
    ensures Notifies(AlertedBy(history), node, r) <==>
            && r.uuid != "" && r.health == CIRCUIT_BROKEN
            && var last := LastReport(history, node, r.uuid);
               !(last.Some? && last.value.health == CIRCUIT_BROKEN && last.value.reason == r.reason)
  {
    if r.uuid != "" {
      AlertedIsLastBroken(history, node, r.uuid);
    }
  }
}
