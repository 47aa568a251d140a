/**
 * The SQLite pool guard as a protocol: any number of transactions and connections, one write token, a hold that
 * is released from two layers, and a per-connection flag that evicts a connection with an unfinished transaction.
 */
module PoolGuard {

  type TxId = nat
  type ConnId = nat

  /** A writer's claim on the token; each of its two once guards makes Release a one-time action. */
  datatype Hold = NoHold | Live | Spent

  /** Where one BeginTx call stands. A phase with a connection owns it. */
  datatype Phase =
    | Waiting                     // queued at the gate
    | Admitted                    // past the gate, no connection yet
    | Leased(conn: ConnId)        // has a connection, BEGIN not answered
    | Open(conn: ConnId)          // the driver transaction runs
    | Ended(conn: ConnId)         // COMMIT or ROLLBACK answered, the deferred release still to come
    | Returning(conn: ConnId)     // the driver layer is done, the connection goes back
    | BeginFailed(conn: ConnId)   // BEGIN was refused, the connection goes back
    | Failed                      // BEGIN was refused and the connection is back
    | Closed                      // the connection is back; the outer layer may still release
    | Refused                     // BeginTx returned an error

  datatype Tx = Tx(readOnly: bool, hold: Hold, phase: Phase)

  /** inTx: SQLite has an open transaction; flag: the wrapper's txOpen; idle: in the pool. */
  datatype Conn = Conn(inTx: bool, flag: bool, idle: bool)

  datatype State = State(
    gated: bool, token: nat, txs: map<TxId, Tx>, conns: map<ConnId, Conn>,
    waits: nat, evicted: nat, dirtyCommits: nat, dirtyRollbacks: nat)

  datatype Step =
    | Begin(t: TxId, readOnly: bool)
    | Grant(t: TxId)
    | GiveUp(t: TxId)
    | LeaseIdle(t: TxId, c: ConnId)
    | LeaseNew(t: TxId, c: ConnId)
    | NoConnection(t: TxId)
    | BeginAccepted(t: TxId)
    | BeginRefused(t: TxId, nested: bool)
    | DriverCommit(t: TxId, ok: bool, stillOpen: bool)
    | DriverRollback(t: TxId, ok: bool, stillOpen: bool)
    | DriverRelease(t: TxId)
    | PutConnection(t: TxId)
    | OuterRelease(t: TxId)
    | CloseIdle(c: ConnId)

  // ----- the moves -----

  function SetPhase(s: State, t: TxId, p: Phase): State
    requires t in s.txs
  {
    s.(txs := s.txs[t := s.txs[t].(phase := p)])
  }

  /** The gate's acquire: takes the token for t. */
  function Acquire(s: State, t: TxId): State {
    s.(token := s.token + 1, txs := s.txs[t := Tx(false, Live, Admitted)])
  }

  /** writeHold.Release: receives the token the first time, does nothing after that or without a hold. */
  function Release(s: State, t: TxId): State
    requires t in s.txs && (s.txs[t].hold.Live? ==> s.token > 0)
  {
    if s.txs[t].hold.Live? then s.(token := s.token - 1, txs := s.txs[t := s.txs[t].(hold := Spent)]) else s
  }

  /** A connection coming back: IsValid keeps it when no transaction is flagged, otherwise it is closed. */
  function Put(s: State, c: ConnId): State
    requires c in s.conns
  {
    if s.conns[c].flag then s.(conns := s.conns - {c}, evicted := s.evicted + 1)
    else s.(conns := s.conns[c := s.conns[c].(idle := true)])
  }

  predicate Owns(p: Phase) {
    p.Leased? || p.Open? || p.Ended? || p.Returning? || p.BeginFailed?
  }

  /** Whether a release by t would go through at once rather than wait on an empty channel. */
  predicate CanRelease(s: State, t: TxId) {
    t in s.txs && (s.txs[t].hold.Live? ==> s.token > 0)
  }

  /** Where the outer layer's release may come: from the running transaction on, or after a refused BEGIN. */
  predicate OuterMayRelease(p: Phase) {
    p.Open? || p.Ended? || p.Returning? || p.Closed? || p.Failed?
  }

  predicate Enabled(s: State, step: Step) {
    match step
    case Begin(t, _) => t !in s.txs
    case Grant(t) => t in s.txs && s.txs[t].phase.Waiting? && s.token == 0
    case GiveUp(t) => t in s.txs && s.txs[t].phase.Waiting?
    case LeaseIdle(t, c) => t in s.txs && s.txs[t].phase.Admitted? && c in s.conns && s.conns[c].idle
    case LeaseNew(t, c) => t in s.txs && s.txs[t].phase.Admitted? && c !in s.conns
    case NoConnection(t) => t in s.txs && s.txs[t].phase.Admitted? && CanRelease(s, t)
    case BeginAccepted(t) =>
      t in s.txs && s.txs[t].phase.Leased? && s.txs[t].phase.conn in s.conns && !s.conns[s.txs[t].phase.conn].inTx
    case BeginRefused(t, _) =>
      t in s.txs && s.txs[t].phase.Leased? && s.txs[t].phase.conn in s.conns && CanRelease(s, t)
    case DriverCommit(t, _, _) => t in s.txs && s.txs[t].phase.Open? && s.txs[t].phase.conn in s.conns
    case DriverRollback(t, _, _) => t in s.txs && s.txs[t].phase.Open? && s.txs[t].phase.conn in s.conns
    case DriverRelease(t) => t in s.txs && s.txs[t].phase.Ended? && CanRelease(s, t)
    case PutConnection(t) =>
      t in s.txs && (s.txs[t].phase.Returning? || s.txs[t].phase.BeginFailed?) && s.txs[t].phase.conn in s.conns
    case OuterRelease(t) =>
      t in s.txs && OuterMayRelease(s.txs[t].phase) && CanRelease(s, t)
    case CloseIdle(c) => c in s.conns && s.conns[c].idle
  }

  /** COMMIT or ROLLBACK on t's connection: only success clears the flag. */
  function EndDriver(s: State, t: TxId, ok: bool, stillOpen: bool): State
    requires t in s.txs && s.txs[t].phase.Open? && s.txs[t].phase.conn in s.conns
  {
    var c := s.txs[t].phase.conn;
    var conn := s.conns[c];
    SetPhase(s, t, Ended(c)).(
      conns := s.conns[c := if ok then conn.(inTx := false, flag := false) else conn.(inTx := conn.inTx && stillOpen)])
  }

  function Apply(s: State, step: Step): State
    requires Enabled(s, step)
  {
    match step
    case Begin(t, readOnly) =>
      if !s.gated || readOnly then s.(txs := s.txs[t := Tx(readOnly, NoHold, Admitted)])
      else if s.token == 0 then Acquire(s, t)
      else s.(txs := s.txs[t := Tx(false, NoHold, Waiting)], waits := s.waits + 1)
    case Grant(t) => Acquire(s, t)
    case GiveUp(t) => SetPhase(s, t, Refused)
    case LeaseIdle(t, c) =>
      // ResetSession: a flagged connection is dropped and another one is looked for
      if s.conns[c].flag then s.(conns := s.conns - {c}, evicted := s.evicted + 1)
      else SetPhase(s, t, Leased(c)).(conns := s.conns[c := s.conns[c].(idle := false)])
    case LeaseNew(t, c) => SetPhase(s, t, Leased(c)).(conns := s.conns[c := Conn(false, false, false)])
    case NoConnection(t) => SetPhase(Release(s, t), t, Refused)
    case BeginAccepted(t) =>
      var c := s.txs[t].phase.conn;
      SetPhase(s, t, Open(c)).(conns := s.conns[c := Conn(true, true, false)])
    case BeginRefused(t, nested) =>
      var c := s.txs[t].phase.conn;
      var marked := if nested then s.(conns := s.conns[c := s.conns[c].(flag := true)]) else s;
      SetPhase(Release(marked, t), t, BeginFailed(c))
    case DriverCommit(t, ok, stillOpen) =>
      EndDriver(s, t, ok, stillOpen).(dirtyCommits := if ok then s.dirtyCommits else s.dirtyCommits + 1)
    case DriverRollback(t, ok, stillOpen) =>
      EndDriver(s, t, ok, stillOpen).(dirtyRollbacks := if ok then s.dirtyRollbacks else s.dirtyRollbacks + 1)
    case DriverRelease(t) => SetPhase(Release(s, t), t, Returning(s.txs[t].phase.conn))
    case PutConnection(t) =>
      SetPhase(Put(s, s.txs[t].phase.conn), t, if s.txs[t].phase.Returning? then Closed else Failed)
    case OuterRelease(t) =>
      // gatedTx after Commit or Rollback, or gatedConnPool.BeginTx after a refused BEGIN
      if s.txs[t].phase.Failed? then SetPhase(Release(s, t), t, Refused) else Release(s, t)
    case CloseIdle(c) => s.(conns := s.conns - {c})
  }

  // ----- runs -----

  function Start(gated: bool): State {
    State(gated, 0, map[], map[], 0, 0, 0, 0)
  }

  ghost predicate Runs(s: State, steps: seq<Step>, end: State)
    decreases |steps|
  {
    if steps == [] then s == end
    else Enabled(s, steps[0]) && Runs(Apply(s, steps[0]), steps[1..], end)
  }

  ghost predicate Reachable(gated: bool, s: State) {
    exists steps :: Runs(Start(gated), steps, s)
  }

  // ----- the invariant -----

  ghost predicate Holds(s: State, t: TxId) {
    t in s.txs && s.txs[t].hold.Live?
  }

  /** The token is out exactly while one hold is live, and only a writer inside its transaction has a live hold. */
  ghost predicate GateInv(s: State) {
    && s.token <= 1
    && (s.token == 1 <==> exists t :: Holds(s, t))
    && (forall t, u :: Holds(s, t) && Holds(s, u) ==> t == u)
    && (forall t :: Holds(s, t) ==>
          && s.gated && !s.txs[t].readOnly
          && (s.txs[t].phase.Admitted? || s.txs[t].phase.Leased? || s.txs[t].phase.Open? || s.txs[t].phase.Ended?))
    && (forall t :: t in s.txs && s.txs[t].phase.Waiting? ==> s.gated && !s.txs[t].readOnly)
    && (forall t :: t in s.txs && s.gated && !s.txs[t].readOnly ==>
          s.txs[t].phase.Admitted? || s.txs[t].phase.Leased? ==> Holds(s, t))
  }

  /** A connection in use has exactly one owner. */
  ghost predicate OwnerInv(s: State) {
    && (forall t :: t in s.txs && Owns(s.txs[t].phase) ==>
          s.txs[t].phase.conn in s.conns && !s.conns[s.txs[t].phase.conn].idle)
    && (forall t, u :: t in s.txs && u in s.txs && t != u && Owns(s.txs[t].phase) && Owns(s.txs[u].phase) ==>
          s.txs[t].phase.conn != s.txs[u].phase.conn)
  }

  /** A transaction open in SQLite is flagged, and neither the pool nor a leased connection has one. */
  ghost predicate FlagInv(s: State) {
    && (forall c :: c in s.conns && s.conns[c].inTx ==> s.conns[c].flag)
    && (forall c :: c in s.conns && s.conns[c].flag ==> !s.conns[c].idle)
    && (forall t :: t in s.txs && s.txs[t].phase.Leased? && s.txs[t].phase.conn in s.conns ==>
          !s.conns[s.txs[t].phase.conn].flag)
    && (forall t :: t in s.txs && s.txs[t].phase.Open? && s.txs[t].phase.conn in s.conns ==>
          s.conns[s.txs[t].phase.conn].flag)
  }

  lemma AcquireKeeps(s: State, t: TxId)
    requires GateInv(s) && s.token == 0 && s.gated && (t in s.txs ==> s.txs[t].phase.Waiting?)
    ensures GateInv(Acquire(s, t))
  {
    var n := Acquire(s, t);
    assert Holds(n, t);
    assert forall u :: u != t ==> (Holds(s, u) <==> Holds(n, u));
  }

  lemma MoveKeeps(s: State, t: TxId, p: Phase)
    requires GateInv(s) && t in s.txs && !p.Waiting? && !p.Admitted?
    requires Holds(s, t) ==> p.Leased? || p.Open? || p.Ended?
    requires p.Leased? ==> s.txs[t].phase.Admitted?
    ensures GateInv(SetPhase(s, t, p))
  {
    var n := SetPhase(s, t, p);
    assert forall u :: Holds(s, u) <==> Holds(n, u);
  }

  /** A release, whoever makes it, leaves the gate consistent once its maker has left the leased phases. */
  lemma ReleaseKeeps(s: State, t: TxId, p: Phase)
    requires GateInv(s) && CanRelease(s, t) && !p.Waiting? && !p.Admitted? && !p.Leased?
    ensures GateInv(SetPhase(Release(s, t), t, p))
  {
    var n := SetPhase(Release(s, t), t, p);
    assert !Holds(n, t);
    assert forall u :: u != t ==> (Holds(s, u) <==> Holds(n, u));
    if Holds(s, t) {
      assert n.token == 0;
      assert forall u :: !Holds(n, u);
    } else {
      assert n.token == s.token && forall u :: Holds(s, u) <==> Holds(n, u);
    }
  }

  lemma GateFrame(s: State, n: State)
    requires GateInv(s) && n.gated == s.gated && n.token == s.token && n.txs == s.txs
    ensures GateInv(n)
  {
    assert forall u :: Holds(s, u) <==> Holds(n, u);
  }

  lemma NoHoldKeeps(s: State, t: TxId, tx: Tx)
    requires GateInv(s) && t !in s.txs && tx.hold.NoHold?
    requires tx.phase.Waiting? ==> s.gated && !tx.readOnly
    requires tx.phase.Admitted? ==> !s.gated || tx.readOnly
    requires !Owns(tx.phase)
    ensures GateInv(s.(txs := s.txs[t := tx]))
  {
    var n := s.(txs := s.txs[t := tx]);
    assert forall u :: Holds(s, u) <==> Holds(n, u);
  }

  lemma BeginGate(s: State, t: TxId, readOnly: bool)
    requires GateInv(s) && Enabled(s, Begin(t, readOnly))
    ensures GateInv(Apply(s, Begin(t, readOnly)))
  {
    hide GateInv;
    var n := Apply(s, Begin(t, readOnly));
    if !s.gated || readOnly {
      NoHoldKeeps(s, t, Tx(readOnly, NoHold, Admitted));
    } else if s.token == 0 {
      AcquireKeeps(s, t);
    } else {
      NoHoldKeeps(s, t, Tx(false, NoHold, Waiting));
      GateFrame(s.(txs := n.txs), n);
    }
  }

  /** A step that only moves t on, whatever it does to connections and counters. */
  lemma MoveGate(s: State, n: State, t: TxId, p: Phase)
    requires GateInv(s) && t in s.txs && !p.Waiting? && !p.Admitted?
    requires Holds(s, t) ==> p.Leased? || p.Open? || p.Ended?
    requires p.Leased? ==> s.txs[t].phase.Admitted?
    requires n.gated == s.gated && n.token == s.token && n.txs == SetPhase(s, t, p).txs
    ensures GateInv(n)
  {
    MoveKeeps(s, t, p);
    GateFrame(SetPhase(s, t, p), n);
  }

  /** A step in which t releases and moves on. */
  lemma ReleaseGate(s: State, n: State, t: TxId, p: Phase)
    requires GateInv(s) && CanRelease(s, t) && !p.Waiting? && !p.Admitted? && !p.Leased?
    requires n.gated == s.gated && n.token == Release(s, t).token && n.txs == SetPhase(Release(s, t), t, p).txs
    ensures GateInv(n)
  {
    ReleaseKeeps(s, t, p);
    GateFrame(SetPhase(Release(s, t), t, p), n);
  }

  lemma GateStep(s: State, step: Step)
    requires GateInv(s) && Enabled(s, step)
    ensures GateInv(Apply(s, step))
  {
    hide GateInv;
    var n := Apply(s, step);
    if !step.Begin? && !step.CloseIdle? {
      LiveHolders(s, step.t);
    }
    match step
    case Begin(t, readOnly) => BeginGate(s, t, readOnly);
    case Grant(t) =>
      WaitersAreGated(s, t);
      AcquireKeeps(s, t);
    case NoConnection(t) => ReleaseGate(s, n, t, n.txs[t].phase);
    case BeginRefused(t, _) => ReleaseGate(s, n, t, n.txs[t].phase);
    case DriverRelease(t) => ReleaseGate(s, n, t, n.txs[t].phase);
    case OuterRelease(t) => ReleaseGate(s, n, t, n.txs[t].phase);
    case CloseIdle(c) => GateFrame(s, n);
    case LeaseIdle(t, c) =>
      if s.conns[c].flag {
        GateFrame(s, n);
      } else {
        MoveGate(s, n, t, n.txs[t].phase);
      }
    case _ => MoveGate(s, n, step.t, n.txs[step.t].phase);
  }

  lemma WaitersAreGated(s: State, t: TxId)
    requires GateInv(s) && t in s.txs && s.txs[t].phase.Waiting?
    ensures s.gated
  {
  }

  lemma LiveHolders(s: State, t: TxId)
    requires GateInv(s)
    ensures Holds(s, t) ==> s.gated && s.token == 1
    ensures Holds(s, t) ==> var p := s.txs[t].phase; p.Admitted? || p.Leased? || p.Open? || p.Ended?
  {
  }

  // ----- connections -----

  /** Only t's phase and the connection c change; c is t's own, free, or new. */
  lemma OwnConnectionStep(s: State, n: State, t: TxId, c: ConnId)
    requires OwnerInv(s) && t in n.txs
    requires forall u :: u != t ==> (u in s.txs <==> u in n.txs) && (u in s.txs ==> n.txs[u] == s.txs[u])
    requires forall d :: d != c ==> (d in s.conns <==> d in n.conns) && (d in s.conns ==> n.conns[d] == s.conns[d])
    requires Owns(n.txs[t].phase) ==> n.txs[t].phase.conn == c && c in n.conns && !n.conns[c].idle
    requires (t in s.txs && Owns(s.txs[t].phase) && s.txs[t].phase.conn == c) ||
             ((t in s.txs ==> !Owns(s.txs[t].phase)) && (c in s.conns ==> s.conns[c].idle))
    ensures OwnerInv(n)
  {
    forall u | u in n.txs && Owns(n.txs[u].phase) && u != t
      ensures n.txs[u].phase.conn in n.conns && !n.conns[n.txs[u].phase.conn].idle && n.txs[u].phase.conn != c
    {
      assert u in s.txs && Owns(s.txs[u].phase);
    }
  }

  ghost predicate ConnInv(s: State) {
    OwnerInv(s) && FlagInv(s)
  }

  /** The connection a step touches, and who touches it. */
  predicate Touches(s: State, n: State, t: TxId, c: ConnId) {
    && t in n.txs
    && (forall u :: u in s.txs.Keys + n.txs.Keys && u != t ==> u in s.txs && u in n.txs && n.txs[u] == s.txs[u])
    && (forall d :: d in s.conns.Keys + n.conns.Keys && d != c ==>
          d in s.conns && d in n.conns && n.conns[d] == s.conns[d])
    && (if t in s.txs && Owns(s.txs[t].phase) then s.txs[t].phase.conn == c else c in s.conns ==> s.conns[c].idle)
    && (Owns(n.txs[t].phase) ==> n.txs[t].phase.conn == c && c in n.conns && !n.conns[c].idle)
  }

  /** What the touched connection must look like afterwards. */
  predicate Sane(n: State, t: TxId, c: ConnId) {
    && (c in n.conns && n.conns[c].inTx ==> n.conns[c].flag)
    && (c in n.conns && n.conns[c].flag ==> !n.conns[c].idle)
    && (t in n.txs && c in n.conns && n.txs[t].phase.Leased? ==> !n.conns[c].flag)
    && (t in n.txs && c in n.conns && n.txs[t].phase.Open? ==> n.conns[c].flag)
  }

  lemma TouchKeeps(s: State, n: State, t: TxId, c: ConnId)
    requires ConnInv(s) && Touches(s, n, t, c) && Sane(n, t, c)
    ensures ConnInv(n)
  {
    OwnConnectionStep(s, n, t, c);
    forall u | u in n.txs && u != t && Owns(n.txs[u].phase)
      ensures n.txs[u].phase.conn != c && n.txs[u].phase.conn in s.conns
    {
      assert u in s.txs && Owns(s.txs[u].phase);
    }
  }

  /** A step that leaves every connection and every ownership as it was. */
  lemma UntouchedKeeps(s: State, n: State, t: TxId)
    requires ConnInv(s) && n.conns == s.conns && t in n.txs
    requires forall u :: u in s.txs.Keys + n.txs.Keys && u != t ==> u in s.txs && u in n.txs && n.txs[u] == s.txs[u]
    requires if t in s.txs then n.txs[t].phase == s.txs[t].phase || (!Owns(s.txs[t].phase) && !Owns(n.txs[t].phase)) ||
                                (s.txs[t].phase.Ended? && n.txs[t].phase == Returning(s.txs[t].phase.conn))
             else !Owns(n.txs[t].phase)
    ensures ConnInv(n)
  {
  }

  lemma RemoveIdle(s: State, n: State, c: ConnId)
    requires ConnInv(s) && c in s.conns && s.conns[c].idle && n.conns == s.conns - {c} && n.txs == s.txs
    ensures ConnInv(n)
  {
  }

  lemma EndDriverKeeps(s: State, t: TxId, ok: bool, stillOpen: bool, n: State)
    requires ConnInv(s) && t in s.txs && s.txs[t].phase.Open? && s.txs[t].phase.conn in s.conns
    requires n.txs == EndDriver(s, t, ok, stillOpen).txs && n.conns == EndDriver(s, t, ok, stillOpen).conns
    ensures ConnInv(n)
  {
    TouchKeeps(s, n, t, s.txs[t].phase.conn);
  }

  lemma BeginKeeps(s: State, step: Step)
    requires ConnInv(s) && Enabled(s, step) && (step.BeginAccepted? || step.BeginRefused?)
    ensures ConnInv(Apply(s, step))
  {
    TouchKeeps(s, Apply(s, step), step.t, s.txs[step.t].phase.conn);
  }

  lemma LeaseKeeps(s: State, step: Step)
    requires ConnInv(s) && Enabled(s, step) && (step.LeaseIdle? || step.LeaseNew?)
    ensures ConnInv(Apply(s, step))
  {
    TouchKeeps(s, Apply(s, step), step.t, step.c);
  }

  lemma PutKeeps(s: State, step: Step)
    requires ConnInv(s) && Enabled(s, step) && step.PutConnection?
    ensures ConnInv(Apply(s, step))
  {
    TouchKeeps(s, Apply(s, step), step.t, s.txs[step.t].phase.conn);
  }

  lemma ConnStep(s: State, step: Step)
    requires ConnInv(s) && Enabled(s, step)
    ensures ConnInv(Apply(s, step))
  {
    hide ConnInv;
    var n := Apply(s, step);
    match step
    case LeaseIdle(_, _) => LeaseKeeps(s, step);
    case LeaseNew(_, _) => LeaseKeeps(s, step);
    case BeginAccepted(_) => BeginKeeps(s, step);
    case BeginRefused(_, _) => BeginKeeps(s, step);
    case DriverCommit(t, ok, stillOpen) => EndDriverKeeps(s, t, ok, stillOpen, n);
    case DriverRollback(t, ok, stillOpen) => EndDriverKeeps(s, t, ok, stillOpen, n);
    case PutConnection(_) => PutKeeps(s, step);
    case CloseIdle(c) => RemoveIdle(s, n, c);
    case _ => UntouchedKeeps(s, n, step.t);
  }

  // ----- what holds in every reachable state -----

  lemma {:induction false} RunKeeps(s: State, steps: seq<Step>, end: State)
    requires GateInv(s) && ConnInv(s) && Runs(s, steps, end)
    ensures GateInv(end) && ConnInv(end)
    decreases |steps|
  {
    hide GateInv, ConnInv, Enabled, Apply;
    if steps != [] {
      GateStep(s, steps[0]);
      ConnStep(s, steps[0]);
      RunKeeps(Apply(s, steps[0]), steps[1..], end);
    }
  }

  lemma ReachableInv(gated: bool, s: State)
    requires Reachable(gated, s)
    ensures GateInv(s) && ConnInv(s)
  {
    var steps :| Runs(Start(gated), steps, s);
    RunKeeps(Start(gated), steps, s);
  }

  /** Past the point where its transaction ended, failed to begin or gave up. */
  predicate Over(p: Phase) {
    p.Waiting? || p.Returning? || p.BeginFailed? || p.Failed? || p.Closed? || p.Refused?
  }

  /**
   * The write gate, over all interleavings: the token is out exactly while one hold is live, at most one hold is
   * live, a release never blocks, and once every transaction is over the gate is free.
   */
  lemma GateIsSafe(gated: bool, s: State)
    requires Reachable(gated, s)
    ensures s.token <= 1 && (s.token == 1 <==> exists t :: Holds(s, t))
    ensures forall t, u :: Holds(s, t) && Holds(s, u) ==> t == u
    ensures forall t :: t in s.txs ==> CanRelease(s, t)
    ensures forall t :: t in s.txs && Over(s.txs[t].phase) ==> !Holds(s, t)
    ensures (forall t :: t in s.txs ==> Over(s.txs[t].phase)) ==> s.token == 0
  {
    ReachableInv(gated, s);
  }

  /** While a writer holds the token no step of anyone else, a second release included, takes it away. */
  lemma LaterWriterKeepsToken(gated: bool, s: State, u: TxId, step: Step)
    requires Reachable(gated, s) && Holds(s, u) && Enabled(s, step)
    requires step.CloseIdle? || step.t != u
    ensures Holds(Apply(s, step), u) && Apply(s, step).token == 1
    ensures Apply(s, step).txs[u] == s.txs[u]
  {
    ReachableInv(gated, s);
    OthersUntouched(s, step, u);
    GateStep(s, step);
  }

  lemma OthersUntouched(s: State, step: Step, u: TxId)
    requires Enabled(s, step) && u in s.txs && (step.CloseIdle? || step.t != u)
    ensures u in Apply(s, step).txs && Apply(s, step).txs[u] == s.txs[u]
  {
  }

  /** A run made of t's own steps in which its outer layer takes no part. */
  ghost predicate OwnRun(steps: seq<Step>, t: TxId) {
    forall i :: 0 <= i < |steps| ==> OwnStep(steps[i], t)
  }

  /** The holder can always leave by itself, so a cancelled context never strands the token. */
  lemma HolderCanLeave(gated: bool, s: State, t: TxId) returns (steps: seq<Step>, end: State)
    requires Reachable(gated, s) && Holds(s, t)
    ensures OwnRun(steps, t) && Runs(s, steps, end) && end.token == 0
  {
    ReachableInv(gated, s);
    HolderFacts(s, t);
    var p := s.txs[t].phase;
    if p.Admitted? {
      steps, end := OneStep(s, NoConnection(t));
    } else if p.Leased? {
      steps, end := OneStep(s, BeginRefused(t, false));
    } else if p.Ended? {
      steps, end := OneStep(s, DriverRelease(t));
    } else {
      var mid := Apply(s, DriverRollback(t, true, false));
      var rest;
      rest, end := OneStep(mid, DriverRelease(t));
      steps := [DriverRollback(t, true, false)] + rest;
      assert steps[1..] == rest;
    }
  }

  lemma HolderFacts(s: State, t: TxId)
    requires GateInv(s) && ConnInv(s) && Holds(s, t)
    ensures s.token == 1
    ensures var p := s.txs[t].phase;
            p.Admitted? || ((p.Leased? || p.Open? || p.Ended?) && p.conn in s.conns)
  {
  }

  lemma OneStep(s: State, step: Step) returns (steps: seq<Step>, end: State)
    requires Enabled(s, step)
    ensures steps == [step] && end == Apply(s, step) && Runs(s, steps, end)
  {
    steps, end := [step], Apply(s, step);
    assert steps[1..] == [];
  }

  /** How many steps of its own a transaction has still ahead, its outer layer aside. */
  function Ahead(p: Phase): nat {
    match p
    case Waiting => 6
    case Admitted => 5
    case Leased(_) => 4
    case Open(_) => 3
    case Ended(_) => 2
    case Returning(_) => 1
    case BeginFailed(_) => 1
    case _ => 0
  }

  lemma OwnStepAdvances(s: State, step: Step)
    requires ConnInv(s) && Enabled(s, step) && !step.Begin? && !step.CloseIdle? && !step.OuterRelease?
    ensures step.t in s.txs && step.t in Apply(s, step).txs
    ensures Ahead(Apply(s, step).txs[step.t].phase) < Ahead(s.txs[step.t].phase)
  {
  }

  /** While it holds the token some step of the holder's own, not its outer layer's, is possible. */
  ghost predicate CanMove(s: State, t: TxId) {
    exists step: Step :: OwnStep(step, t) && Enabled(s, step)
  }

  predicate OwnStep(step: Step, t: TxId) {
    !step.CloseIdle? && step.t == t && !step.OuterRelease?
  }

  lemma HolderCanMove(s: State, t: TxId)
    requires GateInv(s) && ConnInv(s) && Holds(s, t)
    ensures CanMove(s, t)
  {
    HolderFacts(s, t);
    var p := s.txs[t].phase;
    var step :=
      if p.Admitted? then NoConnection(t)
      else if p.Leased? then BeginRefused(t, false)
      else if p.Ended? then DriverRelease(t)
      else DriverRollback(t, true, false);
    assert OwnStep(step, t) && Enabled(s, step);
  }

  /** Own runs are short, and one that cannot go on has given the token back: no schedule of the holder strands it. */
  lemma {:induction false} OwnRunsEnd(s: State, steps: seq<Step>, end: State, t: TxId)
    requires GateInv(s) && ConnInv(s) && t in s.txs && OwnRun(steps, t) && Runs(s, steps, end)
    ensures t in end.txs && |steps| + Ahead(end.txs[t].phase) <= Ahead(s.txs[t].phase)
    ensures !CanMove(end, t) ==> !Holds(end, t)
    decreases |steps|
  {
    hide GateInv, ConnInv, Apply, CanMove, Ahead;
    if steps == [] {
      if Holds(end, t) {
        HolderCanMove(end, t);
      }
    } else {
      assert steps[0].t == t;
      OwnStepAdvances(s, steps[0]);
      GateStep(s, steps[0]);
      ConnStep(s, steps[0]);
      assert OwnRun(steps[1..], t) by {
        assert forall i :: 0 <= i < |steps| - 1 ==> steps[1..][i] == steps[i + 1];
      }
      OwnRunsEnd(Apply(s, steps[0]), steps[1..], end, t);
    }
  }

  lemma {:induction false} OwnRunsLeaveOthers(s: State, steps: seq<Step>, end: State, t: TxId, u: TxId)
    requires OwnRun(steps, t) && Runs(s, steps, end) && u in s.txs && u != t
    ensures u in end.txs && end.txs[u] == s.txs[u]
    decreases |steps|
  {
    hide Apply, Enabled;
    if steps != [] {
      assert steps[0].t == t;
      OthersUntouched(s, steps[0], u);
      assert OwnRun(steps[1..], t) by {
        assert forall i :: 0 <= i < |steps| - 1 ==> steps[1..][i] == steps[i + 1];
      }
      OwnRunsLeaveOthers(Apply(s, steps[0]), steps[1..], end, t, u);
    }
  }

  /** From every reachable state a waiting writer can still get in: the holder leaves by itself, then the gate opens. */
  lemma WaiterGetsIn(gated: bool, s: State, t: TxId) returns (steps: seq<Step>, end: State)
    requires Reachable(gated, s) && t in s.txs && s.txs[t].phase.Waiting?
    ensures Runs(s, steps, end) && Holds(end, t) && forall u :: Holds(end, u) ==> u == t
  {
    ReachableInv(gated, s);
    var mid := s;
    steps := [];
    if u :| Holds(s, u) {
      steps, mid := HolderCanLeave(gated, s, u);
      OwnRunsLeaveOthers(s, steps, mid, u, t);
      RunKeeps(s, steps, mid);
    }
    RunsSnoc(s, steps, mid, Grant(t));
    GateStep(mid, Grant(t));
    steps, end := steps + [Grant(t)], Apply(mid, Grant(t));
  }

  /** Without a gate nobody ever waits for, takes or gives back a token. */
  lemma {:induction false} UngatedStaysFree(s: State, steps: seq<Step>, end: State)
    requires Runs(s, steps, end) && !s.gated && s.token == 0 && s.waits == 0
    requires forall t :: t in s.txs ==> s.txs[t].hold.NoHold? && !s.txs[t].phase.Waiting?
    ensures !end.gated && end.token == 0 && end.waits == 0
    ensures forall t :: t in end.txs ==> end.txs[t].hold.NoHold? && !end.txs[t].phase.Waiting?
    decreases |steps|
  {
    if steps != [] {
      UngatedStaysFree(Apply(s, steps[0]), steps[1..], end);
    }
  }

  /** A pool of one connection behaves as if there were no gate at all. */
  lemma UngatedIsTransparent(s: State, t: TxId)
    requires Reachable(false, s) && t in s.txs
    ensures !s.txs[t].phase.Waiting? && s.txs[t].hold.NoHold? && s.token == 0 && s.waits == 0
  {
    var steps :| Runs(Start(false), steps, s);
    UngatedStaysFree(Start(false), steps, s);
  }

  /**
   * No poisoned connection is handed out: a transaction open in SQLite is always flagged, everything in the pool
   * and every connection on its way to BEGIN is clean, and a flagged connection coming back is closed.
   */
  lemma NoPoisonedConnection(gated: bool, s: State)
    requires Reachable(gated, s)
    ensures forall c :: c in s.conns && s.conns[c].inTx ==> s.conns[c].flag
    ensures forall c :: c in s.conns && s.conns[c].idle ==> !s.conns[c].inTx && !s.conns[c].flag
    ensures forall t :: t in s.txs && s.txs[t].phase.Leased? ==>
              && s.txs[t].phase.conn in s.conns
              && !s.conns[s.txs[t].phase.conn].inTx && !s.conns[s.txs[t].phase.conn].flag
    ensures forall t :: Enabled(s, PutConnection(t)) && s.conns[s.txs[t].phase.conn].flag ==>
              s.txs[t].phase.conn !in Apply(s, PutConnection(t)).conns
  {
    ReachableInv(gated, s);
  }

  // ----- how far the gate serialises SQLite's own transactions -----

  /** A gated writer whose connection has a transaction open in SQLite. */
  ghost predicate WriterOpen(s: State, t: TxId) {
    && t in s.txs && s.gated && !s.txs[t].readOnly && Owns(s.txs[t].phase)
    && s.txs[t].phase.conn in s.conns && s.conns[s.txs[t].phase.conn].inTx
  }

  /** The outer layer waits for the driver. */
  predicate OuterWaits(s: State, step: Step) {
    step.OuterRelease? ==> step.t in s.txs && !s.txs[step.t].phase.Open? && !s.txs[step.t].phase.Ended?
  }

  /** A failed COMMIT or ROLLBACK does not leave a transaction behind. */
  predicate EndsClean(step: Step) {
    step.DriverCommit? || step.DriverRollback? ==> step.ok || !step.stillOpen
  }

  predicate Orderly(s: State, step: Step) {
    OuterWaits(s, step) && EndsClean(step)
  }

  /** Which of the two rules a run keeps. */
  datatype Rules = Rules(outerWaits: bool, endsClean: bool)

  predicate Obeys(rules: Rules, s: State, step: Step) {
    (rules.outerWaits ==> OuterWaits(s, step)) && (rules.endsClean ==> EndsClean(step))
  }

  ghost predicate ObeyingRun(rules: Rules, s: State, steps: seq<Step>, end: State)
    decreases |steps|
  {
    if steps == [] then s == end
    else Enabled(s, steps[0]) && Obeys(rules, s, steps[0]) && ObeyingRun(rules, Apply(s, steps[0]), steps[1..], end)
  }

  ghost predicate OrderlyRun(s: State, steps: seq<Step>, end: State) {
    ObeyingRun(Rules(true, true), s, steps, end)
  }

  ghost predicate OpenMeansHeld(s: State) {
    forall t :: t in s.txs && s.gated && !s.txs[t].readOnly && s.txs[t].phase.Open? ==> Holds(s, t)
  }

  /** Only a running driver transaction is open in SQLite. */
  ghost predicate EndedIsClosed(s: State) {
    forall t :: t in s.txs && Owns(s.txs[t].phase) && !s.txs[t].phase.Open? && s.txs[t].phase.conn in s.conns ==>
                  !s.conns[s.txs[t].phase.conn].inTx
  }

  ghost predicate OrderInv(s: State) {
    OpenMeansHeld(s) && EndedIsClosed(s)
  }

  /** t's phase and connection c change, nothing else does, and t still meets the two rules. */
  lemma OrderTouch(s: State, n: State, t: TxId, c: ConnId)
    requires ConnInv(s) && ConnInv(n) && OrderInv(s) && Touches(s, n, t, c) && n.gated == s.gated
    requires s.gated && !n.txs[t].readOnly && n.txs[t].phase.Open? ==> Holds(n, t)
    requires Owns(n.txs[t].phase) && !n.txs[t].phase.Open? ==> !n.conns[c].inTx
    ensures OrderInv(n)
  {
    forall u | u in n.txs && u != t && Owns(n.txs[u].phase) ensures n.txs[u].phase.conn != c {
      assert u in s.txs && Owns(s.txs[u].phase);
    }
    forall u | u in n.txs && u != t ensures Holds(n, u) <==> Holds(s, u) {
      assert u in s.txs;
    }
  }

  lemma OrderUntouched(s: State, n: State, t: TxId)
    requires OrderInv(s) && n.conns == s.conns && t in n.txs && n.gated == s.gated
    requires forall u :: u in s.txs.Keys + n.txs.Keys && u != t ==> u in s.txs && u in n.txs && n.txs[u] == s.txs[u]
    requires !n.txs[t].phase.Open?
    requires Owns(n.txs[t].phase) ==> t in s.txs && Owns(s.txs[t].phase) && !s.txs[t].phase.Open? &&
                                      n.txs[t].phase.conn == s.txs[t].phase.conn
    ensures OrderInv(n)
  {
  }

  lemma OrderIdle(s: State, n: State, c: ConnId)
    requires ConnInv(s) && OrderInv(s) && c in s.conns && s.conns[c].idle
    requires n.conns == s.conns - {c} && n.txs == s.txs && n.gated == s.gated
    ensures OrderInv(n)
  {
    assert forall t :: Holds(s, t) <==> Holds(n, t);
  }

  lemma OrderEnd(s: State, n: State, t: TxId, ok: bool, stillOpen: bool)
    requires ConnInv(s) && ConnInv(n) && OrderInv(s) && t in s.txs && s.txs[t].phase.Open?
    requires s.txs[t].phase.conn in s.conns && (ok || !stillOpen) && n.gated == s.gated
    requires n.txs == EndDriver(s, t, ok, stillOpen).txs && n.conns == EndDriver(s, t, ok, stillOpen).conns
    ensures OrderInv(n)
  {
    OrderTouch(s, n, t, s.txs[t].phase.conn);
  }

  lemma OrderLease(s: State, step: Step)
    requires ConnInv(s) && OrderInv(s) && Enabled(s, step) && (step.LeaseIdle? || step.LeaseNew?)
    requires ConnInv(Apply(s, step))
    ensures OrderInv(Apply(s, step))
  {
    OrderTouch(s, Apply(s, step), step.t, step.c);
  }

  lemma OrderAccepted(s: State, t: TxId)
    requires GateInv(s) && ConnInv(s) && OrderInv(s) && Enabled(s, BeginAccepted(t))
    requires ConnInv(Apply(s, BeginAccepted(t)))
    ensures OrderInv(Apply(s, BeginAccepted(t)))
  {
    hide ConnInv, OrderInv;
    WriterHolds(s, BeginAccepted(t));
    hide GateInv;
    OrderTouch(s, Apply(s, BeginAccepted(t)), t, s.txs[t].phase.conn);
  }

  lemma OrderRefused(s: State, t: TxId, nested: bool)
    requires GateInv(s) && ConnInv(s) && OrderInv(s) && Enabled(s, BeginRefused(t, nested))
    requires ConnInv(Apply(s, BeginRefused(t, nested)))
    ensures OrderInv(Apply(s, BeginRefused(t, nested)))
  {
    hide ConnInv, OrderInv;
    WriterHolds(s, BeginRefused(t, nested));
    LeasedIsClean(s, t);
    hide GateInv;
    OrderTouch(s, Apply(s, BeginRefused(t, nested)), t, s.txs[t].phase.conn);
  }

  lemma LeasedIsClean(s: State, t: TxId)
    requires ConnInv(s) && t in s.txs && s.txs[t].phase.Leased?
    ensures s.txs[t].phase.conn in s.conns && !s.conns[s.txs[t].phase.conn].inTx && !s.conns[s.txs[t].phase.conn].flag
  {
  }

  lemma OrderPut(s: State, step: Step)
    requires ConnInv(s) && OrderInv(s) && Enabled(s, step) && step.PutConnection?
    requires ConnInv(Apply(s, step))
    ensures OrderInv(Apply(s, step))
  {
    OrderTouch(s, Apply(s, step), step.t, s.txs[step.t].phase.conn);
  }

  lemma OrderStep(s: State, step: Step)
    requires GateInv(s) && ConnInv(s) && OrderInv(s) && Enabled(s, step) && Orderly(s, step)
    ensures OrderInv(Apply(s, step))
  {
    hide ConnInv, OrderInv, GateInv;
    var n := Apply(s, step);
    ConnStep(s, step);
    match step
    case LeaseIdle(_, _) => OrderLease(s, step);
    case LeaseNew(_, _) => OrderLease(s, step);
    case BeginAccepted(t) => OrderAccepted(s, t);
    case BeginRefused(t, nested) => OrderRefused(s, t, nested);
    case DriverCommit(t, ok, stillOpen) => OrderEnd(s, n, t, ok, stillOpen);
    case DriverRollback(t, ok, stillOpen) => OrderEnd(s, n, t, ok, stillOpen);
    case PutConnection(_) => OrderPut(s, step);
    case CloseIdle(c) => OrderIdle(s, n, c);
    case _ => OrderUntouched(s, n, step.t);
  }

  lemma WriterHolds(s: State, step: Step)
    requires GateInv(s) && ConnInv(s) && Enabled(s, step) && !step.CloseIdle? && !step.Begin?
    ensures var tx := s.txs[step.t];
            s.gated && !tx.readOnly && (tx.phase.Admitted? || tx.phase.Leased?) ==> tx.hold.Live?
    ensures Owns(s.txs[step.t].phase) ==>
              s.txs[step.t].phase.conn in s.conns && !s.conns[s.txs[step.t].phase.conn].idle
  {
    assert Holds(s, step.t) || !Holds(s, step.t);
  }

  lemma {:induction false} OrderlyRunKeeps(s: State, steps: seq<Step>, end: State)
    requires GateInv(s) && ConnInv(s) && OrderInv(s) && OrderlyRun(s, steps, end)
    ensures GateInv(end) && OrderInv(end)
    decreases |steps|
  {
    hide GateInv, ConnInv, OrderInv, Enabled, Apply;
    if steps != [] {
      GateStep(s, steps[0]);
      ConnStep(s, steps[0]);
      OrderStep(s, steps[0]);
      OrderlyRunKeeps(Apply(s, steps[0]), steps[1..], end);
    }
  }

  /** In orderly runs a gated writer open in SQLite holds the token, so there is at most one. */
  lemma OrderlyRunsSerialise(gated: bool, steps: seq<Step>, s: State, t: TxId, u: TxId)
    requires OrderlyRun(Start(gated), steps, s)
    requires WriterOpen(s, t) && WriterOpen(s, u)
    ensures t == u && Holds(s, t)
  {
    OrderlyRunKeeps(Start(gated), steps, s);
    assert s.txs[t].phase.Open? && s.txs[u].phase.Open?;
    assert Holds(s, t) && Holds(s, u);
  }

  lemma {:induction false} RunsSnoc(s: State, steps: seq<Step>, mid: State, step: Step)
    requires Runs(s, steps, mid) && Enabled(mid, step)
    ensures Runs(s, steps + [step], Apply(mid, step))
    decreases |steps|
  {
    hide Enabled, Apply;
    if steps == [] {
      assert (steps + [step])[1..] == [];
    } else {
      assert (steps + [step])[1..] == steps[1..] + [step];
      RunsSnoc(Apply(s, steps[0]), steps[1..], mid, step);
    }
  }

  lemma StartReachable(gated: bool)
    ensures Reachable(gated, Start(gated))
  {
    assert Runs(Start(gated), [], Start(gated));
  }

  lemma {:induction false} ObeyingSnoc(rules: Rules, s: State, steps: seq<Step>, mid: State, step: Step)
    requires ObeyingRun(rules, s, steps, mid) && Enabled(mid, step) && Obeys(rules, mid, step)
    ensures ObeyingRun(rules, s, steps + [step], Apply(mid, step))
    decreases |steps|
  {
    hide Enabled, Apply, Obeys;
    if steps == [] {
      assert (steps + [step])[1..] == [];
    } else {
      assert (steps + [step])[1..] == steps[1..] + [step];
      ObeyingSnoc(rules, Apply(s, steps[0]), steps[1..], mid, step);
    }
  }

  lemma {:induction false} ObeyingRunRuns(rules: Rules, s: State, steps: seq<Step>, end: State)
    requires ObeyingRun(rules, s, steps, end)
    ensures Runs(s, steps, end)
    decreases |steps|
  {
    hide Enabled, Apply, Obeys;
    if steps != [] {
      ObeyingRunRuns(rules, Apply(s, steps[0]), steps[1..], end);
    }
  }

  lemma ObeyingStep(rules: Rules, s: State, steps: seq<Step>, mid: State, step: Step)
    returns (longer: seq<Step>, n: State)
    requires ObeyingRun(rules, s, steps, mid) && Enabled(mid, step) && Obeys(rules, mid, step)
    ensures longer == steps + [step] && n == Apply(mid, step) && ObeyingRun(rules, s, longer, n)
  {
    hide ObeyingRun, Apply, Enabled, Obeys;
    ObeyingSnoc(rules, s, steps, mid, step);
    longer, n := steps + [step], Apply(mid, step);
  }

  lemma NothingObeys(rules: Rules, s: State)
    ensures ObeyingRun(rules, s, [], s)
  {
  }

  lemma FirstWriterOpens(rules: Rules, t: TxId, c: ConnId) returns (steps: seq<Step>, s: State)
    ensures ObeyingRun(rules, Start(true), steps, s) && s.gated
    ensures s.txs == map[t := Tx(false, Live, Open(c))] && s.conns == map[c := Conn(true, true, false)] && s.token == 1
  {
    var start := Start(true);
    NothingObeys(rules, start);
    hide ObeyingRun;
    steps, s := ObeyingStep(rules, start, [], start, Begin(t, false));
    steps, s := ObeyingStep(rules, start, steps, s, LeaseNew(t, c));
    steps, s := ObeyingStep(rules, start, steps, s, BeginAccepted(t));
  }

  /** A second writer opens its transaction on a fresh connection while nobody holds the token. */
  lemma SecondWriterOpens(rules: Rules, s: State, steps: seq<Step>, mid: State, u: TxId, c: ConnId)
    returns (n: State)
    requires ObeyingRun(rules, s, steps, mid) && mid.gated && mid.token == 0 && u !in mid.txs && c !in mid.conns
    ensures ObeyingRun(rules, s, steps + [Begin(u, false), LeaseNew(u, c), BeginAccepted(u)], n)
    ensures WriterOpen(n, u) && forall t :: WriterOpen(mid, t) ==> t != u && WriterOpen(n, t)
  {
    hide ObeyingRun;
    var run;
    run, n := ObeyingStep(rules, s, steps, mid, Begin(u, false));
    run, n := ObeyingStep(rules, s, run, n, LeaseNew(u, c));
    run, n := ObeyingStep(rules, s, run, n, BeginAccepted(u));
    assert run == steps + [Begin(u, false), LeaseNew(u, c), BeginAccepted(u)];
  }

  /**
   * Neither rule is enough without the other: a run that keeps one of them and breaks the other has two writers open
   * beside each other. Early, the outer release comes before the driver's rollback; otherwise a COMMIT fails and leaves
   * its transaction open until the connection is closed.
   */
  lemma BothRulesAreNeeded(early: bool) returns (steps: seq<Step>, s: State, t: TxId, u: TxId)
    ensures ObeyingRun(Rules(!early, early), Start(true), steps, s) && !OrderlyRun(Start(true), steps, s)
    ensures Reachable(true, s) && t != u && WriterOpen(s, t) && WriterOpen(s, u)
  {
    hide ObeyingRun, Reachable;
    var rules, start := Rules(!early, early), Start(true);
    t, u := 0, 1;
    steps, s := FirstWriterOpens(rules, t, 0);
    if early {
      steps, s := ObeyingStep(rules, start, steps, s, OuterRelease(t));
    } else {
      steps, s := ObeyingStep(rules, start, steps, s, DriverCommit(t, false, true));
      steps, s := ObeyingStep(rules, start, steps, s, DriverRelease(t));
    }
    var more := SecondWriterOpens(rules, start, steps, s, u, 1);
    assert WriterOpen(s, t);
    steps, s := steps + [Begin(u, false), LeaseNew(u, 1), BeginAccepted(u)], more;
    ObeyingRunRuns(rules, start, steps, s);
    assert Reachable(true, s) by {
      hide Runs;
      ReachedBy(true, steps, s);
    }
    if OrderlyRun(start, steps, s) {
      OrderlyRunsSerialise(true, steps, s, t, u);
    }
  }

  lemma ReachedBy(gated: bool, steps: seq<Step>, s: State)
    requires Runs(Start(gated), steps, s)
    ensures Reachable(gated, s)
  {
  }

  // ----- when an open writer stays alone -----

  /** t is the one gated writer open in SQLite. */
  ghost predicate Alone(s: State, t: TxId) {
    WriterOpen(s, t) && forall u :: WriterOpen(s, u) ==> u == t
  }

  predicate NotBy(step: Step, t: TxId) {
    step.CloseIdle? || step.t != t
  }

  /** Whatever the others do while t makes no step, nobody else opens a transaction beside it. */
  ghost predicate StaysAlone(s: State, t: TxId) {
    forall steps, n :: Runs(s, steps, n) && (forall i :: 0 <= i < |steps| ==> NotBy(steps[i], t)) ==> Alone(n, t)
  }

  /** Other transactions leave the connection that t owns alone. */
  lemma OwnConnectionKept(s: State, step: Step, t: TxId)
    requires ConnInv(s) && Enabled(s, step) && NotBy(step, t) && t in s.txs && Owns(s.txs[t].phase)
    ensures var c := s.txs[t].phase.conn;
            c in s.conns && c in Apply(s, step).conns && Apply(s, step).conns[c] == s.conns[c]
  {
  }

  /** Only an accepted BEGIN opens a writer's transaction, and its writer holds the token. */
  lemma OpenedByAccepted(s: State, step: Step, u: TxId)
    requires GateInv(s) && ConnInv(s) && Enabled(s, step) && WriterOpen(Apply(s, step), u)
    ensures WriterOpen(s, u) || Holds(s, u)
  {
    if NotBy(step, u) {
      OwnConnectionKept(s, step, u);
    } else if step.BeginAccepted? {
      WriterHolds(s, step);
    }
  }

  lemma AloneStep(s: State, step: Step, t: TxId)
    requires GateInv(s) && ConnInv(s) && Holds(s, t) && Alone(s, t) && Enabled(s, step) && NotBy(step, t)
    ensures Alone(Apply(s, step), t) && Holds(Apply(s, step), t)
  {
    OthersUntouched(s, step, t);
    OwnConnectionKept(s, step, t);
    var n := Apply(s, step);
    forall u | WriterOpen(n, u) ensures u == t {
      OpenedByAccepted(s, step, u);
    }
  }

  lemma {:induction false} HolderStaysAlone(s: State, steps: seq<Step>, n: State, t: TxId)
    requires GateInv(s) && ConnInv(s) && Holds(s, t) && Alone(s, t)
    requires Runs(s, steps, n) && forall i :: 0 <= i < |steps| ==> NotBy(steps[i], t)
    ensures Alone(n, t)
    decreases |steps|
  {
    hide GateInv, ConnInv, Enabled, Apply, Alone, Holds;
    if steps != [] {
      AloneStep(s, steps[0], t);
      GateStep(s, steps[0]);
      ConnStep(s, steps[0]);
      assert forall i :: 0 <= i < |steps| - 1 ==> steps[1..][i] == steps[i + 1];
      HolderStaysAlone(Apply(s, steps[0]), steps[1..], n, t);
    }
  }

  /** There is always a number not yet in use. */
  lemma FreshNumber(used: set<nat>) returns (n: nat)
    ensures forall k :: k in used ==> k < n
    decreases |used|
  {
    n := 0;
    if k :| k in used {
      var rest := FreshNumber(used - {k});
      n := if k < rest then rest else k + 1;
      forall j | j in used ensures j < n {
        assert j == k || j in used - {k};
      }
    }
  }

  lemma {:induction false} AnyRunObeysNoRule(s: State, steps: seq<Step>, end: State)
    requires Runs(s, steps, end)
    ensures ObeyingRun(Rules(false, false), s, steps, end) && end.gated == s.gated
    decreases |steps|
  {
    if steps != [] {
      AnyRunObeysNoRule(Apply(s, steps[0]), steps[1..], end);
    }
  }

  /** Once t has lost the token, others can free it and open a transaction beside t's. */
  lemma OtherCanOpen(s: State, t: TxId) returns (steps: seq<Step>, n: State, u: TxId)
    requires Reachable(true, s) && s.gated && WriterOpen(s, t) && !Holds(s, t)
    ensures Runs(s, steps, n) && forall i :: 0 <= i < |steps| ==> NotBy(steps[i], t)
    ensures u != t && WriterOpen(n, u)
  {
    ReachableInv(true, s);
    var mid, free := s, [];
    if v :| Holds(s, v) {
      free, mid := HolderCanLeave(true, s, v);
      OwnRunsLeaveOthers(s, free, mid, v, t);
    }
    AnyRunObeysNoRule(s, free, mid);
    hide ObeyingRun, Runs, Reachable, GateInv, ConnInv;
    u := FreshNumber(mid.txs.Keys);
    var c := FreshNumber(mid.conns.Keys);
    n := SecondWriterOpens(Rules(false, false), s, free, mid, u, c);
    steps := free + [Begin(u, false), LeaseNew(u, c), BeginAccepted(u)];
    ObeyingRunRuns(Rules(false, false), s, steps, n);
  }

  /** The one writer open in SQLite stays alone whatever the others do exactly while it holds the token. */
  lemma StaysAloneExactly(s: State, t: TxId)
    requires Reachable(true, s) && Alone(s, t)
    ensures StaysAlone(s, t) <==> Holds(s, t)
  {
    ReachableInv(true, s);
    if Holds(s, t) {
      forall steps, n | Runs(s, steps, n) && forall i :: 0 <= i < |steps| ==> NotBy(steps[i], t) ensures Alone(n, t) {
        HolderStaysAlone(s, steps, n, t);
      }
    } else {
      var steps, n, u := OtherCanOpen(s, t);
      assert !Alone(n, t);
    }
  }
}
