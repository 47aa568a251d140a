/** The pool guard's own code: the methods that carry out its atomic steps on the shared fields. */
module SqlitePool {
  import opened Text
  import opened PoolGuard

  /** Nothing but t's own entry differs. */
  predicate OthersKept(before: map<TxId, Tx>, after: map<TxId, Tx>, t: TxId) {
    forall u :: u in before.Keys + after.Keys && u != t ==> u in before && u in after && after[u] == before[u]
  }

  /** No transaction is open or flagged on the connection. */
  predicate Clean(c: Conn) {
    !c.inTx && !c.flag
  }

  lemma OtherKept(s: State, step: Step, u: TxId)
    requires Enabled(s, step) && !step.CloseIdle? && u != step.t
    ensures u in Apply(s, step).txs <==> u in s.txs
    ensures u in s.txs ==> Apply(s, step).txs[u] == s.txs[u]
  {
  }

  lemma StepKept(s: State, step: Step)
    requires GateInv(s) && ConnInv(s) && Enabled(s, step) && !step.CloseIdle?
    ensures GateInv(Apply(s, step)) && ConnInv(Apply(s, step))
    ensures OthersKept(s.txs, Apply(s, step).txs, step.t)
  {
    GateStep(s, step);
    ConnStep(s, step);
    hide GateInv, ConnInv, Apply, Enabled;
    forall u | u != step.t ensures u in Apply(s, step).txs <==> u in s.txs
                           ensures u in s.txs ==> Apply(s, step).txs[u] == s.txs[u] {
      OtherKept(s, step, u);
    }
  }

  lemma ReleasesAtOnce(s: State, t: TxId)
    requires GateInv(s) && t in s.txs
    ensures CanRelease(s, t)
  {
    assert Holds(s, t) ==> s.token == 1;
  }

  lemma OwnedConnection(s: State, t: TxId)
    requires ConnInv(s) && t in s.txs && Owns(s.txs[t].phase)
    ensures s.txs[t].phase.conn in s.conns && !s.conns[s.txs[t].phase.conn].idle
    ensures s.conns[s.txs[t].phase.conn].inTx ==> s.conns[s.txs[t].phase.conn].flag
    ensures s.txs[t].phase.Leased? ==> Clean(s.conns[s.txs[t].phase.conn])
  {
  }

  lemma IdleIsClean(s: State, c: ConnId)
    requires ConnInv(s) && c in s.conns && s.conns[c].idle
    ensures Clean(s.conns[c])
    ensures forall t :: t in s.txs && Owns(s.txs[t].phase) ==> s.txs[t].phase.conn != c
  {
  }

  /** What one call of Transact meets on its way: the caller's context, the pool and the database. */
  datatype Course = Course(
    cancelled: bool, pooled: Option<ConnId>, spare: ConnId, connects: bool,
    accepted: bool, nested: bool, commits: bool, ok: bool, stillOpen: bool)
  {
    function Connection(): ConnId {
      if pooled.Some? then pooled.value else spare
    }
  }

  class Pool {
    const gated: bool
    var token: nat
    var txs: map<TxId, Tx>
    var conns: map<ConnId, Conn>
    var waits: nat
    var evicted: nat
    var dirtyCommits: nat
    var dirtyRollbacks: nat

    function Snapshot(): State
      reads this
    {
      State(gated, token, txs, conns, waits, evicted, dirtyCommits, dirtyRollbacks)
    }

    ghost predicate Valid()
      reads this
    {
      GateInv(Snapshot()) && ConnInv(Snapshot())
    }

    /** The gate exists only when the pool may hold more than one connection. */
    constructor (maxOpenConns: int)
      ensures Valid() && Snapshot() == Start(maxOpenConns > 1)
      ensures Reachable(maxOpenConns > 1, Snapshot())
    {
      gated := maxOpenConns > 1;
      token, txs, conns := 0, map[], map[];
      waits, evicted, dirtyCommits, dirtyRollbacks := 0, 0, 0, 0;
      new;
      StartReachable(maxOpenConns > 1);
    }

    method MoveTo(t: TxId, p: Phase)
      requires t in txs
      modifies this`txs
      ensures Snapshot() == SetPhase(old(Snapshot()), t, p)
    {
      txs := txs[t := txs[t].(phase := p)];
    }

    /** writeHold.Release with its once guards: only a live hold gives anything back, and it does so once. */
    method ReleaseHold(t: TxId)
      requires CanRelease(Snapshot(), t)
      modifies this`token, this`txs
      ensures Snapshot() == Release(old(Snapshot()), t)
      ensures t in txs && !Holds(Snapshot(), t) && OthersKept(old(txs), txs, t)
      ensures !old(Holds(Snapshot(), t)) ==> token == old(token) && txs == old(txs)
    {
      if txs[t].hold.Live? {
        txs := txs[t := txs[t].(hold := Spent)];
        token := token - 1;
      }
    }

    /**
     * gatedConnPool.BeginTx up to the gate: a reader passes and never touches the token, a writer gets in exactly
     * when no other writer holds it and queues otherwise.
     */
    method BeginTx(t: TxId, readOnly: bool)
      requires Valid() && t !in txs
      modifies this
      ensures Valid() && Snapshot() == Apply(old(Snapshot()), Begin(t, readOnly))
      ensures t in txs && OthersKept(old(txs), txs, t) && conns == old(conns)
      ensures !gated || readOnly ==> token == old(token) && txs[t].phase.Admitted? && !Holds(Snapshot(), t)
      ensures gated && !readOnly ==>
                (if forall u :: !Holds(old(Snapshot()), u) then Holds(Snapshot(), t) && txs[t].phase.Admitted?
                 else txs[t].phase.Waiting? && token == old(token))
    {
      hide GateInv, ConnInv;
      StepKept(Snapshot(), Begin(t, readOnly));
      TokenTells(Snapshot());
      if !gated || readOnly {
        txs := txs[t := Tx(readOnly, NoHold, Admitted)];
        return;
      }
      if token == 0 {
        token := token + 1;
        txs := txs[t := Tx(false, Live, Admitted)];
        return;
      }
      waits := waits + 1;
      txs := txs[t := Tx(false, NoHold, Waiting)];
    }

    /** The queued select: a granted writer is the only holder, a cancelled one never touches the token. */
    method Wait(t: TxId, cancelled: bool)
      requires Valid() && t in txs && txs[t].phase.Waiting? && (cancelled || token == 0)
      modifies this
      ensures Valid() && Snapshot() == Apply(old(Snapshot()), if cancelled then GiveUp(t) else Grant(t))
      ensures t in txs && OthersKept(old(txs), txs, t) && conns == old(conns)
      ensures cancelled ==> token == old(token) && Over(txs[t].phase) && !Holds(Snapshot(), t)
      ensures !cancelled ==> Holds(Snapshot(), t) && forall u :: Holds(Snapshot(), u) ==> u == t
    {
      hide GateInv, ConnInv;
      ghost var s := Snapshot();
      StepKept(s, if cancelled then GiveUp(t) else Grant(t));
      WaiterHoldsNothing(s, t);
      if cancelled {
        MoveTo(t, Refused);
      } else {
        token := token + 1;
        txs := txs[t := Tx(false, Live, Admitted)];
        OnlyHolder(Snapshot(), t);
      }
    }

    /** guardConn.ResetSession: a flagged connection is refused; one the pool kept never is. */
    method ResetSession(c: ConnId) returns (bad: bool)
      requires c in conns
      modifies this`evicted
      ensures bad <==> conns[c].flag
      ensures evicted == if bad then old(evicted) + 1 else old(evicted)
      ensures old(Valid()) && conns[c].idle ==> Valid() && !bad && Clean(conns[c])
    {
      bad := conns[c].flag;
      if bad {
        evicted := evicted + 1;
      }
    }

    /**
     * Hands an idle connection to t unless ResetSession refuses it, which closes it. In a valid pool none is refused:
     * t gets a clean connection that nobody else has.
     */
    method Lease(t: TxId, c: ConnId)
      requires Enabled(Snapshot(), LeaseIdle(t, c))
      modifies this
      ensures Snapshot() == Apply(old(Snapshot()), LeaseIdle(t, c))
      ensures t in txs && OthersKept(old(txs), txs, t) && token == old(token) && txs[t].hold == old(txs[t].hold)
      ensures conns - {c} == old(conns) - {c}
      ensures old(Valid()) ==>
                && Valid() && txs[t].phase == Leased(c) && c in conns && Clean(conns[c])
                && forall u :: u in txs && u != t && Owns(txs[u].phase) ==> txs[u].phase.conn != c
    {
      hide GateInv, ConnInv;
      ghost var s := Snapshot();
      if Valid() {
        StepKept(s, LeaseIdle(t, c));
        IdleIsClean(s, c);
      }
      var bad := ResetSession(c);
      if bad {
        conns := conns - {c};
      } else {
        MoveTo(t, Leased(c));
        conns := conns[c := conns[c].(idle := false)];
      }
    }

    /** Opens a connection of t's own. */
    method Connect(t: TxId, c: ConnId)
      requires Valid() && t in txs && txs[t].phase.Admitted? && c !in conns
      modifies this
      ensures Valid() && Snapshot() == Apply(old(Snapshot()), LeaseNew(t, c))
      ensures t in txs && OthersKept(old(txs), txs, t) && token == old(token) && txs[t].hold == old(txs[t].hold)
      ensures txs[t].phase == Leased(c) && c in conns && Clean(conns[c]) && conns - {c} == old(conns)
    {
      hide GateInv, ConnInv;
      StepKept(Snapshot(), LeaseNew(t, c));
      conns := conns[c := Conn(false, false, false)];
      MoveTo(t, Leased(c));
    }

    /** gatedConnPool.BeginTx when the pool gave no connection: a writer's token is back, nobody else's is touched. */
    method GiveBack(t: TxId)
      requires Valid() && t in txs && txs[t].phase.Admitted?
      modifies this
      ensures Valid() && Snapshot() == Apply(old(Snapshot()), NoConnection(t))
      ensures t in txs && OthersKept(old(txs), txs, t) && conns == old(conns)
      ensures !Holds(Snapshot(), t) && Over(txs[t].phase)
      ensures token == if old(Holds(Snapshot(), t)) then 0 else old(token)
    {
      hide GateInv, ConnInv;
      ReleasesAtOnce(Snapshot(), t);
      StepKept(Snapshot(), NoConnection(t));
      TokenTells(Snapshot());
      ReleaseHold(t);
      MoveTo(t, Refused);
    }

    /**
     * guardConn.trackTx after BEGIN was answered: an open transaction is flagged and its writer still holds the token;
     * after a refusal the hold is gone, and a connection that was already inside a transaction is flagged.
     */
    method TrackTx(t: TxId, accepted: bool, nested: bool)
      requires Valid() && t in txs && txs[t].phase.Leased?
      modifies this
      ensures Valid()
      ensures Snapshot() == Apply(old(Snapshot()), if accepted then BeginAccepted(t) else BeginRefused(t, nested))
      ensures t in txs && OthersKept(old(txs), txs, t)
      ensures Owns(txs[t].phase) && txs[t].phase.conn == old(txs[t].phase.conn)
      ensures var c := old(txs[t].phase.conn);
              c in conns && conns - {c} == old(conns) - {c} && (conns[c].flag <==> accepted || nested)
      ensures accepted ==> txs[t].phase.Open? && token == old(token) && txs[t].hold == old(txs[t].hold)
      ensures !accepted ==> txs[t].phase.BeginFailed? && !Holds(Snapshot(), t)
      ensures !accepted ==> token == if old(Holds(Snapshot(), t)) then 0 else old(token)
    {
      hide GateInv, ConnInv;
      ReleasesAtOnce(Snapshot(), t);
      OwnedConnection(Snapshot(), t);
      StepKept(Snapshot(), if accepted then BeginAccepted(t) else BeginRefused(t, nested));
      TokenTells(Snapshot());
      var c := txs[t].phase.conn;
      if !accepted {
        if nested {
          conns := conns[c := conns[c].(flag := true)];
        }
        ReleaseHold(t);
        MoveTo(t, BeginFailed(c));
        return;
      }
      conns := conns[c := Conn(true, true, false)];
      MoveTo(t, Open(c));
    }

    method AnswerEnd(t: TxId, ok: bool, stillOpen: bool)
      requires t in txs && txs[t].phase.Open? && txs[t].phase.conn in conns
      modifies this`txs, this`conns
      ensures Snapshot() == EndDriver(old(Snapshot()), t, ok, stillOpen)
    {
      var c := txs[t].phase.conn;
      if ok {
        conns := conns[c := conns[c].(inTx := false, flag := false)];
      } else {
        conns := conns[c := conns[c].(inTx := conns[c].inTx && stillOpen)];
      }
      MoveTo(t, Ended(c));
    }

    /** guardTx.Commit up to its deferred release: the connection is clean exactly after success, flagged otherwise. */
    method Commit(t: TxId, ok: bool, stillOpen: bool)
      requires Valid() && t in txs && txs[t].phase.Open?
      modifies this
      ensures Valid() && Snapshot() == Apply(old(Snapshot()), DriverCommit(t, ok, stillOpen))
      ensures t in txs && OthersKept(old(txs), txs, t) && token == old(token) && txs[t].hold == old(txs[t].hold)
      ensures var c := old(txs[t].phase.conn);
              && txs[t].phase == Ended(c) && c in conns && conns - {c} == old(conns) - {c}
              && (if ok then Clean(conns[c]) else conns[c].flag)
    {
      EndTells(Snapshot(), DriverCommit(t, ok, stillOpen));
      EndApplies(Snapshot(), t, ok, stillOpen);
      hide GateInv, ConnInv, OthersKept, EndDriver, Clean, Apply, Enabled;
      StepKept(Snapshot(), DriverCommit(t, ok, stillOpen));
      AnswerEnd(t, ok, stillOpen);
      if !ok {
        dirtyCommits := dirtyCommits + 1;
      }
    }

    /** guardTx.Rollback, likewise. */
    method Rollback(t: TxId, ok: bool, stillOpen: bool)
      requires Valid() && t in txs && txs[t].phase.Open?
      modifies this
      ensures Valid() && Snapshot() == Apply(old(Snapshot()), DriverRollback(t, ok, stillOpen))
      ensures t in txs && OthersKept(old(txs), txs, t) && token == old(token) && txs[t].hold == old(txs[t].hold)
      ensures var c := old(txs[t].phase.conn);
              && txs[t].phase == Ended(c) && c in conns && conns - {c} == old(conns) - {c}
              && (if ok then Clean(conns[c]) else conns[c].flag)
    {
      EndTells(Snapshot(), DriverRollback(t, ok, stillOpen));
      EndApplies(Snapshot(), t, ok, stillOpen);
      hide GateInv, ConnInv, OthersKept, EndDriver, Clean, Apply, Enabled;
      StepKept(Snapshot(), DriverRollback(t, ok, stillOpen));
      AnswerEnd(t, ok, stillOpen);
      if !ok {
        dirtyRollbacks := dirtyRollbacks + 1;
      }
    }

    /** The deferred release of guardTx.Commit and guardTx.Rollback: it never blocks and frees nobody else's token. */
    method DeferredRelease(t: TxId)
      requires Valid() && t in txs && txs[t].phase.Ended?
      modifies this
      ensures Valid() && Snapshot() == Apply(old(Snapshot()), DriverRelease(t))
      ensures t in txs && OthersKept(old(txs), txs, t) && conns == old(conns)
      ensures txs[t].phase == Returning(old(txs[t].phase.conn))
      ensures !Holds(Snapshot(), t) && (token == if old(Holds(Snapshot(), t)) then 0 else old(token))
    {
      hide GateInv, ConnInv;
      ReleasesAtOnce(Snapshot(), t);
      StepKept(Snapshot(), DriverRelease(t));
      TokenTells(Snapshot());
      var c := txs[t].phase.conn;
      ReleaseHold(t);
      MoveTo(t, Returning(c));
    }

    /** guardConn.IsValid: what the pool keeps has neither flag nor open transaction. */
    method IsValid(c: ConnId) returns (valid: bool)
      requires c in conns
      modifies this`evicted
      ensures valid <==> !conns[c].flag
      ensures evicted == if valid then old(evicted) else old(evicted) + 1
      ensures old(Valid()) && valid ==> Clean(conns[c])
    {
      valid := !conns[c].flag;
      if !valid {
        evicted := evicted + 1;
      }
    }

    /** The connection goes back: what the pool then has of it is idle and clean, or nothing. */
    method PutConn(t: TxId)
      requires Valid() && t in txs && (txs[t].phase.Returning? || txs[t].phase.BeginFailed?)
      modifies this
      ensures Valid() && Snapshot() == Apply(old(Snapshot()), PutConnection(t))
      ensures t in txs && OthersKept(old(txs), txs, t) && token == old(token) && txs[t].hold == old(txs[t].hold)
      ensures txs[t].phase == if old(txs[t].phase).Returning? then Closed else Failed
      ensures var c := old(txs[t].phase.conn);
              conns - {c} == old(conns) - {c} && (c in conns ==> conns[c].idle && Clean(conns[c]))
    {
      hide GateInv;
      OwnedConnection(Snapshot(), t);
      StepKept(Snapshot(), PutConnection(t));
      var c := txs[t].phase.conn;
      var valid := IsValid(c);
      hide ConnInv;
      if valid {
        conns := conns[c := conns[c].(idle := true)];
      } else {
        conns := conns - {c};
      }
      MoveTo(t, if txs[t].phase.Returning? then Closed else Failed);
    }

    /**
     * The outer layer's release: gatedTx after Commit or Rollback, BeginTx after a refused BEGIN. Whether or not the
     * driver layer has released before, t holds nothing afterwards, and a token that has gone to somebody else stays.
     */
    method OuterLayerRelease(t: TxId)
      requires Valid() && t in txs && OuterMayRelease(txs[t].phase)
      modifies this
      ensures Valid() && Snapshot() == Apply(old(Snapshot()), OuterRelease(t))
      ensures t in txs && OthersKept(old(txs), txs, t) && conns == old(conns) && !Holds(Snapshot(), t)
      ensures forall u :: u != t ==> (Holds(Snapshot(), u) <==> Holds(old(Snapshot()), u))
      ensures token == if old(Holds(Snapshot(), t)) then 0 else old(token)
      ensures old(!Holds(Snapshot(), t) && !txs[t].phase.Failed?) ==> Snapshot() == old(Snapshot())
      ensures txs[t].phase == if old(txs[t].phase).Failed? then Refused else old(txs[t].phase)
    {
      hide GateInv, ConnInv;
      ReleasesAtOnce(Snapshot(), t);
      StepKept(Snapshot(), OuterRelease(t));
      TokenTells(Snapshot());
      ReleaseHold(t);
      if txs[t].phase.Failed? {
        MoveTo(t, Refused);
      }
    }

    /** The way to a connection: through the gate, then from the pool or a new one. */
    method Obtain(t: TxId, readOnly: bool, e: Course) returns (got: bool)
      requires Valid() && t !in txs && e.spare !in conns
      requires e.pooled.Some? ==> e.pooled.value in conns && conns[e.pooled.value].idle
      requires gated && !readOnly && token == 1 ==> e.cancelled
      modifies this
      ensures Valid() && t in txs && OthersKept(old(txs), txs, t)
      ensures !got ==> Over(txs[t].phase) && token == old(token) && conns == old(conns)
      ensures var c := e.Connection();
              got ==> txs[t].phase == Leased(c) && c in conns && conns - {c} == old(conns) - {c}
      ensures got ==> token == if Holds(Snapshot(), t) then 1 else old(token)
      ensures Holds(Snapshot(), t) ==> old(token) == 0
    {
      hide GateInv, ConnInv, Apply, Clean;
      TokenTells(Snapshot());
      BeginTx(t, readOnly);
      TokenTells(Snapshot());
      if txs[t].phase.Waiting? {
        Wait(t, true);
        return false;
      }
      if !e.connects {
        GiveBack(t);
        return false;
      }
      if e.pooled.Some? {
        Lease(t, e.pooled.value);
      } else {
        Connect(t, e.spare);
      }
      return true;
    }

    /**
     * A whole transaction that meets no other on its way, from BeginTx to the outer layer's release: whatever fails,
     * the token is where it was, every other transaction is as it was, and the connection is back clean or gone.
     */
    method Transact(t: TxId, readOnly: bool, e: Course) returns (committed: bool)
      requires Valid() && t !in txs && e.spare !in conns
      requires e.pooled.Some? ==> e.pooled.value in conns && conns[e.pooled.value].idle
      requires gated && !readOnly && token == 1 ==> e.cancelled
      modifies this
      ensures Valid() && OthersKept(old(txs), txs, t) && t in txs && Over(txs[t].phase)
      ensures token == old(token) && !Holds(Snapshot(), t)
      ensures var c := e.Connection();
              conns - {c} == old(conns) - {c} && (c in conns ==> conns[c].idle && Clean(conns[c]))
      ensures committed ==> e.accepted && e.commits && e.ok
    {
      hide GateInv, ConnInv, Apply, Clean;
      committed := false;
      if e.pooled.Some? {
        IdleIsClean(Snapshot(), e.pooled.value);
      }
      var got := Obtain(t, readOnly, e);
      if !got {
        OverHoldsNothing(Snapshot(), t);
        return;
      }
      TokenTells(Snapshot());
      committed := RunAndEnd(t, e);
      PutConn(t);
      OuterLayerRelease(t);
    }

    /** BEGIN, and after it COMMIT or ROLLBACK with the driver layer's release. */
    method RunAndEnd(t: TxId, e: Course) returns (committed: bool)
      requires Valid() && t in txs && txs[t].phase.Leased?
      modifies this
      ensures Valid() && t in txs && OthersKept(old(txs), txs, t) && !Holds(Snapshot(), t)
      ensures (txs[t].phase.Returning? || txs[t].phase.BeginFailed?) && txs[t].phase.conn == old(txs[t].phase.conn)
      ensures token == if old(Holds(Snapshot(), t)) then 0 else old(token)
      ensures conns - {old(txs[t].phase.conn)} == old(conns) - {old(txs[t].phase.conn)}
      ensures committed ==> e.accepted && e.commits && e.ok
    {
      hide GateInv, ConnInv, Apply, Clean;
      committed := false;
      TrackTx(t, e.accepted, e.nested);
      if !e.accepted {
        return;
      }
      if e.commits {
        Commit(t, e.ok, e.stillOpen);
        committed := e.ok;
      } else {
        Rollback(t, e.ok, e.stillOpen);
      }
      DeferredRelease(t);
    }
  }

  lemma OverHoldsNothing(s: State, t: TxId)
    requires GateInv(s) && t in s.txs && Over(s.txs[t].phase)
    ensures !Holds(s, t)
  {
  }

  lemma TokenTells(s: State)
    requires GateInv(s)
    ensures s.token == 0 <==> forall t :: !Holds(s, t)
    ensures s.token <= 1 && (forall t :: Holds(s, t) ==> s.token == 1 && s.gated)
  {
  }

  lemma OnlyHolder(s: State, t: TxId)
    requires GateInv(s) && Holds(s, t)
    ensures forall u :: Holds(s, u) ==> u == t
  {
  }

  lemma WaiterHoldsNothing(s: State, t: TxId)
    requires GateInv(s) && t in s.txs && s.txs[t].phase.Waiting?
    ensures !Holds(s, t)
  {
  }

  lemma EndApplies(s: State, t: TxId, ok: bool, stillOpen: bool)
    requires ConnInv(s) && t in s.txs && s.txs[t].phase.Open?
    ensures s.txs[t].phase.conn in s.conns
    ensures Enabled(s, DriverCommit(t, ok, stillOpen)) && Enabled(s, DriverRollback(t, ok, stillOpen))
    ensures var n := EndDriver(s, t, ok, stillOpen);
            && Apply(s, DriverCommit(t, ok, stillOpen)) == n.(dirtyCommits := s.dirtyCommits + if ok then 0 else 1)
            && Apply(s, DriverRollback(t, ok, stillOpen)) ==
               n.(dirtyRollbacks := s.dirtyRollbacks + if ok then 0 else 1)
            && n.dirtyCommits == s.dirtyCommits && n.dirtyRollbacks == s.dirtyRollbacks
  {
  }

  /** After COMMIT or ROLLBACK the connection is clean exactly on success; nothing else has moved. */
  lemma EndTells(s: State, step: Step)
    requires ConnInv(s) && (step.DriverCommit? || step.DriverRollback?) && step.t in s.txs && s.txs[step.t].phase.Open?
    ensures Enabled(s, step)
    ensures var n, c := Apply(s, step), s.txs[step.t].phase.conn;
            && step.t in n.txs && n.txs[step.t].phase == Ended(c) && n.txs[step.t].hold == s.txs[step.t].hold
            && n.token == s.token && c in n.conns && n.conns - {c} == s.conns - {c}
            && (if step.ok then Clean(n.conns[c]) else n.conns[c].flag)
  {
  }
}
