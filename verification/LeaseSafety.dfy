/** What every interleaving keeps: one active lease per address on a gateway, and no insert
    that the unique index would reject. */
module LeaseSafety {
  import opened Words
  import opened Selection
  import opened Allocation
  import opened StoreTables
  import opened LeaseProtocol

  /** No two committed active leases of one gateway have the same IPv4 address. */
  ghost predicate NoDoubleAllocation(db: Db) {
    forall i, j :: i != j && IsActive(db, i) && IsActive(db, j) && db.leases[i].gateway == db.leases[j].gateway
      ==> db.leases[i].v4 != db.leases[j].v4
  }

  ghost predicate TxOk(db: Db, x: Tx) {
    && (x.phase == Begun || x.phase == Checked ==> x.released == {})
    && (forall id :: id in x.released ==> ActiveOf(db, x.device, id))
    && (x.phase == Gathered || x.phase == Inserted ==>
        forall id :: ActiveOn(db, x.gateway, id) && id !in x.released ==> db.leases[id].v4 in x.used)
    && (x.phase == Inserted ==>
        && x.id !in db.leases
        && x.lease.state == Active && x.lease.gateway == x.gateway && x.lease.device == x.device
        && x.lease.v4 !in x.used)
  }

  ghost predicate Apart(x: Tx, y: Tx) {
    && x.released !! y.released
    && (HoldsGateway(x) && HoldsGateway(y) ==> x.gateway != y.gateway)
    && (x.phase == Inserted && y.phase == Inserted ==> x.id != y.id)
  }

  ghost predicate Inv(s: State) {
    && NoDoubleAllocation(s.db)
    && (forall t :: t in s.txs ==> TxOk(s.db, s.txs[t]))
    && (forall t, t' :: t in s.txs && t' in s.txs && t != t' ==> Apart(s.txs[t], s.txs[t']))
  }

  /** The change from db to db' only takes active leases away, none of them locked. */
  ghost predicate OnlyDeactivates(s: State, db': Db) {
    && db'.leases.Keys == s.db.leases.Keys
    && (forall id :: id in s.db.leases ==>
        var l, l' := s.db.leases[id], db'.leases[id];
        && l'.gateway == l.gateway && l'.device == l.device && l'.key == l.key && l'.v4 == l.v4 && l'.v6 == l.v6
        && (l'.state == Active ==> l.state == Active)
        && (RowLocked(s, id) ==> l'.state == l.state))
  }

  lemma DeactivationKeepsInv(s: State, db': Db)
    requires Inv(s) && OnlyDeactivates(s, db')
    ensures Inv(s.(db := db'))
  {
    forall t | t in s.txs
      ensures TxOk(db', s.txs[t])
    {
      var x := s.txs[t];
      assert TxOk(s.db, x);
      forall id | id in x.released
        ensures ActiveOf(db', x.device, id)
      {
        assert ActiveOf(s.db, x.device, id) && RowLocked(s, id);
      }
      forall id | ActiveOn(db', x.gateway, id)
        ensures ActiveOn(s.db, x.gateway, id)
      {
      }
    }
  }

  lemma LeavingKeepsInv(s: State, t: Id)
    requires Inv(s)
    ensures Inv(Without(s, t))
  {
  }

  lemma JoiningKeepsInv(s: State, t: Id, x: Tx)
    requires Inv(s) && TxOk(s.db, x)
    requires forall t' :: t' in s.txs && t' != t ==> Apart(x, s.txs[t']) && Apart(s.txs[t'], x)
    ensures Inv(With(s, t, x))
  {
  }

  /** The lowest free address of a transaction that holds its gateway's row is free in the
      unique index: whatever was read before is still all there is. */
  lemma InsertNeverRejected(s: State, t: Id, ip: uint32)
    requires Inv(s) && IsAt(s, t, Gathered) && ip !in s.txs[t].used
    ensures !IndexConflict(s, t, ip)
  {
    var x := s.txs[t];
    assert TxOk(s.db, x);
    forall t' | t' in s.txs && t' != t && s.txs[t'].phase == Inserted
      ensures s.txs[t'].gateway != x.gateway
    {
      assert Apart(x, s.txs[t']);
    }
  }

  lemma CommitKeepsInv(s: State, t: Id)
    requires Inv(s) && IsAt(s, t, Inserted)
    ensures Inv(Apply(s, Commit(t)))
  {
    var x := s.txs[t];
    assert TxOk(s.db, x);
    var s' := Apply(s, Commit(t));
    assert forall id :: IsActive(s'.db, id) ==>
      id == x.id || (IsActive(s.db, id) && id !in x.released && s'.db.leases[id] == s.db.leases[id]);
    forall u | u in s'.txs
      ensures TxOk(s'.db, s'.txs[u])
    {
      var y := s.txs[u];
      assert TxOk(s.db, y) && Apart(x, y);
      forall id | id in y.released
        ensures ActiveOf(s'.db, y.device, id)
      {
        assert ActiveOf(s.db, y.device, id);
      }
    }
  }

  lemma TxStepKeepsInv(s: State, step: Step)
    requires Inv(s) && Enabled(s, step)
    requires step.Begin? || step.Check? || step.Free? || step.Choose? || step.LockGateway? || step.Gather?
    ensures Inv(Apply(s, step))
  {
    var s' := Apply(s, step);
    if step.t in s'.txs {
      var x := s'.txs[step.t];
      if step.t in s.txs {
        assert TxOk(s.db, s.txs[step.t]);
        forall t' | t' in s.txs && t' != step.t
          ensures Apart(x, s.txs[t']) && Apart(s.txs[t'], x)
        {
          assert Apart(s.txs[step.t], s.txs[t']) && Apart(s.txs[t'], s.txs[step.t]);
          if step.Free? {
            assert forall id :: id in x.released ==> !RowLocked(s, id);
          }
        }
      }
      JoiningKeepsInv(s, step.t, x);
    } else {
      LeavingKeepsInv(s, step.t);
    }
  }

  lemma InsertKeepsInv(s: State, step: Step)
    requires Inv(s) && Enabled(s, step) && step.Insert?
    ensures Inv(Apply(s, step)) && IsAt(Apply(s, step), step.t, Inserted)
  {
    InsertNeverRejected(s, step.t, step.ip);
    var x := Apply(s, step).txs[step.t];
    assert TxOk(s.db, s.txs[step.t]);
    forall t' | t' in s.txs && t' != step.t
      ensures Apart(x, s.txs[t']) && Apart(s.txs[t'], x)
    {
      assert Apart(s.txs[step.t], s.txs[t']) && Apart(s.txs[t'], s.txs[step.t]);
    }
    JoiningKeepsInv(s, step.t, x);
  }

  predicate IsBackground(step: Step) {
    || step.ReleaseStep? || step.RenewStep? || step.ExpireStale? || step.ExpireUnhealthy?
    || step.RevokeMark? || step.RevokeLeases? || step.AddDevice? || step.RegisterStep?
    || step.HeartbeatStep? || step.DeregisterStep? || step.MarkStale?
  }

  lemma StatesOnlyDeactivate(s: State, rows: set<Id>, state: LeaseState)
    requires state != Active && Unlocked(s, rows)
    ensures OnlyDeactivates(s, WithStates(s.db, rows, state))
  {
  }

  lemma BackgroundOnlyDeactivates(s: State, step: Step)
    requires Enabled(s, step) && IsBackground(step)
    ensures Apply(s, step) == s.(db := Apply(s, step).db)
    ensures OnlyDeactivates(s, Apply(s, step).db)
  {
    match step
    case ReleaseStep(_, id) => StatesOnlyDeactivate(s, {id}, Released);
    case ExpireStale(rows, _) => StatesOnlyDeactivate(s, rows, Expired);
    case ExpireUnhealthy(rows) => StatesOnlyDeactivate(s, rows, Expired);
    case RevokeLeases(_, rows) => StatesOnlyDeactivate(s, rows, Expired);
    case _ =>
  }

  lemma StepKeepsInv(s: State, step: Step)
    requires Inv(s) && Enabled(s, step)
    ensures Inv(Apply(s, step))
  {
    if IsBackground(step) {
      BackgroundOnlyDeactivates(s, step);
      DeactivationKeepsInv(s, Apply(s, step).db);
    } else if step.Commit? {
      CommitKeepsInv(s, step.t);
    } else if step.Insert? {
      InsertKeepsInv(s, step);
    } else if step.NoGateway? || step.Full? || step.Rollback? {
      LeavingKeepsInv(s, step.t);
    } else {
      TxStepKeepsInv(s, step);
    }
  }

  lemma {:induction false} RunKeepsInv(s: State, steps: seq<Step>)
    requires Inv(s) && ValidRun(s, steps)
    ensures Inv(Final(s, steps))
    decreases |steps|
  {
    if steps != [] {
      StepKeepsInv(s, steps[0]);
      RunKeepsInv(Apply(s, steps[0]), steps[1..]);
    }
  }

  /** From empty tables, every interleaving leaves the committed active leases of each
      gateway with distinct addresses, and whatever address the next insert is given, the
      unique index accepts it. */
  lemma NoInterleavingAllocatesTwice(s: State, steps: seq<Step>)
    requires Init(s) && ValidRun(s, steps)
    ensures NoDoubleAllocation(Final(s, steps).db)
    ensures forall step :: Enabled(Final(s, steps), step) && step.Insert? ==>
              !IndexConflict(Final(s, steps), step.t, step.ip)
  {
    RunKeepsInv(s, steps);
    forall step | Enabled(Final(s, steps), step) && step.Insert?
      ensures !IndexConflict(Final(s, steps), step.t, step.ip)
    {
      InsertNeverRejected(Final(s, steps), step.t, step.ip);
    }
  }

  /** A lease that has been released or has expired stays as it is, in every interleaving. */
  lemma ClosedLeaseStaysClosed(s: State, step: Step, id: Id)
    requires Inv(s) && Enabled(s, step)
    requires id in s.db.leases && s.db.leases[id].state != Active
    ensures id in Apply(s, step).db.leases && Apply(s, step).db.leases[id] == s.db.leases[id]
  {
    hide UsedAddresses, IsLowestFree, IsBest, IndexConflict, Candidates, NoDoubleAllocation, Apart;
    if step.Commit? {
      assert TxOk(s.db, s.txs[step.t]);
    }
  }

  /** So it does through the rest of every run. */
  lemma {:induction false} ClosedForever(s: State, steps: seq<Step>, id: Id)
    requires Inv(s) && ValidRun(s, steps)
    requires id in s.db.leases && s.db.leases[id].state != Active
    ensures id in Final(s, steps).db.leases && Final(s, steps).db.leases[id] == s.db.leases[id]
    decreases |steps|
  {
    hide Inv, Apply, Enabled;
    if steps != [] {
      StepKeepsInv(s, steps[0]);
      ClosedLeaseStaysClosed(s, steps[0], id);
      ClosedForever(Apply(s, steps[0]), steps[1..], id);
    }
  }
}
