/** Connect transactions interleaved, statement by statement, with everything else that
    writes the tables. A statement of an open transaction reads the committed rows together
    with its transaction's own changes; a row that a transaction has changed or locked
    stays locked until it commits or rolls back. */
module LeaseProtocol {
  import opened Options
  import opened Words
  import opened Selection
  import opened Allocation
  import opened StoreTables

  datatype Phase = Begun | Checked | Freed | Chose | Locked | Gathered | Inserted

  datatype Tx = Tx(
    phase: Phase, user: Id, device: Id, country: Id, key: Key,
    released: set<Id>,           // rows of step 1b, changed but not committed
    gateway: Id, net4: Net4, net6: Option<Net6>,
    used: set<uint32>,
    id: Id, lease: Lease)        // the row of step 6, inserted but not committed

  datatype State = State(db: Db, txs: map<Id, Tx>)

  datatype Step =
    | Begin(t: Id, user: Id, device: Id, country: Id)
    | Check(t: Id)
    | Free(t: Id, rows: set<Id>)
    | Choose(t: Id, order: seq<Id>, best: nat, now: int, ttl: int)
    | NoGateway(t: Id, order: seq<Id>, now: int, ttl: int)
    | LockGateway(t: Id)
    | Gather(t: Id)
    | Insert(t: Id, ip: uint32, id: Id, expires: int)
    | Full(t: Id)
    | Commit(t: Id)
    | Rollback(t: Id)
    | ReleaseStep(user: Id, id: Id)
    | RenewStep(user: Id, id: Id, expires: int)
    | ExpireStale(rows: set<Id>, now: int)
    | ExpireUnhealthy(rows: set<Id>)
    | RevokeMark(user: Id, d: Id)
    | RevokeLeases(d: Id, rows: set<Id>)
    | AddDevice(d: Id, user: Id, key: Key)
    | RegisterStep(g: Id, r: Registration, token: Id)
    | HeartbeatStep(g: Id, token: Id, now: int, rxBps: int, txBps: int)
    | DeregisterStep(g: Id, token: Id)
    | MarkStale(rows: set<Id>, now: int, ttl: int)

  // ----- locks -----

  predicate RowLocked(s: State, id: Id) {
    exists t :: t in s.txs && id in s.txs[t].released
  }

  predicate HoldsGateway(x: Tx) {
    x.phase == Locked || x.phase == Gathered || x.phase == Inserted
  }

  // a connect whose gateway is fixed
  predicate HasChosen(x: Tx) {
    x.phase == Chose || HoldsGateway(x)
  }

  predicate GatewayLocked(s: State, g: Id) {
    exists t :: t in s.txs && HoldsGateway(s.txs[t]) && s.txs[t].gateway == g
  }

  predicate Unlocked(s: State, rows: set<Id>) {
    forall id :: id in rows ==> !RowLocked(s, id)
  }

  // the partial unique index on (gateway_id, assigned_ip_v4): another row, committed or
  // inserted by another transaction, that is not dead to t
  ghost predicate IndexConflict(s: State, t: Id, ip: uint32)
    requires t in s.txs
  {
    var g := s.txs[t].gateway;
    || (exists id :: ActiveOn(s.db, g, id) && id !in s.txs[t].released && s.db.leases[id].v4 == ip)
    || (exists t' :: t' in s.txs && t' != t && s.txs[t'].phase == Inserted &&
          s.txs[t'].gateway == g && s.txs[t'].lease.v4 == ip)
  }

  predicate IsAt(s: State, t: Id, phase: Phase) {
    t in s.txs && s.txs[t].phase == phase
  }

  predicate FreshLease(s: State, id: Id) {
    id !in s.db.leases && forall t :: t in s.txs && s.txs[t].phase == Inserted ==> s.txs[t].id != id
  }

  // ----- steps -----

  /** Statements that would wait for another transaction's lock are not enabled. A
      statement over many rows may leave matching rows out: those it did not see in its
      snapshot, because they were committed after it had begun to wait. */
  ghost predicate Enabled(s: State, step: Step) {
    match step
    case Begin(t, _, _, _) => t !in s.txs
    case Check(t) => IsAt(s, t, Begun)
    case Free(t, rows) => IsAt(s, t, Checked) && rows <= DeviceRows(s.db, s.txs[t].device) && Unlocked(s, rows)
    case Choose(t, order, best, now, ttl) =>
      && IsAt(s, t, Freed)
      && IsCandidateList(s.db, order, s.txs[t].country, now, ttl)
      && IsBest(Candidates(s.db, order, s.txs[t].released), best)
    case NoGateway(t, order, now, ttl) =>
      && IsAt(s, t, Freed)
      && IsCandidateList(s.db, order, s.txs[t].country, now, ttl)
      && forall c :: c in Candidates(s.db, order, s.txs[t].released) ==> !Selectable(c)
    case LockGateway(t) => IsAt(s, t, Chose) && !GatewayLocked(s, s.txs[t].gateway)
    case Gather(t) => IsAt(s, t, Locked)
    case Insert(t, ip, id, _) =>
      && IsAt(s, t, Gathered) && FreshLease(s, id)
      && s.txs[t].net4.ones <= 32 && IsLowestFree(s.txs[t].net4, s.txs[t].used, ip)
    case Full(t) =>
      && IsAt(s, t, Gathered) && s.txs[t].net4.ones <= 32
      && forall x :: s.txs[t].net4.IsHost(x) ==> x in s.txs[t].used
    case Commit(t) => IsAt(s, t, Inserted)
    case Rollback(t) => t in s.txs
    case ReleaseStep(_, id) => !RowLocked(s, id)
    case RenewStep(_, id, _) => !RowLocked(s, id)
    case ExpireStale(rows, now) => rows <= StaleRows(s.db, now) && Unlocked(s, rows)
    case ExpireUnhealthy(rows) => rows <= UnhealthyRows(s.db) && Unlocked(s, rows)
    case RevokeMark(_, _) => true
    case RevokeLeases(d, rows) => rows <= DeviceRows(s.db, d) && Unlocked(s, rows)
    case AddDevice(_, _, _) => true
    case RegisterStep(g, r, _) => r.net4.Valid() && !GatewayLocked(s, g)
    case HeartbeatStep(g, _, _, _, _) => !GatewayLocked(s, g)
    case DeregisterStep(g, _) => !GatewayLocked(s, g)
    case MarkStale(rows, now, ttl) =>
      forall g :: g in rows ==> IsStale(s.db, g, now, ttl) && !GatewayLocked(s, g)
  }

  function Without(s: State, t: Id): State {
    s.(txs := s.txs - {t})
  }

  function With(s: State, t: Id, x: Tx): State {
    s.(txs := s.txs[t := x])
  }

  ghost function Apply(s: State, step: Step): State
    requires Enabled(s, step)
  {
    match step
    case Begin(t, user, device, country) =>
      var none := Lease(0, 0, 0, 0, None, Released, 0);
      With(s, t, Tx(Begun, user, device, country, 0, {}, 0, Net4(0, 0), None, {}, 0, none))
    case Check(t) =>
      var x := s.txs[t];
      if IsLiveDevice(s.db, x.user, x.device)
      then With(s, t, x.(phase := Checked, key := s.db.devices[x.device].key))
      else Without(s, t)
    case Free(t, rows) => With(s, t, s.txs[t].(phase := Freed, released := rows))
    case Choose(t, order, best, _, _) =>
      var g := order[best];
      assert g in order;
      With(s, t, s.txs[t].(phase := Chose, gateway := g, net4 := s.db.gateways[g].net4, net6 := s.db.gateways[g].net6))
    case NoGateway(t, _, _, _) => Without(s, t)
    case LockGateway(t) => With(s, t, s.txs[t].(phase := Locked))
    case Gather(t) =>
      var x := s.txs[t];
      With(s, t, x.(phase := Gathered, used := UsedAddresses(s.db, x.gateway, x.released)))
    case Insert(t, ip, id, expires) =>
      var x := s.txs[t];
      if IndexConflict(s, t, ip) then Without(s, t)
      else With(s, t, x.(phase := Inserted, id := id,
        lease := Lease(x.gateway, x.device, x.key, ip, Companion(x.net4, x.net6, ip), Active, expires)))
    case Full(t) => Without(s, t)
    case Commit(t) =>
      var x := s.txs[t];
      var freed := SetStates(s.db.leases, x.released, Released);
      Without(s.(db := s.db.(leases := freed[x.id := x.lease])), t)
    case Rollback(t) => Without(s, t)
    case ReleaseStep(user, id) => s.(db := ReleaseLease(s.db, user, id))
    case RenewStep(user, id, expires) => s.(db := RenewLease(s.db, user, id, expires))
    case ExpireStale(rows, _) => s.(db := WithStates(s.db, rows, Expired))
    case ExpireUnhealthy(rows) => s.(db := WithStates(s.db, rows, Expired))
    case RevokeMark(user, d) => s.(db := MarkRevoked(s.db, user, d))
    case RevokeLeases(d, rows) => s.(db := WithStates(s.db, rows, Expired))
    case AddDevice(d, user, key) => s.(db := InsertDevice(s.db, d, user, key))
    case RegisterStep(g, r, token) => s.(db := Register(s.db, g, r, token))
    case HeartbeatStep(g, token, now, rx, tx) => s.(db := Heartbeat(s.db, g, token, now, rx, tx))
    case DeregisterStep(g, token) => s.(db := Deregister(s.db, g, token))
    case MarkStale(rows, _, _) => s.(db := MarkUnhealthy(s.db, rows))
  }

  ghost predicate ValidRun(s: State, steps: seq<Step>)
    decreases |steps|
  {
    steps == [] || (Enabled(s, steps[0]) && ValidRun(Apply(s, steps[0]), steps[1..]))
  }

  ghost function Final(s: State, steps: seq<Step>): State
    requires ValidRun(s, steps)
    decreases |steps|
  {
    if steps == [] then s else Final(Apply(s, steps[0]), steps[1..])
  }

  ghost predicate Init(s: State) {
    s.db.leases == map[] && s.txs == map[]
  }
}
