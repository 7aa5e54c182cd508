/** Runs that show what interleaving can do: a device can hold two leases, whether or not it had one
    before, and the key of a revoked device can still be served. The transaction locks the gateway's row
    but not the device's. */
module LeaseRaces {
  import opened Options
  import opened Words
  import opened Selection
  import opened Allocation
  import opened StoreTables
  import opened LeaseProtocol
  import opened LeaseCapacity
  import opened LeaseKeys
  import opened LeaseRuns
  import opened KeyRevocation
  import opened CapacityReached

  ghost predicate Reachable(s: State) {
    exists s0, steps :: Empty(s0) && ValidRun(s0, steps) && Final(s0, steps) == s
  }

  lemma Next(s: State, step: Step) returns (s': State)
    requires Reachable(s) && Enabled(s, step)
    ensures Reachable(s') && s' == Apply(s, step)
  {
    hide Enabled, Apply, Empty;
    var s0, steps :| Empty(s0) && ValidRun(s0, steps) && Final(s0, steps) == s;
    ExtendRun(s0, steps, step);
    s' := Apply(s, step);
  }

  const LAN: Nets := Nets(Net4(0x0a07_3200, 24), None)

  lemma LanIsValid()
    ensures LAN.v4.Valid() && HasRoom(LAN, 200)
  {
    assert Pow2(8) == 256;
  }

  /** A gateway of capacity 2 and device 1, alone or with lease 1 on the first host. */
  lemma Starts(k: nat) returns (s: State)
    requires k <= 1
    ensures HasRoom(LAN, k) && s == Stage(LAN, 2, 1, k, 0) && Reachable(s)
  {
    hide Pow2;
    LanIsValid();
    Serial(LAN, 2, 1, 1, k);
    s := Stage(LAN, 2, 1, k, 0);
    hide Within, Stage;
  }

  function LeaseOn(k: nat): Lease
    requires HasRoom(LAN, k)
  {
    Lease(G, 1, 1, Nth(LAN, k), None, Active, 100)
  }

  predicate HasDevice(db: Db) {
    1 in db.devices && db.devices[1] == Device(USER, 1, false)
  }

  lemma Checks(s: State, t: Id) returns (s': State)
    requires Reachable(s) && t !in s.txs && HasDevice(s.db)
    ensures Reachable(s')
    ensures s' == With(s, t, ChoiceOf(NONE, t).(phase := Checked, gateway := 0, device := 1, key := 1))
  {
    hide Reachable;
    s' := Next(s, Begin(t, USER, 1, COUNTRY));
    s' := Next(s', Check(t));
  }

  // a connect of device 1 that has chosen the gateway
  predicate HasChosenOne(x: Tx, rows: set<Id>) {
    x.phase == Chose && x.device == 1 && x.key == 1 && x.released == rows && x.gateway == G && x.net4 == LAN.v4 && x.net6 == None
  }

  lemma Proceeds(s: State, t: Id, rows: set<Id>) returns (s': State)
    requires Reachable(s) && IsAt(s, t, Checked) && s.txs[t].device == 1 && s.txs[t].key == 1
    requires s.txs[t].country == COUNTRY && rows <= DeviceRows(s.db, 1) && Unlocked(s, rows)
    requires s.db.locations == map[COUNTRY := true] && s.db.gateways == map[G := GatewayRow(LAN, 2)]
    requires |ActiveRows(s.db, G, rows)| < 2
    ensures Reachable(s') && IsAt(s', t, Chose) && HasChosenOne(s'.txs[t], rows) && s' == With(s, t, s'.txs[t])
  {
    hide Reachable, Pow2;
    s' := Next(s, Free(t, rows));
    var order := [G];
    assert IsCandidateList(s.db, order, COUNTRY, 0, 0);
    assert IsBest(Candidates(s.db, order, rows), 0);
    hide IsCandidateList, IsBest, ActiveRows;
    s' := Next(s', Choose(t, order, 0, 0, 0));
  }

  /** From the choice to the commit, with the k-th host the lowest free one. */
  lemma Ends(s: State, t: Id, k: nat, id: Id) returns (s': State)
    requires Reachable(s) && t in s.txs && HasChosenOne(s.txs[t], s.txs[t].released) && id !in s.db.leases
    requires forall u :: u in s.txs ==> !HoldsGateway(s.txs[u])
    requires HasRoom(LAN, k) && IsLowestFree(LAN.v4, UsedAddresses(s.db, G, s.txs[t].released), Nth(LAN, k))
    ensures Reachable(s')
    ensures var freed := SetStates(s.db.leases, s.txs[t].released, Released);
            s' == Without(s.(db := s.db.(leases := freed[id := LeaseOn(k)])), t)
  {
    hide Reachable, UsedAddresses, SetStates, IsLowestFree, HasRoom, Pow2;
    s' := Reads(s, t);
    s' := Writes(s', t, k, id);
    WithWithout(s, t, s'.db);
  }

  lemma WithWithout(s: State, t: Id, db: Db)
    ensures forall x :: Without(With(s, t, x).(db := db), t) == Without(s.(db := db), t)
  {
    forall x: Tx
      ensures Without(With(s, t, x).(db := db), t) == Without(s.(db := db), t)
    {
      assert s.txs[t := x] - {t} == s.txs - {t};
    }
  }

  lemma Reads(s: State, t: Id) returns (s': State)
    requires Reachable(s) && IsAt(s, t, Chose) && s.txs[t].gateway == G
    requires forall u :: u in s.txs ==> !HoldsGateway(s.txs[u])
    ensures Reachable(s')
    ensures s' == With(s, t, s.txs[t].(phase := Gathered, used := UsedAddresses(s.db, G, s.txs[t].released)))
  {
    hide Reachable, UsedAddresses;
    s' := Next(s, LockGateway(t));
    s' := Next(s', Gather(t));
  }

  lemma Writes(s: State, t: Id, k: nat, id: Id) returns (s': State)
    requires Reachable(s) && IsAt(s, t, Gathered) && HasChosenOne(s.txs[t].(phase := Chose), s.txs[t].released) && id !in s.db.leases
    requires s.txs[t].used == UsedAddresses(s.db, G, s.txs[t].released)
    requires forall u :: u in s.txs && u != t ==> !HoldsGateway(s.txs[u])
    requires HasRoom(LAN, k) && IsLowestFree(LAN.v4, s.txs[t].used, Nth(LAN, k))
    ensures Reachable(s')
    ensures var freed := SetStates(s.db.leases, s.txs[t].released, Released);
            s' == Without(s.(db := s.db.(leases := freed[id := LeaseOn(k)])), t)
  {
    hide Reachable, Pow2, UsedAddresses, SetStates, IsLowestFree, IndexConflict, Candidates, IsBest, IsCandidateList;
    UsedIsNotFree(s.txs[t].used, k);
    NoConflict(s, t, Nth(LAN, k));
    s' := Next(s, Insert(t, Nth(LAN, k), id, 100));
    s' := Next(s', Commit(t));
  }

  lemma UsedIsNotFree(used: set<uint32>, k: nat)
    requires HasRoom(LAN, k) && IsLowestFree(LAN.v4, used, Nth(LAN, k))
    ensures Nth(LAN, k) !in used
  {
  }

  lemma NoConflict(s: State, t: Id, ip: uint32)
    requires t in s.txs && s.txs[t].gateway == G
    requires forall u :: u in s.txs && u != t ==> !HoldsGateway(s.txs[u])
    requires ip !in UsedAddresses(s.db, G, s.txs[t].released)
    ensures !IndexConflict(s, t, ip)
  {
    forall i | ActiveOn(s.db, G, i) && i !in s.txs[t].released
      ensures s.db.leases[i].v4 != ip
    {
      assert i in ActiveRows(s.db, G, s.txs[t].released);
    }
  }

  lemma Hosts(db: Db, gone: set<Id>)
    ensures HasRoom(LAN, 1) && HasRoom(LAN, 2)
    ensures ActiveRows(db, G, gone) == {} ==> IsLowestFree(LAN.v4, UsedAddresses(db, G, gone), Nth(LAN, 1))
    ensures forall id :: id in db.leases && ActiveRows(db, G, gone) == {id} && db.leases[id].v4 == Nth(LAN, 1)
              ==> IsLowestFree(LAN.v4, UsedAddresses(db, G, gone), Nth(LAN, 2))
  {
    LanIsValid();
    hide Pow2;
  }

  /** Two connects of a device without a lease at once: each finds no lease to release. */
  lemma DeviceCanHoldTwoLeases() returns (s: State)
    ensures Reachable(s) && IsActive(s.db, 1) && IsActive(s.db, 2)
    ensures s.db.leases[1].device == s.db.leases[2].device
  {
    hide Reachable, Apply, Enabled, IsLowestFree, HasRoom, Pow2, UsedAddresses;
    s := Starts(0);
    s := Checks(s, 1);
    s := Checks(s, 2);
    s := Proceeds(s, 1, {});
    s := Proceeds(s, 2, {});
    Hosts(s.db, {});
    s := Ends(s, 1, 1, 1);
    Hosts(s.db, {});
    assert ActiveRows(s.db, G, {}) == {1};
    s := Ends(s, 2, 2, 2);
  }

  /** Two connects at once of a device with lease 1: the second one's release has waited for the first to
      commit, finds lease 1 released and does not see lease 2. */
  lemma ReconnectsCanLeaveTwoLeases() returns (s: State)
    ensures Reachable(s) && 1 in s.db.leases && IsActive(s.db, 2) && IsActive(s.db, 3)
    ensures s.db.leases[1].state == Released
    ensures s.db.leases[1].device == s.db.leases[2].device == s.db.leases[3].device
  {
    hide Reachable, Apply, Enabled, IsLowestFree, HasRoom, Pow2, UsedAddresses;
    s := Starts(1);
    s := Checks(s, 1);
    s := Checks(s, 2);
    s := Proceeds(s, 1, {1});
    Hosts(s.db, {1});
    s := Ends(s, 1, 1, 2);
    assert ActiveRows(s.db, G, {}) == {2};
    s := Proceeds(s, 2, {});
    Hosts(s.db, {});
    s := Ends(s, 2, 2, 3);
  }

  /** Both statements of a revocation of device 1, which has no lease yet. */
  lemma Revokes(s: State) returns (s': State)
    requires Reachable(s) && s.db.leases == map[] && HasDevice(s.db)
    ensures Reachable(s') && s' == s.(db := s.db.(devices := s.db.devices[1 := Device(USER, 1, true)]))
  {
    hide Reachable;
    s' := Next(s, RevokeMark(USER, 1));
    assert DeviceRows(s'.db, 1) == {};
    s' := Next(s', RevokeLeases(1, {}));
    assert WithStates(s.db, {}, Expired) == s.db;
  }

  /** A revocation that runs between a connect's device check and its insert: every statement of it has
      succeeded, the device has no lease, and its key can be served. */
  lemma RevokedKeyCanBeServed() returns (s: State)
    ensures Reachable(s) && IsRevoked(s.db, 1) && DeviceRows(s.db, 1) == {}
    ensures CanBeServed(s, s.db.devices[1].key)
  {
    hide Reachable, Apply, Enabled, Pow2, CanBeServed;
    s := Starts(0);
    s := Checks(s, 1);
    s := Proceeds(s, 1, {});
    s := Revokes(s);
    assert CanStillInsert(s.db, s.txs[1]);
    ReachableIsServedExactly(s, 1);
  }

  lemma ReachableIsServedExactly(s: State, d: Id)
    requires Reachable(s) && IsRevoked(s.db, d)
    ensures CanBeServed(s, s.db.devices[d].key) <==> Lingers(s, d)
  {
    hide CanBeServed, Lingers, Empty, ValidRun, Final, IsRevoked;
    var s0, steps :| Empty(s0) && ValidRun(s0, steps) && Final(s0, steps) == s;
    ServedAgainExactly(s0, steps, d);
  }
}
