/** Exactly when a revoked device's key can still reach a gateway: the continuations in which it does. */
module KeyRevocation {
  import opened Options
  import opened Words
  import opened Selection
  import opened Allocation
  import opened StoreTables
  import opened LeaseProtocol
  import opened LeaseSafety
  import opened LeaseDevices
  import opened LeaseKeys
  import opened LeaseRuns

  /** The gateway with some token is told the key at the given time. */
  ghost predicate ServedAt(db: Db, key: Key, now: int) {
    exists token, p :: p in GatewayPeers(db, token, now) && p.key == key
  }

  /** At the given time, o has a continuation at that instant after which the key is served. */
  ghost predicate CanBeServedAt(o: State, key: Key, now: int) {
    exists s :: Leads(o, s, now) && ServedAt(s.db, key, now)
  }

  /** However late it is, there is a later time at which the key can be served. */
  ghost predicate CanBeServed(o: State, key: Key) {
    forall from :: IsPossibleFrom(o, key, from)
  }

  ghost predicate IsPossibleFrom(o: State, key: Key, from: int) {
    exists now :: from <= now && CanBeServedAt(o, key, now)
  }

  const TOKEN: Id := 0
  const NET: Net4 := Net4(0x0a07_3200, 24)

  lemma NetIsValid()
    ensures NET.Valid() && NET.ones <= 30
  {
    assert Pow2(8) == 256;
  }

  // ----- from an active lease -----

  /** The lease is renewed, and its gateway registers again and asks. */
  lemma LeaseIsServed(o: State, s: State, now: int, id: Id)
    requires Sound(o) && Leads(o, s, now) && IsActive(s.db, id)
    ensures CanBeServedAt(o, s.db.leases[id].key, now)
  {
    NetIsValid();
    LeadsKeepsSound(o, s, now);
    var s1 := RollBack(o, s, now, {});
    var s2 := Renews(o, s1, now, id);
    var g := s.db.leases[id].gateway;
    var s3 := Registers(o, s2, now, g, s.db.gateways[g].country);
    hide Leads, Sound;
    ServedLease(s3.db, id, TOKEN, now);
  }

  lemma Renews(o: State, s: State, now: int, id: Id) returns (s': State)
    requires Leads(o, s, now) && IsActive(s.db, id) && s.txs.Keys == {} && s.db.leases[id].device in s.db.devices
    ensures Leads(o, s', now)
    ensures s' == s.(db := s.db.(leases := s.db.leases[id := s.db.leases[id].(expires := now + 1)]))
  {
    hide Leads;
    s' := Then(o, s, now, RenewStep(s.db.devices[s.db.leases[id].device].user, id, now + 1));
  }

  lemma ServedLease(db: Db, id: Id, token: Id, now: int)
    requires id in db.leases && IsPeerRow(db, token, now, id)
    ensures ServedAt(db, db.leases[id].key, now)
  {
    var l := db.leases[id];
    assert id in PeerRows(db, token, now);
    assert Peer(l.key, l.v4, l.v6) in GatewayPeers(db, token, now);
  }

  lemma Registers(o: State, s: State, now: int, g: Id, country: Id) returns (s': State)
    requires Leads(o, s, now) && NET.Valid() && !GatewayLocked(s, g)
    ensures Leads(o, s', now) && s'.txs == s.txs && s'.db.leases == s.db.leases && s'.db.devices == s.db.devices
    ensures s'.db == Register(s.db, g, Registration(country, NET, None, 1, 0), TOKEN)
  {
    hide Leads, Pow2;
    s' := Then(o, s, now, RegisterStep(g, Registration(country, NET, None, 1, 0), TOKEN));
  }

  // ----- from an open connect, phase by phase, with no other one open -----

  lemma InsertedIsServed(o: State, s: State, now: int, t: Id)
    requires Sound(o) && Leads(o, s, now) && IsAt(s, t, Inserted)
    ensures CanBeServedAt(o, s.txs[t].key, now)
  {
    LeadsKeepsSound(o, s, now);
    var x := s.txs[t];
    assert TxOk(s.db, x) && TxKeyMatches(s.db, x);
    var s1 := Commits(o, s, now, t);
    hide Leads, Sound;
    LeaseIsServed(o, s1, now, x.id);
  }

  lemma Commits(o: State, s: State, now: int, t: Id) returns (s': State)
    requires Leads(o, s, now) && IsAt(s, t, Inserted)
    ensures Leads(o, s', now) && s'.db.leases == SetStates(s.db.leases, s.txs[t].released, Released)[s.txs[t].id := s.txs[t].lease]
  {
    hide Leads, SetStates;
    s' := Then(o, s, now, Commit(t));
  }

  lemma GatheredIsServed(o: State, s: State, now: int, t: Id, ip: int)
    requires Sound(o) && Leads(o, s, now) && IsAt(s, t, Gathered) && s.txs.Keys == {t}
    requires s.txs[t].net4.ones <= 32 && s.txs[t].net4.IsHost(ip) && ip !in s.txs[t].used
    ensures CanBeServedAt(o, s.txs[t].key, now)
  {
    LeadsKeepsSound(o, s, now);
    var x := s.txs[t];
    CountFits(x.net4);
    var lowest := LowestFree(x.net4, x.used, x.net4.base as int + 2, ip);
    var id := FreshNumber(s.db.leases.Keys);
    InsertNeverRejected(s, t, lowest);
    var s1 := Inserts(o, s, now, t, lowest, id);
    hide Leads, Sound;
    InsertedIsServed(o, s1, now, t);
  }

  lemma Inserts(o: State, s: State, now: int, t: Id, ip: uint32, id: Id) returns (s': State)
    requires Leads(o, s, now) && IsAt(s, t, Gathered) && s.txs.Keys == {t} && id !in s.db.leases
    requires s.txs[t].net4.ones <= 32 && IsLowestFree(s.txs[t].net4, s.txs[t].used, ip) && !IndexConflict(s, t, ip)
    ensures Leads(o, s', now) && IsAt(s', t, Inserted) && s'.txs[t].key == s.txs[t].key
  {
    hide Leads, IsLowestFree, IndexConflict;
    s' := Then(o, s, now, Insert(t, ip, id, now + 1));
  }

  /** Every lease on the gateway expires before the used addresses are read. */
  lemma LockedIsServed(o: State, s: State, now: int, t: Id)
    requires Sound(o) && Leads(o, s, now) && IsAt(s, t, Locked) && s.txs.Keys == {t} && s.txs[t].net4.ones <= 30
    requires HasExpired(s.db, now)
    ensures CanBeServedAt(o, s.txs[t].key, now)
  {
    var x := s.txs[t];
    var rows := ActiveRows(s.db, x.gateway, x.released);
    var s1 := Expires(o, s, now, t);
    ExpiredRows(s.db, x.gateway, x.released);
    var s2 := Gathers(o, s1, now, t);
    assert UsedAddresses(s1.db, x.gateway, x.released) == {};
    FirstHost(x.net4);
    hide Leads, Sound;
    GatheredIsServed(o, s2, now, t, x.net4.base as int + 2);
  }

  lemma Expires(o: State, s: State, now: int, t: Id) returns (s': State)
    requires Leads(o, s, now) && t in s.txs && s.txs.Keys == {t}
    requires HasExpired(s.db, now)
    ensures Leads(o, s', now) && s'.txs == s.txs
    ensures s'.db == WithStates(s.db, ActiveRows(s.db, s.txs[t].gateway, s.txs[t].released), Expired)
  {
    hide Leads;
    var rows := ActiveRows(s.db, s.txs[t].gateway, s.txs[t].released);
    s' := Then(o, s, now, ExpireStale(rows, now));
  }

  lemma ExpiredRows(db: Db, g: Id, gone: set<Id>)
    ensures ActiveRows(WithStates(db, ActiveRows(db, g, gone), Expired), g, gone) == {}
  {
  }

  lemma Gathers(o: State, s: State, now: int, t: Id) returns (s': State)
    requires Leads(o, s, now) && IsAt(s, t, Locked)
    ensures Leads(o, s', now)
    ensures s' == With(s, t, s.txs[t].(phase := Gathered, used := UsedAddresses(s.db, s.txs[t].gateway, s.txs[t].released)))
  {
    hide Leads, UsedAddresses;
    s' := Then(o, s, now, Gather(t));
  }

  lemma FirstHost(n: Net4)
    requires n.ones <= 30
    ensures n.IsHost(n.base as int + 2)
  {
    Pow2Monotone(2, 32 - n.ones);
    assert Pow2(2) == 4;
  }

  lemma ChoseIsServed(o: State, s: State, now: int, t: Id)
    requires Sound(o) && Leads(o, s, now) && IsAt(s, t, Chose) && s.txs.Keys == {t} && s.txs[t].net4.ones <= 30
    requires HasExpired(s.db, now)
    ensures CanBeServedAt(o, s.txs[t].key, now)
  {
    hide Leads, Sound;
    var s1 := Locks(o, s, now, t);
    LockedIsServed(o, s1, now, t);
  }

  lemma Locks(o: State, s: State, now: int, t: Id) returns (s': State)
    requires Leads(o, s, now) && IsAt(s, t, Chose) && s.txs.Keys == {t}
    ensures Leads(o, s', now) && s' == With(s, t, s.txs[t].(phase := Locked))
  {
    hide Leads;
    s' := Then(o, s, now, LockGateway(t));
  }

  // ----- a gateway of its own for the connect -----

  /** All gateways are stale, a new one registers in the country and is chosen. */
  lemma FreedIsServed(o: State, s: State, now: int, t: Id)
    requires Sound(o) && Leads(o, s, now) && IsAt(s, t, Freed) && s.txs.Keys == {t} && IsOpenCountry(s.db, s.txs[t].country)
    requires IsLater(s.db, now)
    ensures CanBeServedAt(o, s.txs[t].key, now)
  {
    hide Leads, Sound, Pow2, CanBeServedAt;
    NetIsValid();
    LeadsKeepsSound(o, s, now);
    var x := s.txs[t];
    var s1 := AllStale(o, s, now, t);
    var g := FreshNumber(s1.db.gateways.Keys);
    LeasesElsewhere(s, g);
    var s2 := Registers(o, s1, now, g, x.country);
    var s3 := Beats(o, s2, now, t, g);
    OnlyCandidate(s3.db, now, g, x.country, x.released);
    var s4 := Chooses(o, s3, now, t, g);
    ChoseIsServed(o, s4, now, t);
  }

  lemma LeasesElsewhere(s: State, g: Id)
    requires Sound(s) && g !in s.db.gateways
    ensures forall id :: id in s.db.leases ==> s.db.leases[id].gateway != g
  {
  }

  lemma AllStale(o: State, s: State, now: int, t: Id) returns (s': State)
    requires Leads(o, s, now) && IsAt(s, t, Freed) && s.txs.Keys == {t}
    requires IsLater(s.db, now)
    ensures Leads(o, s', now) && s'.txs == s.txs && s'.db.leases == s.db.leases && s'.db.locations == s.db.locations
    ensures s'.db.gateways.Keys == s.db.gateways.Keys
    ensures forall g :: g in s'.db.gateways ==> s'.db.gateways[g].status != Healthy
  {
    hide Leads;
    var rows := set g | g in s.db.gateways && s.db.gateways[g].status == Healthy;
    s' := Then(o, s, now, MarkStale(rows, now, 0));
  }

  lemma Beats(o: State, s: State, now: int, t: Id, g: Id) returns (s': State)
    requires Leads(o, s, now) && IsAt(s, t, Freed) && s.txs.Keys == {t}
    requires g in s.db.gateways && s.db.gateways[g].token == TOKEN && s.db.gateways[g].status == Pending
    ensures Leads(o, s', now) && s'.txs == s.txs
    ensures var row := s.db.gateways[g].(status := Healthy, heartbeat := Some(now), rxBps := 0, txBps := 0);
            s'.db == s.db.(gateways := s.db.gateways[g := row])
  {
    hide Leads;
    s' := Then(o, s, now, HeartbeatStep(g, TOKEN, now, 0, 0));
  }

  lemma OnlyCandidate(db: Db, now: int, g: Id, country: Id, gone: set<Id>)
    requires g in db.gateways && IsCandidate(db, g, country, now, 0) && db.gateways[g].capacity == 1
    requires forall h :: h in db.gateways && h != g ==> db.gateways[h].status != Healthy
    requires forall id :: id in db.leases ==> db.leases[id].gateway != g
    ensures IsCandidateList(db, [g], country, now, 0) && IsBest(Candidates(db, [g], gone), 0)
  {
    assert ActiveRows(db, g, gone) == {};
    assert [g][0] == g;
  }

  lemma Chooses(o: State, s: State, now: int, t: Id, g: Id) returns (s': State)
    requires Leads(o, s, now) && IsAt(s, t, Freed) && g in s.db.gateways
    requires IsCandidateList(s.db, [g], s.txs[t].country, now, 0) && IsBest(Candidates(s.db, [g], s.txs[t].released), 0)
    ensures Leads(o, s', now)
    ensures s' == With(s, t, s.txs[t].(phase := Chose, gateway := g, net4 := s.db.gateways[g].net4, net6 := s.db.gateways[g].net6))
  {
    hide Leads, IsCandidateList, IsBest;
    s' := Then(o, s, now, Choose(t, [g], 0, now, 0));
  }

  lemma CheckedIsServed(o: State, s: State, now: int, t: Id)
    requires Sound(o) && Leads(o, s, now) && IsAt(s, t, Checked) && s.txs.Keys == {t} && IsOpenCountry(s.db, s.txs[t].country)
    requires IsLater(s.db, now)
    ensures CanBeServedAt(o, s.txs[t].key, now)
  {
    hide Leads, Sound;
    var s1 := FreesNothing(o, s, now, t);
    FreedIsServed(o, s1, now, t);
  }

  lemma FreesNothing(o: State, s: State, now: int, t: Id) returns (s': State)
    requires Leads(o, s, now) && IsAt(s, t, Checked)
    ensures Leads(o, s', now) && s' == With(s, t, s.txs[t].(phase := Freed, released := {}))
  {
    hide Leads;
    s' := Then(o, s, now, Free(t, {}));
  }

  // ----- the exact condition -----

  lemma ConnectIsServed(o: State, s: State, now: int, t: Id)
    requires Sound(o) && Leads(o, s, now) && t in s.txs && CanStillInsert(s.db, s.txs[t])
    requires IsLater(s.db, now)
    ensures CanBeServedAt(o, s.txs[t].key, now)
  {
    var s1 := RollBack(o, s, now, {t});
    hide Leads, Sound, CanBeServedAt;
    var x := s1.txs[t];
    match x.phase {
      case Begun =>
      case Checked => CheckedIsServed(o, s1, now, t);
      case Freed => FreedIsServed(o, s1, now, t);
      case Chose => ChoseIsServed(o, s1, now, t);
      case Locked => LockedIsServed(o, s1, now, t);
      case Gathered =>
        var ip :| x.net4.IsHost(ip) && ip !in x.used;
        GatheredIsServed(o, s1, now, t, ip);
      case Inserted => InsertedIsServed(o, s1, now, t);
    }
  }

  lemma LingeringIsServed(s: State, d: Id)
    requires Sound(s) && d in s.db.devices && Lingers(s, d)
    ensures CanBeServed(s, s.db.devices[d].key)
  {
    var key := s.db.devices[d].key;
    forall from
      ensures IsPossibleFrom(s, key, from)
    {
      var now := LaterTime(s.db, from);
      LeadsNowhere(s, now);
      hide Leads, CanBeServedAt;
      if DeviceRows(s.db, d) != {} {
        var id :| id in DeviceRows(s.db, d);
        LeaseIsServed(s, s, now, id);
      } else {
        var t :| t in s.txs && s.txs[t].device == d && CanStillInsert(s.db, s.txs[t]);
        assert TxKeyMatches(s.db, s.txs[t]);
        ConnectIsServed(s, s, now, t);
      }
      assert CanBeServedAt(s, key, now);
    }
  }

  /** If nothing of it is left, no continuation serves its key, at whatever times its statements run. */
  lemma GoneIsNeverServed(s: State, steps: seq<Step>, d: Id)
    requires Sound(s) && IsRevoked(s.db, d) && !Lingers(s, d) && ValidRun(s, steps)
    ensures !Served(Final(s, steps).db, s.db.devices[d].key)
  {
    hide Sound, Lingers, Served;
    RunKeepsSound(s, steps);
    RunStaysGone(s, steps, d);
    GoneIsNotServed(Final(s, steps), d);
  }

  lemma ServedInSomeRun(s: State, key: Key, now: int) returns (steps: seq<Step>)
    requires CanBeServedAt(s, key, now)
    ensures ValidRun(s, steps) && Served(Final(s, steps).db, key)
  {
    var s': State :| Leads(s, s', now) && ServedAt(s'.db, key, now);
    ServedSometime(s'.db, key, now);
    steps :| ValidRun(s, steps) && Final(s, steps) == s' && forall step :: step in steps ==> IsAtTime(step, now);
  }

  lemma GoneCannotBeServed(s: State, d: Id)
    requires Sound(s) && IsRevoked(s.db, d) && !Lingers(s, d)
    ensures !CanBeServed(s, s.db.devices[d].key)
  {
    hide Sound, Lingers, CanBeServedAt;
    var key := s.db.devices[d].key;
    forall now
      ensures !CanBeServedAt(s, key, now)
    {
      if CanBeServedAt(s, key, now) {
        var steps := ServedInSomeRun(s, key, now);
        GoneIsNeverServed(s, steps, d);
      }
    }
    assert !IsPossibleFrom(s, key, 0);
  }

  lemma ServedSometime(db: Db, key: Key, now: int)
    requires ServedAt(db, key, now)
    ensures Served(db, key)
  {
  }

  /** The key of a revoked device can reach a gateway in some continuation, of any run from empty tables,
      if and only if the device has an active lease or an open connect that can still insert one. */
  lemma ServedAgainExactly(s0: State, pre: seq<Step>, d: Id)
    requires Empty(s0) && ValidRun(s0, pre) && IsRevoked(Final(s0, pre).db, d)
    ensures var s := Final(s0, pre); CanBeServed(s, s.db.devices[d].key) <==> Lingers(s, d)
  {
    var s := Final(s0, pre);
    hide Lingers, Sound, CanBeServed;
    EmptyIsSound(s0);
    RunKeepsSound(s0, pre);
    if Lingers(s, d) {
      LingeringIsServed(s, d);
    } else {
      GoneCannotBeServed(s, d);
    }
  }

  /** So a revocation that has run all its statements is final if and only if the last one saw all of
      the device's active leases and no connect of the device can still insert one. */
  lemma RevocationIsFinalExactly(s0: State, pre: seq<Step>, d: Id, rows: set<Id>)
    requires Empty(s0) && ValidRun(s0, pre)
    requires var s := Final(s0, pre); IsRevoked(s.db, d) && Enabled(s, RevokeLeases(d, rows))
    ensures var s := Final(s0, pre);
            !CanBeServed(Apply(s, RevokeLeases(d, rows)), s.db.devices[d].key) <==>
            && rows == DeviceRows(s.db, d)
            && forall t :: t in s.txs && s.txs[t].device == d ==> !CanStillInsert(s.db, s.txs[t])
  {
    var s, last := Final(s0, pre), RevokeLeases(d, rows);
    var s' := Apply(s, last);
    RowsAfterRevocation(s, d, rows);
    NothingElse(DeviceRows(s.db, d), rows);
    StepGrowsDevices(s, last);
    ExtendRun(s0, pre, last);
    assert s'.txs == s.txs && s'.db.locations == s.db.locations;
    hide CanBeServed, DeviceRows, Apply, Enabled;
    ServedAgainExactly(s0, pre + [last], d);
  }
}
