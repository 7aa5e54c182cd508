/** Which device keys the gateways are told, and when a revoked device's key is among them. */
module LeaseKeys {
  import opened Options
  import opened Words
  import opened Selection
  import opened Allocation
  import opened StoreTables
  import opened LeaseProtocol
  import opened LeaseSafety
  import opened LeaseDevices

  // ----- keys -----

  ghost predicate DistinctKeys(db: Db) {
    forall d, d' :: d in db.devices && d' in db.devices && db.devices[d].key == db.devices[d'].key ==> d == d'
  }

  ghost predicate LeaseKeysMatch(db: Db) {
    forall id :: id in db.leases ==>
      db.leases[id].device in db.devices && db.leases[id].key == db.devices[db.leases[id].device].key
  }

  ghost predicate TxKeyMatches(db: Db, x: Tx) {
    && (x.phase != Begun ==> x.device in db.devices && x.key == db.devices[x.device].key)
    && (x.phase == Inserted ==> x.lease.device == x.device && x.lease.key == x.key)
  }

  /** A lease carries its device's key, and no other device has it. Holds in every
      interleaving. */
  ghost predicate KeyInv(s: State) {
    && DistinctKeys(s.db) && LeaseKeysMatch(s.db)
    && forall t :: t in s.txs ==> TxKeyMatches(s.db, s.txs[t])
  }

  // the devices of s are those of the tables later on, with the same keys, still revoked if they were
  ghost predicate DevicesGrow(db: Db, db': Db) {
    forall d :: d in db.devices ==>
      && d in db'.devices && db'.devices[d].key == db.devices[d].key
      && (db.devices[d].revoked ==> db'.devices[d].revoked)
  }

  lemma StepGrowsDevices(s: State, step: Step)
    requires Enabled(s, step)
    ensures DevicesGrow(s.db, Apply(s, step).db)
  {
    hide SetStates, UsedAddresses, DeviceRows, IsLowestFree, IsBest, Companion, IndexConflict;
  }

  lemma StepKeepsKeys(s: State, step: Step)
    requires KeyInv(s) && Enabled(s, step)
    ensures KeyInv(Apply(s, step))
  {
    hide UsedAddresses, DeviceRows, IsLowestFree, IsBest, Companion, IndexConflict, Candidates, IsCandidateList;
    StepGrowsDevices(s, step);
    var s' := Apply(s, step);
    if IsBackground(step) {
      BackgroundOnlyDeactivates(s, step);
      assert DistinctKeys(s'.db);
      forall id | id in s'.db.leases
        ensures s'.db.leases[id].device in s'.db.devices
             && s'.db.leases[id].key == s'.db.devices[s'.db.leases[id].device].key
      {
        assert s.db.leases[id].device in s.db.devices;
      }
      forall t | t in s'.txs
        ensures TxKeyMatches(s'.db, s'.txs[t])
      {
        assert TxKeyMatches(s.db, s.txs[t]);
      }
    } else {
      assert s'.db.devices == s.db.devices;
      if step.t in s.txs {
        assert TxKeyMatches(s.db, s.txs[step.t]);
      }
    }
  }

  // ----- gateways -----

  /** Every lease and every connect names a gateway that there is, and subnets are valid. */
  ghost predicate GatewayInv(s: State) {
    && (forall g :: g in s.db.gateways ==> s.db.gateways[g].net4.Valid())
    && (forall id :: id in s.db.leases ==> s.db.leases[id].gateway in s.db.gateways)
    && (forall t :: t in s.txs && HasChosen(s.txs[t]) ==>
          s.txs[t].gateway in s.db.gateways && s.txs[t].net4.Valid())
  }

  predicate ChangesGateways(step: Step) {
    step.RegisterStep? || step.HeartbeatStep? || step.DeregisterStep? || step.MarkStale?
  }

  lemma OtherStepsKeepGateways(s: State, step: Step)
    requires Enabled(s, step) && !ChangesGateways(step)
    ensures Apply(s, step).db.gateways == s.db.gateways && Apply(s, step).db.locations == s.db.locations
  {
    hide SetStates, UsedAddresses, DeviceRows, IsLowestFree, IsBest, Companion, IndexConflict, Candidates;
  }

  /** Gateways stay, with valid subnets, and open countries stay open. */
  lemma StepKeepsNets(s: State, step: Step)
    requires Enabled(s, step)
    requires forall g :: g in s.db.gateways ==> s.db.gateways[g].net4.Valid()
    ensures forall g :: g in Apply(s, step).db.gateways ==> Apply(s, step).db.gateways[g].net4.Valid()
    ensures s.db.gateways.Keys <= Apply(s, step).db.gateways.Keys
    ensures forall c :: c in s.db.locations ==>
              c in Apply(s, step).db.locations && Apply(s, step).db.locations[c] == s.db.locations[c]
  {
    hide SetStates, UsedAddresses, DeviceRows, IsLowestFree, IsBest, Companion, IndexConflict, Candidates;
    if !ChangesGateways(step) {
      hide Apply, Enabled;
      OtherStepsKeepGateways(s, step);
    }
  }

  lemma StepKeepsGatewayInv(s: State, step: Step)
    requires Inv(s) && GatewayInv(s) && Enabled(s, step)
    ensures GatewayInv(Apply(s, step))
  {
    StepKeepsNets(s, step);
    if IsBackground(step) {
      BackgroundOnlyDeactivates(s, step);
      hide Apply, Enabled;
    } else {
      OwnStepKeepsGatewayInv(s, step);
    }
  }

  lemma OwnStepKeepsGatewayInv(s: State, step: Step)
    requires Inv(s) && GatewayInv(s) && Enabled(s, step) && !IsBackground(step)
    ensures GatewayInv(Apply(s, step))
  {
    hide UsedAddresses, DeviceRows, IsLowestFree, Companion, IndexConflict, NoDoubleAllocation, Apart;
    hide Net4.Valid;
    if step.Commit? {
      assert TxOk(s.db, s.txs[step.t]);
    } else {
      hide TxOk;
      ChosenIsThere(s, step);
    }
  }

  lemma ChosenIsThere(s: State, step: Step)
    requires Enabled(s, step)
    ensures step.Choose? ==> step.best < |step.order| && step.order[step.best] in s.db.gateways
  {
    if step.Choose? {
      assert step.order[step.best] in step.order;
    }
  }

  // ----- what every run keeps -----

  ghost predicate Sound(s: State) {
    Inv(s) && KeyInv(s) && GatewayInv(s)
  }

  /** Empty tables but for countries: where every run begins. */
  ghost predicate Empty(s: State) {
    Init(s) && s.db.devices == map[] && s.db.gateways == map[]
  }

  lemma StepKeepsSound(s: State, step: Step)
    requires Sound(s) && Enabled(s, step)
    ensures Sound(Apply(s, step))
  {
    hide Inv, KeyInv, GatewayInv, Apply, Enabled;
    StepKeepsInv(s, step);
    StepKeepsKeys(s, step);
    StepKeepsGatewayInv(s, step);
  }

  lemma {:induction false} RunKeepsSound(s: State, steps: seq<Step>)
    requires Sound(s) && ValidRun(s, steps)
    ensures Sound(Final(s, steps)) && DevicesGrow(s.db, Final(s, steps).db)
    decreases |steps|
  {
    hide Sound, Apply, Enabled;
    if steps != [] {
      StepKeepsSound(s, steps[0]);
      StepGrowsDevices(s, steps[0]);
      RunKeepsSound(Apply(s, steps[0]), steps[1..]);
    }
  }

  lemma EmptyIsSound(s: State)
    requires Empty(s)
    ensures Sound(s)
  {
  }

  // ----- revocation -----

  predicate IsRevoked(db: Db, d: Id) {
    d in db.devices && db.devices[d].revoked
  }

  /** Device d has been revoked and nothing of it is left: no active lease and no connect
      past its device check. */
  ghost predicate Quiet(s: State, d: Id) {
    && IsRevoked(s.db, d)
    && DeviceRows(s.db, d) == {}
    && forall t :: t in s.txs && s.txs[t].device == d ==> s.txs[t].phase == Begun
  }

  lemma RowsAfterRevocation(s: State, d: Id, rows: set<Id>)
    requires Enabled(s, RevokeLeases(d, rows))
    ensures DeviceRows(Apply(s, RevokeLeases(d, rows)).db, d) == DeviceRows(s.db, d) - rows
  {
  }

  /** The last statement of a revocation leaves nothing of the device exactly when it sees all of
      the device's active leases and no connect of the device is past its check. */
  lemma QuietExactly(s: State, d: Id, rows: set<Id>)
    requires IsRevoked(s.db, d) && Enabled(s, RevokeLeases(d, rows))
    ensures Quiet(Apply(s, RevokeLeases(d, rows)), d) <==>
            && rows == DeviceRows(s.db, d)
            && forall t :: t in s.txs && s.txs[t].device == d ==> s.txs[t].phase == Begun
  {
    hide DeviceRows;
    RowsAfterRevocation(s, d, rows);
    NothingElse(DeviceRows(s.db, d), rows);
  }

  lemma NothingElse(all: set<Id>, some: set<Id>)
    requires some <= all
    ensures all - some == {} <==> some == all
  {
    if all - some == {} {
      assert forall id :: id in all ==> id !in all - some;
    }
  }

  // ----- whether a revoked device's key can come back -----

  predicate IsOpenCountry(db: Db, country: Id) {
    country in db.locations ==> db.locations[country]
  }

  /** A connect past its device check that can still end with a lease: it has one already, or an
      address is free among those it has read, or its gateway's subnet has host addresses, or its
      country is open so that a gateway may register there. */
  ghost predicate CanStillInsert(db: Db, x: Tx) {
    match x.phase
    case Begun => false
    case Checked => IsOpenCountry(db, x.country)
    case Freed => IsOpenCountry(db, x.country)
    case Chose => x.net4.ones <= 30
    case Locked => x.net4.ones <= 30
    case Gathered => x.net4.ones <= 32 && exists ip :: x.net4.IsHost(ip) && ip !in x.used
    case Inserted => true
  }

  /** Something of device d is left from which its key can reach a gateway. */
  ghost predicate Lingers(s: State, d: Id) {
    || DeviceRows(s.db, d) != {}
    || exists t :: t in s.txs && s.txs[t].device == d && CanStillInsert(s.db, s.txs[t])
  }

  lemma QuietDoesNotLinger(s: State, d: Id)
    requires Quiet(s, d)
    ensures !Lingers(s, d)
  {
  }

  lemma NoHostInSmallNet(n: Net4, ip: int)
    requires n.ones <= 32 && n.IsHost(ip)
    ensures n.ones <= 30
  {
    assert Pow2(0) == 1 && Pow2(1) == 2;
  }

  lemma CountryStaysClosed(s: State, step: Step, country: Id)
    requires GatewayInv(s) && Enabled(s, step) && !IsOpenCountry(s.db, country)
    ensures !IsOpenCountry(Apply(s, step).db, country)
  {
    hide Apply, Enabled;
    StepKeepsNets(s, step);
  }

  lemma ChoiceNeedsOpenCountry(s: State, step: Step)
    requires Enabled(s, step)
    ensures step.Choose? ==> step.t in s.txs && IsOpenCountry(s.db, s.txs[step.t].country)
  {
    if step.Choose? {
      assert step.order[step.best] in step.order;
    }
  }

  /** No statement of its own lets a connect insert that could not any more. */
  lemma OwnStepStaysUnable(s: State, step: Step)
    requires GatewayInv(s) && Enabled(s, step) && !IsBackground(step) && step.t in s.txs
    requires IsRevoked(s.db, s.txs[step.t].device) && !CanStillInsert(s.db, s.txs[step.t])
    ensures step.t in Apply(s, step).txs ==> !CanStillInsert(s.db, Apply(s, step).txs[step.t])
    ensures !step.Commit?
  {
    hide SetStates, UsedAddresses, DeviceRows, Companion, IndexConflict;
    var x := s.txs[step.t];
    ChoiceNeedsOpenCountry(s, step);
    if step.Gather? {
      var x' := Apply(s, step).txs[step.t];
      if ip :| x'.net4.ones <= 32 && x'.net4.IsHost(ip) {
        NoHostInSmallNet(x'.net4, ip);
      }
    }
  }

  /** If nothing of a revoked device is left, nothing ever will be again. */
  lemma StaysGone(s: State, step: Step, d: Id)
    requires Sound(s) && IsRevoked(s.db, d) && !Lingers(s, d) && Enabled(s, step)
    ensures IsRevoked(Apply(s, step).db, d) && !Lingers(Apply(s, step), d)
  {
    var s' := Apply(s, step);
    StepGrowsDevices(s, step);
    if IsBackground(step) {
      BackgroundShrinksRows(s, step, d);
      BackgroundOnlyDeactivates(s, step);
      forall t | t in s'.txs && s'.txs[t].device == d
        ensures !CanStillInsert(s'.db, s'.txs[t])
      {
        if s.txs[t].phase == Checked || s.txs[t].phase == Freed {
          CountryStaysClosed(s, step, s.txs[t].country);
        }
      }
    } else {
      OwnStepStaysGone(s, step, d);
    }
  }

  lemma OwnStepStaysGone(s: State, step: Step, d: Id)
    requires Sound(s) && IsRevoked(s.db, d) && !Lingers(s, d) && Enabled(s, step) && !IsBackground(step)
    ensures !Lingers(Apply(s, step), d)
  {
    var s' := Apply(s, step);
    OtherStepsKeepGateways(s, step);
    if step.t in s.txs && s.txs[step.t].device == d {
      OwnStepStaysUnable(s, step);
    }
    if step.Commit? {
      RowsAfterCommit(s, step.t, d);
    }
    hide UsedAddresses, IsLowestFree, IsBest, Companion, IndexConflict, Candidates, Inv, KeyInv, GatewayInv;
    hide IsCandidateList, SetStates;
    forall t | t in s'.txs && s'.txs[t].device == d
      ensures !CanStillInsert(s'.db, s'.txs[t])
    {
    }
  }

  lemma {:induction false} RunStaysGone(s: State, steps: seq<Step>, d: Id)
    requires Sound(s) && IsRevoked(s.db, d) && !Lingers(s, d) && ValidRun(s, steps)
    ensures IsRevoked(Final(s, steps).db, d) && !Lingers(Final(s, steps), d)
    decreases |steps|
  {
    hide Sound, Apply, Enabled, Lingers, IsRevoked;
    if steps != [] {
      StepKeepsSound(s, steps[0]);
      StaysGone(s, steps[0], d);
      RunStaysGone(Apply(s, steps[0]), steps[1..], d);
    }
  }

  /** Some gateway is told the key, at some time and under some token. */
  ghost predicate Served(db: Db, key: Key) {
    exists token, now, p :: p in GatewayPeers(db, token, now) && p.key == key
  }

  lemma GoneIsNotServed(s: State, d: Id)
    requires Sound(s) && d in s.db.devices && !Lingers(s, d)
    ensures !Served(s.db, s.db.devices[d].key)
  {
    var key := s.db.devices[d].key;
    forall token, now, p | p in GatewayPeers(s.db, token, now)
      ensures p.key != key
    {
      var id :| id in PeerRows(s.db, token, now) && p == Peer(s.db.leases[id].key, s.db.leases[id].v4, s.db.leases[id].v6);
      assert id !in DeviceRows(s.db, d);
    }
  }

  /** Once a revocation has left nothing of a device, in every interleaving before and after it, no
      gateway is told the device's key again. */
  lemma RevokedKeyNeverServedAgain(s0: State, pre: seq<Step>, d: Id, rows: set<Id>, post: seq<Step>)
    requires Empty(s0) && ValidRun(s0, pre)
    requires var s := Final(s0, pre);
             && IsRevoked(s.db, d) && Enabled(s, RevokeLeases(d, rows)) && rows == DeviceRows(s.db, d)
             && (forall t :: t in s.txs && s.txs[t].device == d ==> s.txs[t].phase == Begun)
             && ValidRun(Apply(s, RevokeLeases(d, rows)), post)
    ensures var s := Final(s0, pre);
            !Served(Final(Apply(s, RevokeLeases(d, rows)), post).db, s.db.devices[d].key)
  {
    hide DeviceRows, Lingers, Served, Apply, Enabled, Sound, Empty;
    EmptyIsSound(s0);
    RunKeepsSound(s0, pre);
    var s, last := Final(s0, pre), RevokeLeases(d, rows);
    var gone := Apply(s, last);
    QuietExactly(s, d, rows);
    QuietDoesNotLinger(gone, d);
    StepKeepsSound(s, last);
    StepGrowsDevices(s, last);
    RunKeepsSound(gone, post);
    RunStaysGone(gone, post, d);
    GoneIsNotServed(Final(gone, post), d);
  }
}
