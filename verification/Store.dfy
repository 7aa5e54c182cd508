/** The store's operations as they run when nothing else is open: methods that update the
    tables in place. Each is a run of the statement-level protocol, so what that keeps, they
    keep. */
module Store {
  import opened Options
  import opened Words
  import opened Selection
  import opened Allocation
  import opened StoreTables
  import opened LeaseProtocol
  import opened LeaseSafety
  import opened LeaseDevices
  import opened LeaseKeys
  import opened AtomicConnects

  datatype Error = DeviceNotFound | NoGatewayAvailable | GatewayFull | NotFound | InvalidToken | Unavailable

  datatype Result<+T> = Success(value: T) | Failure(error: Error)

  ghost function Alone(db: Db): State {
    State(db, map[])
  }

  /** db' is what one uninterrupted, committed connect makes of db. */
  ghost predicate Connects(db: Db, db': Db) {
    exists steps :: AtomicRun(Alone(db), steps) && Final(Alone(db), steps) == Alone(db')
  }

  lemma Prepend(s: State, step: Step, rest: seq<Step>, last: State)
    requires Enabled(s, step) && Atomic(s, step)
    requires AtomicRun(Apply(s, step), rest) && Final(Apply(s, step), rest) == last
    ensures AtomicRun(s, [step] + rest) && Final(s, [step] + rest) == last
  {
    assert ([step] + rest)[0] == step && ([step] + rest)[1..] == rest;
  }

  /** A step of an open transaction interrupts no other. */
  lemma OwnIsAtomic(s: State, step: Step)
    requires Enabled(s, step) && !IsBackground(step) && !step.Begin? && !step.Free?
    ensures Atomic(s, step)
  {
  }

  /** The tables after a successful connect. */
  function Connected(db: Db, d: Id, g: Id, host: Host, id: Id, expires: int): Db
    requires d in db.devices
  {
    var freed := SetStates(db.leases, DeviceRows(db, d), Released);
    db.(leases := freed[id := Lease(g, d, db.devices[d].key, host.v4, host.v6, Active, expires)])
  }

  /** The state of a lone connect that has released its device's lease. */
  ghost function FreedState(db: Db, user: Id, d: Id, country: Id): State
    requires d in db.devices
  {
    var none := Lease(0, 0, 0, 0, None, LeaseState.Released, 0);
    State(db, map[0 := Tx(Freed, user, d, country, db.devices[d].key, DeviceRows(db, d), 0, Net4(0, 0), None, {}, 0, none)])
  }

  lemma FreedFrom(db: Db, user: Id, d: Id, country: Id) returns (s1: State, s2: State)
    requires IsLiveDevice(db, user, d)
    ensures var step := Begin(0, user, d, country); Enabled(Alone(db), step) && Apply(Alone(db), step) == s1
    ensures Enabled(s1, Check(0)) && Apply(s1, Check(0)) == s2
    ensures var step := Free(0, DeviceRows(db, d));
            Enabled(s2, step) && Atomic(s2, step) && Apply(s2, step) == FreedState(db, user, d, country)
    ensures Atomic(Alone(db), Begin(0, user, d, country))
  {
    hide DeviceRows;
    s1 := Apply(Alone(db), Begin(0, user, d, country));
    s2 := Apply(s1, Check(0));
  }

  lemma StartRun(db: Db, user: Id, d: Id, country: Id, rest: seq<Step>, last: State)
    requires IsLiveDevice(db, user, d)
    requires AtomicRun(FreedState(db, user, d, country), rest)
    requires Final(FreedState(db, user, d, country), rest) == last
    ensures exists steps :: AtomicRun(Alone(db), steps) && Final(Alone(db), steps) == last
  {
    hide Enabled, Apply, Atomic, FreedState;
    var s1, s2 := FreedFrom(db, user, d, country);
    var free := Free(0, DeviceRows(db, d));
    OwnIsAtomic(s1, Check(0));
    Prepend(s2, free, rest, last);
    var steps := [free] + rest;
    Prepend(s1, Check(0), steps, last);
    steps := [Check(0)] + steps;
    Prepend(Alone(db), Begin(0, user, d, country), steps, last);
  }

  lemma ChosenFrom(s3: State, order: seq<Id>, best: nat, now: int, ttl: int) returns (s4: State, s6: State)
    requires s3.txs.Keys == {0} && IsAt(s3, 0, Freed)
    requires IsCandidateList(s3.db, order, s3.txs[0].country, now, ttl)
    requires IsBest(Candidates(s3.db, order, s3.txs[0].released), best) && order[best] in s3.db.gateways
    ensures var choose := Choose(0, order, best, now, ttl); Enabled(s3, choose) && s4 == Apply(s3, choose)
    ensures Enabled(s4, LockGateway(0)) && Enabled(Apply(s4, LockGateway(0)), Gather(0))
    ensures s6 == Apply(Apply(s4, LockGateway(0)), Gather(0))
    ensures s6.txs.Keys == {0} && s6.db == s3.db
    ensures var row, x := s3.db.gateways[order[best]], s3.txs[0];
            s6.txs[0] == x.(phase := Gathered, gateway := order[best], net4 := row.net4, net6 := row.net6,
                            used := UsedAddresses(s3.db, order[best], x.released))
  {
    hide UsedAddresses, Candidates, IsCandidateList, IsBest;
    s4 := Apply(s3, Choose(0, order, best, now, ttl));
    s6 := Apply(Apply(s4, LockGateway(0)), Gather(0));
  }

  lemma InsertedFrom(s6: State, ip: uint32, id: Id, expires: int) returns (s7: State)
    requires s6.txs.Keys == {0} && IsAt(s6, 0, Gathered) && FreshLease(s6, id) && s6.txs[0].net4.ones <= 32
    requires IsLowestFree(s6.txs[0].net4, s6.txs[0].used, ip) && !IndexConflict(s6, 0, ip)
    ensures Enabled(s6, Insert(0, ip, id, expires)) && s7 == Apply(s6, Insert(0, ip, id, expires))
    ensures Enabled(s7, Commit(0))
    ensures var x := s6.txs[0];
            Apply(s7, Commit(0)) == Alone(s6.db.(leases := SetStates(s6.db.leases, x.released, Released)[id :=
              Lease(x.gateway, x.device, x.key, ip, Companion(x.net4, x.net6, ip), Active, expires)]))
  {
    hide IsLowestFree, IndexConflict, SetStates, Companion;
    s7 := Apply(s6, Insert(0, ip, id, expires));
  }

  lemma ConnectIsRun(db: Db, user: Id, d: Id, country: Id, order: seq<Id>, best: nat, now: int, ttl: int,
      host: Host, id: Id, expires: int)
    requires IsLiveDevice(db, user, d) && id !in db.leases
    requires IsCandidateList(db, order, country, now, ttl)
    requires IsBest(Candidates(db, order, DeviceRows(db, d)), best)
    requires order[best] in db.gateways
    requires var row := db.gateways[order[best]];
             && row.net4.ones <= 32
             && IsLowestFree(row.net4, UsedAddresses(db, order[best], DeviceRows(db, d)), host.v4)
             && host.v6 == Companion(row.net4, row.net6, host.v4)
    ensures Connects(db, Connected(db, d, order[best], host, id, expires))
  {
    hide Enabled, Apply, Atomic, UsedAddresses, Candidates, DeviceRows, IsLowestFree, SetStates, Companion;
    hide IsCandidateList, AtomicRun, IndexConflict;
    var s3 := FreedState(db, user, d, country);
    var last := Alone(Connected(db, d, order[best], host, id, expires));
    var choose := Choose(0, order, best, now, ttl);
    var s4, s6 := ChosenFrom(s3, order, best, now, ttl);
    LowestIsFree(db.gateways[order[best]].net4, s6.txs[0].used, host.v4);
    LoneInsert(s6, host.v4);
    var s7 := InsertedFrom(s6, host.v4, id, expires);
    FinishRun(s4, s7, Insert(0, host.v4, id, expires), last);
    var rest: seq<Step> :| AtomicRun(s4, rest) && Final(s4, rest) == last;
    OwnIsAtomic(s3, choose);
    Prepend(s3, choose, rest, last);
    StartRun(db, user, d, country, [choose] + rest, last);
  }

  lemma LowestIsFree(net: Net4, used: set<uint32>, ip: uint32)
    requires net.ones <= 32 && IsLowestFree(net, used, ip)
    ensures ip !in used
  {
  }

  lemma LoneInsert(s: State, ip: uint32)
    requires s.txs.Keys == {0}
    requires ip !in UsedAddresses(s.db, s.txs[0].gateway, s.txs[0].released)
    ensures !IndexConflict(s, 0, ip)
  {
    var x := s.txs[0];
    forall id | ActiveOn(s.db, x.gateway, id) && id !in x.released
      ensures s.db.leases[id].v4 != ip
    {
      assert id in ActiveRows(s.db, x.gateway, x.released);
    }
  }

  lemma FinishRun(s4: State, s7: State, insert: Step, last: State)
    requires insert.Insert? && insert.t == 0
    requires Enabled(s4, LockGateway(0))
    requires Enabled(Apply(s4, LockGateway(0)), Gather(0))
    requires Enabled(Apply(Apply(s4, LockGateway(0)), Gather(0)), insert)
    requires s7 == Apply(Apply(Apply(s4, LockGateway(0)), Gather(0)), insert)
    requires Enabled(s7, Commit(0)) && Apply(s7, Commit(0)) == last
    ensures exists rest :: AtomicRun(s4, rest) && Final(s4, rest) == last
  {
    hide Enabled, Apply, Atomic;
    var s5 := Apply(s4, LockGateway(0));
    var s6 := Apply(s5, Gather(0));
    assert AtomicRun(last, []) && Final(last, []) == last;
    OwnIsAtomic(s7, Commit(0));
    OwnIsAtomic(s6, insert);
    OwnIsAtomic(s5, Gather(0));
    OwnIsAtomic(s4, LockGateway(0));
    Prepend(s7, Commit(0), [], last);
    var rest := [Commit(0)] + [];
    Prepend(s6, insert, rest, last);
    rest := [insert] + rest;
    Prepend(s5, Gather(0), rest, last);
    rest := [Gather(0)] + rest;
    Prepend(s4, LockGateway(0), rest, last);
  }

  /** What the tables satisfy between operations. */
  ghost predicate Consistent(db: Db) {
    Sound(Alone(db)) && OneLeasePerDevice(db)
  }

  lemma RunKeepsConsistent(db: Db, steps: seq<Step>, db': Db)
    requires Consistent(db) && AtomicRun(Alone(db), steps) && Final(Alone(db), steps) == Alone(db')
    ensures Consistent(db')
  {
    assert ApartInv(Alone(db));
    hide AtomicRun, ConnectsApart, Inv, KeyInv, GatewayInv, OneLeasePerDevice, FreedAll;
    AtomicRunIsApart(Alone(db), steps);
    RunKeepsSound(Alone(db), steps);
    ApartRunKeepsInv(Alone(db), steps);
  }

  lemma ConnectKeepsConsistent(db: Db, db': Db)
    requires Consistent(db) && Connects(db, db')
    ensures Consistent(db')
  {
    var steps :| AtomicRun(Alone(db), steps) && Final(Alone(db), steps) == Alone(db');
    RunKeepsConsistent(db, steps, db');
  }

  lemma BackgroundKeepsConsistent(db: Db, step: Step)
    requires Consistent(db) && IsBackground(step) && Enabled(Alone(db), step) && Atomic(Alone(db), step)
    ensures Consistent(Apply(Alone(db), step).db)
  {
    BackgroundOnlyDeactivates(Alone(db), step);
    hide Sound, OneLeasePerDevice, Enabled, Apply;
    StepKeepsSound(Alone(db), step);
    OtherStepsKeepOne(Alone(db), step);
  }

  lemma NetsAreValid(db: Db, g: Id)
    requires Consistent(db) && g in db.gateways
    ensures db.gateways[g].net4.Valid()
  {
  }

  predicate IsServed(db: Db, token: Id, now: int, l: Lease) {
    && l.state == Active && now < l.expires
    && l.gateway in db.gateways
    && db.gateways[l.gateway].token == token && db.gateways[l.gateway].status != Disabled
  }

  lemma ListedPeers(db: Db, token: Id, now: int, rows: seq<Id>, peers: seq<Peer>)
    requires ListsRows(db, token, now, rows, peers)
    ensures IsListing(db, token, now, peers) && (set p | p in peers) == GatewayPeers(db, token, now)
  {
    forall p
      ensures p in peers <==> p in GatewayPeers(db, token, now)
    {
      if p in GatewayPeers(db, token, now) {
        var id :| id in PeerRows(db, token, now) && p == AsPeer(db.leases[id]);
        var i :| 0 <= i < |rows| && rows[i] == id;
        assert peers[i] == p;
      }
    }
  }

  // ----- what a connect promises, in terms of the rows -----

  predicate OnlyLeasesDiffer(db: Db, db': Db) {
    db'.locations == db.locations && db'.gateways == db.gateways && db'.devices == db.devices
  }

  predicate Serves(db: Db, g: Id, country: Id, now: int, ttl: int) {
    && g in db.gateways && db.gateways[g].country == country
    && country in db.locations && db.locations[country]
    && db.gateways[g].status == Healthy
    && db.gateways[g].heartbeat.Some? && now - ttl <= db.gateways[g].heartbeat.value
  }

  // the active leases of g that a connect of device d does not replace
  function OthersOn(db: Db, g: Id, d: Id): set<Id> {
    set i | i in db.leases && db.leases[i].gateway == g && db.leases[i].state == Active && db.leases[i].device != d
  }

  // a capacity that is not positive is no limit
  predicate HasRoomFor(db: Db, g: Id, d: Id)
    requires g in db.gateways
  {
    db.gateways[g].capacity <= 0 || |OthersOn(db, g, d)| < db.gateways[g].capacity
  }

  function FitnessFor(db: Db, g: Id, d: Id): real
    requires g in db.gateways
  {
    var row := db.gateways[g];
    Fitness(Candidate(true, row.capacity, |OthersOn(db, g, d)|, row.bandwidthMbps, row.rxBps, row.txBps))
  }

  /** No serving gateway with room is fitter, and none that the query returned earlier is as fit. */
  ghost predicate IsFittest(db: Db, order: seq<Id>, best: int, d: Id, country: Id, now: int, ttl: int) {
    && 0 <= best < |order| && Serves(db, order[best], country, now, ttl) && HasRoomFor(db, order[best], d)
    && (forall g :: Serves(db, g, country, now, ttl) && HasRoomFor(db, g, d) ==>
          FitnessFor(db, g, d) <= FitnessFor(db, order[best], d))
    && (forall j :: 0 <= j < best && Serves(db, order[j], country, now, ttl) && HasRoomFor(db, order[j], d) ==>
          FitnessFor(db, order[j], d) < FitnessFor(db, order[best], d))
  }

  // an address from .2 up and below the broadcast address
  predicate IsHostAddress(net: Net4, ip: int) {
    net.ones <= 32 && net.base as int + 2 <= ip < net.base as int + Pow2(32 - net.ones) - 1
  }

  predicate HasAddress(db: Db, rows: set<Id>, ip: int) {
    exists i :: i in rows && i in db.leases && db.leases[i].v4 as int == ip
  }

  ghost predicate IsLowestUnshared(db: Db, rows: set<Id>, net: Net4, ip: int) {
    && IsHostAddress(net, ip) && !HasAddress(db, rows, ip)
    && forall x :: IsHostAddress(net, x) && x < ip ==> HasAddress(db, rows, x)
  }

  ghost predicate IsExhausted(db: Db, rows: set<Id>, net: Net4) {
    forall x :: IsHostAddress(net, x) ==> HasAddress(db, rows, x)
  }

  // the same offset in the IPv6 subnet, on the last 32 bits
  predicate IsCompanion(row: Gateway, v4: int, v6: Option<nat>) {
    match row.net6
    case None => v6 == None
    case Some(n) =>
      && v6.Some?
      && v6.value / 0x1_0000_0000 == n.base / 0x1_0000_0000
      && v6.value % 0x1_0000_0000 == (n.base + (v4 - row.net4.base as int)) % 0x1_0000_0000
  }

  // the address that no other active lease of the fittest gateway has, and the IPv6 address that goes with it
  ghost predicate HasLeaseOn(db: Db, l: Lease, g: Id) {
    && l.gateway == g && g in db.gateways
    && IsLowestUnshared(db, OthersOn(db, g, l.device), db.gateways[g].net4, l.v4 as int)
    && IsCompanion(db.gateways[g], l.v4 as int, l.v6)
  }

  lemma OthersAre(db: Db, g: Id, d: Id)
    ensures ActiveRows(db, g, DeviceRows(db, d)) == OthersOn(db, g, d)
  {
  }

  lemma CandidatesServe(db: Db, g: Id, country: Id, now: int, ttl: int)
    ensures IsCandidate(db, g, country, now, ttl) <==> Serves(db, g, country, now, ttl)
  {
  }

  lemma SelectableHasRoom(db: Db, g: Id, d: Id)
    requires g in db.gateways && db.gateways[g].status == Healthy
    ensures Selectable(AsCandidate(db, g, DeviceRows(db, d))) <==> HasRoomFor(db, g, d)
    ensures Fitness(AsCandidate(db, g, DeviceRows(db, d))) == FitnessFor(db, g, d)
  {
    hide Fitness;
    OthersAre(db, g, d);
  }

  lemma BestIsFittest(db: Db, order: seq<Id>, best: int, d: Id, country: Id, now: int, ttl: int)
    requires IsCandidateList(db, order, country, now, ttl)
    ensures IsBest(Candidates(db, order, DeviceRows(db, d)), best) <==> IsFittest(db, order, best, d, country, now, ttl)
  {
    hide Fitness, HasRoomFor, FitnessFor, Selectable;
    var all := Candidates(db, order, DeviceRows(db, d));
    forall j | 0 <= j < |order|
      ensures Serves(db, order[j], country, now, ttl)
      ensures Selectable(all[j]) <==> HasRoomFor(db, order[j], d)
      ensures Fitness(all[j]) == FitnessFor(db, order[j], d)
    {
      assert order[j] in order;
      SelectableHasRoom(db, order[j], d);
    }
    forall g
      ensures Serves(db, g, country, now, ttl) <==> exists j :: 0 <= j < |order| && order[j] == g
    {
      CandidatesServe(db, g, country, now, ttl);
      assert g in order <==> exists j :: 0 <= j < |order| && order[j] == g;
    }
    hide IsCandidateList, Serves, Candidates;
  }

  lemma OneFittest(db: Db, order: seq<Id>, a: int, b: int, d: Id, country: Id, now: int, ttl: int)
    requires IsFittest(db, order, a, d, country, now, ttl) && IsFittest(db, order, b, d, country, now, ttl)
    ensures a == b
  {
    hide Fitness, HasRoomFor, FitnessFor;
  }

  lemma NoneFits(db: Db, order: seq<Id>, d: Id, country: Id, now: int, ttl: int)
    requires IsCandidateList(db, order, country, now, ttl)
    requires forall j :: 0 <= j < |order| ==> !Selectable(Candidates(db, order, DeviceRows(db, d))[j])
    ensures forall g :: Serves(db, g, country, now, ttl) ==> !HasRoomFor(db, g, d)
  {
    hide Fitness, HasRoomFor, FitnessFor, Selectable;
    forall g | Serves(db, g, country, now, ttl)
      ensures !HasRoomFor(db, g, d)
    {
      CandidatesServe(db, g, country, now, ttl);
      var j :| 0 <= j < |order| && order[j] == g;
      assert Candidates(db, order, DeviceRows(db, d))[j] == AsCandidate(db, g, DeviceRows(db, d));
      SelectableHasRoom(db, g, d);
    }
  }

  lemma NoneIsFittest(db: Db, order: seq<Id>, d: Id, country: Id, now: int, ttl: int)
    requires forall g :: Serves(db, g, country, now, ttl) ==> !HasRoomFor(db, g, d)
    ensures forall best :: !IsFittest(db, order, best, d, country, now, ttl)
  {
  }

  /** The fittest gateway serves and has room, and there is one at most. */
  lemma FittestServes(db: Db, order: seq<Id>, best: int, d: Id, country: Id, now: int, ttl: int)
    requires IsFittest(db, order, best, d, country, now, ttl)
    ensures 0 <= best < |order| && order[best] in db.gateways
    ensures !forall g :: Serves(db, g, country, now, ttl) ==> !HasRoomFor(db, g, d)
    ensures forall a :: IsFittest(db, order, a, d, country, now, ttl) ==> a == best
  {
    assert Serves(db, order[best], country, now, ttl);
    hide Serves, HasRoomFor, FitnessFor;
    forall a | IsFittest(db, order, a, d, country, now, ttl)
      ensures a == best
    {
      OneFittest(db, order, a, best, d, country, now, ttl);
    }
  }

  /** What Connected changes and the lease that it adds. */
  lemma ConnectedRows(db: Db, d: Id, g: Id, host: Host, id: Id, expires: int)
    requires d in db.devices && id !in db.leases
    ensures var db' := Connected(db, d, g, host, id, expires);
            && OnlyLeasesDiffer(db, db') && db'.leases.Keys == db.leases.Keys + {id}
            && db'.leases[id] == Lease(g, d, db.devices[d].key, host.v4, host.v6, Active, expires)
            && forall i :: i in db.leases ==>
                 db'.leases[i] == if db.leases[i].device == d && db.leases[i].state == Active
                                  then db.leases[i].(state := LeaseState.Released) else db.leases[i]
  {
  }

  lemma UsedAreTheirs(db: Db, g: Id, d: Id, ip: uint32)
    ensures ip in UsedAddresses(db, g, DeviceRows(db, d)) <==> HasAddress(db, OthersOn(db, g, d), ip as int)
  {
    OthersAre(db, g, d);
    var rows := OthersOn(db, g, d);
    assert forall i :: i in rows ==> i in db.leases;
    hide OthersOn, ActiveRows, DeviceRows;
  }

  lemma CompanionMeans(row: Gateway, ip: uint32, v6: Option<nat>)
    requires row.net4.ones <= 32 && row.net4.IsHost(ip)
    ensures v6 == Companion(row.net4, row.net6, ip) ==> IsCompanion(row, ip as int, v6)
  {
    if row.net6.Some? {
      SameHigh(row.net6.value.base, ip as int - row.net4.base as int);
    }
  }

  lemma SameHigh(base: nat, h: nat)
    ensures var r := base - base % 0x1_0000_0000 + (base % 0x1_0000_0000 + h) % 0x1_0000_0000;
            r / 0x1_0000_0000 == base / 0x1_0000_0000 && r % 0x1_0000_0000 == (base + h) % 0x1_0000_0000
  {
  }

  lemma LeaseMeans(db: Db, g: Id, l: Lease)
    requires g in db.gateways && l.gateway == g && db.gateways[g].net4.Valid()
    requires var row := db.gateways[g];
             && IsLowestFree(row.net4, UsedAddresses(db, g, DeviceRows(db, l.device)), l.v4)
             && l.v6 == Companion(row.net4, row.net6, l.v4)
    ensures HasLeaseOn(db, l, g)
  {
    hide Pow2, UsedAddresses, DeviceRows, OthersOn, HasAddress, Companion, IsCompanion;
    var net := db.gateways[g].net4;
    CountFits(net);
    CompanionMeans(db.gateways[g], l.v4, l.v6);
    UsedAreTheirs(db, g, l.device, l.v4);
    forall x | IsHostAddress(net, x) && x < l.v4
      ensures HasAddress(db, OthersOn(db, g, l.device), x)
    {
      UsedAreTheirs(db, g, l.device, x);
    }
  }

  lemma ExhaustedMeans(db: Db, g: Id, d: Id)
    requires g in db.gateways && db.gateways[g].net4.Valid()
    ensures (forall x :: db.gateways[g].net4.IsHost(x) ==> x in UsedAddresses(db, g, DeviceRows(db, d)))
            <==> IsExhausted(db, OthersOn(db, g, d), db.gateways[g].net4)
  {
    hide Pow2, UsedAddresses, DeviceRows, OthersOn, HasAddress;
    var net := db.gateways[g].net4;
    CountFits(net);
    forall x
      ensures net.IsHost(x) <==> IsHostAddress(net, x)
      ensures net.IsHost(x) ==> (x in UsedAddresses(db, g, DeviceRows(db, d)) <==> HasAddress(db, OthersOn(db, g, d), x))
    {
      if net.IsHost(x) {
        UsedAreTheirs(db, g, d, x);
      }
    }
  }

  // ----- what the other operations promise -----

  // an active lease on a device of the user
  predicate IsCallers(db: Db, user: Id, id: Id) {
    && id in db.leases && db.leases[id].state == Active
    && db.leases[id].device in db.devices && db.devices[db.leases[id].device].user == user
  }

  lemma MatchesAreCallers(db: Db, user: Id, id: Id)
    ensures Matches(db, user, id) <==> IsCallers(db, user, id)
  {
  }

  lemma ServedPeers(db: Db, token: Id, now: int, peers: seq<Peer>)
    requires (set p | p in peers) == GatewayPeers(db, token, now)
    ensures forall p :: p in peers <==>
              exists i :: i in db.leases && IsServed(db, token, now, db.leases[i])
                            && p == Peer(db.leases[i].key, db.leases[i].v4, db.leases[i].v6)
  {
    forall p
      ensures p in peers <==> p in GatewayPeers(db, token, now)
    {
      assert p in peers <==> p in set q | q in peers;
    }
    assert forall i :: i in PeerRows(db, token, now) <==> i in db.leases && IsServed(db, token, now, db.leases[i]);
  }

  function Differing(db: Db, db': Db): set<Id>
    requires db'.leases.Keys == db.leases.Keys
  {
    set i | i in db.leases && db'.leases[i] != db.leases[i]
  }

  lemma ExpiredDiffer(db: Db, rows: set<Id>)
    requires forall i :: i in rows ==> IsActive(db, i)
    ensures Differing(db, WithStates(db, rows, Expired)) == rows
  {
  }

  class Store {
    var db: Db

    /** The scan of the candidate rows. */
    method ReadCandidates(order: seq<Id>, gone: set<Id>) returns (forSelect: seq<Candidate>)
      requires forall g :: g in order ==> g in db.gateways
      ensures forSelect == Candidates(db, order, gone)
    {
      forSelect := [];
      for i := 0 to |order|
        invariant forSelect == Candidates(db, order, gone)[..i]
      {
        forSelect := forSelect + [AsCandidate(db, order[i], gone)];
      }
    }

    /** `usedHostAddrs`: one address per row of the query, which drops the rows of this
        transaction's own released leases. */
    method UsedHostAddrs(g: Id, gone: set<Id>) returns (used: set<uint32>)
      ensures used == UsedAddresses(db, g, gone)
    {
      var rows := ActiveRows(db, g, gone);
      used := {};
      while rows != {}
        invariant rows <= ActiveRows(db, g, gone)
        invariant used == set id | id in ActiveRows(db, g, gone) - rows :: db.leases[id].v4
        decreases rows
      {
        var id :| id in rows;
        assert ActiveRows(db, g, gone) - (rows - {id}) == ActiveRows(db, g, gone) - rows + {id};
        used := used + {db.leases[id].v4};
        rows := rows - {id};
      }
    }

    /** `CreateConnection`: on success one committed connect, on an error nothing. */
    method CreateConnection(user: Id, device: Id, country: Id, order: seq<Id>, now: int, ttl: int,
        id: Id, expires: int) returns (r: Result<Id>)
      requires Consistent(db) && id !in db.leases
      requires IsCandidateList(db, order, country, now, ttl)
      modifies this
      ensures Consistent(db)
      ensures r.Success? ==> Connects(old(db), db) && r.value == id
      ensures r.Success? ==> DeviceRows(db, device) == {id} && old(IsLiveDevice(db, user, device))
      ensures r.Success? ==> OnlyLeasesDiffer(old(db), db) && db.leases.Keys == old(db).leases.Keys + {id}
      ensures r.Success? ==> forall i :: i in old(db).leases ==>
                db.leases[i] == if old(db).leases[i].device == device && old(db).leases[i].state == Active
                                then old(db).leases[i].(state := Released) else old(db).leases[i]
      ensures r.Success? ==>
                var l := db.leases[id];
                && l.device == device && device in old(db).devices && l.key == old(db).devices[device].key
                && l.state == Active && l.expires == expires
                && exists best :: IsFittest(old(db), order, best, device, country, now, ttl) && HasLeaseOn(old(db), l, order[best])
      ensures r.Failure? ==> db == old(db)
      ensures r == Failure(DeviceNotFound) <==>
                !(device in old(db).devices && old(db).devices[device].user == user && !old(db).devices[device].revoked)
      ensures r == Failure(NoGatewayAvailable) <==>
                && old(IsLiveDevice(db, user, device))
                && forall g :: Serves(old(db), g, country, now, ttl) ==> !HasRoomFor(old(db), g, device)
      ensures r == Failure(GatewayFull) <==>
                && old(IsLiveDevice(db, user, device))
                && exists best ::
                     && IsFittest(old(db), order, best, device, country, now, ttl)
                     && IsExhausted(old(db), OthersOn(old(db), order[best], device), old(db).gateways[order[best]].net4)
      ensures r.Failure? ==> r.error in {DeviceNotFound, NoGatewayAvailable, GatewayFull}
    {
      hide Consistent, Connects, IsFittest, HasLeaseOn, IsExhausted, Serves, HasRoomFor, OthersOn, IsBest;
      ghost var before := db;
      if !IsLiveDevice(db, user, device) {
        return Failure(DeviceNotFound);
      }
      var key, gone := db.devices[device].key, DeviceRows(db, device);
      var forSelect := ReadCandidates(order, gone);
      var best, ok := Best(forSelect);
      if !ok {
        NoneFits(db, order, device, country, now, ttl);
        NoneIsFittest(db, order, device, country, now, ttl);
        return Failure(NoGatewayAvailable);
      }
      BestIsFittest(db, order, best, device, country, now, ttl);
      FittestServes(db, order, best, device, country, now, ttl);
      var g := order[best];
      var row := db.gateways[g];
      NetsAreValid(db, g);
      var used := UsedHostAddrs(g, gone);
      var host := AllocateHost(row.net4, row.net6, used);
      ExhaustedMeans(db, g, device);
      if host.None? {
        return Failure(GatewayFull);
      }
      var lease := Lease(g, device, key, host.value.v4, host.value.v6, Active, expires);
      LeaseMeans(db, g, lease);
      ConnectIsRun(db, user, device, country, order, best, now, ttl, host.value, id, expires);
      ConnectedRows(db, device, g, host.value, id, expires);
      RecordLease(gone, id, lease);
      assert db == Connected(before, device, g, host.value, id, expires);
      ConnectKeepsConsistent(before, db);
      return Success(id);
    }

    method RecordLease(gone: set<Id>, id: Id, lease: Lease)
      requires gone == DeviceRows(db, lease.device) && id !in db.leases && lease.state == Active
      modifies this
      ensures db == old(db).(leases := SetStates(old(db).leases, gone, Released)[id := lease])
      ensures DeviceRows(db, lease.device) == {id}
    {
      db := WithStates(db, gone, Released);
      db := db.(leases := db.leases[id := lease]);
    }

    method ReleaseConnection(user: Id, id: Id) returns (r: Result<()>)
      requires Consistent(db)
      modifies this
      ensures Consistent(db)
      ensures r == if old(IsCallers(db, user, id)) then Success(()) else Failure(NotFound)
      ensures r.Success? ==> db == old(db).(leases := old(db).leases[id := old(db).leases[id].(state := Released)])
      ensures r.Failure? ==> db == old(db)
    {
      BackgroundKeepsConsistent(db, ReleaseStep(user, id));
      hide Consistent;
      MatchesAreCallers(db, user, id);
      var affected := Matches(db, user, id);
      db := ReleaseLease(db, user, id);
      return if affected then Success(()) else Failure(NotFound);
    }

    method RenewConnection(user: Id, id: Id, expires: int) returns (r: Result<int>)
      requires Consistent(db)
      modifies this
      ensures Consistent(db)
      ensures r == if old(IsCallers(db, user, id)) then Success(expires) else Failure(NotFound)
      ensures r.Success? ==> db == old(db).(leases := old(db).leases[id := old(db).leases[id].(expires := expires)])
      ensures r.Failure? ==> db == old(db)
    {
      BackgroundKeepsConsistent(db, RenewStep(user, id, expires));
      hide Consistent;
      MatchesAreCallers(db, user, id);
      var affected := Matches(db, user, id);
      db := RenewLease(db, user, id, expires);
      return if affected then Success(expires) else Failure(NotFound);
    }

    method ExpireStaleLeases(now: int) returns (n: nat)
      requires Consistent(db)
      modifies this
      ensures Consistent(db) && OnlyLeasesDiffer(old(db), db) && db.leases.Keys == old(db).leases.Keys
      ensures forall i :: i in old(db).leases ==>
                db.leases[i] == if old(db).leases[i].state == Active && old(db).leases[i].expires < now
                                then old(db).leases[i].(state := Expired) else old(db).leases[i]
      ensures n == |Differing(old(db), db)|
    {
      hide Consistent;
      ExpiredDiffer(db, StaleRows(db, now));
      BackgroundKeepsConsistent(db, ExpireStale(StaleRows(db, now), now));
      n := |StaleRows(db, now)|;
      db := WithStates(db, StaleRows(db, now), Expired);
    }

    method ExpireLeasesOnUnhealthyGateways() returns (n: nat)
      requires Consistent(db)
      modifies this
      ensures Consistent(db) && OnlyLeasesDiffer(old(db), db) && db.leases.Keys == old(db).leases.Keys
      ensures forall i :: i in old(db).leases ==>
                var l := old(db).leases[i];
                db.leases[i] == if l.state == Active && l.gateway in old(db).gateways && old(db).gateways[l.gateway].status != Healthy
                                then l.(state := Expired) else l
      ensures n == |Differing(old(db), db)|
    {
      hide Consistent;
      ExpiredDiffer(db, UnhealthyRows(db));
      BackgroundKeepsConsistent(db, ExpireUnhealthy(UnhealthyRows(db)));
      n := |UnhealthyRows(db)|;
      db := WithStates(db, UnhealthyRows(db), Expired);
    }

    /** `RevokeDevice`: the three statements commit one by one, and the database may fail at
        the second or the third. Success leaves nothing of the device behind. */
    method RevokeDevice(user: Id, d: Id, failsAt: nat) returns (r: Result<()>)
      requires Consistent(db)
      modifies this
      ensures Consistent(db)
      ensures r == Failure(NotFound) <==>
                !(d in old(db).devices && old(db).devices[d].user == user && !old(db).devices[d].revoked)
      ensures r == Failure(NotFound) ==> db == old(db)
      ensures r == Failure(Unavailable) <==> r != Failure(NotFound) && (failsAt == 2 || failsAt == 3)
      ensures r != Failure(NotFound) ==>
                && db.devices == old(db).devices[d := old(db).devices[d].(revoked := true)]
                && db.gateways == old(db).gateways && db.locations == old(db).locations
      ensures r == Failure(Unavailable) ==> db.leases == old(db).leases
      ensures r.Success? ==> Quiet(Alone(db), d) && db.leases.Keys == old(db).leases.Keys
      ensures r.Success? ==> forall i :: i in old(db).leases ==>
                db.leases[i] == if old(db).leases[i].device == d && old(db).leases[i].state == Active
                                then old(db).leases[i].(state := Expired) else old(db).leases[i]
      ensures r.Failure? ==> r.error in {NotFound, Unavailable}
    {
      hide Consistent, UsedAddresses, Candidates, IsBest, IsLowestFree, IndexConflict, IsCandidateList;
      BackgroundKeepsConsistent(db, RevokeMark(user, d));
      var affected := IsLiveDevice(db, user, d);
      db := MarkRevoked(db, user, d);
      if !affected {
        return Failure(NotFound);
      }
      if failsAt == 2 || failsAt == 3 {
        return Failure(Unavailable);
      }
      BackgroundKeepsConsistent(db, RevokeLeases(d, DeviceRows(db, d)));
      QuietExactly(Alone(db), d, DeviceRows(db, d));
      assert DeviceRows(db, d) == DeviceRows(old(db), d);
      db := WithStates(db, DeviceRows(db, d), Expired);
      return Success(());
    }

    /** `GatewayPeers`: one entry per active, unexpired lease of the gateway with the token. */
    method ListPeers(token: Id, now: int) returns (r: Result<seq<Peer>>)
      ensures r.Failure? <==>
                forall g :: g in db.gateways && db.gateways[g].token == token ==> db.gateways[g].status == Disabled
      ensures r.Failure? ==> r.error == InvalidToken
      ensures r.Success? ==> IsListing(db, token, now, r.value)
      ensures r.Success? ==> forall p :: p in r.value <==>
                exists i :: i in db.leases && IsServed(db, token, now, db.leases[i])
                              && p == Peer(db.leases[i].key, db.leases[i].v4, db.leases[i].v6)
      ensures r.Success? ==> (set p | p in r.value) == GatewayPeers(db, token, now)
    {
      if !KnownToken(db, token) {
        return Failure(InvalidToken);
      }
      var all := PeerRows(db, token, now);
      var rows, peers := all, [];
      ghost var read: seq<Id> := [];
      while rows != {}
        invariant rows <= all && |read| == |peers| && forall id :: id in read <==> id in all - rows
        invariant forall i, j :: 0 <= i < j < |read| ==> read[i] != read[j]
        invariant forall i :: 0 <= i < |read| ==> read[i] in all && peers[i] == AsPeer(db.leases[read[i]])
        decreases rows
      {
        var id :| id in rows;
        assert forall i :: 0 <= i < |read| ==> read[i] in read;
        peers := peers + [AsPeer(db.leases[id])];
        read := read + [id];
        rows := rows - {id};
      }
      ListedPeers(db, token, now, read, peers);
      ServedPeers(db, token, now, peers);
      return Success(peers);
    }
  }
}
