/** The committed tables that leases depend on and the effect of each SQL statement that
    writes them (connections.go, gateways.go, identity.go). */
module StoreTables {
  import opened Options
  import opened Words
  import opened Selection
  import opened Allocation

  type Id = nat
  type Key = nat

  datatype Status = Pending | Healthy | Unhealthy | Draining | Disabled

  datatype Gateway = Gateway(
    country: Id, status: Status, net4: Net4, net6: Option<Net6>, capacity: int,
    bandwidthMbps: int, rxBps: int, txBps: int, token: Id, heartbeat: Option<int>)

  datatype Device = Device(user: Id, key: Key, revoked: bool)

  datatype LeaseState = Active | Released | Expired

  datatype Lease = Lease(
    gateway: Id, device: Id, key: Key, v4: uint32, v6: Option<nat>, state: LeaseState, expires: int)

  datatype Db = Db(
    locations: map<Id, bool>, gateways: map<Id, Gateway>, devices: map<Id, Device>, leases: map<Id, Lease>)

  // ----- rows -----

  predicate IsActive(db: Db, id: Id) {
    id in db.leases && db.leases[id].state == Active
  }

  predicate ActiveOn(db: Db, g: Id, id: Id) {
    IsActive(db, id) && db.leases[id].gateway == g
  }

  predicate ActiveOf(db: Db, d: Id, id: Id) {
    IsActive(db, id) && db.leases[id].device == d
  }

  predicate OwnedBy(db: Db, user: Id, id: Id) {
    id in db.leases && db.leases[id].device in db.devices && db.devices[db.leases[id].device].user == user
  }

  /** The active leases of gateway g as a transaction sees them that has itself released
      the rows `gone`. */
  function ActiveRows(db: Db, g: Id, gone: set<Id>): set<Id> {
    set id | id in db.leases && ActiveOn(db, g, id) && id !in gone
  }

  function DeviceRows(db: Db, d: Id): set<Id> {
    set id | id in db.leases && ActiveOf(db, d, id)
  }

  // `usedHostAddrs`
  function UsedAddresses(db: Db, g: Id, gone: set<Id>): set<uint32> {
    set id | id in ActiveRows(db, g, gone) :: db.leases[id].v4
  }

  // ----- candidate gateways -----

  predicate IsCandidate(db: Db, g: Id, country: Id, now: int, ttl: int) {
    && g in db.gateways
    && db.gateways[g].country == country
    && country in db.locations && db.locations[country]
    && db.gateways[g].status == Healthy
    && db.gateways[g].heartbeat.Some? && db.gateways[g].heartbeat.value >= now - ttl
  }

  function AsCandidate(db: Db, g: Id, gone: set<Id>): Candidate
    requires g in db.gateways
  {
    var row := db.gateways[g];
    Candidate(row.status == Healthy, row.capacity, |ActiveRows(db, g, gone)|,
      row.bandwidthMbps, row.rxBps, row.txBps)
  }

  /** The candidate query returns every matching gateway once, in an order of its own. */
  ghost predicate IsCandidateList(db: Db, order: seq<Id>, country: Id, now: int, ttl: int) {
    && (forall g :: g in order <==> IsCandidate(db, g, country, now, ttl))
    && (forall i, j :: 0 <= i < j < |order| ==> order[i] != order[j])
  }

  function Candidates(db: Db, order: seq<Id>, gone: set<Id>): (r: seq<Candidate>)
    requires forall g :: g in order ==> g in db.gateways
    ensures |r| == |order|
  {
    seq(|order|, i requires 0 <= i < |order| => AsCandidate(db, order[i], gone))
  }

  // ----- statements on leases -----

  function SetStates(leases: map<Id, Lease>, rows: set<Id>, state: LeaseState): (r: map<Id, Lease>)
    ensures r.Keys == leases.Keys
  {
    map id | id in leases :: if id in rows then leases[id].(state := state) else leases[id]
  }

  function WithStates(db: Db, rows: set<Id>, state: LeaseState): Db {
    db.(leases := SetStates(db.leases, rows, state))
  }

  // a row that UPDATE ... WHERE id = $1 AND state = 'active' AND device_id IN (...) matches
  predicate Matches(db: Db, user: Id, id: Id) {
    IsActive(db, id) && OwnedBy(db, user, id)
  }

  function ReleaseLease(db: Db, user: Id, id: Id): Db {
    if Matches(db, user, id) then WithStates(db, {id}, Released) else db
  }

  function RenewLease(db: Db, user: Id, id: Id, expires: int): Db {
    if Matches(db, user, id) then db.(leases := db.leases[id := db.leases[id].(expires := expires)]) else db
  }

  function StaleRows(db: Db, now: int): set<Id> {
    set id | id in db.leases && IsActive(db, id) && db.leases[id].expires < now
  }

  function UnhealthyRows(db: Db): set<Id> {
    set id | id in db.leases && IsActive(db, id) && db.leases[id].gateway in db.gateways &&
      db.gateways[db.leases[id].gateway].status != Healthy
  }

  // ----- statements on devices -----

  predicate IsLiveDevice(db: Db, user: Id, d: Id) {
    d in db.devices && db.devices[d].user == user && !db.devices[d].revoked
  }

  function MarkRevoked(db: Db, user: Id, d: Id): Db {
    if IsLiveDevice(db, user, d) then db.(devices := db.devices[d := db.devices[d].(revoked := true)]) else db
  }

  // devices.public_key is UNIQUE
  predicate KeyFree(db: Db, key: Key) {
    forall d :: d in db.devices ==> db.devices[d].key != key
  }

  function InsertDevice(db: Db, d: Id, user: Id, key: Key): Db {
    if d !in db.devices && KeyFree(db, key) then db.(devices := db.devices[d := Device(user, key, false)]) else db
  }

  // ----- statements on gateways -----

  datatype Registration = Registration(country: Id, net4: Net4, net6: Option<Net6>, capacity: int, bandwidthMbps: int)

  // gateways.capacity has CHECK (capacity > 0)
  function Register(db: Db, g: Id, r: Registration, token: Id): Db {
    if r.capacity <= 0 then db
    else
      var locations := if r.country in db.locations then db.locations else db.locations[r.country := true];
      var row := if g in db.gateways
        then db.gateways[g].(country := r.country, status := Pending, net4 := r.net4, net6 := r.net6,
               capacity := r.capacity, bandwidthMbps := r.bandwidthMbps, token := token)
        else Gateway(r.country, Pending, r.net4, r.net6, r.capacity, r.bandwidthMbps, 0, 0, token, None);
      db.(locations := locations, gateways := db.gateways[g := row])
  }

  function Heartbeat(db: Db, g: Id, token: Id, now: int, rxBps: int, txBps: int): Db {
    if g in db.gateways && db.gateways[g].token == token && db.gateways[g].status != Disabled then
      db.(gateways := db.gateways[g :=
        db.gateways[g].(status := Healthy, heartbeat := Some(now), rxBps := rxBps, txBps := txBps)])
    else db
  }

  function Deregister(db: Db, g: Id, token: Id): Db {
    if g in db.gateways && db.gateways[g].token == token then
      db.(gateways := db.gateways[g := db.gateways[g].(status := Disabled)])
    else db
  }

  predicate IsStale(db: Db, g: Id, now: int, ttl: int) {
    && g in db.gateways && db.gateways[g].status == Healthy
    && (db.gateways[g].heartbeat.None? || db.gateways[g].heartbeat.value < now - ttl)
  }

  function MarkUnhealthy(db: Db, rows: set<Id>): Db {
    db.(gateways := map g | g in db.gateways ::
      if g in rows then db.gateways[g].(status := Unhealthy) else db.gateways[g])
  }

  // ----- what the agent is told -----

  datatype Peer = Peer(key: Key, v4: uint32, v6: Option<nat>)

  function AsPeer(l: Lease): Peer {
    Peer(l.key, l.v4, l.v6)
  }

  predicate IsPeerRow(db: Db, token: Id, now: int, id: Id) {
    && IsActive(db, id) && db.leases[id].expires > now
    && db.leases[id].gateway in db.gateways
    && db.gateways[db.leases[id].gateway].token == token
    && db.gateways[db.leases[id].gateway].status != Disabled
  }

  predicate KnownToken(db: Db, token: Id) {
    exists g :: g in db.gateways && db.gateways[g].token == token && db.gateways[g].status != Disabled
  }

  function PeerRows(db: Db, token: Id, now: int): set<Id> {
    set id | id in db.leases && IsPeerRow(db, token, now, id)
  }

  function GatewayPeers(db: Db, token: Id, now: int): set<Peer> {
    set id | id in PeerRows(db, token, now) :: AsPeer(db.leases[id])
  }

  /** The rows of the query, each once, in an order of its own. */
  ghost predicate ListsRows(db: Db, token: Id, now: int, rows: seq<Id>, peers: seq<Peer>) {
    && |peers| == |rows|
    && (forall id :: id in rows <==> id in PeerRows(db, token, now))
    && (forall i, j :: 0 <= i < j < |rows| ==> rows[i] != rows[j])
    && (forall i :: 0 <= i < |rows| ==>
          rows[i] in db.leases && peers[i] == AsPeer(db.leases[rows[i]]))
  }

  ghost predicate IsListing(db: Db, token: Id, now: int, peers: seq<Peer>) {
    exists rows :: ListsRows(db, token, now, rows, peers)
  }
}
