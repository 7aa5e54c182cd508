/** Whether the peers that the control plane lists for a gateway share an address. Allowed IPs that two
    desired peers share go back and forth between them, so this decides whether the agent converges. */
module PeerAddresses {
  import opened Options
  import opened Words
  import opened Selection
  import opened Allocation
  import opened StoreTables
  import opened LeaseProtocol
  import opened LeaseSafety
  import opened LeaseKeys
  import opened CapacityReached
  import Reconcile
  import WireGuard

  // tokens are drawn at random, 32 bytes long
  ghost predicate SoleToken(db: Db, token: Id) {
    forall g, h :: g in db.gateways && h in db.gateways && db.gateways[g].token == token && db.gateways[h].token == token
      ==> g == h
  }

  ghost predicate HostsApart(peers: seq<Peer>) {
    forall i, j :: 0 <= i < j < |peers| ==> peers[i].v4 != peers[j].v4
  }

  lemma ListedHostsApart(s: State, token: Id, now: int, peers: seq<Peer>)
    requires Inv(s) && SoleToken(s.db, token) && IsListing(s.db, token, now, peers)
    ensures HostsApart(peers)
  {
    hide TxOk, Apart;
    var rows :| ListsRows(s.db, token, now, rows, peers);
    forall i, j | 0 <= i < j < |peers|
      ensures peers[i].v4 != peers[j].v4
    {
      assert rows[i] in rows && rows[j] in rows;
    }
  }

  // ----- IPv6 while a gateway's subnets do not change -----

  ghost predicate IsFrom(n4: Net4, n6: Option<Net6>, l: Lease) {
    n4.ones <= 32 && n4.IsHost(l.v4) && l.v6 == Companion(n4, n6, l.v4)
  }

  /** The gateway, the connects that have chosen it and its leases all go by these subnets. */
  ghost predicate NetsKept(s: State, g: Id, n4: Net4, n6: Option<Net6>) {
    && (g in s.db.gateways ==> s.db.gateways[g].net4 == n4 && s.db.gateways[g].net6 == n6)
    && (forall t :: t in s.txs && HasChosen(s.txs[t]) && s.txs[t].gateway == g ==>
          s.txs[t].net4 == n4 && s.txs[t].net6 == n6)
    && (forall t :: t in s.txs && s.txs[t].phase == Inserted && s.txs[t].gateway == g ==>
          IsFrom(n4, n6, s.txs[t].lease))
    && (forall id :: id in s.db.leases && s.db.leases[id].gateway == g ==> IsFrom(n4, n6, s.db.leases[id]))
  }

  /** If g registers, it is with these subnets. */
  predicate RegistersWith(step: Step, g: Id, n4: Net4, n6: Option<Net6>) {
    step.RegisterStep? && step.g == g ==> step.r.net4 == n4 && step.r.net6 == n6
  }

  lemma GatewayKeepsNets(s: State, step: Step, g: Id, n4: Net4, n6: Option<Net6>)
    requires Enabled(s, step) && RegistersWith(step, g, n4, n6)
    requires g in s.db.gateways ==> s.db.gateways[g].net4 == n4 && s.db.gateways[g].net6 == n6
    ensures var db' := Apply(s, step).db; g in db'.gateways ==> db'.gateways[g].net4 == n4 && db'.gateways[g].net6 == n6
  {
    if !ChangesGateways(step) {
      OtherStepsKeepGateways(s, step);
      hide Apply, Enabled;
    }
  }

  lemma StepKeepsNetsKept(s: State, step: Step, g: Id, n4: Net4, n6: Option<Net6>)
    requires Inv(s) && NetsKept(s, g, n4, n6) && Enabled(s, step) && RegistersWith(step, g, n4, n6)
    ensures NetsKept(Apply(s, step), g, n4, n6)
  {
    hide Inv, Apply, Enabled, Companion, Net4.IsHost;
    GatewayKeepsNets(s, step, g, n4, n6);
    if IsBackground(step) {
      BackgroundOnlyDeactivates(s, step);
    } else {
      OwnStepKeepsNets(s, step, g, n4, n6);
    }
  }

  lemma OwnStepKeepsNets(s: State, step: Step, g: Id, n4: Net4, n6: Option<Net6>)
    requires Inv(s) && NetsKept(s, g, n4, n6) && Enabled(s, step) && !IsBackground(step)
    ensures NetsKept(Apply(s, step), g, n4, n6)
  {
    hide Inv, IsFrom, UsedAddresses, DeviceRows, IsBest, Candidates, IsCandidateList, SetStates, IsLowestFree, IndexConflict;
    if step.Commit? {
      CommitKeepsNets(s, step.t, g, n4, n6);
    } else if step.Insert? {
      InsertKeepsNets(s, step, g, n4, n6);
    } else {
      ChosenIsThere(s, step);
    }
  }

  lemma InsertKeepsNets(s: State, step: Step, g: Id, n4: Net4, n6: Option<Net6>)
    requires NetsKept(s, g, n4, n6) && Enabled(s, step) && step.Insert?
    ensures NetsKept(Apply(s, step), g, n4, n6)
  {
    hide UsedAddresses, IndexConflict, Companion, Net4.IsHost;
  }

  lemma CommitKeepsNets(s: State, t: Id, g: Id, n4: Net4, n6: Option<Net6>)
    requires Inv(s) && NetsKept(s, g, n4, n6) && Enabled(s, Commit(t))
    ensures NetsKept(Apply(s, Commit(t)), g, n4, n6)
  {
    hide NoDoubleAllocation, Apart, Companion, Net4.IsHost, UsedAddresses;
    assert TxOk(s.db, s.txs[t]);
  }

  lemma {:induction false} RunKeepsNets(s: State, steps: seq<Step>, g: Id, n4: Net4, n6: Option<Net6>)
    requires Inv(s) && NetsKept(s, g, n4, n6) && ValidRun(s, steps)
    requires forall step :: step in steps ==> RegistersWith(step, g, n4, n6)
    ensures NetsKept(Final(s, steps), g, n4, n6)
    decreases |steps|
  {
    hide Inv, NetsKept, Enabled, Apply, RegistersWith;
    if steps != [] {
      StepKeepsInv(s, steps[0]);
      StepKeepsNetsKept(s, steps[0], g, n4, n6);
      RunKeepsNets(Apply(s, steps[0]), steps[1..], g, n4, n6);
    }
  }

  /** A later listing entry for a key replaces an earlier one. */
  ghost predicate IsLast(peers: seq<Peer>, i: int) {
    0 <= i < |peers| && forall j :: i < j < |peers| ==> peers[j].key != peers[i].key
  }

  /** No two of the peers that count have the same IPv6 address. */
  ghost predicate CompanionsApart(peers: seq<Peer>) {
    forall i, j :: IsLast(peers, i) && IsLast(peers, j) && i != j && peers[i].v6.Some? ==> peers[i].v6 != peers[j].v6
  }

  lemma SameCompanion(n4: Net4, n6: Option<Net6>, l: Lease, m: Lease)
    requires IsFrom(n4, n6, l) && IsFrom(n4, n6, m) && l.v6.Some? && l.v6 == m.v6
    ensures l.v4 == m.v4
  {
    hide Address6;
    Address6Injective(n6.value, l.v4 as int - n4.base as int, m.v4 as int - n4.base as int);
  }

  lemma KeptCompanionsApart(s: State, g: Id, n4: Net4, n6: Option<Net6>, token: Id, now: int, peers: seq<Peer>)
    requires Inv(s) && NetsKept(s, g, n4, n6) && SoleToken(s.db, token) && IsListing(s.db, token, now, peers)
    requires g in s.db.gateways && s.db.gateways[g].token == token
    ensures CompanionsApart(peers)
  {
    ListedHostsApart(s, token, now, peers);
    hide Inv, IsFrom;
    var rows :| ListsRows(s.db, token, now, rows, peers);
    forall i, j | 0 <= i < |peers| && 0 <= j < |peers| && i != j && peers[i].v6.Some?
      ensures peers[i].v6 != peers[j].v6
    {
      assert rows[i] in rows && rows[j] in rows;
      if peers[i].v6 == peers[j].v6 {
        SameCompanion(n4, n6, s.db.leases[rows[i]], s.db.leases[rows[j]]);
      }
    }
  }

  // ----- what the agent makes of a listing -----

  // how keys and addresses are written, the addresses with their prefix lengths
  datatype Texts = Texts(key: Key -> string, v4: uint32 -> string, v6: nat -> string)

  ghost predicate AreDistinct(t: Texts) {
    && (forall x, y :: t.key(x) == t.key(y) ==> x == y)
    && (forall x, y :: t.v4(x) == t.v4(y) ==> x == y)
    && (forall x, y :: t.v6(x) == t.v6(y) ==> x == y)
    && (forall x, y :: t.v4(x) != t.v6(y))
  }

  function AllowedIps(t: Texts, p: Peer): seq<string> {
    [t.v4(p.v4)] + if p.v6.Some? then [t.v6(p.v6.value)] else []
  }

  function Desired(t: Texts, peers: seq<Peer>): (r: seq<Reconcile.Peer>)
    ensures |r| == |peers|
  {
    seq(|peers|, i requires 0 <= i < |peers| => Reconcile.Peer(t.key(peers[i].key), AllowedIps(t, peers[i])))
  }

  /** The index of a listing holds the last entry of each key. */
  lemma IndexedIsLast(t: Texts, peers: seq<Peer>)
    requires AreDistinct(t)
    ensures var des := Reconcile.Indexed(Desired(t, peers));
            && (forall k :: k in des ==> exists i :: IsLast(peers, i) && t.key(peers[i].key) == k)
            && (forall i :: IsLast(peers, i) ==> t.key(peers[i].key) in des && des[t.key(peers[i].key)] == AllowedIps(t, peers[i]))
  {
    var all := Desired(t, peers);
    forall i
      ensures IsLast(peers, i) <==> Reconcile.IsLast(all, i)
      ensures IsLast(peers, i) ==> all[i] == Reconcile.Peer(t.key(peers[i].key), AllowedIps(t, peers[i]))
    {
      if 0 <= i < |peers| {
        forall j | 0 <= j < |peers|
          ensures all[j].key == all[i].key <==> peers[j].key == peers[i].key
        {
        }
      }
    }
    Reconcile.IndexedIsLast(all);
    hide Desired, AllowedIps, IsLast, Reconcile.IsLast;
    forall k | k in Reconcile.Indexed(all)
      ensures exists i :: IsLast(peers, i) && t.key(peers[i].key) == k
    {
      var i :| Reconcile.IsLast(all, i) && all[i].key == k;
      assert IsLast(peers, i);
    }
  }

  lemma SharesAddress(t: Texts, p: Peer, q: Peer)
    requires AreDistinct(t) && p.v4 != q.v4
    ensures WireGuard.AsSet(AllowedIps(t, p)) !! WireGuard.AsSet(AllowedIps(t, q)) <==> !(p.v6.Some? && p.v6 == q.v6)
  {
    var a, b := AllowedIps(t, p), AllowedIps(t, q);
    if p.v6.Some? && p.v6 == q.v6 {
      assert a[1] in WireGuard.AsSet(a) && b[1] in WireGuard.AsSet(b);
    }
  }

  lemma LastPeersShare(t: Texts, peers: seq<Peer>, i: int, j: int)
    requires AreDistinct(t) && HostsApart(peers) && IsLast(peers, i) && IsLast(peers, j) && i != j
    ensures t.key(peers[i].key) != t.key(peers[j].key)
    ensures WireGuard.AsSet(AllowedIps(t, peers[i])) !! WireGuard.AsSet(AllowedIps(t, peers[j]))
            <==> !(peers[i].v6.Some? && peers[i].v6 == peers[j].v6)
  {
    hide WireGuard.AsSet, AllowedIps;
    SharesAddress(t, peers[i], peers[j]);
  }

  lemma DisjointExactly(t: Texts, peers: seq<Peer>)
    requires AreDistinct(t) && HostsApart(peers)
    ensures WireGuard.DisjointIps(Reconcile.Indexed(Desired(t, peers))) <==> CompanionsApart(peers)
  {
    hide Desired, AllowedIps, WireGuard.AsSet, AreDistinct, HostsApart, Reconcile.Indexed;
    var des := Reconcile.Indexed(Desired(t, peers));
    IndexedIsLast(t, peers);
    if WireGuard.DisjointIps(des) {
      forall i, j | IsLast(peers, i) && IsLast(peers, j) && i != j && peers[i].v6.Some?
        ensures peers[i].v6 != peers[j].v6
      {
        LastPeersShare(t, peers, i, j);
      }
    }
    if CompanionsApart(peers) {
      forall k, l | k in des && l in des && k != l
        ensures WireGuard.AsSet(des[k]) !! WireGuard.AsSet(des[l])
      {
        var i :| IsLast(peers, i) && t.key(peers[i].key) == k;
        var j :| IsLast(peers, j) && t.key(peers[j].key) == l;
        LastPeersShare(t, peers, i, j);
      }
    }
  }

  lemma OneOwnerIsDisjoint(des: map<string, seq<string>>)
    requires WireGuard.OneOwner(WireGuard.Target(des))
    ensures WireGuard.DisjointIps(des)
  {
    hide WireGuard.AsSet;
    var all := WireGuard.Target(des);
    forall k, l | k in des && l in des && k != l
      ensures WireGuard.AsSet(des[k]) !! WireGuard.AsSet(des[l])
    {
      assert all[k] !! all[l];
    }
  }

  /** After every run, for every interface the agent may find: applying the plan for the listed peers ends
      with exactly those if and only if no two of them have the same IPv6 address. */
  lemma ConvergesExactly(s: State, steps: seq<Step>, token: Id, now: int, peers: seq<Peer>, t: Texts,
      current: seq<Reconcile.Peer>, iface: WireGuard.Interface, plan: Reconcile.Plan)
    requires Init(s) && ValidRun(s, steps)
    requires SoleToken(Final(s, steps).db, token) && IsListing(Final(s, steps).db, token, now, peers)
    requires AreDistinct(t) && WireGuard.Lists(current, iface) && WireGuard.OneOwner(iface)
    requires Reconcile.IsPlan(Reconcile.Indexed(current), Reconcile.Indexed(Desired(t, peers)), plan)
    ensures WireGuard.RunAll(iface, WireGuard.Commands(plan)) == WireGuard.Target(Reconcile.Indexed(Desired(t, peers)))
            <==> CompanionsApart(peers)
  {
    InitIsInv(s);
    hide *;
    RunKeepsInv(s, steps);
    ListedHostsApart(Final(s, steps), token, now, peers);
    DisjointExactly(t, peers);
    var des := Reconcile.Indexed(Desired(t, peers));
    WireGuard.RunAllKeepsOneOwner(iface, WireGuard.Commands(plan));
    if CompanionsApart(peers) {
      WireGuard.Converges(current, iface, des, plan);
    } else if WireGuard.RunAll(iface, WireGuard.Commands(plan)) == WireGuard.Target(des) {
      OneOwnerIsDisjoint(des);
    }
  }

  lemma InitIsInv(s: State)
    requires Init(s)
    ensures Inv(s)
  {
  }

  /** So the agent always converges while a gateway registers with the same subnets every time. */
  lemma SameSubnetsConverge(s: State, steps: seq<Step>, g: Id, n4: Net4, n6: Option<Net6>, token: Id, now: int,
      peers: seq<Peer>, t: Texts, current: seq<Reconcile.Peer>, iface: WireGuard.Interface, plan: Reconcile.Plan)
    requires Empty(s) && ValidRun(s, steps) && forall step :: step in steps ==> RegistersWith(step, g, n4, n6)
    requires var db := Final(s, steps).db;
             g in db.gateways && db.gateways[g].token == token && SoleToken(db, token) && IsListing(db, token, now, peers)
    requires AreDistinct(t) && WireGuard.Lists(current, iface) && WireGuard.OneOwner(iface)
    requires Reconcile.IsPlan(Reconcile.Indexed(current), Reconcile.Indexed(Desired(t, peers)), plan)
    ensures WireGuard.RunAll(iface, WireGuard.Commands(plan)) == WireGuard.Target(Reconcile.Indexed(Desired(t, peers)))
  {
    EmptyKeepsNets(s, g, n4, n6);
    hide *;
    RunKeepsInv(s, steps);
    RunKeepsNets(s, steps, g, n4, n6);
    KeptCompanionsApart(Final(s, steps), g, n4, n6, token, now, peers);
    ConvergesExactly(s, steps, token, now, peers, t, current, iface, plan);
  }

  lemma EmptyKeepsNets(s: State, g: Id, n4: Net4, n6: Option<Net6>)
    requires Empty(s)
    ensures Init(s) && Inv(s) && NetsKept(s, g, n4, n6)
  {
  }

  // ----- subnets that change -----

  /** The gateway registers again, with other subnets, and is healthy again before its leases expire. */
  lemma Reregisters(s: State, a: Nets, b: Nets, capacity: nat) returns (s': State)
    requires Reached(s, capacity, 1) && s.txs == map[] && 1 <= capacity && b.v4.Valid()
    requires s.db.locations == map[COUNTRY := true] && s.db.gateways == map[G := GatewayRow(a, capacity)]
    ensures Reached(s', capacity, 1) && s' == s.(db := s.db.(gateways := map[G := GatewayRow(b, capacity)]))
  {
    hide Reached, Pow2;
    var pending := GatewayRow(b, capacity).(status := Pending);
    s' := Reach(s, RegisterStep(G, Registration(COUNTRY, b.v4, b.v6, capacity, 0), TOKEN), capacity, 1);
    assert s' == s.(db := s.db.(gateways := map[G := pending]));
    s' := IsHealthyAgain(s', b, capacity);
  }

  lemma IsHealthyAgain(s: State, b: Nets, capacity: nat) returns (s': State)
    requires Reached(s, capacity, 1) && s.txs == map[]
    requires s.db.gateways == map[G := GatewayRow(b, capacity).(status := Pending)]
    ensures Reached(s', capacity, 1) && s' == s.(db := s.db.(gateways := map[G := GatewayRow(b, capacity)]))
  {
    hide Reached, Pow2;
    s' := Reach(s, HeartbeatStep(G, TOKEN, 0, 0, 0), capacity, 1);
  }

  // device 2 connects
  lemma Connects(s: State, a: Nets, b: Nets, capacity: nat) returns (s': State)
    requires Reached(s, capacity, 1) && s.txs == map[] && 2 <= capacity && 2 in s.db.devices && s.db.devices[2] == Device(USER, 2, false)
    requires s.db.locations == map[COUNTRY := true] && s.db.gateways == map[G := GatewayRow(b, capacity)]
    requires HasRoom(a, 1) && HasRoom(b, 1) && a.v4.base != b.v4.base && s.db.leases == map[1 := LeaseOf(a, 1, 1)]
    ensures Reached(s', capacity, 1) && s'.db.gateways == s.db.gateways
    ensures s'.db.leases == map[1 := LeaseOf(a, 1, 1), 2 := LeaseOf(b, 2, 1)]
  {
    hide Reached, Pow2, UsedAddresses, ActiveRows, IsLowestFree, LeaseOf, HasRoom;
    s' := Frees(s, 2, capacity, 1);
    OneLease(a, b, s'.db);
    s' := Chooses(s', 2, b, capacity, 1);
    OneLease(a, b, s'.db);
    OneLeaseElsewhere(a, b, s'.db);
    s' := FinishesFrom(s', 2, 1, b, capacity, 1);
  }

  lemma TwoPeers(a: Nets, b: Nets, capacity: nat, db: Db) returns (peers: seq<Peer>)
    requires HasRoom(a, 1) && HasRoom(b, 1) && a.v6.Some? && a.v6 == b.v6
    requires db.gateways == map[G := GatewayRow(b, capacity)]
    requires db.leases == map[1 := LeaseOf(a, 1, 1), 2 := LeaseOf(b, 2, 1)]
    ensures SoleToken(db, TOKEN) && IsListing(db, TOKEN, 0, peers) && !CompanionsApart(peers)
  {
    hide Pow2, Address6;
    peers := [Peer(1, Nth(a, 1), db.leases[1].v6), Peer(2, Nth(b, 1), db.leases[2].v6)];
    assert ListsRows(db, TOKEN, 0, [1, 2], peers);
    assert IsLast(peers, 0) && IsLast(peers, 1);
  }

  /** Strictly serial connects, with the IPv4 subnet changed in between and the IPv6 subnet not: both first
      hosts are listed, with the same IPv6 address. */
  lemma ChangedSubnetCollides(a: Nets, b: Nets, capacity: nat) returns (s: State, peers: seq<Peer>)
    requires a.v4.Valid() && b.v4.Valid() && 4 <= a.v4.Count() && 4 <= b.v4.Count() && a.v4.base != b.v4.base
    requires a.v6.Some? && a.v6 == b.v6 && 2 <= capacity
    ensures Reached(s, capacity, 1) && SoleToken(s.db, TOKEN) && IsListing(s.db, TOKEN, 0, peers)
    ensures !CompanionsApart(peers)
  {
    hide Reached, Pow2, SoleToken, IsListing, CompanionsApart;
    CountFits(a.v4);
    CountFits(b.v4);
    Serial(a, capacity, 2, 1, 1);
    s := Stage(a, capacity, 2, 1, 0);
    s := Reregisters(s, a, b, capacity);
    s := Connects(s, a, b, capacity);
    peers := TwoPeers(a, b, capacity, s.db);
  }

  lemma OneLease(a: Nets, b: Nets, db: Db)
    requires HasRoom(a, 1) && HasRoom(b, 1) && a.v4.base != b.v4.base && db.leases == map[1 := LeaseOf(a, 1, 1)]
    ensures ActiveRows(db, G, {}) == {1}
    ensures IsLowestFree(b.v4, UsedAddresses(db, G, {}), Nth(b, 1))
  {
    hide Pow2;
    assert ActiveRows(db, G, {}) == {1};
  }

  lemma OneLeaseElsewhere(a: Nets, b: Nets, db: Db)
    requires HasRoom(a, 1) && HasRoom(b, 1) && a.v4.base != b.v4.base && db.leases == map[1 := LeaseOf(a, 1, 1)]
    ensures forall id :: ActiveOn(db, G, id) ==> db.leases[id].v4 != Nth(b, 1)
  {
    hide Pow2;
  }
}
