/** The bound on active leases is the least one: for every capacity, every number of connects open at
    once and every subnet with room for them, runs that reach it. */
module CapacityReached {
  import opened Options
  import opened Words
  import opened Selection
  import opened Allocation
  import opened StoreTables
  import opened LeaseProtocol
  import opened LeaseSafety
  import opened LeaseCapacity
  import opened LeaseKeys
  import opened LeaseRuns

  const G: Id := 1
  const COUNTRY: Id := 1
  const USER: Id := 1
  const TOKEN: Id := 1

  /** What a run from empty tables can reach with that capacity and at most n connects open at once. */
  ghost predicate Reached(s: State, capacity: nat, n: nat) {
    exists s0, steps ::
      Empty(s0) && ValidRun(s0, steps) && Within(s0, steps, G, capacity, n) && Final(s0, steps) == s
  }

  ghost predicate Fits(s: State, capacity: nat, n: nat) {
    (G in s.db.gateways ==> s.db.gateways[G].capacity == capacity) && |s.txs| <= n
  }

  lemma WithFits(s: State, t: Id, capacity: nat, n: nat)
    requires Fits(s, capacity, n) && (t in s.txs || |s.txs.Keys + {t}| <= n)
    ensures forall x :: Fits(With(s, t, x), capacity, n) && With(s, t, x).txs.Keys == s.txs.Keys + {t}
  {
    forall x: Tx
      ensures Fits(With(s, t, x), capacity, n) && With(s, t, x).txs.Keys == s.txs.Keys + {t}
    {
      assert s.txs[t := x].Keys == s.txs.Keys + {t};
      assert t in s.txs ==> s.txs.Keys + {t} == s.txs.Keys;
      assert |s.txs| == |s.txs.Keys|;
      assert |s.txs[t := x]| == |s.txs[t := x].Keys|;
    }
  }

  lemma WithoutFits(s: State, t: Id, capacity: nat, n: nat)
    requires Fits(s, capacity, n)
    ensures forall db: Db :: db.gateways == s.db.gateways ==> Fits(Without(s.(db := db), t), capacity, n)
  {
    SubsetSize(s.txs.Keys - {t}, s.txs.Keys);
    assert (s.txs - {t}).Keys == s.txs.Keys - {t};
    assert |s.txs - {t}| == |(s.txs - {t}).Keys| && |s.txs| == |s.txs.Keys|;
  }

  lemma {:induction false} ExtendWithin(s: State, steps: seq<Step>, step: Step, capacity: nat, n: nat)
    requires ValidRun(s, steps) && Enabled(Final(s, steps), step)
    requires Within(s, steps, G, capacity, n) && Fits(Apply(Final(s, steps), step), capacity, n)
    ensures ValidRun(s, steps + [step]) && Within(s, steps + [step], G, capacity, n)
    decreases |steps|
  {
    hide Enabled, Apply;
    ExtendRun(s, steps, step);
    var all := steps + [step];
    if steps == [] {
      assert all[0] == step && all[1..] == [];
      assert Within(Apply(s, step), [], G, capacity, n);
    } else {
      assert all[0] == steps[0] && all[1..] == steps[1..] + [step];
      ExtendWithin(Apply(s, steps[0]), steps[1..], step, capacity, n);
    }
  }

  lemma Reach(s: State, step: Step, capacity: nat, n: nat) returns (s': State)
    requires Reached(s, capacity, n) && Enabled(s, step) && Fits(Apply(s, step), capacity, n)
    ensures Reached(s', capacity, n) && s' == Apply(s, step)
  {
    hide Enabled, Apply, Fits, Empty;
    var s0, steps :|
      Empty(s0) && ValidRun(s0, steps) && Within(s0, steps, G, capacity, n) && Final(s0, steps) == s;
    ExtendWithin(s0, steps, step, capacity, n);
    ExtendRun(s0, steps, step);
    s' := Apply(s, step);
  }

  // ----- the states on the way: k leases, and the next j connects chosen -----

  // a + 1 to a + k
  ghost function Numbers(a: nat, k: nat): (r: set<Id>)
    ensures |r| == k && forall i :: i in r <==> a < i <= a + k
  {
    if k == 0 then {} else Numbers(a, k - 1) + {a + k}
  }

  datatype Nets = Nets(v4: Net4, v6: Option<Net6>)

  const NONE: Nets := Nets(Net4(0, 0), None)

  predicate HasRoom(net: Nets, k: nat) {
    net.v4.ones <= 32 && k <= net.v4.Count() - 3 && net.v4.base as int + net.v4.Count() <= 0x1_0000_0000
  }

  // the k-th host of a subnet, .2 being the first
  function Nth(net: Nets, k: nat): uint32
    requires HasRoom(net, k)
  {
    net.v4.base as int + 1 + k
  }

  // the lease of device d on the k-th host
  function LeaseOf(net: Nets, d: Id, k: nat): Lease
    requires HasRoom(net, k) && 1 <= k
  {
    Lease(G, d, d, Nth(net, k), Companion(net.v4, net.v6, Nth(net, k)), Active, 100)
  }

  function ChoiceOf(net: Nets, t: Id): Tx {
    Tx(Chose, USER, t, COUNTRY, t, {}, G, net.v4, net.v6, {}, 0, Lease(0, 0, 0, 0, None, Released, 0))
  }

  ghost function Leases(net: Nets, k: nat): map<Id, Lease>
    requires HasRoom(net, k)
  {
    map i: Id | 0 < i <= k :: LeaseOf(net, i, i)
  }

  ghost function Devices(m: nat): map<Id, Device> {
    map d: Id | 0 < d <= m :: Device(USER, d, false)
  }

  function GatewayRow(net: Nets, capacity: nat): Gateway {
    Gateway(COUNTRY, Healthy, net.v4, net.v6, capacity, 0, 0, 0, TOKEN, Some(0))
  }

  ghost function Stage(net: Nets, capacity: nat, devices: nat, k: nat, j: nat): State
    requires HasRoom(net, k)
  {
    State(Db(map[COUNTRY := true], map[G := GatewayRow(net, capacity)], Devices(devices), Leases(net, k)),
      map t: Id | k < t <= k + j :: ChoiceOf(net, t))
  }

  lemma StageCounts(net: Nets, capacity: nat, devices: nat, k: nat, j: nat)
    requires HasRoom(net, k)
    ensures var s := Stage(net, capacity, devices, k, j);
            ActiveRows(s.db, G, {}) == Numbers(0, k) && ActiveCount(s, G) == k && s.txs.Keys == Numbers(k, j) && |s.txs| == j
  {
    var s := Stage(net, capacity, devices, k, j);
    assert ActiveRows(s.db, G, {}) == Numbers(0, k);
    assert s.txs.Keys == Numbers(k, j);
    assert |s.txs| == |s.txs.Keys|;
  }

  // ----- the empty stage -----

  lemma Registers(net: Nets, capacity: nat, n: nat) returns (s: State)
    requires net.v4.Valid() && HasRoom(net, 0) && 1 <= capacity
    ensures Reached(s, capacity, n) && s == Stage(net, capacity, 0, 0, 0)
  {
    var s0 := State(Db(map[COUNTRY := true], map[], map[], map[]), map[]);
    assert Empty(s0) && ValidRun(s0, []) && Within(s0, [], G, capacity, n) && Final(s0, []) == s0;
    hide Reached, Pow2;
    s := Reach(s0, RegisterStep(G, Registration(COUNTRY, net.v4, net.v6, capacity, 0), TOKEN), capacity, n);
    s := Beats(s, net, capacity, n);
  }

  lemma Beats(s: State, net: Nets, capacity: nat, n: nat) returns (s': State)
    requires Reached(s, capacity, n) && HasRoom(net, 0)
    requires s == State(Db(map[COUNTRY := true], map[G := Gateway(COUNTRY, Pending, net.v4, net.v6, capacity, 0, 0, 0, TOKEN, None)],
                           map[], map[]), map[])
    ensures Reached(s', capacity, n) && s' == Stage(net, capacity, 0, 0, 0)
  {
    hide Reached, Pow2;
    s' := Reach(s, HeartbeatStep(G, TOKEN, 0, 0, 0), capacity, n);
  }

  lemma {:induction false} AddsDevices(net: Nets, capacity: nat, n: nat, m: nat)
    requires net.v4.Valid() && HasRoom(net, 0) && 1 <= capacity
    ensures Reached(Stage(net, capacity, m, 0, 0), capacity, n)
  {
    if m == 0 {
      var s := Registers(net, capacity, n);
    } else {
      AddsDevices(net, capacity, n, m - 1);
      AddsDevice(net, capacity, n, m);
    }
  }

  lemma AddsDevice(net: Nets, capacity: nat, n: nat, m: nat)
    requires HasRoom(net, 0) && m > 0 && Reached(Stage(net, capacity, m - 1, 0, 0), capacity, n)
    ensures Reached(Stage(net, capacity, m, 0, 0), capacity, n)
  {
    hide Reached, Pow2;
    var s := Reach(Stage(net, capacity, m - 1, 0, 0), AddDevice(m, USER, m), capacity, n);
    assert s == Stage(net, capacity, m, 0, 0);
  }

  // ----- one more connect is opened and chooses -----

  lemma Opens(net: Nets, capacity: nat, m: nat, n: nat, k: nat, j: nat)
    requires HasRoom(net, k) && k < capacity && j < n && k + j < m
    requires Reached(Stage(net, capacity, m, k, j), capacity, n)
    ensures Reached(Stage(net, capacity, m, k, j + 1), capacity, n)
  {
    hide Reached, Pow2;
    var s, t := Stage(net, capacity, m, k, j), k + j + 1;
    StageCounts(net, capacity, m, k, j);
    StageCounts(net, capacity, m, k, j + 1);
    assert s.txs.Keys + {t} == Numbers(k, j + 1);
    NoDeviceRows(net, capacity, m, k, j);
    hide Stage, DeviceRows, Numbers;
    var s1 := Frees(s, t, capacity, n);
    var s2 := Chooses(s1, t, net, capacity, n);
    assert s2.txs == s.txs[t := ChoiceOf(net, t)];
    StageOpened(net, capacity, m, k, j);
  }

  lemma StageOpened(net: Nets, capacity: nat, m: nat, k: nat, j: nat)
    requires HasRoom(net, k)
    ensures var s, t := Stage(net, capacity, m, k, j), k + j + 1;
            With(s, t, ChoiceOf(net, t)) == Stage(net, capacity, m, k, j + 1)
  {
  }

  lemma NoDeviceRows(net: Nets, capacity: nat, m: nat, k: nat, j: nat)
    requires HasRoom(net, k) && k + j < m
    ensures var s := Stage(net, capacity, m, k, j);
            DeviceRows(s.db, k + j + 1) == {} && k + j + 1 in s.db.devices && s.db.devices[k + j + 1] == Device(USER, k + j + 1, false)
  {
  }

  lemma Frees(s: State, t: Id, capacity: nat, n: nat) returns (s': State)
    requires Reached(s, capacity, n) && t !in s.txs && Fits(s, capacity, n) && |s.txs.Keys + {t}| <= n
    requires t in s.db.devices && s.db.devices[t] == Device(USER, t, false)
    ensures Reached(s', capacity, n)
    ensures s' == With(s, t, ChoiceOf(NONE, t).(phase := Freed, gateway := 0))
  {
    hide Reached;
    hide Fits;
    WithFits(s, t, capacity, n);
    s' := Reach(s, Begin(t, USER, t, COUNTRY), capacity, n);
    WithFits(s', t, capacity, n);
    s' := Reach(s', Check(t), capacity, n);
    WithFits(s', t, capacity, n);
    s' := Reach(s', Free(t, {}), capacity, n);
  }

  lemma Chooses(s: State, t: Id, net: Nets, capacity: nat, n: nat) returns (s': State)
    requires Reached(s, capacity, n) && IsAt(s, t, Freed) && Fits(s, capacity, n)
    requires s.db.locations == map[COUNTRY := true] && s.db.gateways == map[G := GatewayRow(net, capacity)]
    requires s.txs[t] == ChoiceOf(NONE, t).(phase := Freed, gateway := 0)
    requires |ActiveRows(s.db, G, {})| < capacity
    ensures Reached(s', capacity, n) && s' == With(s, t, ChoiceOf(net, t))
  {
    hide Reached, Pow2;
    var order := [G];
    assert IsCandidateList(s.db, order, COUNTRY, 0, 0);
    assert IsBest(Candidates(s.db, order, {}), 0);
    hide IsCandidateList, IsBest, ActiveRows;
    WithFits(s, t, capacity, n);
    hide Fits;
    s' := Reach(s, Choose(t, order, 0, 0, 0), capacity, n);
  }

  // ----- the first open connect commits -----

  lemma Finishes(net: Nets, capacity: nat, m: nat, n: nat, k: nat, j: nat)
    requires HasRoom(net, k + 1) && 0 < j <= n
    requires Reached(Stage(net, capacity, m, k, j), capacity, n)
    ensures Reached(Stage(net, capacity, m, k + 1, j - 1), capacity, n)
  {
    hide *;
    RoomBelow(net, k + 1, k);
    StageFits(net, capacity, m, n, k, j);
    StageUses(net, capacity, m, k, j);
    StageFinished(net, capacity, m, k, j);
    StageChoices(net, capacity, m, k, j);
    var s' := FinishesFrom(Stage(net, capacity, m, k, j), k + 1, k + 1, net, capacity, n);
  }

  lemma RoomBelow(net: Nets, k: nat, l: nat)
    requires HasRoom(net, k) && l <= k
    ensures HasRoom(net, l)
  {
  }

  lemma StageFits(net: Nets, capacity: nat, m: nat, n: nat, k: nat, j: nat)
    requires HasRoom(net, k) && j <= n
    ensures Fits(Stage(net, capacity, m, k, j), capacity, n)
  {
    StageCounts(net, capacity, m, k, j);
  }

  lemma FinishesFrom(s: State, t: Id, k: nat, net: Nets, capacity: nat, n: nat) returns (s': State)
    requires HasRoom(net, k) && 1 <= k && Reached(s, capacity, n) && Fits(s, capacity, n) && t !in s.db.leases
    requires t in s.txs && s.txs[t] == ChoiceOf(net, t) && forall u :: u in s.txs ==> s.txs[u].phase == Chose
    requires IsLowestFree(net.v4, UsedAddresses(s.db, G, {}), Nth(net, k))
    requires forall id :: ActiveOn(s.db, G, id) ==> s.db.leases[id].v4 != Nth(net, k)
    ensures Reached(s', capacity, n)
    ensures s' == Without(s.(db := s.db.(leases := s.db.leases[t := LeaseOf(net, t, k)])), t)
  {
    hide Reached, Pow2, UsedAddresses, IsLowestFree, LeaseOf, ActiveOn, HasRoom;
    var s1 := Gathers(s, t, capacity, n);
    WithFits(s, t, capacity, n);
    hide Fits;
    s' := Inserts(s1, t, k, net, capacity, n);
    assert s1.txs - {t} == s.txs - {t};
  }

  lemma StageChoices(net: Nets, capacity: nat, m: nat, k: nat, j: nat)
    requires HasRoom(net, k) && 0 < j
    ensures var s := Stage(net, capacity, m, k, j);
            k + 1 in s.txs && s.txs[k + 1] == ChoiceOf(net, k + 1) && k + 1 !in s.db.leases &&
            s.db.gateways == map[G := GatewayRow(net, capacity)] &&
            forall t :: t in s.txs ==> s.txs[t].phase == Chose
  {
  }

  lemma StageUses(net: Nets, capacity: nat, m: nat, k: nat, j: nat)
    requires HasRoom(net, k + 1)
    ensures var s := Stage(net, capacity, m, k, j);
            IsLowestFree(net.v4, UsedAddresses(s.db, G, {}), Nth(net, k + 1)) &&
            forall id :: ActiveOn(s.db, G, id) ==> s.db.leases[id].v4 != Nth(net, k + 1)
  {
    hide Pow2;
    var s := Stage(net, capacity, m, k, j);
    forall x | net.v4.IsHost(x) && x < Nth(net, k + 1)
      ensures x in UsedAddresses(s.db, G, {})
    {
      var i := x - net.v4.base as int - 1;
      assert i in ActiveRows(s.db, G, {});
    }
  }

  lemma StageFinished(net: Nets, capacity: nat, m: nat, k: nat, j: nat)
    requires HasRoom(net, k + 1) && 0 < j
    ensures var s, t := Stage(net, capacity, m, k, j), k + 1;
            Without(s.(db := s.db.(leases := s.db.leases[t := LeaseOf(net, t, t)])), t) == Stage(net, capacity, m, k + 1, j - 1)
  {
    hide Pow2;
    var s, t, s' := Stage(net, capacity, m, k, j), k + 1, Stage(net, capacity, m, k + 1, j - 1);
    assert s.db.leases[t := LeaseOf(net, t, t)] == s'.db.leases;
    assert s.txs - {t} == s'.txs;
  }

  lemma Gathers(s: State, t: Id, capacity: nat, n: nat) returns (s': State)
    requires Reached(s, capacity, n) && IsAt(s, t, Chose) && s.txs[t].gateway == G && Fits(s, capacity, n)
    requires forall u :: u in s.txs ==> s.txs[u].phase == Chose
    ensures Reached(s', capacity, n)
    ensures s' == With(s, t, s.txs[t].(phase := Gathered, used := UsedAddresses(s.db, G, s.txs[t].released)))
  {
    hide Reached, UsedAddresses;
    WithFits(s, t, capacity, n);
    hide Fits;
    s' := Reach(s, LockGateway(t), capacity, n);
    WithFits(s', t, capacity, n);
    s' := Reach(s', Gather(t), capacity, n);
  }

  lemma Inserts(s: State, t: Id, k: nat, net: Nets, capacity: nat, n: nat) returns (s': State)
    requires HasRoom(net, k) && 1 <= k && Reached(s, capacity, n) && t in s.txs && Fits(s, capacity, n) && t !in s.db.leases
    requires var x := s.txs[t]; x == ChoiceOf(net, t).(phase := Gathered, used := x.used)
    requires IsLowestFree(net.v4, s.txs[t].used, Nth(net, k))
    requires forall id :: ActiveOn(s.db, G, id) ==> s.db.leases[id].v4 != Nth(net, k)
    requires forall u :: u in s.txs && u != t ==> s.txs[u].phase == Chose
    ensures Reached(s', capacity, n)
    ensures s' == Without(s.(db := s.db.(leases := s.db.leases[t := LeaseOf(net, t, k)])), t)
  {
    hide Reached, Pow2, IsLowestFree, Fits;
    WithFits(s, t, capacity, n);
    assert SetStates(s.db.leases, {}, Released) == s.db.leases;
    hide SetStates;
    s' := Reach(s, Insert(t, Nth(net, k), t, 100), capacity, n);
    WithoutFits(s', t, capacity, n);
    s' := Reach(s', Commit(t), capacity, n);
  }

  // ----- the bound is reached -----

  /** One connect after another, below the capacity. */
  lemma {:induction false} Serial(net: Nets, capacity: nat, m: nat, n: nat, k: nat)
    requires net.v4.Valid() && HasRoom(net, k) && 1 <= n && k <= m && k <= capacity && 1 <= capacity
    ensures Reached(Stage(net, capacity, m, k, 0), capacity, n)
  {
    hide Reached;
    if k == 0 {
      AddsDevices(net, capacity, n, m);
    } else {
      Serial(net, capacity, m, n, k - 1);
      Opens(net, capacity, m, n, k - 1, 0);
      Finishes(net, capacity, m, n, k - 1, 1);
    }
  }

  /** j connects choose before any of them inserts. */
  lemma {:induction false} Together(net: Nets, capacity: nat, m: nat, n: nat, j: nat)
    requires net.v4.Valid() && 1 <= capacity && HasRoom(net, capacity - 1) && j <= n && 1 <= n && capacity - 1 + j <= m
    ensures Reached(Stage(net, capacity, m, capacity - 1, j), capacity, n)
  {
    hide Reached;
    if j == 0 {
      Serial(net, capacity, m, n, capacity - 1);
    } else {
      Together(net, capacity, m, n, j - 1);
      Opens(net, capacity, m, n, capacity - 1, j - 1);
    }
  }

  lemma {:induction false} OneByOne(net: Nets, capacity: nat, n: nat, j: nat)
    requires net.v4.Valid() && 1 <= capacity && j <= n && 1 <= n && HasRoom(net, capacity - 1 + j)
    ensures Reached(Stage(net, capacity, capacity + n - 1, capacity - 1 + j, n - j), capacity, n)
  {
    hide Reached;
    if j == 0 {
      Together(net, capacity, capacity + n - 1, n, n);
    } else {
      OneByOne(net, capacity, n, j - 1);
      Finishes(net, capacity, capacity + n - 1, n, capacity - 2 + j, n - j + 1);
    }
  }

  lemma ReachesUpTo(net: Nets, capacity: nat, n: nat, active: nat) returns (s: State)
    requires net.v4.Valid() && 1 <= capacity && 1 <= n && active <= capacity + n - 1 && HasRoom(net, capacity + n - 1)
    ensures Reached(s, capacity, n) && s.db.gateways == map[G := GatewayRow(net, capacity)] && ActiveCount(s, G) == active
  {
    hide Reached;
    var devices := capacity + n - 1;
    if active < capacity {
      Serial(net, capacity, devices, n, active);
      StageCounts(net, capacity, devices, active, 0);
      s := Stage(net, capacity, devices, active, 0);
    } else {
      var j := active + 1 - capacity;
      OneByOne(net, capacity, n, j);
      StageCounts(net, capacity, devices, active, n - j);
      s := Stage(net, capacity, devices, active, n - j);
    }
  }

  lemma ReachedIsBounded(s: State, capacity: nat, n: nat)
    requires Reached(s, capacity, n) && 1 <= capacity && 1 <= n
    ensures ActiveCount(s, G) <= capacity + n - 1
  {
    hide ActiveCount;
    var s0, steps :|
      Empty(s0) && ValidRun(s0, steps) && Within(s0, steps, G, capacity, n) && Final(s0, steps) == s;
    CapacityOvershoot(s0, steps, G, capacity, n);
  }

  ghost predicate IsReachable(net: Nets, capacity: nat, n: nat, active: nat) {
    exists s :: Reached(s, capacity, n) && s.db.gateways == map[G := GatewayRow(net, capacity)] && ActiveCount(s, G) == active
  }

  /** For every capacity and every n, on every subnet with that many hosts: with at most n connects open at
      once a gateway can have any number of active leases up to capacity + n - 1, and no more. */
  lemma ReachedExactly(net: Nets, capacity: nat, n: nat, active: nat)
    requires net.v4.Valid() && 1 <= capacity && 1 <= n && capacity + n - 1 <= net.v4.Count() - 3
    ensures IsReachable(net, capacity, n, active) <==> active <= capacity + n - 1
  {
    hide Reached, ActiveCount;
    CountFits(net.v4);
    if active <= capacity + n - 1 {
      var s := ReachesUpTo(net, capacity, n, active);
    }
    if IsReachable(net, capacity, n, active) {
      var s :| Reached(s, capacity, n) && ActiveCount(s, G) == active;
      ReachedIsBounded(s, capacity, n);
    }
  }
}
