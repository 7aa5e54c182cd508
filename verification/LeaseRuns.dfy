/** Runs put together step by step: what can follow a state at once. */
module LeaseRuns {
  import opened Options
  import opened Words
  import opened Selection
  import opened Allocation
  import opened StoreTables
  import opened LeaseProtocol
  import opened LeaseSafety
  import opened LeaseDevices
  import opened LeaseKeys

  // the statements that read the clock read the given time
  predicate IsAtTime(step: Step, now: int) {
    match step
    case Choose(_, _, _, time, _) => time == now
    case NoGateway(_, _, time, _) => time == now
    case ExpireStale(_, time) => time == now
    case HeartbeatStep(_, _, time, _, _) => time == now
    case MarkStale(_, time, _) => time == now
    case _ => true
  }

  /** s leads to s' in a run at one instant. */
  ghost predicate Leads(s: State, s': State, now: int) {
    exists steps :: ValidRun(s, steps) && Final(s, steps) == s' && forall step :: step in steps ==> IsAtTime(step, now)
  }

  lemma {:induction false} ExtendRun(s: State, steps: seq<Step>, step: Step)
    requires ValidRun(s, steps) && Enabled(Final(s, steps), step)
    ensures ValidRun(s, steps + [step])
    ensures Final(s, steps + [step]) == Apply(Final(s, steps), step)
    decreases |steps|
  {
    hide Enabled, Apply;
    var all := steps + [step];
    if steps == [] {
      assert all[0] == step && all[1..] == [];
    } else {
      assert all[0] == steps[0] && all[1..] == steps[1..] + [step];
      ExtendRun(Apply(s, steps[0]), steps[1..], step);
    }
  }

  lemma LeadsNowhere(s: State, now: int)
    ensures Leads(s, s, now)
  {
    assert ValidRun(s, []) && Final(s, []) == s;
  }

  lemma Then(o: State, s: State, now: int, step: Step) returns (s': State)
    requires Leads(o, s, now) && Enabled(s, step) && IsAtTime(step, now)
    ensures Leads(o, s', now) && s' == Apply(s, step)
  {
    hide Enabled, Apply, IsAtTime;
    var steps :| ValidRun(o, steps) && Final(o, steps) == s && forall step :: step in steps ==> IsAtTime(step, now);
    ExtendRun(o, steps, step);
    s' := Apply(s, step);
    assert Final(o, steps + [step]) == s';
  }

  lemma LeadsKeepsSound(o: State, s: State, now: int)
    requires Sound(o) && Leads(o, s, now)
    ensures Sound(s)
  {
    hide Sound;
    var steps :| ValidRun(o, steps) && Final(o, steps) == s;
    RunKeepsSound(o, steps);
  }

  // ----- numbers that are not taken yet -----

  lemma {:induction false} FreshNumber(taken: set<nat>) returns (n: nat)
    ensures forall x :: x in taken ==> x < n
  {
    if taken == {} {
      n := 0;
    } else {
      var y :| y in taken;
      var m := FreshNumber(taken - {y});
      n := if y < m then m else y + 1;
      assert forall x :: x in taken ==> x == y || x in taken - {y};
    }
  }

  predicate HasExpired(db: Db, now: int) {
    forall id :: id in db.leases ==> db.leases[id].expires < now
  }

  /** All leases have expired and all heartbeats are past at the given time. */
  predicate IsLater(db: Db, now: int) {
    && HasExpired(db, now)
    && (forall g :: g in db.gateways && db.gateways[g].heartbeat.Some? ==> db.gateways[g].heartbeat.value < now)
  }

  lemma Pick<T>(s: set<T>) returns (x: T)
    requires s != {}
    ensures x in s
  {
    x :| x in s;
  }

  lemma {:induction false} AfterAll(times: set<int>, from: int) returns (now: int)
    ensures from <= now && forall time :: time in times ==> time < now
    decreases |times|
  {
    if times == {} {
      now := from;
    } else {
      var y := Pick(times);
      var m := AfterAll(times - {y}, from);
      now := if y < m then m else y + 1;
      assert forall time :: time in times ==> time == y || time in times - {y};
    }
  }

  lemma LaterTime(db: Db, from: int) returns (now: int)
    ensures from <= now && IsLater(db, now)
  {
    var expiries := set id | id in db.leases :: db.leases[id].expires;
    var beats := set g | g in db.gateways && db.gateways[g].heartbeat.Some? :: db.gateways[g].heartbeat.value;
    now := AfterAll(expiries + beats, from);
    assert forall id :: id in db.leases ==> db.leases[id].expires in expiries + beats;
    assert forall g :: g in db.gateways && db.gateways[g].heartbeat.Some? ==> db.gateways[g].heartbeat.value in expiries + beats;
  }

  /** If some host address is free, one is the lowest. */
  lemma {:induction false} LowestFree(n: Net4, used: set<uint32>, from: int, ip: int) returns (lowest: int)
    requires n.ones <= 32 && n.IsHost(ip) && ip !in used
    requires n.base as int + 2 <= from <= ip
    requires forall x :: n.IsHost(x) && x < from ==> x in used
    ensures IsLowestFree(n, used, lowest) && lowest <= ip
    decreases ip - from
  {
    if from !in used {
      lowest := from;
    } else {
      lowest := LowestFree(n, used, from + 1, ip);
    }
  }

  // ----- everything else out of the way -----

  /** All open connects but those in keep roll back. */
  lemma {:induction false} RollBack(o: State, s: State, now: int, keep: set<Id>) returns (s': State)
    requires Leads(o, s, now)
    ensures Leads(o, s', now) && s'.db == s.db && s'.txs.Keys == s.txs.Keys * keep
    ensures forall t :: t in s'.txs ==> s'.txs[t] == s.txs[t]
    decreases |s.txs.Keys - keep|
  {
    hide Leads;
    if s.txs.Keys <= keep {
      s' := s;
    } else {
      var t :| t in s.txs.Keys && t !in keep;
      var s1 := RollsBack(o, s, now, t);
      assert s1.txs.Keys - keep == s.txs.Keys - keep - {t};
      s' := RollBack(o, s1, now, keep);
    }
  }

  lemma RollsBack(o: State, s: State, now: int, t: Id) returns (s': State)
    requires Leads(o, s, now) && t in s.txs
    ensures Leads(o, s', now) && s' == Without(s, t)
  {
    hide Leads;
    s' := Then(o, s, now, Rollback(t));
  }
}
