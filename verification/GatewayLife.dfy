/** Which gateways can be chosen: over every interleaving, those that have sent a heartbeat with their present
    token since they last registered and have not been taken out since. */
module GatewayLife {
  import opened Options
  import opened Words
  import opened Selection
  import opened Allocation
  import opened StoreTables
  import opened LeaseProtocol
  import opened LeaseSafety
  import opened LeaseKeys

  predicate Registers(step: Step, g: Id) {
    step.RegisterStep? && step.g == g && 0 < step.r.capacity
  }

  /** A statement that takes g, whose token is given, out of the selection pool. */
  predicate TakesOut(step: Step, g: Id, token: Id) {
    || Registers(step, g)
    || (step.DeregisterStep? && step.g == g && step.token == token)
    || (step.MarkStale? && g in step.rows)
  }

  predicate Beats(step: Step, g: Id, token: Id) {
    step.HeartbeatStep? && step.g == g && step.token == token
  }

  predicate IsHealthy(db: Db, g: Id) {
    g in db.gateways && db.gateways[g].status == Healthy
  }

  predicate IsDisabled(db: Db, g: Id) {
    g in db.gateways && db.gateways[g].status == Disabled
  }

  lemma DisabledStays(s: State, step: Step, g: Id)
    requires Enabled(s, step) && IsDisabled(s.db, g) && !Registers(step, g)
    ensures IsDisabled(Apply(s, step).db, g)
  {
    if !ChangesGateways(step) {
      OtherStepsKeepGateways(s, step);
      hide Apply, Enabled;
    }
  }

  /** A gateway that has signed off is not chosen again, whatever heartbeats still arrive, until it registers. */
  lemma {:induction false} DisabledUntilRegistered(s: State, steps: seq<Step>, g: Id)
    requires IsDisabled(s.db, g) && ValidRun(s, steps)
    requires forall step :: step in steps ==> !Registers(step, g)
    ensures IsDisabled(Final(s, steps).db, g)
    decreases |steps|
  {
    hide Enabled, Apply, IsDisabled, Registers;
    if steps != [] {
      DisabledStays(s, steps[0], g);
      DisabledUntilRegistered(Apply(s, steps[0]), steps[1..], g);
    }
  }

  lemma SigningOff(s: State, g: Id)
    requires g in s.db.gateways && Enabled(s, DeregisterStep(g, s.db.gateways[g].token))
    ensures IsDisabled(Apply(s, DeregisterStep(g, s.db.gateways[g].token)).db, g)
  {
  }

  /** Registering again replaces the token: a heartbeat or a farewell with the old one does nothing. */
  lemma OldTokenIsUseless(s: State, g: Id, r: Registration, token: Id, step: Step)
    requires g in s.db.gateways && s.db.gateways[g].token != token && 0 < r.capacity
    requires Enabled(s, RegisterStep(g, r, token))
    requires var s' := Apply(s, RegisterStep(g, r, token));
             Enabled(s', step) && (step.HeartbeatStep? || step.DeregisterStep?) && step.g == g && step.token == s.db.gateways[g].token
    ensures var s' := Apply(s, RegisterStep(g, r, token)); Apply(s', step) == s' && !IsHealthy(s'.db, g) && !IsDisabled(s'.db, g)
  {
  }

  // ----- healthy gateways -----

  predicate Undisturbed(steps: seq<Step>, k: int, g: Id, token: Id) {
    forall j :: 0 <= j < |steps| && k < j ==> !TakesOut(steps[j], g, token)
  }

  // row has the time and the figures of this heartbeat
  predicate IsAsOf(row: Gateway, step: Step, g: Id) {
    && Beats(step, g, row.token)
    && row.heartbeat == Some(step.now) && row.rxBps == step.rxBps && row.txBps == step.txBps
  }

  /** Statement k is the heartbeat that g's row, with its present token, is as of. */
  predicate LastBeat(db: Db, steps: seq<Step>, k: int, g: Id) {
    && g in db.gateways && 0 <= k < |steps|
    && IsAsOf(db.gateways[g], steps[k], g) && Undisturbed(steps, k, g, db.gateways[g].token)
  }

  lemma HealthyBefore(s: State, step: Step, g: Id)
    requires Enabled(s, step) && IsHealthy(Apply(s, step).db, g)
    ensures var row := Apply(s, step).db.gateways[g];
            || IsAsOf(row, step, g)
            || (IsHealthy(s.db, g) && s.db.gateways[g] == row && !TakesOut(step, g, row.token))
  {
    if !ChangesGateways(step) {
      OtherStepsKeepGateways(s, step);
      hide Apply, Enabled;
    }
  }

  lemma {:induction false} HealthyHasBeaten(s: State, steps: seq<Step>, g: Id)
    requires ValidRun(s, steps) && IsHealthy(Final(s, steps).db, g)
    ensures var db := Final(s, steps).db;
            || (exists k :: LastBeat(db, steps, k, g))
            || (IsHealthy(s.db, g) && db.gateways[g] == s.db.gateways[g] && Undisturbed(steps, -1, g, db.gateways[g].token))
    decreases |steps|
  {
    hide Enabled, Apply, IsAsOf, TakesOut;
    if steps != [] {
      var s1, rest, db := Apply(s, steps[0]), steps[1..], Final(s, steps).db;
      HealthyHasBeaten(s1, rest, g);
      if k :| LastBeat(db, rest, k, g) {
        BeatLater(db, steps, k, g);
      } else {
        HealthyBefore(s, steps[0], g);
        FirstUndisturbed(steps, g, db.gateways[g].token);
        if IsAsOf(db.gateways[g], steps[0], g) {
          assert LastBeat(db, steps, 0, g);
        }
      }
    }
  }

  lemma BeatLater(db: Db, steps: seq<Step>, k: int, g: Id)
    requires steps != [] && LastBeat(db, steps[1..], k, g)
    ensures LastBeat(db, steps, k + 1, g)
  {
    hide IsAsOf, TakesOut;
    var token := db.gateways[g].token;
    forall j | k + 1 < j < |steps|
      ensures !TakesOut(steps[j], g, token)
    {
      assert steps[j] == steps[1..][j - 1];
    }
  }

  lemma FirstUndisturbed(steps: seq<Step>, g: Id, token: Id)
    requires steps != [] && Undisturbed(steps[1..], -1, g, token)
    ensures Undisturbed(steps, 0, g, token)
    ensures !TakesOut(steps[0], g, token) ==> Undisturbed(steps, -1, g, token)
  {
    hide TakesOut;
    forall j | 0 < j < |steps|
      ensures !TakesOut(steps[j], g, token)
    {
      assert steps[j] == steps[1..][j - 1];
    }
  }

  /** In every run from empty tables a gateway is healthy only as of a heartbeat with its present token, whose
      figures it has, after which it has neither registered nor signed off nor been found stale. */
  lemma HealthyIsAsOfItsLastBeat(s: State, steps: seq<Step>, g: Id)
    requires Empty(s) && ValidRun(s, steps) && IsHealthy(Final(s, steps).db, g)
    ensures exists k :: LastBeat(Final(s, steps).db, steps, k, g)
  {
    HealthyHasBeaten(s, steps, g);
  }

  /** And a heartbeat with its token makes it healthy until then, unless it has signed off. */
  lemma {:induction false} HealthyAfterBeat(s: State, steps: seq<Step>, g: Id)
    requires ValidRun(s, steps) && IsHealthy(s.db, g) && Undisturbed(steps, -1, g, s.db.gateways[g].token)
    ensures IsHealthy(Final(s, steps).db, g) && Final(s, steps).db.gateways[g].token == s.db.gateways[g].token
    decreases |steps|
  {
    hide Enabled, Apply, TakesOut;
    if steps != [] {
      var token := s.db.gateways[g].token;
      StaysHealthy(s, steps[0], g);
      forall j | 0 <= j < |steps[1..]|
        ensures !TakesOut(steps[1..][j], g, token)
      {
        assert steps[1..][j] == steps[j + 1];
      }
      HealthyAfterBeat(Apply(s, steps[0]), steps[1..], g);
    }
  }

  lemma StaysHealthy(s: State, step: Step, g: Id)
    requires Enabled(s, step) && IsHealthy(s.db, g) && !TakesOut(step, g, s.db.gateways[g].token)
    ensures IsHealthy(Apply(s, step).db, g) && Apply(s, step).db.gateways[g].token == s.db.gateways[g].token
  {
    if !ChangesGateways(step) {
      OtherStepsKeepGateways(s, step);
      hide Apply, Enabled;
    }
  }

  lemma BeatMakesHealthy(s: State, step: Step, g: Id)
    requires Enabled(s, step) && g in s.db.gateways && Beats(step, g, s.db.gateways[g].token)
    ensures IsHealthy(Apply(s, step).db, g) <==> !IsDisabled(s.db, g)
  {
  }
}
