/** How far concurrent connects can overshoot a gateway's capacity. */
module LeaseCapacity {
  import opened Words
  import opened Selection
  import opened Allocation
  import opened StoreTables
  import opened LeaseProtocol
  import opened LeaseSafety

  function ActiveCount(s: State, g: Id): nat {
    |ActiveRows(s.db, g, {})|
  }

  /** Open transactions that have chosen g on a count they read, and whose commit adds a
      lease there without taking one of the device's own away. */
  function Reservations(s: State, g: Id): set<Id> {
    set t | t in s.txs && HasChosen(s.txs[t]) && s.txs[t].gateway == g &&
      s.txs[t].released !! ActiveRows(s.db, g, {})
  }

  function Potential(s: State, g: Id): nat {
    ActiveCount(s, g) + |Reservations(s, g)|
  }

  lemma SubsetSize<T>(a: set<T>, b: set<T>)
    requires a <= b
    ensures |a| <= |b|
  {
    assert b == a + (b - a);
  }

  lemma LessPotential(s: State, s': State, g: Id)
    requires ActiveRows(s'.db, g, {}) <= ActiveRows(s.db, g, {})
    requires Reservations(s', g) <= Reservations(s, g)
    ensures Potential(s', g) <= Potential(s, g)
  {
    SubsetSize(ActiveRows(s'.db, g, {}), ActiveRows(s.db, g, {}));
    SubsetSize(Reservations(s', g), Reservations(s, g));
  }

  /** The rows a transaction has changed stay active under background statements. */
  lemma BackgroundKeepsLockedRows(s: State, step: Step, g: Id, t: Id)
    requires Inv(s) && Enabled(s, step) && IsBackground(step) && t in s.txs
    ensures s.txs[t].released * ActiveRows(s.db, g, {}) <= ActiveRows(Apply(s, step).db, g, {})
  {
    BackgroundOnlyDeactivates(s, step);
    forall id | id in s.txs[t].released && id in ActiveRows(s.db, g, {})
      ensures id in ActiveRows(Apply(s, step).db, g, {})
    {
      assert RowLocked(s, id);
    }
  }

  lemma BackgroundPotential(s: State, step: Step, g: Id)
    requires Inv(s) && Enabled(s, step) && IsBackground(step)
    ensures Potential(Apply(s, step), g) <= Potential(s, g)
  {
    var s' := Apply(s, step);
    BackgroundOnlyDeactivates(s, step);
    forall t | t in s.txs
      ensures t in Reservations(s', g) ==> t in Reservations(s, g)
    {
      BackgroundKeepsLockedRows(s, step, g, t);
    }
    LessPotential(s, s', g);
  }

  /** The active rows of g once transaction x has committed. */
  lemma RowsAfterCommit(s: State, t: Id, g: Id)
    requires Inv(s) && Enabled(s, Commit(t))
    ensures var x, before := s.txs[t], ActiveRows(s.db, g, {});
            ActiveRows(Apply(s, Commit(t)).db, g, {}) ==
            before - x.released + (if x.gateway == g then {x.id} else {})
  {
    assert TxOk(s.db, s.txs[t]);
  }

  lemma ReservationsAfterCommit(s: State, t: Id, g: Id)
    requires Inv(s) && Enabled(s, Commit(t))
    ensures Reservations(Apply(s, Commit(t)), g) <= Reservations(s, g) - {t}
  {
    var s' := Apply(s, Commit(t));
    var before, after := ActiveRows(s.db, g, {}), ActiveRows(s'.db, g, {});
    RowsAfterCommit(s, t, g);
    forall u | u in s'.txs
      ensures u in Reservations(s', g) ==> u in Reservations(s, g)
    {
      assert Apart(s.txs[t], s.txs[u]);
      assert s.txs[u].released * before <= after;
    }
  }

  /** A commit turns its reservation into a lease, or replaces the device's own lease. */
  lemma CommitPotential(s: State, t: Id, g: Id)
    requires Inv(s) && Enabled(s, Commit(t))
    ensures Potential(Apply(s, Commit(t)), g) <= Potential(s, g)
  {
    var x, before := s.txs[t], ActiveRows(s.db, g, {});
    RowsAfterCommit(s, t, g);
    ReservationsAfterCommit(s, t, g);
    SubsetSize(Reservations(Apply(s, Commit(t)), g), Reservations(s, g) - {t});
    SubsetSize(before - x.released, before);
    if x.gateway == g {
      if x.released !! before {
        assert t in Reservations(s, g);
      } else {
        var id :| id in x.released && id in before;
        SubsetSize(before - x.released, before - {id});
      }
    }
  }

  /** A choice reserves a place only if fewer than `capacity` leases were active. */
  lemma ChoicePotential(s: State, step: Step, g: Id, capacity: nat, n: nat)
    requires Inv(s) && Enabled(s, step) && step.Choose?
    requires g in s.db.gateways ==> s.db.gateways[g].capacity == capacity
    requires 1 <= capacity && |s.txs| <= n
    requires Potential(s, g) <= capacity + n - 1
    ensures Potential(Apply(s, step), g) <= capacity + n - 1
  {
    var s' := Apply(s, step);
    var x, rows := s.txs[step.t], ActiveRows(s.db, g, {});
    assert step.t !in Reservations(s, g);
    if s'.txs[step.t].gateway == g && x.released !! rows {
      assert ActiveRows(s.db, g, x.released) == rows;
      assert step.order[step.best] in step.order;
      assert Selectable(AsCandidate(s.db, g, x.released));
      SubsetSize(Reservations(s', g), s.txs.Keys);
    } else {
      assert Reservations(s', g) <= Reservations(s, g);
      LessPotential(s, s', g);
    }
  }

  lemma OtherPotential(s: State, step: Step, g: Id)
    requires Inv(s) && Enabled(s, step) && !IsBackground(step) && !step.Choose? && !step.Commit?
    ensures Potential(Apply(s, step), g) <= Potential(s, g)
  {
    LessPotential(s, Apply(s, step), g);
  }

  /** At every point of the run the gateway's capacity is the given one and at most n
      connect transactions are open. */
  ghost predicate Within(s: State, steps: seq<Step>, g: Id, capacity: nat, n: nat)
    requires ValidRun(s, steps)
    decreases |steps|
  {
    && (g in s.db.gateways ==> s.db.gateways[g].capacity == capacity)
    && |s.txs| <= n
    && (steps != [] ==> Within(Apply(s, steps[0]), steps[1..], g, capacity, n))
  }

  lemma {:induction false} RunPotential(s: State, steps: seq<Step>, g: Id, capacity: nat, n: nat)
    requires Inv(s) && ValidRun(s, steps) && Within(s, steps, g, capacity, n)
    requires 1 <= capacity && Potential(s, g) <= capacity + n - 1
    ensures Potential(Final(s, steps), g) <= capacity + n - 1
    decreases |steps|
  {
    if steps != [] {
      var step := steps[0];
      StepKeepsInv(s, step);
      if IsBackground(step) {
        BackgroundPotential(s, step, g);
      } else if step.Commit? {
        CommitPotential(s, step.t, g);
      } else if step.Choose? {
        ChoicePotential(s, step, g, capacity, n);
      } else {
        OtherPotential(s, step, g);
      }
      RunPotential(Apply(s, step), steps[1..], g, capacity, n);
    }
  }

  /** With n >= 1 connects open at once, a gateway never has more than capacity + n - 1
      active leases; with one at a time, never more than its capacity. */
  lemma CapacityOvershoot(s: State, steps: seq<Step>, g: Id, capacity: nat, n: nat)
    requires Init(s) && ValidRun(s, steps) && Within(s, steps, g, capacity, n)
    requires 1 <= capacity && 1 <= n
    ensures ActiveCount(Final(s, steps), g) <= capacity + n - 1
  {
    assert ActiveRows(s.db, g, {}) == {} && Reservations(s, g) == {};
    RunPotential(s, steps, g, capacity, n);
  }
}
