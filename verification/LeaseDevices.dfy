/** When a device holds at most one active lease. Step 1b of a connect releases the device's
    leases, but no lock keeps another connect of the same device out. */
module LeaseDevices {
  import opened Options
  import opened Words
  import opened Selection
  import opened Allocation
  import opened StoreTables
  import opened LeaseProtocol
  import opened LeaseSafety

  ghost predicate OneLeasePerDevice(db: Db) {
    forall i, j :: IsActive(db, i) && IsActive(db, j) && db.leases[i].device == db.leases[j].device ==> i == j
  }

  // a connect that has released the device's leases
  predicate HasFreed(x: Tx) {
    x.phase == Freed || HasChosen(x)
  }

  // ----- one commit -----

  /** The leases of a device once a connect has committed: its own device has a new one in
      place of those it released. */
  lemma RowsAfterCommit(s: State, t: Id, d: Id)
    requires Inv(s) && Enabled(s, Commit(t))
    ensures var x := s.txs[t];
            DeviceRows(Apply(s, Commit(t)).db, d) ==
            DeviceRows(s.db, d) - x.released + (if x.device == d then {x.id} else {})
  {
    hide NoDoubleAllocation, Apart, UsedAddresses;
    assert TxOk(s.db, s.txs[t]);
  }

  lemma OneLeaseMeans(db: Db)
    ensures OneLeasePerDevice(db) <==> forall d, i, j :: i in DeviceRows(db, d) && j in DeviceRows(db, d) ==> i == j
  {
    if forall d, i, j :: i in DeviceRows(db, d) && j in DeviceRows(db, d) ==> i == j {
      forall i, j | IsActive(db, i) && IsActive(db, j) && db.leases[i].device == db.leases[j].device
        ensures i == j
      {
        var d := db.leases[i].device;
        assert i in DeviceRows(db, d) && j in DeviceRows(db, d);
      }
    }
  }

  /** A commit leaves one lease per device exactly when it releases every active lease that its
      device has by then. */
  lemma CommitKeepsOneExactly(s: State, t: Id)
    requires Inv(s) && OneLeasePerDevice(s.db) && Enabled(s, Commit(t))
    ensures OneLeasePerDevice(Apply(s, Commit(t)).db) <==> DeviceRows(s.db, s.txs[t].device) <= s.txs[t].released
  {
    var x, db' := s.txs[t], Apply(s, Commit(t)).db;
    forall d
      ensures DeviceRows(db', d) == DeviceRows(s.db, d) - x.released + (if x.device == d then {x.id} else {})
    {
      RowsAfterCommit(s, t, d);
    }
    assert x.id !in s.db.leases by {
      assert TxOk(s.db, x);
    }
    hide Apply, Enabled, Inv, DeviceRows, OneLeasePerDevice;
    OneLeaseMeans(s.db);
    OneLeaseMeans(db');
    RowsAreLeases(s.db, x.device);
    if OneLeasePerDevice(db') {
      assert x.id in DeviceRows(db', x.device);
      forall id | id in DeviceRows(s.db, x.device)
        ensures id in x.released
      {
        assert id !in x.released ==> id in DeviceRows(db', x.device);
      }
    }
  }

  lemma RowsAreLeases(db: Db, d: Id)
    ensures DeviceRows(db, d) <= db.leases.Keys
  {
  }

  lemma OtherStepsKeepOne(s: State, step: Step)
    requires OneLeasePerDevice(s.db) && Enabled(s, step) && !step.Commit?
    ensures OneLeasePerDevice(Apply(s, step).db)
  {
    hide UsedAddresses, IsLowestFree, IsBest, IndexConflict, Candidates, DeviceRows;
    if IsBackground(step) {
      BackgroundOnlyDeactivates(s, step);
    } else {
      assert Apply(s, step).db == s.db;
    }
  }

  // ----- whole runs -----

  ghost predicate AlwaysOne(s: State, steps: seq<Step>)
    requires ValidRun(s, steps)
    decreases |steps|
  {
    OneLeasePerDevice(s.db) && (steps != [] ==> AlwaysOne(Apply(s, steps[0]), steps[1..]))
  }

  /** Every connect that commits has released all that its device holds at that moment. */
  ghost predicate CommitsReplace(s: State, steps: seq<Step>)
    requires ValidRun(s, steps)
    decreases |steps|
  {
    steps != [] ==>
      && (steps[0].Commit? ==> DeviceRows(s.db, s.txs[steps[0].t].device) <= s.txs[steps[0].t].released)
      && CommitsReplace(Apply(s, steps[0]), steps[1..])
  }

  lemma {:induction false} AlwaysOneExactly(s: State, steps: seq<Step>)
    requires Inv(s) && OneLeasePerDevice(s.db) && ValidRun(s, steps)
    ensures AlwaysOne(s, steps) <==> CommitsReplace(s, steps)
    decreases |steps|
  {
    if steps != [] {
      var step := steps[0];
      hide Inv, OneLeasePerDevice, Enabled, Apply, DeviceRows;
      StepKeepsInv(s, step);
      if step.Commit? {
        CommitKeepsOneExactly(s, step.t);
      } else {
        OtherStepsKeepOne(s, step);
      }
      if OneLeasePerDevice(Apply(s, step).db) {
        AlwaysOneExactly(Apply(s, step), steps[1..]);
      } else {
        AlwaysStartsWithOne(Apply(s, step), steps[1..]);
      }
    }
  }

  lemma AlwaysStartsWithOne(s: State, steps: seq<Step>)
    requires ValidRun(s, steps)
    ensures AlwaysOne(s, steps) ==> OneLeasePerDevice(s.db)
  {
  }

  /** From empty tables, over every interleaving: no device ever has two active leases if and only
      if every commit releases all that its device holds by then. */
  lemma OneLeaseExactly(s: State, steps: seq<Step>)
    requires Init(s) && ValidRun(s, steps)
    ensures AlwaysOne(s, steps) <==> CommitsReplace(s, steps)
  {
    AlwaysOneExactly(s, steps);
  }

  // ----- connects of a device that do not overlap -----

  /** Step 1b finds no other connect of its device past that step, and so misses none of the
      device's leases. */
  ghost predicate NoOverlap(s: State, step: Step) {
    step.Free? && step.t in s.txs ==>
      var d := s.txs[step.t].device;
      && step.rows == DeviceRows(s.db, d)
      && forall t :: t in s.txs && t != step.t && HasFreed(s.txs[t]) ==> s.txs[t].device != d
  }

  ghost predicate ConnectsApart(s: State, steps: seq<Step>)
    requires ValidRun(s, steps)
    decreases |steps|
  {
    steps != [] ==> NoOverlap(s, steps[0]) && ConnectsApart(Apply(s, steps[0]), steps[1..])
  }

  ghost predicate FreedAll(s: State) {
    && (forall t :: t in s.txs && HasFreed(s.txs[t]) ==> DeviceRows(s.db, s.txs[t].device) <= s.txs[t].released)
    && (forall t, u :: t in s.txs && u in s.txs && t != u && HasFreed(s.txs[t]) && HasFreed(s.txs[u]) ==>
          s.txs[t].device != s.txs[u].device)
  }

  ghost predicate ApartInv(s: State) {
    Inv(s) && OneLeasePerDevice(s.db) && FreedAll(s)
  }

  lemma BackgroundShrinksRows(s: State, step: Step, d: Id)
    requires Enabled(s, step) && IsBackground(step)
    ensures DeviceRows(Apply(s, step).db, d) <= DeviceRows(s.db, d)
  {
    BackgroundOnlyDeactivates(s, step);
    hide Apply, Enabled;
  }

  lemma StepKeepsFreedAll(s: State, step: Step)
    requires Inv(s) && FreedAll(s) && Enabled(s, step) && NoOverlap(s, step)
    ensures FreedAll(Apply(s, step))
  {
    var s' := Apply(s, step);
    if IsBackground(step) {
      BackgroundOnlyDeactivates(s, step);
      forall t | t in s.txs && HasFreed(s.txs[t])
        ensures DeviceRows(s'.db, s.txs[t].device) <= s.txs[t].released
      {
        BackgroundShrinksRows(s, step, s.txs[t].device);
      }
    } else if step.Commit? {
      forall u | u in s'.txs && HasFreed(s'.txs[u])
        ensures DeviceRows(s'.db, s'.txs[u].device) <= s'.txs[u].released
      {
        RowsAfterCommit(s, step.t, s.txs[u].device);
      }
    } else {
      OwnStepKeepsFreedAll(s, step);
    }
  }

  lemma OwnStepKeepsFreedAll(s: State, step: Step)
    requires FreedAll(s) && Enabled(s, step) && NoOverlap(s, step) && !IsBackground(step) && !step.Commit?
    ensures FreedAll(Apply(s, step))
  {
    hide UsedAddresses, IsLowestFree, IsBest, IndexConflict, Candidates, DeviceRows, IsCandidateList, SetStates, IsLiveDevice, Companion;
    assert Apply(s, step).db == s.db;
  }

  lemma StepKeepsApart(s: State, step: Step)
    requires ApartInv(s) && Enabled(s, step) && NoOverlap(s, step)
    ensures ApartInv(Apply(s, step))
    ensures step.Commit? ==> DeviceRows(s.db, s.txs[step.t].device) <= s.txs[step.t].released
  {
    hide NoOverlap;
    StepKeepsInv(s, step);
    StepKeepsFreedAll(s, step);
    if step.Commit? {
      hide Apply, Inv, OneLeasePerDevice, DeviceRows;
      CommitKeepsOneExactly(s, step.t);
    } else {
      hide Apply, Inv, Enabled, FreedAll;
      OtherStepsKeepOne(s, step);
    }
  }

  lemma {:induction false} ApartRunKeepsInv(s: State, steps: seq<Step>)
    requires ApartInv(s) && ValidRun(s, steps) && ConnectsApart(s, steps)
    ensures ApartInv(Final(s, steps)) && AlwaysOne(s, steps)
    decreases |steps|
  {
    hide Apply, Enabled, NoOverlap, Inv, FreedAll;
    if steps != [] {
      StepKeepsApart(s, steps[0]);
      ApartRunKeepsInv(Apply(s, steps[0]), steps[1..]);
    }
  }

  lemma InitIsApart(s: State)
    requires Init(s)
    ensures ApartInv(s)
  {
  }

  /** In every interleaving in which connects of one device do not overlap, whatever else runs between
      their statements, no device ever has two active leases. */
  lemma OneActiveLeasePerDevice(s: State, steps: seq<Step>)
    requires Init(s) && ValidRun(s, steps) && ConnectsApart(s, steps)
    ensures AlwaysOne(s, steps) && OneLeasePerDevice(Final(s, steps).db)
  {
    hide Apply, Enabled, Inv, ConnectsApart, AlwaysOne;
    InitIsApart(s);
    ApartRunKeepsInv(s, steps);
  }
}
