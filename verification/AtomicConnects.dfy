/** Runs in which each connect transaction runs without interruption, as it does when nothing else
    is open. */
module AtomicConnects {
  import opened StoreTables
  import opened LeaseProtocol
  import opened LeaseSafety
  import opened LeaseDevices

  /** While a connect is open only its own statements run, and a statement over many rows has no
      other to wait for, so it misses none. */
  ghost predicate Atomic(s: State, step: Step) {
    && (s.txs != map[] ==> !IsBackground(step) && step.t in s.txs)
    && (step.Free? && step.t in s.txs ==> step.rows == DeviceRows(s.db, s.txs[step.t].device))
    && (step.RevokeLeases? ==> step.rows == DeviceRows(s.db, step.d))
  }

  /** Atomic runs are among the interleavings. */
  ghost predicate AtomicRun(s: State, steps: seq<Step>): (r: bool)
    ensures r ==> ValidRun(s, steps)
    decreases |steps|
  {
    steps == [] ||
    (Enabled(s, steps[0]) && Atomic(s, steps[0]) && AtomicRun(Apply(s, steps[0]), steps[1..]))
  }

  ghost predicate AtMostOneOpen(s: State) {
    forall t, t' :: t in s.txs && t' in s.txs ==> t == t'
  }

  lemma AtomicStepKeepsOneOpen(s: State, step: Step)
    requires AtMostOneOpen(s) && Enabled(s, step) && Atomic(s, step)
    ensures AtMostOneOpen(Apply(s, step)) && NoOverlap(s, step)
  {
    hide SetStates, UsedAddresses, DeviceRows;
    if IsBackground(step) {
      hide Apply;
      BackgroundOnlyDeactivates(s, step);
    }
  }

  /** In an atomic run the connects of a device do not overlap. */
  lemma {:induction false} AtomicRunIsApart(s: State, steps: seq<Step>)
    requires AtMostOneOpen(s) && AtomicRun(s, steps)
    ensures ConnectsApart(s, steps)
    decreases |steps|
  {
    hide Enabled, Apply, Atomic, NoOverlap, AtMostOneOpen;
    if steps != [] {
      AtomicStepKeepsOneOpen(s, steps[0]);
      AtomicRunIsApart(Apply(s, steps[0]), steps[1..]);
    }
  }
}
