/** Gateway selection (selection.go), with the scores over the reals. */
module Selection {

  datatype Candidate = Candidate(healthy: bool, capacity: int, active: int, bandwidthMbps: int, rxBps: int, txBps: int)

  datatype Weights = Weights(load: real, bandwidth: real)

  const DEFAULT_WEIGHTS := Weights(0.7, 0.3)

  function Clamp01(v: real): (r: real)
    ensures 0.0 <= r <= 1.0
  {
    if v < 0.0 then 0.0 else if v > 1.0 then 1.0 else v
  }

  function FitnessWithWeights(g: Candidate, w: Weights): real {
    if g.capacity <= 0 then 0.0
    else
      var loadHeadroom := Clamp01(1.0 - g.active as real / g.capacity as real);
      if g.bandwidthMbps > 0 && w.bandwidth > 0.0 then
        var usedBps := (g.rxBps + g.txBps) as real;
        var capBps := g.bandwidthMbps as real * 1000000.0;
        var bwHeadroom := Clamp01(1.0 - usedBps / capBps);
        var total := w.load + w.bandwidth;
        if total <= 0.0 then loadHeadroom
        else (w.load * loadHeadroom + w.bandwidth * bwHeadroom) / total
      else loadHeadroom
  }

  function Fitness(g: Candidate): real {
    FitnessWithWeights(g, DEFAULT_WEIGHTS)
  }

  /** Every score lies between 0 and 1, so the initial best score of -1 loses to any. */
  lemma FitnessRange(g: Candidate)
    ensures 0.0 <= Fitness(g) <= 1.0
  {
  }

  /** More active peers never make a gateway fitter. */
  lemma FitnessFallsWithLoad(g: Candidate, fewer: int)
    requires fewer <= g.active
    ensures Fitness(g) <= Fitness(g.(active := fewer))
  {
    if g.capacity > 0 {
      QuotientMonotone(fewer as real, g.active as real, g.capacity as real);
    }
  }

  /** Nor does more traffic, in either direction. */
  lemma FitnessFallsWithTraffic(g: Candidate, rx: int, tx: int)
    requires rx <= g.rxBps && tx <= g.txBps
    ensures Fitness(g) <= Fitness(g.(rxBps := rx, txBps := tx))
  {
    if g.capacity > 0 && g.bandwidthMbps > 0 {
      QuotientMonotone((rx + tx) as real, (g.rxBps + g.txBps) as real, g.bandwidthMbps as real * 1000000.0);
    }
  }

  predicate WithinLimits(g: Candidate) {
    && 0 <= g.active <= g.capacity && 0 < g.capacity
    && 0 < g.bandwidthMbps && 0 <= g.rxBps + g.txBps <= g.bandwidthMbps * 1000000
  }

  lemma QuotientRange(x: real, c: real)
    requires 0.0 <= x <= c && c > 0.0
    ensures 0.0 <= x / c <= 1.0
  {
  }

  /** Seven tenths for free places and three tenths for free bandwidth, of what is advertised. */
  lemma FitnessValue(g: Candidate)
    requires 0 < g.capacity && 0 <= g.active <= g.capacity
    ensures WithinLimits(g) ==>
              10.0 * Fitness(g) == 7.0 * (1.0 - g.active as real / g.capacity as real)
                                 + 3.0 * (1.0 - (g.rxBps + g.txBps) as real / (g.bandwidthMbps as real * 1000000.0))
    ensures 0 < g.bandwidthMbps && g.bandwidthMbps * 1000000 <= g.rxBps + g.txBps ==>
              10.0 * Fitness(g) == 7.0 * (1.0 - g.active as real / g.capacity as real)
    ensures g.bandwidthMbps <= 0 ==> Fitness(g) == 1.0 - g.active as real / g.capacity as real
  {
    QuotientRange(g.active as real, g.capacity as real);
    if WithinLimits(g) {
      QuotientRange((g.rxBps + g.txBps) as real, g.bandwidthMbps as real * 1000000.0);
    } else if 0 < g.bandwidthMbps && g.bandwidthMbps * 1000000 <= g.rxBps + g.txBps {
      QuotientMonotone(g.bandwidthMbps as real * 1000000.0, (g.rxBps + g.txBps) as real, g.bandwidthMbps as real * 1000000.0);
    }
  }

  lemma QuotientStrict(x: real, y: real, c: real)
    requires x < y && c > 0.0
    ensures x / c < y / c
  {
  }

  /** Candidates that differ in traffic or in active peers alone, both within their limits. */
  predicate DifferInTraffic(g: Candidate, h: Candidate) {
    && WithinLimits(g) && WithinLimits(h)
    && g.capacity == h.capacity && g.bandwidthMbps == h.bandwidthMbps && g.active == h.active
  }

  predicate DifferInPeers(g: Candidate, h: Candidate) {
    && WithinLimits(g) && WithinLimits(h)
    && g.capacity == h.capacity && g.bandwidthMbps == h.bandwidthMbps && g.rxBps + g.txBps == h.rxBps + h.txBps
  }

  lemma LighterIsFitter(g: Candidate, h: Candidate)
    ensures DifferInTraffic(g, h) && g.rxBps + g.txBps < h.rxBps + h.txBps ==> Fitness(h) < Fitness(g)
    ensures DifferInPeers(g, h) && g.active < h.active ==> Fitness(h) < Fitness(g)
  {
    hide Fitness;
    if DifferInTraffic(g, h) && g.rxBps + g.txBps < h.rxBps + h.txBps {
      FitnessValue(g);
      FitnessValue(h);
      QuotientStrict((g.rxBps + g.txBps) as real, (h.rxBps + h.txBps) as real, g.bandwidthMbps as real * 1000000.0);
    }
    if DifferInPeers(g, h) && g.active < h.active {
      FitnessValue(g);
      FitnessValue(h);
      QuotientStrict(g.active as real, h.active as real, g.capacity as real);
    }
  }

  lemma QuotientMonotone(x: real, y: real, c: real)
    requires x <= y && c > 0.0
    ensures x / c <= y / c
  {
  }

  predicate Selectable(g: Candidate) {
    g.healthy && !(g.capacity > 0 && g.active >= g.capacity)
  }

  /** The first of the fittest selectable candidates. */
  ghost predicate IsBest(candidates: seq<Candidate>, best: int) {
    && 0 <= best < |candidates|
    && Selectable(candidates[best])
    && (forall j :: 0 <= j < |candidates| && Selectable(candidates[j]) ==>
        Fitness(candidates[j]) <= Fitness(candidates[best]))
    && (forall j :: 0 <= j < best && Selectable(candidates[j]) ==>
        Fitness(candidates[j]) < Fitness(candidates[best]))
  }

  method Best(candidates: seq<Candidate>) returns (best: nat, ok: bool)
    ensures ok ==> IsBest(candidates, best)
    ensures !ok ==> forall j :: 0 <= j < |candidates| ==> !Selectable(candidates[j])
    ensures ok ==> forall j :: 0 <= j < |candidates| && Selectable(candidates[j]) ==>
              var g, h := candidates[best], candidates[j];
              && (DifferInTraffic(g, h) ==> g.rxBps + g.txBps <= h.rxBps + h.txBps)
              && (DifferInPeers(g, h) ==> g.active <= h.active)
  {
    hide Fitness;
    var bestScore := -1.0;
    best, ok := 0, false;
    for i := 0 to |candidates|
      invariant ok ==> IsBest(candidates[..i], best) && bestScore == Fitness(candidates[best])
      invariant !ok ==> bestScore == -1.0 && forall j :: 0 <= j < i ==> !Selectable(candidates[j])
    {
      var g := candidates[i];
      FitnessRange(g);
      assert candidates[..i + 1] == candidates[..i] + [g];
      if g.healthy {
        if !(g.capacity > 0 && g.active >= g.capacity) {
          var s := Fitness(g);
          if s > bestScore {
            bestScore, best, ok := s, i, true;
          }
        }
      }
    }
    assert candidates[..|candidates|] == candidates;
    if ok {
      forall j | 0 <= j < |candidates| && Selectable(candidates[j])
        ensures Fitness(candidates[j]) <= Fitness(candidates[best])
        ensures var g, h := candidates[best], candidates[j];
                && (DifferInTraffic(g, h) ==> g.rxBps + g.txBps <= h.rxBps + h.txBps)
                && (DifferInPeers(g, h) ==> g.active <= h.active)
      {
        LighterIsFitter(candidates[j], candidates[best]);
      }
    }
  }
}
