/** Lane-coupled decay: the verdict for one fact, on exact reals with explicit rounding. */
module Lifecycle {
  import opened Prelude
  import opened Lanes

  datatype Verdict = Keep | Reduce(confidence: real) | Expire

  /** What the results need of `x => 0.5 ** x`. */
  ghost predicate HalvingCurve(half: real -> real) {
    && half(0.0) == 1.0
    && (forall x :: half(x) > 0.0)
    && (forall x, y :: x <= y ==> half(y) <= half(x))
  }

  /** `round(x, 4)`: to the nearest multiple of 1e-4, ties to the even one. */
  function Round4(x: real): real {
    RoundHalfEven(x * 10000.0) as real / 10000.0
  }

  function RoundHalfEven(y: real): (n: int)
    ensures -0.5 <= n as real - y <= 0.5
  {
    var q := y.Floor;
    var rest := y - q as real;
    if rest < 0.5 || (rest == 0.5 && q % 2 == 0) then q else q + 1
  }

  function Decayed(half: real -> real, confidence: real, ageDays: real, halfLifeDays: int): real
    requires halfLifeDays > 0
  {
    confidence * half(ageDays / halfLifeDays as real)
  }

  function EvaluateLaneDecay(half: real -> real, lane: Lane, confidence: real, ageDays: real,
                             userLocked: bool): Verdict
  {
    var policy := PolicyFor(lane);
    if userLocked then Keep
    else if policy.ttlDays.Some? && ageDays > policy.ttlDays.value as real then Expire
    else if policy.halfLifeDays == None || policy.halfLifeDays.value <= 0 then Keep
    else
      var decayed := Decayed(half, confidence, ageDays, policy.halfLifeDays.value);
      if decayed < policy.minConfidence then Expire
      else if decayed < confidence - 0.000000001 then Reduce(Round4(decayed))
      else Keep
  }

  // ---------- rounding ----------

  ghost predicate OnGrid(x: real) {
    (x * 10000.0).Floor as real == x * 10000.0
  }

  lemma RoundMonotone(x: real, y: real)
    requires x <= y
    ensures RoundHalfEven(x) <= RoundHalfEven(y)
  {
  }

  lemma RoundedIsNear(x: real)
    ensures -0.00005 <= Round4(x) - x <= 0.00005 && OnGrid(Round4(x))
  {
  }

  lemma RoundBelowGrid(x: real, g: real)
    requires x <= g && OnGrid(g)
    ensures Round4(x) <= g
  {
    var n := (g * 10000.0).Floor;
    RoundMonotone(x * 10000.0, n as real);
  }

  lemma RoundAboveGrid(x: real, g: real)
    requires g <= x && OnGrid(g)
    ensures g <= Round4(x)
  {
  }

  lemma FloorsAreOnGrid(lane: Lane)
    ensures OnGrid(PolicyFor(lane).minConfidence)
  {
  }

  // ---------- verdicts ----------

  lemma ProductBelow(c: real, h: real)
    requires 0.0 < h <= 1.0 && c * h > 0.0
    ensures c * h <= c
  {
  }

  lemma DecayedAtMost(half: real -> real, confidence: real, ageDays: real, halfLifeDays: int)
    requires HalvingCurve(half) && ageDays >= 0.0 && halfLifeDays > 0
    requires Decayed(half, confidence, ageDays, halfLifeDays) > 0.0
    ensures Decayed(half, confidence, ageDays, halfLifeDays) <= confidence
  {
    var x := ageDays / halfLifeDays as real;
    assert x >= 0.0;
    assert half(x) <= half(0.0);
    ProductBelow(confidence, half(x));
  }

  /** A fact that survives a verdict is within the lane's lifetime, and in a lane with a half-life it
      stays at or above the lane's floor even after rounding. */
  lemma SurvivorWithinPolicy(half: real -> real, lane: Lane, confidence: real, ageDays: real)
    requires HalvingCurve(half) && ageDays >= 0.0
    requires EvaluateLaneDecay(half, lane, confidence, ageDays, false) != Expire
    ensures
      var policy := PolicyFor(lane);
      var verdict := EvaluateLaneDecay(half, lane, confidence, ageDays, false);
      var after := if verdict.Reduce? then verdict.confidence else confidence;
      && (policy.ttlDays.Some? ==> ageDays <= policy.ttlDays.value as real)
      && (policy.halfLifeDays.Some? ==> after >= policy.minConfidence)
  {
    hide Decayed, Round4, OnGrid, HalvingCurve;
    var policy := PolicyFor(lane);
    if policy.halfLifeDays.Some? {
      var decayed := Decayed(half, confidence, ageDays, policy.halfLifeDays.value);
      FloorsAreOnGrid(lane);
      if policy.minConfidence <= decayed {
        RoundAboveGrid(decayed, policy.minConfidence);
      }
      DecayedAtMost(half, confidence, ageDays, policy.halfLifeDays.value);
    }
  }

  /** A survivor's confidence is the decayed one, up to half a grid step. */
  lemma VerdictMultiplies(half: real -> real, lane: Lane, confidence: real, ageDays: real, halfLifeDays: int)
    requires HalvingCurve(half) && ageDays >= 0.0 && confidence >= 0.0
    requires halfLifeDays > 0 && PolicyFor(lane).halfLifeDays == Some(halfLifeDays)
    requires EvaluateLaneDecay(half, lane, confidence, ageDays, false) != Expire
    ensures
      var verdict := EvaluateLaneDecay(half, lane, confidence, ageDays, false);
      var after := if verdict.Reduce? then verdict.confidence else confidence;
      after >= 0.0 && -0.00005 <= after - Decayed(half, confidence, ageDays, halfLifeDays) <= 0.00005
  {
    hide Decayed, Round4, OnGrid, HalvingCurve;
    var decayed := Decayed(half, confidence, ageDays, halfLifeDays);
    SurvivorWithinPolicy(half, lane, confidence, ageDays);
    RoundedIsNear(decayed);
    DecayedAtMost(half, confidence, ageDays, halfLifeDays);
  }

  /** One verdict never raises a confidence on the grid, and any other by at most half a grid step. */
  lemma ReductionBounded(half: real -> real, lane: Lane, confidence: real, ageDays: real, userLocked: bool)
    requires EvaluateLaneDecay(half, lane, confidence, ageDays, userLocked).Reduce?
    ensures
      var after := EvaluateLaneDecay(half, lane, confidence, ageDays, userLocked).confidence;
      OnGrid(after) && after <= confidence + 0.00005 && (OnGrid(confidence) ==> after <= confidence)
  {
    hide OnGrid, Round4, Decayed;
    var decayed := Decayed(half, confidence, ageDays, PolicyFor(lane).halfLifeDays.value);
    RoundedIsNear(decayed);
    if OnGrid(confidence) {
      RoundBelowGrid(decayed, confidence);
    }
  }

  /** The verdict multiplies the already reduced confidence by the decay of the whole age again, so runs
      compound: a fully confident fact one half-life old survives one run and is retracted by the next
      run at the same instant. */
  lemma RepeatedRunsCompound(half: real -> real)
    requires half(1.0) == 0.5
    ensures EvaluateLaneDecay(half, Evidence, 1.0, 30.0, false) == Reduce(0.5)
    ensures EvaluateLaneDecay(half, Evidence, 0.5, 30.0, false) == Expire
  {
  }
}
