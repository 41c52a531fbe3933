/** The nightly decay of the claims table. */
module LaneDecay {
  import opened Prelude
  import opened Lanes
  import opened Lifecycle
  import opened Claims

  const SECONDS_PER_DAY: real := 86400.0

  predicate Selected(c: Claim) {
    c.data.decayEligible && IsLive(c)
  }

  function AgeDays(c: Claim, now: int): real {
    (now - c.ingestedAt) as real / SECONDS_PER_DAY
  }

  function VerdictFor(half: real -> real, now: int, c: Claim): Verdict {
    EvaluateLaneDecay(half, c.data.lane, c.data.confidence, AgeDays(c, now), c.data.userLocked)
  }

  function Carry(c: Claim, verdict: Verdict, now: int): Claim {
    match verdict
    case Keep => c
    case Reduce(confidence) => c.(data := c.data.(confidence := confidence))
    case Expire => c.(data := c.data.(state := Retracted), supersededAt := Some(now))
  }

  /** One row's fate in one run. */
  function DecayClaim(half: real -> real, now: int): Claim -> Claim {
    (c: Claim) => if Selected(c) then Carry(c, VerdictFor(half, now, c), now) else c
  }

  function DecayedTable(half: real -> real, now: int, claims: seq<Claim>): seq<Claim> {
    Map(DecayClaim(half, now), claims)
  }

  datatype Counters = Counters(keep: nat, reduce: nat, expire: nat)

  function CountIn(half: real -> real, now: int, counters: Counters, c: Claim): Counters {
    if !Selected(c) then counters
    else
      match VerdictFor(half, now, c)
      case Keep => counters.(keep := counters.keep + 1)
      case Reduce(_) => counters.(reduce := counters.reduce + 1)
      case Expire => counters.(expire := counters.expire + 1)
  }

  function Tally(half: real -> real, now: int, claims: seq<Claim>): Counters {
    if claims == [] then Counters(0, 0, 0)
    else CountIn(half, now, Tally(half, now, claims[..|claims| - 1]), claims[|claims| - 1])
  }

  class MemoryLifecycleService {
    var claims: seq<Claim>

    constructor (claims: seq<Claim>)
      ensures this.claims == claims
    {
      this.claims := claims;
    }

    /** Assigns each selected row its verdict, one row after the other. */
    method RunLaneDecay(half: real -> real, now: int) returns (counters: Counters)
      modifies this
      ensures claims == DecayedTable(half, now, old(claims))
      ensures counters == Tally(half, now, old(claims))
    {
      counters := Counters(0, 0, 0);
      for i := 0 to |claims|
        invariant |claims| == |old(claims)|
        invariant claims == DecayedTable(half, now, old(claims)[..i]) + old(claims)[i..]
        invariant counters == Tally(half, now, old(claims)[..i])
      {
        hide VerdictFor, Selected, DecayedTable, Tally;
        var c := claims[i];
        OneMoreRow(half, now, old(claims), i);
        if Selected(c) {
          match VerdictFor(half, now, c) {
            case Keep =>
              counters := counters.(keep := counters.keep + 1);
            case Reduce(confidence) =>
              claims := claims[i := c.(data := c.data.(confidence := confidence))];
              counters := counters.(reduce := counters.reduce + 1);
            case Expire =>
              claims := claims[i := c.(data := c.data.(state := Retracted), supersededAt := Some(now))];
              counters := counters.(expire := counters.expire + 1);
          }
        }
      }
      assert old(claims)[..|claims|] == old(claims);
    }
  }

  /** One turn of the loop: the row's verdict takes its place, and the counters take it in. */
  lemma OneMoreRow(half: real -> real, now: int, rows: seq<Claim>, i: nat)
    requires i < |rows|
    ensures
      var before, c, after := DecayedTable(half, now, rows[..i]), rows[i], DecayClaim(half, now)(rows[i]);
      && |before| == i && (before + rows[i..])[i] == c
      && DecayedTable(half, now, rows[..i + 1]) + rows[i + 1..] == (before + rows[i..])[i := after]
      && Tally(half, now, rows[..i + 1]) == CountIn(half, now, Tally(half, now, rows[..i]), c)
  {
    hide VerdictFor, Selected;
    assert rows[..i + 1] == rows[..i] + [rows[i]] && rows[..i + 1][..i] == rows[..i];
    MapAppend(DecayClaim(half, now), rows[..i], [rows[i]]);
    assert rows[i..] == [rows[i]] + rows[i + 1..];
  }

  // ---------- one run ----------

  /** Every selected row is counted under exactly one action. */
  lemma {:induction false} EveryClaimTallied(half: real -> real, now: int, claims: seq<Claim>)
    ensures var t := Tally(half, now, claims); t.keep + t.reduce + t.expire == Count(Selected, claims)
  {
    hide VerdictFor, Selected;
    if claims == [] {
    } else {
      var n := |claims| - 1;
      EveryClaimTallied(half, now, claims[..n]);
      assert claims == claims[..n] + [claims[n]];
      FilterAppend(Selected, claims[..n], [claims[n]]);
      assert [claims[n]][1..] == [];
    }
  }

  /** What is left of a run: every eligible, unlocked claim that is still active is within its lane's
      lifetime and, where the lane has a half-life, at or above its floor. */
  lemma SurvivorsWithinPolicy(half: real -> real, now: int, claims: seq<Claim>, i: nat)
    requires HalvingCurve(half) && i < |claims| && claims[i].ingestedAt <= now
    requires Selected(DecayedTable(half, now, claims)[i]) && !claims[i].data.userLocked
    ensures
      var after := DecayedTable(half, now, claims)[i];
      var policy := PolicyFor(after.data.lane);
      && (policy.ttlDays.Some? ==> AgeDays(after, now) <= policy.ttlDays.value as real)
      && (policy.halfLifeDays.Some? ==> after.data.confidence >= policy.minConfidence)
  {
    hide HalvingCurve, EvaluateLaneDecay;
    var c := claims[i];
    assert AgeDays(c, now) >= 0.0;
    SurvivorWithinPolicy(half, c.data.lane, c.data.confidence, AgeDays(c, now));
  }

  // ---------- many runs ----------

  function RunAll(half: real -> real, times: seq<int>, c: Claim): Claim
    decreases |times|
  {
    if times == [] then c else RunAll(half, times[1..], DecayClaim(half, times[0])(c))
  }

  /** Identity, locked and ineligible claims, and those no longer active: no number of runs touches them. */
  lemma {:induction false} ExemptUnchanged(half: real -> real, times: seq<int>, c: Claim)
    requires c.data.lane == Identity || c.data.userLocked || !c.data.decayEligible || !IsLive(c)
    ensures RunAll(half, times, c) == c
    decreases |times|
  {
    if times == [] {
    } else {
      ExemptUnchanged(half, times[1..], c);
    }
  }

  // ---------- a second run ----------

  /** The confidence a reduction leaves, once more multiplied by the same decay. */
  function DecayedTwice(half: real -> real, now: int, c: Claim): real
    requires VerdictFor(half, now, c).Reduce? && PolicyFor(c.data.lane).halfLifeDays.Some?
    requires PolicyFor(c.data.lane).halfLifeDays.value > 0
  {
    Decayed(half, VerdictFor(half, now, c).confidence, AgeDays(c, now), PolicyFor(c.data.lane).halfLifeDays.value)
  }

  lemma ReduceHasHalfLife(half: real -> real, now: int, c: Claim)
    requires VerdictFor(half, now, c).Reduce?
    ensures PolicyFor(c.data.lane).halfLifeDays.Some? && PolicyFor(c.data.lane).halfLifeDays.value > 0
  {
  }

  /** A second run at the same instant changes nothing exactly when the first did not reduce the claim, or the reduced
      confidence decayed once more is at or above the floor and rounds to itself. A kept, expired or exempt claim is
      stable; a reduced one compounds. */
  lemma SecondRunStableIff(half: real -> real, now: int, c: Claim)
    requires HalvingCurve(half) && c.ingestedAt <= now
    ensures
      var once := DecayClaim(half, now)(c);
      DecayClaim(half, now)(once) == once <==>
        || !Selected(c) || !VerdictFor(half, now, c).Reduce?
        || (ReduceHasHalfLife(half, now, c);
            var twice := DecayedTwice(half, now, c);
            twice >= PolicyFor(c.data.lane).minConfidence && Round4(twice) == VerdictFor(half, now, c).confidence)
  {
    hide HalvingCurve, Decayed, Round4;
    if Selected(c) && VerdictFor(half, now, c).Reduce? {
      ReducedStableIff(half, now, c);
    }
  }

  lemma ReducedStableIff(half: real -> real, now: int, c: Claim)
    requires HalvingCurve(half) && c.ingestedAt <= now && Selected(c) && VerdictFor(half, now, c).Reduce?
    ensures
      var once := DecayClaim(half, now)(c);
      DecayClaim(half, now)(once) == once <==>
        (ReduceHasHalfLife(half, now, c);
         var twice := DecayedTwice(half, now, c);
         twice >= PolicyFor(c.data.lane).minConfidence && Round4(twice) == VerdictFor(half, now, c).confidence)
  {
    hide HalvingCurve, Decayed, Round4, OnGrid;
    var age, policy := AgeDays(c, now), PolicyFor(c.data.lane);
    var r := VerdictFor(half, now, c).confidence;
    var twice := DecayedTwice(half, now, c);
    assert age >= 0.0;
    ReductionBounded(half, c.data.lane, c.data.confidence, age, c.data.userLocked);
    if twice >= policy.minConfidence {
      DecayedAtMost(half, r, age, policy.halfLifeDays.value);
      if !(twice < r - 0.000000001) {
        NearGridRoundsToIt(twice, r);
      }
    }
  }

  /** A value just below a grid point rounds to it. */
  lemma NearGridRoundsToIt(x: real, g: real)
    requires OnGrid(g) && g - 0.000000001 <= x <= g
    ensures Round4(x) == g
  {
    var n := (g * 10000.0).Floor;
    assert n as real - 0.00001 <= x * 10000.0 <= n as real;
    assert RoundHalfEven(x * 10000.0) == n;
  }

  // ---------- the law of many runs ----------

  /** The decay of the age a claim has at one time. */
  function Factor(half: real -> real, now: int, c: Claim, halfLifeDays: int): real
    requires halfLifeDays > 0
  {
    half(AgeDays(c, now) / halfLifeDays as real)
  }

  function Times(x: real, y: real): real {
    x * y
  }

  /** The product of the decays of the ages a claim has at the given times. */
  function DecayProduct(half: real -> real, times: seq<int>, c: Claim, halfLifeDays: int): real
    requires halfLifeDays > 0
    decreases |times|
  {
    if times == [] then 1.0 else Times(Factor(half, times[0], c, halfLifeDays),
                                       DecayProduct(half, times[1..], c, halfLifeDays))
  }

  const HALF_GRID: real := 0.00005

  /** One run that leaves the claim active multiplies its confidence by the decay of its age, up to half a grid step. */
  lemma OneRunMultiplies(half: real -> real, now: int, c: Claim, halfLifeDays: int)
    requires HalvingCurve(half) && c.ingestedAt <= now && Selected(c) && !c.data.userLocked && c.data.confidence >= 0.0
    requires halfLifeDays > 0 && PolicyFor(c.data.lane).halfLifeDays == Some(halfLifeDays)
    requires IsLive(DecayClaim(half, now)(c))
    ensures
      var next := DecayClaim(half, now)(c);
      && Selected(next) && !next.data.userLocked && next.data.lane == c.data.lane && next.ingestedAt == c.ingestedAt
      && next.data.confidence >= 0.0
      && Near(next.data.confidence, Times(c.data.confidence, Factor(half, now, c, halfLifeDays)), 1)
  {
    hide HalvingCurve, EvaluateLaneDecay, PolicyFor;
    assert AgeDays(c, now) >= 0.0;
    VerdictMultiplies(half, c.data.lane, c.data.confidence, AgeDays(c, now), halfLifeDays);
  }

  lemma FactorInUnit(half: real -> real, now: int, c: Claim, halfLifeDays: int)
    requires HalvingCurve(half) && halfLifeDays > 0 && c.ingestedAt <= now
    ensures 0.0 < Factor(half, now, c, halfLifeDays) <= 1.0
  {
    var x := AgeDays(c, now) / halfLifeDays as real;
    assert x >= 0.0;
    assert half(x) <= half(0.0);
  }

  lemma {:induction false} ProductInUnit(half: real -> real, times: seq<int>, c: Claim, halfLifeDays: int)
    requires HalvingCurve(half) && halfLifeDays > 0 && forall t | t in times :: c.ingestedAt <= t
    ensures 0.0 < DecayProduct(half, times, c, halfLifeDays) <= 1.0
    decreases |times|
  {
    hide HalvingCurve, Factor;
    if times == [] {
    } else {
      assert times[0] in times && forall t | t in times[1..] :: t in times;
      ProductInUnit(half, times[1..], c, halfLifeDays);
      FactorInUnit(half, times[0], c, halfLifeDays);
      var x, y := Factor(half, times[0], c, halfLifeDays), DecayProduct(half, times[1..], c, halfLifeDays);
      ScaledWithin(x, y, 1.0);
      assert DecayProduct(half, times, c, halfLifeDays) == x * y && x * y > 0.0;
    }
  }

  lemma ScaledWithin(x: real, y: real, bound: real)
    requires 0.0 < y <= 1.0 && -bound <= x <= bound
    ensures -bound <= x * y <= bound && (x > 0.0 ==> x * y > 0.0)
  {
    assert (bound - x) * y >= 0.0 && (bound + x) * y >= 0.0 && bound * (1.0 - y) >= 0.0;
    assert bound * y <= bound;
  }

  /** The value is the exact one up to half a grid step for each of `steps` roundings. */
  ghost predicate Near(value: real, exact: real, steps: nat) {
    -(steps as real * HALF_GRID) <= value - exact <= steps as real * HALF_GRID
  }

  /** Passing the error of one rounding on through later factors. */
  lemma ErrorAddsUp(c: real, h: real, next: real, rest: real, last: real, steps: nat)
    requires 0.0 < rest <= 1.0 && Near(next, Times(c, h), 1) && Near(last, Times(next, rest), steps)
    ensures Near(last, Times(c, Times(h, rest)), steps + 1)
  {
    var d := next - c * h;
    ScaledWithin(d, rest, HALF_GRID);
    Distribute(c * h, d, rest);
    Associate(c, h, rest);
    assert (steps + 1) as real * HALF_GRID == steps as real * HALF_GRID + HALF_GRID;
  }

  lemma Distribute(a: real, d: real, y: real)
    ensures (a + d) * y == a * y + d * y
  {
  }

  lemma Associate(c: real, h: real, y: real)
    ensures c * h * y == c * (h * y)
  {
  }

  /** Runs compound: however often and whenever a claim is decayed, as long as it stays active its confidence is the
      initial one multiplied by the decay of its whole age at every run, up to half a grid step for each run. */
  lemma {:induction false} RunsCompound(half: real -> real, times: seq<int>, c: Claim, halfLifeDays: int)
    requires HalvingCurve(half) && Selected(c) && !c.data.userLocked && c.data.confidence >= 0.0
    requires halfLifeDays > 0 && PolicyFor(c.data.lane).halfLifeDays == Some(halfLifeDays)
    requires forall t | t in times :: c.ingestedAt <= t
    requires IsLive(RunAll(half, times, c))
    ensures Near(RunAll(half, times, c).data.confidence,
                 Times(c.data.confidence, DecayProduct(half, times, c, halfLifeDays)), |times|)
    decreases |times|
  {
    if times == [] {
      assert DecayProduct(half, times, c, halfLifeDays) == 1.0;
    } else {
      hide HalvingCurve, DecayClaim, Selected, Factor, PolicyFor, Near, Times;
      var next, rest := DecayClaim(half, times[0])(c), times[1..];
      assert times[0] in times && forall t | t in rest :: t in times;
      LiveAfterFirst(half, times, c);
      OneRunMultiplies(half, times[0], c, halfLifeDays);
      RunsCompound(half, rest, next, halfLifeDays);
      SameProduct(half, rest, c, next, halfLifeDays);
      ProductInUnit(half, rest, c, halfLifeDays);
      ErrorAddsUp(c.data.confidence, Factor(half, times[0], c, halfLifeDays), next.data.confidence,
                  DecayProduct(half, rest, c, halfLifeDays), RunAll(half, rest, next).data.confidence, |rest|);
    }
  }

  lemma LiveAfterFirst(half: real -> real, times: seq<int>, c: Claim)
    requires times != [] && IsLive(RunAll(half, times, c))
    ensures IsLive(DecayClaim(half, times[0])(c))
  {
    hide DecayClaim;
    if !IsLive(DecayClaim(half, times[0])(c)) {
      ExpiryIsFinal(half, times[1..], DecayClaim(half, times[0])(c));
    }
  }

  lemma {:induction false} SameProduct(half: real -> real, times: seq<int>, c: Claim, d: Claim, halfLifeDays: int)
    requires halfLifeDays > 0 && c.ingestedAt == d.ingestedAt
    ensures DecayProduct(half, times, c, halfLifeDays) == DecayProduct(half, times, d, halfLifeDays)
    decreases |times|
  {
    if times == [] {
    } else {
      SameProduct(half, times[1..], c, d, halfLifeDays);
    }
  }

  // ---------- bounds and fixed points of many runs ----------

  lemma ConfidenceAfterOne(half: real -> real, now: int, c: Claim)
    ensures
      var after := DecayClaim(half, now)(c).data.confidence;
      after == c.data.confidence
      || (OnGrid(after) && after <= c.data.confidence + 0.00005
          && (OnGrid(c.data.confidence) ==> after <= c.data.confidence))
  {
    hide EvaluateLaneDecay, OnGrid;
    if Selected(c) && VerdictFor(half, now, c).Reduce? {
      ReductionBounded(half, c.data.lane, c.data.confidence, AgeDays(c, now), c.data.userLocked);
    }
  }

  /** Over any number of runs at any times the confidence gains at most half a grid step, through the
      first rounding, and a confidence already on the grid never rises. */
  lemma {:induction false} ConfidenceNeverRises(half: real -> real, times: seq<int>, c: Claim)
    ensures
      var last := RunAll(half, times, c).data.confidence;
      && last <= c.data.confidence + 0.00005
      && (OnGrid(c.data.confidence) ==> OnGrid(last) && last <= c.data.confidence)
    decreases |times|
  {
    hide DecayClaim, OnGrid;
    if times == [] {
    } else {
      var next := DecayClaim(half, times[0])(c);
      ConfidenceAfterOne(half, times[0], c);
      ConfidenceNeverRises(half, times[1..], next);
    }
  }

  /** A retracted or superseded claim stays as it is whatever runs follow. */
  lemma {:induction false} ExpiryIsFinal(half: real -> real, times: seq<int>, c: Claim)
    requires !IsLive(c)
    ensures RunAll(half, times, c) == c
    decreases |times|
  {
    if times == [] {
    } else {
      ExpiryIsFinal(half, times[1..], c);
    }
  }
}
