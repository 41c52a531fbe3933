/** What one nightly decay does to each claim, lane by lane. */
module DecayOutcomes {
  import opened Prelude
  import opened Lanes
  import opened Claims
  import opened Lifecycle
  import opened LaneDecay

  // ---------- the lanes' schedules ----------

  predicate PastLifetime(lane: Lane, days: real) {
    match lane
    case Identity => false
    case Preference => days > 14.0
    case Evidence => days > 60.0
    case Authorization => days > 90.0
    case Procedural => days > 30.0
  }

  /** The confidence after decay, in the lanes that have a half-life: seven, thirty and forty-five days. */
  function Halved(half: real -> real, lane: Lane, confidence: real, days: real): Option<real> {
    match lane
    case Preference => Some(confidence * half(days / 7.0))
    case Evidence => Some(confidence * half(days / 30.0))
    case Authorization => Some(confidence * half(days / 45.0))
    case _ => None
  }

  predicate BelowLaneFloor(lane: Lane, confidence: real) {
    match lane
    case Preference => confidence < 0.3
    case Evidence => confidence < 0.5
    case Authorization => confidence < 0.9
    case _ => false
  }

  function Days(c: Claim, now: int): real {
    (now - c.ingestedAt) as real / 86400.0
  }

  /** An active claim that is open to decay. */
  predicate InScope(c: Claim) {
    c.data.decayEligible && (c.data.state == Tentative || c.data.state == Confirmed)
  }

  function Expires(half: real -> real, now: int): Claim -> bool {
    (c: Claim) =>
      var halved := Halved(half, c.data.lane, c.data.confidence, Days(c, now));
      && InScope(c) && !c.data.userLocked
      && (PastLifetime(c.data.lane, Days(c, now)) || (halved.Some? && BelowLaneFloor(c.data.lane, halved.value)))
  }

  function Reduces(half: real -> real, now: int): Claim -> bool {
    (c: Claim) =>
      var halved := Halved(half, c.data.lane, c.data.confidence, Days(c, now));
      && InScope(c) && !c.data.userLocked && !Expires(half, now)(c)
      && halved.Some? && halved.value < c.data.confidence - 0.000000001
  }

  /** `r` is `x` to four decimals, halfway cases to the even last digit. */
  ghost predicate FourDecimals(x: real, r: real) {
    (r * 10000.0).Floor as real == r * 10000.0 && IsNearest(x * 10000.0, (r * 10000.0).Floor)
  }

  ghost predicate IsNearest(y: real, n: int) {
    -0.5 <= n as real - y <= 0.5 && (n as real - y == 0.5 || n as real - y == -0.5 ==> n % 2 == 0)
  }

  lemma RoundedToFour(x: real)
    ensures FourDecimals(x, Round4(x))
  {
    hide RoundHalfEven, IsNearest;
    NearestEven(x * 10000.0);
    var n := RoundHalfEven(x * 10000.0);
    var r := n as real / 10000.0;
    assert r * 10000.0 == n as real && (n as real).Floor == n;
  }

  lemma NearestEven(y: real)
    ensures IsNearest(y, RoundHalfEven(y))
  {
    var q := y.Floor;
    assert q as real <= y < q as real + 1.0;
    assert q % 2 == 0 || (q + 1) % 2 == 0;
  }

  // ---------- one claim ----------

  lemma VerdictSpelled(half: real -> real, now: int, c: Claim)
    requires InScope(c)
    ensures
      var v := VerdictFor(half, now, c);
      && (v.Expire? <==> Expires(half, now)(c))
      && (v.Reduce? <==> Reduces(half, now)(c))
      && (v.Reduce? ==> v.confidence == Round4(Halved(half, c.data.lane, c.data.confidence, Days(c, now)).value))
  {
    hide Round4;
    HalvedIsDecayed(half, c.data.lane, c.data.confidence, Days(c, now));
  }

  lemma HalvedIsDecayed(half: real -> real, lane: Lane, confidence: real, days: real)
    ensures Halved(half, lane, confidence, days).Some? <==> PolicyFor(lane).halfLifeDays.Some?
    ensures PolicyFor(lane).halfLifeDays.Some? ==>
              && PolicyFor(lane).halfLifeDays.value > 0
              && Halved(half, lane, confidence, days).value
                   == Decayed(half, confidence, days, PolicyFor(lane).halfLifeDays.value)
  {
    match lane
    case Preference => assert days / 7.0 == days / 7 as real;
    case Evidence => assert days / 30.0 == days / 30 as real;
    case Authorization => assert days / 45.0 == days / 45 as real;
    case _ =>
  }

  /** One run's effect on one claim: it is retracted, with the instant, exactly when it is active, open to decay, not
      locked and past its lane's lifetime or, halved by its age, below its lane's floor; otherwise its confidence
      becomes the halved one to four decimals when that is less by more than a billionth; nothing else ever changes. */
  lemma Fate(half: real -> real, now: int, c: Claim)
    ensures
      var after := DecayClaim(half, now)(c);
      var halved := Halved(half, c.data.lane, c.data.confidence, Days(c, now));
      && (Expires(half, now)(c) ==> after == c.(data := c.data.(state := Retracted), supersededAt := Some(now)))
      && (Reduces(half, now)(c) ==>
            && after == c.(data := c.data.(confidence := after.data.confidence))
            && FourDecimals(halved.value, after.data.confidence))
      && (!Expires(half, now)(c) && !Reduces(half, now)(c) ==> after == c)
  {
    hide VerdictFor, Round4, FourDecimals, Halved, PastLifetime, BelowLaneFloor;
    if InScope(c) {
      VerdictSpelled(half, now, c);
      if Reduces(half, now)(c) {
        RoundedToFour(Halved(half, c.data.lane, c.data.confidence, Days(c, now)).value);
      }
    }
  }

  // ---------- the whole table ----------

  function Stays(half: real -> real, now: int): Claim -> bool {
    (c: Claim) => InScope(c) && !Expires(half, now)(c) && !Reduces(half, now)(c)
  }

  /** One run treats every row on its own, and counts what it did: retracted, reduced, and left alone among those it
      looked at. */
  lemma {:induction false} RunOutcome(half: real -> real, now: int, claims: seq<Claim>)
    ensures
      var after, t := DecayedTable(half, now, claims), Tally(half, now, claims);
      && |after| == |claims|
      && (forall i | 0 <= i < |claims| :: after[i] == DecayClaim(half, now)(claims[i]))
      && t.expire == Count(Expires(half, now), claims)
      && t.reduce == Count(Reduces(half, now), claims)
      && t.keep == Count(Stays(half, now), claims)
  {
    hide VerdictFor, DecayClaim, Halved, Count;
    if claims == [] {
      NothingCounted(half, now);
    } else {
      var n := |claims| - 1;
      RunOutcome(half, now, claims[..n]);
      assert claims == claims[..n] + [claims[n]];
      CountSnoc(Expires(half, now), claims[..n], claims[n]);
      CountSnoc(Reduces(half, now), claims[..n], claims[n]);
      CountSnoc(Stays(half, now), claims[..n], claims[n]);
      if InScope(claims[n]) {
        VerdictSpelled(half, now, claims[n]);
      }
      hide Expires, Reduces;
    }
  }

  lemma NothingCounted(half: real -> real, now: int)
    ensures Count(Expires(half, now), []) == 0 && Count(Reduces(half, now), []) == 0
    ensures Count(Stays(half, now), []) == 0
  {
  }
}
