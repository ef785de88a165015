/**
 What the pacer's rate controller does over a whole run: the rate is a fold of the verdicts
 (lossy or clean) of the comparisons made so far.
 */
module RateController {
  import opened Wrappers
  import opened Pacer

  // One comparison: a rate that would move by no more than EPSILON stays.
  function Steer(current: Rate, min: Rate, max: Rate, lossy: bool): Rate {
    var next := NextRate(current, min, max, lossy);
    if Abs(next - current) > EPSILON then next else current
  }

  function SteerAll(current: Rate, min: Rate, max: Rate, verdicts: seq<bool>): Rate {
    if verdicts == [] then current
    else Steer(SteerAll(current, min, max, verdicts[..|verdicts| - 1]), min, max, verdicts[|verdicts| - 1])
  }

  // The verdict of a call, or None when it does not compare the loss counters.
  function Verdict(s: State, c: Call): Option<bool> {
    if Samples(s, c) && s.lastLostPackets.Some? then Some(Lossy(s, c.stats.value)) else None
  }

  function Verdicts(s: State, calls: seq<Call>): seq<bool> {
    if calls == [] then []
    else
      match Verdict(After(s, Prefix(calls)), Last(calls))
      case None => Verdicts(s, Prefix(calls))
      case Some(lossy) => Verdicts(s, Prefix(calls)) + [lossy]
  }

  // The call samples the loss counters: the controller is on and an interval has passed since it last did.
  predicate Samples(s: State, c: Call) {
    s.adaptive && c.stats.Some? && s.currentRate.Some? && c.checked - s.lastAdjust >= 0.25
  }

  // The last call of a run that sampled the counters.
  function LastSample(s: State, calls: seq<Call>): Option<Call> {
    if calls == [] then None
    else if Samples(After(s, Prefix(calls)), Last(calls)) then Some(Last(calls))
    else LastSample(s, Prefix(calls))
  }

  /** In every run, a verdict compares the counters with those of the previous sample; the first sample gives none. */
  lemma VerdictsCompareSamples(mbps: nat, packetBytes: nat, adaptive: bool, start: real,
                               calls: seq<Call>, c: Call)
    ensures var s0 := Initial(mbps, packetBytes, adaptive, start);
            var s, sample := After(s0, calls), LastSample(s0, calls);
            && s.lastAdjust == (if sample.Some? then sample.value.adjusted else start)
            && (sample.Some? ==> sample.value.stats.Some?)
            && Verdict(s, c)
               == if !Samples(s, c) || sample.None? then None
                  else Some(c.stats.value.lostPackets > sample.value.stats.value.lostPackets
                            || c.stats.value.congestionEvents > sample.value.stats.value.congestionEvents)
  {
    StoredSample(mbps, packetBytes, adaptive, start, calls);
  }

  lemma {:induction false} StoredSample(mbps: nat, packetBytes: nat, adaptive: bool, start: real, calls: seq<Call>)
    ensures var s0 := Initial(mbps, packetBytes, adaptive, start);
            var s := After(s0, calls);
            match LastSample(s0, calls)
            case None => s.lastLostPackets == None && s.lastCongestionEvents == None && s.lastAdjust == start
            case Some(c) =>
              && c.stats.Some? && s.lastAdjust == c.adjusted
              && s.lastLostPackets == Some(c.stats.value.lostPackets)
              && s.lastCongestionEvents == Some(c.stats.value.congestionEvents)
  {
    if calls != [] {
      StoredSample(mbps, packetBytes, adaptive, start, Prefix(calls));
    }
  }

  lemma StepSteers(s: State, c: Call)
    requires s.currentRate.Some? && s.minRate.Some? && s.maxRate.Some?
    ensures Step(s, c).currentRate
            == match Verdict(s, c)
               case None => s.currentRate
               case Some(lossy) => Some(Steer(s.currentRate.value, s.minRate.value, s.maxRate.value, lossy))
    ensures Step(s, c).minRate == s.minRate && Step(s, c).maxRate == s.maxRate
  {
  }

  lemma SteerOne(current: Rate, min: Rate, max: Rate, verdicts: seq<bool>, lossy: bool)
    ensures SteerAll(current, min, max, verdicts + [lossy])
            == Steer(SteerAll(current, min, max, verdicts), min, max, lossy)
  {
    assert (verdicts + [lossy])[..|verdicts|] == verdicts;
  }

  ghost predicate Follows(s: State, min: Rate, max: Rate, verdicts: seq<bool>) {
    s.maxRate == Some(max) && s.minRate == Some(min) && s.currentRate == Some(SteerAll(max, min, max, verdicts))
  }

  function WithVerdict(verdicts: seq<bool>, verdict: Option<bool>): seq<bool> {
    match verdict
    case None => verdicts
    case Some(lossy) => verdicts + [lossy]
  }

  lemma FollowsOn(s: State, s': State, min: Rate, max: Rate, verdicts: seq<bool>, verdict: Option<bool>)
    requires Follows(s, min, max, verdicts) && s'.maxRate == s.maxRate && s'.minRate == s.minRate
    requires s'.currentRate == match verdict
                               case None => s.currentRate
                               case Some(lossy) => Some(Steer(s.currentRate.value, min, max, lossy))
    ensures Follows(s', min, max, WithVerdict(verdicts, verdict))
  {
    if verdict.Some? {
      SteerOne(max, min, max, verdicts, verdict.value);
    }
  }

  lemma StepFollows(s: State, min: Rate, max: Rate, verdicts: seq<bool>, c: Call)
    requires Follows(s, min, max, verdicts)
    ensures Follows(Step(s, c), min, max, WithVerdict(verdicts, Verdict(s, c)))
  {
    StepSteers(s, c);
    FollowsOn(s, Step(s, c), min, max, verdicts, Verdict(s, c));
  }

  /** In every run the rate is the fold of the verdicts, whatever the packets and the clock. */
  lemma {:induction false} RateFollowsVerdicts(mbps: nat, packetBytes: nat, adaptive: bool, start: real,
                                               calls: seq<Call>)
    requires mbps > 0
    ensures var s0 := Initial(mbps, packetBytes, adaptive, start);
            Follows(After(s0, calls), TargetRate(mbps).value * 0.50, TargetRate(mbps).value, Verdicts(s0, calls))
  {
    var s0 := Initial(mbps, packetBytes, adaptive, start);
    if calls != [] {
      RateFollowsVerdicts(mbps, packetBytes, adaptive, start, Prefix(calls));
      StepFollows(After(s0, Prefix(calls)), s0.minRate.value, s0.maxRate.value, Verdicts(s0, Prefix(calls)),
                  Last(calls));
    }
  }

  lemma {:induction false} SteerStaysInBand(current: Rate, min: Rate, max: Rate, verdicts: seq<bool>)
    requires min <= current <= max
    ensures min <= SteerAll(current, min, max, verdicts) <= max
  {
    if verdicts != [] {
      SteerStaysInBand(current, min, max, verdicts[..|verdicts| - 1]);
    }
  }

  /** Half the configured rate is never undercut and the configured rate never exceeded. */
  lemma RateStaysInBand(mbps: nat, packetBytes: nat, adaptive: bool, start: real, calls: seq<Call>)
    requires mbps > 0
    ensures var rate := After(Initial(mbps, packetBytes, adaptive, start), calls).currentRate;
            rate.Some? && TargetRate(mbps).value * 0.50 <= rate.value <= TargetRate(mbps).value
  {
    var max := TargetRate(mbps).value;
    RateFollowsVerdicts(mbps, packetBytes, adaptive, start, calls);
    SteerStaysInBand(max, max * 0.50, max, Verdicts(Initial(mbps, packetBytes, adaptive, start), calls));
  }

  // ----- How many comparisons cross the band

  function Factor(lossy: bool, x: Rate): Rate {
    if lossy then x * 0.85 else x * 1.02
  }

  // x after k comparisons that meet no limit.
  function Scaled(lossy: bool, k: nat, x: Rate): Rate {
    if k == 0 then x else Factor(lossy, Scaled(lossy, k - 1, x))
  }

  function Repeat(lossy: bool, k: nat): seq<bool> {
    seq(k, _ => lossy)
  }

  lemma {:induction false} SteerAppend(current: Rate, min: Rate, max: Rate, a: seq<bool>, b: seq<bool>)
    ensures SteerAll(current, min, max, a + b) == SteerAll(SteerAll(current, min, max, a), min, max, b)
  {
    if b == [] {
      assert a + b == a;
    } else {
      assert (a + b)[..|a + b| - 1] == a + b[..|b| - 1];
      SteerAppend(current, min, max, a, b[..|b| - 1]);
    }
  }

  lemma SteerRepeat(current: Rate, min: Rate, max: Rate, lossy: bool, k: nat)
    requires k > 0
    ensures SteerAll(current, min, max, Repeat(lossy, k))
            == Steer(SteerAll(current, min, max, Repeat(lossy, k - 1)), min, max, lossy)
  {
    assert Repeat(lossy, k)[..k - 1] == Repeat(lossy, k - 1);
  }

  lemma {:induction false} LossyDecay(current: Rate, min: Rate, max: Rate, k: nat)
    requires 1.0 <= min <= current <= max
    ensures SteerAll(current, min, max, Repeat(true, k)) <= Max(min + EPSILON, Scaled(true, k, current))
  {
    if k > 0 {
      LossyDecay(current, min, max, k - 1);
      SteerRepeat(current, min, max, true, k);
      SteerStaysInBand(current, min, max, Repeat(true, k - 1));
    }
  }

  lemma {:induction false} CleanGrowth(current: Rate, min: Rate, max: Rate, k: nat)
    requires 1.0 <= min <= current <= max
    ensures SteerAll(current, min, max, Repeat(false, k)) >= Min(max - EPSILON, Scaled(false, k, current))
  {
    if k > 0 {
      CleanGrowth(current, min, max, k - 1);
      SteerRepeat(current, min, max, false, k);
      SteerStaysInBand(current, min, max, Repeat(false, k - 1));
    }
  }

  // As long as no limit is met, every comparison multiplies the rate.
  lemma {:induction false} SteerExact(current: Rate, min: Rate, max: Rate, lossy: bool, k: nat)
    requires 1.0 <= min <= current <= max && min <= Scaled(lossy, k, current) <= max
    ensures SteerAll(current, min, max, Repeat(lossy, k)) == Scaled(lossy, k, current)
    ensures if lossy then Scaled(lossy, k, current) <= current else current <= Scaled(lossy, k, current)
  {
    if k > 0 {
      ScaledOrder(lossy, k - 1, current);
      SteerExact(current, min, max, lossy, k - 1);
      SteerRepeat(current, min, max, lossy, k);
    }
  }

  lemma {:induction false} ScaledOrder(lossy: bool, k: nat, x: Rate)
    ensures if lossy then Scaled(lossy, k, x) <= x else x <= Scaled(lossy, k, x)
  {
    if k > 0 {
      ScaledOrder(lossy, k - 1, x);
    }
  }

  lemma {:induction false} ScaledAdd(lossy: bool, m: nat, n: nat, x: Rate)
    ensures Scaled(lossy, m + n, x) == Scaled(lossy, m, Scaled(lossy, n, x))
  {
    if m > 0 {
      ScaledAdd(lossy, m - 1, n, x);
    }
  }

  lemma FourLossy(x: Rate)
    ensures Scaled(true, 4, x) > 0.52 * x && Scaled(true, 5, x) < 0.45 * x
  {
    assert Scaled(true, 1, x) == 0.85 * x;
    assert Scaled(true, 2, x) == 0.7225 * x;
    assert Scaled(true, 3, x) == 0.614125 * x;
    assert Scaled(true, 4, x) == 0.52200625 * x;
  }

  lemma FiveClean(x: Rate)
    ensures 1.1040808 * x < Scaled(false, 5, x) < 1.1040809 * x
  {
    assert Scaled(false, 1, x) == 1.02 * x;
    assert Scaled(false, 2, x) == 1.0404 * x;
    assert Scaled(false, 3, x) == 1.061208 * x;
    assert Scaled(false, 4, x) == 1.08243216 * x;
  }

  // Thirty-five steps of two per cent fall just short of doubling; thirty-six do not.
  lemma DoublingTime(x: Rate)
    ensures Scaled(false, 35, x) < 1.9999 * x && Scaled(false, 36, x) > 2.03 * x
  {
    FiveClean(x);
    var y10, y15, y20 := Scaled(false, 10, x), Scaled(false, 15, x), Scaled(false, 20, x);
    var y25, y30 := Scaled(false, 25, x), Scaled(false, 30, x);
    ScaledAdd(false, 5, 5, x);
    FiveClean(Scaled(false, 5, x));
    ScaledAdd(false, 5, 10, x);
    FiveClean(y10);
    ScaledAdd(false, 5, 15, x);
    FiveClean(y15);
    ScaledAdd(false, 5, 20, x);
    FiveClean(y20);
    ScaledAdd(false, 5, 25, x);
    FiveClean(y25);
    ScaledAdd(false, 5, 30, x);
    FiveClean(y30);
  }

  lemma FourLossyFallShort(max: Rate)
    requires max >= 2.0
    ensures SteerAll(max, max * 0.50, max, Repeat(true, 4)) > max * 0.52
  {
    FourLossy(max);
    ScaledOrder(true, 4, max);
    SteerExact(max, max * 0.50, max, true, 4);
  }

  lemma ThirtyFiveCleanFallShort(max: Rate)
    requires max >= 125000.0
    ensures SteerAll(max * 0.50, max * 0.50, max, Repeat(false, 35)) < max - 1.0
  {
    DoublingTime(max * 0.50);
    ScaledOrder(false, 35, max * 0.50);
    SteerExact(max * 0.50, max * 0.50, max, false, 35);
  }

  /** Five lossy comparisons reach the floor from any rate in the band; four from the ceiling do not. */
  lemma FiveLossyReachFloor(mbps: nat, current: Rate)
    requires mbps > 0 && TargetRate(mbps).value * 0.50 <= current <= TargetRate(mbps).value
    ensures var max := TargetRate(mbps).value;
            && SteerAll(current, max * 0.50, max, Repeat(true, 5)) <= max * 0.50 + 1.0 / 4503599627370496.0
            && SteerAll(max, max * 0.50, max, Repeat(true, 4)) > max * 0.52
  {
    var max := TargetRate(mbps).value;
    FourLossy(current);
    LossyDecay(current, max * 0.50, max, 5);
    FourLossyFallShort(max);
  }

  /** Thirty-six clean comparisons reach the ceiling from any rate in the band; thirty-five from the floor do not. */
  lemma ThirtySixCleanReachCeiling(mbps: nat, current: Rate)
    requires mbps > 0 && TargetRate(mbps).value * 0.50 <= current <= TargetRate(mbps).value
    ensures var max := TargetRate(mbps).value;
            && SteerAll(current, max * 0.50, max, Repeat(false, 36)) >= max - 1.0 / 4503599627370496.0
            && SteerAll(max * 0.50, max * 0.50, max, Repeat(false, 35)) < max - 1.0
  {
    var max := TargetRate(mbps).value;
    DoublingTime(current);
    CleanGrowth(current, max * 0.50, max, 36);
    ThirtyFiveCleanFallShort(max);
  }

  lemma LimitsAfter(mbps: nat, earlier: seq<bool>)
    requires mbps > 0
    ensures var max := TargetRate(mbps).value;
            && SteerAll(max, max * 0.50, max, earlier + Repeat(true, 5)) <= max * 0.50 + 1.0 / 4503599627370496.0
            && SteerAll(max, max * 0.50, max, earlier + Repeat(false, 36)) >= max - 1.0 / 4503599627370496.0
  {
    var max := TargetRate(mbps).value;
    var before := SteerAll(max, max * 0.50, max, earlier);
    SteerStaysInBand(max, max * 0.50, max, earlier);
    SteerAppend(max, max * 0.50, max, earlier, Repeat(true, 5));
    SteerAppend(max, max * 0.50, max, earlier, Repeat(false, 36));
    FiveLossyReachFloor(mbps, before);
    ThirtySixCleanReachCeiling(mbps, before);
  }

  /** The same, seen in a whole run: what the last five (or thirty-six) verdicts say decides the rate. */
  lemma RunReachesLimits(mbps: nat, packetBytes: nat, adaptive: bool, start: real,
                         calls: seq<Call>, earlier: seq<bool>)
    requires mbps > 0
    ensures var verdicts := Verdicts(Initial(mbps, packetBytes, adaptive, start), calls);
            var max := TargetRate(mbps).value;
            var rate := After(Initial(mbps, packetBytes, adaptive, start), calls).currentRate;
            && rate.Some?
            && (verdicts == earlier + Repeat(true, 5) ==> rate.value <= max * 0.50 + 1.0 / 4503599627370496.0)
            && (verdicts == earlier + Repeat(false, 36) ==> rate.value >= max - 1.0 / 4503599627370496.0)
  {
    RateFollowsVerdicts(mbps, packetBytes, adaptive, start, calls);
    LimitsAfter(mbps, earlier);
  }
}
