/** The egress pacer as the object the pumps and the benchmarks update. */
module EgressPacers {
  import opened Wrappers
  import P = Pacer

  /** A clock that never runs backwards: any amount of time may pass between two readings. */
  class Clock {
    var now: real
    ghost var sleeps: seq<real>  // the instants slept until, in order

    constructor (now: real)
      ensures this.now == now && sleeps == []
    {
      this.now, sleeps := now, [];
    }

    method Now() returns (t: real)
      modifies this
      ensures old(now) <= t == now && sleeps == old(sleeps)
    {
      var passed: real := *;
      now := if passed > 0.0 then now + passed else now;
      t := now;
    }

    method SleepUntil(target: real)
      modifies this
      ensures old(now) <= now && target <= now && sleeps == old(sleeps) + [target]
    {
      var t := Now();
      now := Max(t, target);
      sleeps := sleeps + [target];
    }
  }

  class EgressPacer {
    var maxRate: Option<P.Rate>
    var currentRate: Option<P.Rate>
    var minRate: Option<P.Rate>
    var burstBytes: nat
    var epochStarted: real
    var epochBytes: nat
    const adaptive: bool
    var lastAdjust: real
    var lastLostPackets: Option<nat>
    var lastCongestionEvents: Option<nat>

    const clock: Clock
    ghost const mbps: nat
    ghost const packetBytes: nat
    ghost const created: real
    ghost const sleptBefore: seq<real>  // what the clock slept before the pacer was made
    ghost var calls: seq<P.Call>  // every completed call
    ghost var recorded: seq<nat>  // and the packet size each was given
    ghost var unconnected: nat    // and how many of them were not given the connection

    ghost function State(): P.State
      reads this
    {
      P.State(maxRate, currentRate, minRate, burstBytes, epochStarted, epochBytes, adaptive, lastAdjust,
              lastLostPackets, lastCongestionEvents)
    }

    ghost function Start(): P.State {
      P.Initial(mbps, packetBytes, adaptive, created)
    }

    // The first k calls are a valid run; all of them lead to where the object is, and are all that ever slept.
    ghost predicate HistoryUpTo(k: nat)
      requires k <= |calls|
      reads this, clock
    {
      && P.ValidRun(Start(), created, calls[..k])
      && (k == |calls| ==>
            P.IsHistory(Start(), created, calls, State(), clock.now,
                        P.Trace(recorded, unconnected, sleptBefore, clock.sleeps)))
    }

    ghost predicate Valid()
      reads this, clock
    {
      forall k :: 0 <= k <= |calls| ==> HistoryUpTo(k)
    }

    // What being valid comes down to.
    lemma ValidIsHistory()
      ensures Valid() <==> P.IsHistory(Start(), created, calls, State(), clock.now,
                                       P.Trace(recorded, unconnected, sleptBefore, clock.sleeps))
    {
      if Valid() {
        assert HistoryUpTo(|calls|);
      } else if P.ValidRun(Start(), created, calls) {
        forall k | 0 <= k <= |calls| ensures P.ValidRun(Start(), created, calls[..k]) {
          P.ValidPrefix(Start(), created, calls, k);
        }
      }
    }

    constructor (targetMbps: nat, packetBytes: nat, adaptive: bool, clock: Clock)
      modifies clock
      ensures Valid() && calls == [] && recorded == [] && this.clock == clock
      ensures mbps == targetMbps && this.packetBytes == packetBytes && this.adaptive == adaptive
      ensures old(clock.now) <= created == clock.now && clock.sleeps == old(clock.sleeps)
    {
      var max := P.TargetRate(targetMbps);
      var min: Option<P.Rate> := match max case None => None case Some(r) => Some(r * 0.50);
      var now := clock.Now();
      maxRate, currentRate, minRate := max, max, min;
      burstBytes := P.BurstBytes(max, packetBytes);
      epochStarted, epochBytes := now, 0;
      this.adaptive := adaptive;
      lastAdjust, lastLostPackets, lastCongestionEvents := now, None, None;
      this.clock := clock;
      mbps, this.packetBytes, created := targetMbps, packetBytes, now;
      calls, recorded, unconnected := [], [], 0;
      sleptBefore := clock.sleeps;
      new;
      ValidIsHistory();
    }

    method ResetEpoch() returns (ghost restarted: real)
      modifies this`epochStarted, this`epochBytes, clock
      ensures old(clock.now) <= restarted == clock.now
      ensures epochStarted == restarted && epochBytes == 0 && clock.sleeps == old(clock.sleeps)
    {
      epochStarted := clock.Now();
      restarted := epochStarted;
      epochBytes := 0;
    }

    method Adjust(stats: P.PathStats) returns (ghost c: P.Call)
      modifies this`lastLostPackets, this`lastCongestionEvents, this`lastAdjust, this`currentRate,
               this`epochStarted, this`epochBytes, clock
      ensures State() == P.Adjust(old(State()), stats, c)
      ensures old(clock.now) <= c.checked <= c.adjusted <= c.restarted <= clock.now
      ensures clock.sleeps == old(clock.sleeps)
    {
      ghost var t := clock.now;
      c := P.Call(0, Some(stats), t, t, t, t, t, t);
      if currentRate.None? {
        return;
      }
      var current := currentRate.value;
      var checked := clock.Now();
      c := P.Call(0, Some(stats), checked, checked, checked, checked, checked, checked);
      if checked - lastAdjust < P.ADJUST_INTERVAL_SECS {
        return;
      }
      var previousLost := lastLostPackets;
      lastLostPackets := Some(stats.lostPackets);
      if previousLost.None? {
        lastCongestionEvents := Some(stats.congestionEvents);
        lastAdjust := clock.Now();
        c := c.(adjusted := lastAdjust, restarted := lastAdjust);
        return;
      }
      var previousCongestion := lastCongestionEvents.GetOr(stats.congestionEvents);
      lastCongestionEvents := Some(stats.congestionEvents);
      lastAdjust := clock.Now();
      c := c.(adjusted := lastAdjust, restarted := lastAdjust);

      var next: P.Rate;
      if stats.lostPackets > previousLost.value || stats.congestionEvents > previousCongestion {
        var min := minRate.GetOr(current);
        next := Max(current * 0.85, min);
      } else {
        var max := maxRate.GetOr(current);
        next := Min(current * 1.02, max);
      }
      if Abs(next - current) > P.EPSILON {
        currentRate := Some(next);
        ghost var restarted := ResetEpoch();
        c := c.(restarted := restarted);
      }
    }

    // None if the epoch bound holds, otherwise one, until the earliest instant at which it does.
    ghost predicate OneSleepIfUnpaced(slept: seq<real>, compared: real)
      reads this
    {
      if P.Paced(State(), compared) then slept == []
      else |slept| == 1 && forall t: real :: P.Paced(State(), t) <==> slept[0] <= t
    }

    method Wait() returns (ghost measured: real, ghost compared: real)
      modifies clock
      ensures old(clock.now) <= measured <= compared <= clock.now
      ensures var target := P.SleepTarget(State(), measured, compared);
              && (target.Some? ==> target.value <= clock.now)
              && clock.sleeps == old(clock.sleeps) + if target.Some? then [target.value] else []
      ensures currentRate.None? ==> clock.sleeps == old(clock.sleeps)
      ensures old(clock.sleeps) <= clock.sleeps
      ensures currentRate.Some? && epochStarted <= old(clock.now) ==>
                OneSleepIfUnpaced(clock.sleeps[|old(clock.sleeps)|..], compared)
    {
      measured, compared := clock.now, clock.now;
      if currentRate.None? {
        return;
      }
      WaitIsTight(State(), measured, compared);
      if epochBytes <= burstBytes {
        return;
      }
      var now := clock.Now();
      measured, compared := now, now;
      WaitIsTight(State(), measured, compared);
      var allowed := (now - epochStarted) * currentRate.value + burstBytes as real;
      if epochBytes as real <= allowed {
        return;
      }
      var target := epochStarted + (epochBytes - burstBytes) as real / currentRate.value;
      now := clock.Now();
      compared := now;
      WaitIsTight(State(), measured, compared);
      if target > now {
        clock.SleepUntil(target);
      }
    }

    static lemma WaitIsTight(s: P.State, measured: real, compared: real)
      requires s.currentRate.Some? && measured <= compared
      ensures s.epochStarted <= measured ==>
                match P.SleepTarget(s, measured, compared)
                case None => P.Paced(s, compared)
                case Some(target) => !P.Paced(s, compared) && forall t: real :: P.Paced(s, t) <==> target <= t
    {
      if s.epochStarted <= measured {
        P.TargetIsEarliest(s, measured, compared);
      }
    }

    // Everything but the wait. The call's other readings are still to come.
    method Record(packetBytes: nat, stats: Option<P.PathStats>) returns (ghost c: P.Call)
      modifies this`epochBytes, this`lastLostPackets, this`lastCongestionEvents, this`lastAdjust, this`currentRate,
               this`epochStarted, clock
      ensures State() == P.Step(old(State()), c) && c.packetBytes == packetBytes && c.stats == stats
      ensures old(clock.now) <= c.checked <= c.adjusted <= c.restarted <= clock.now
      ensures clock.sleeps == old(clock.sleeps)
    {
      ghost var before, t := State(), clock.now;
      c := P.Call(packetBytes, stats, t, t, t, t, t, t);
      epochBytes := SaturatingAdd(epochBytes, packetBytes);
      if adaptive {
        if stats.Some? {
          ghost var a := Adjust(stats.value);
          AdjustReadings(P.Record(before, packetBytes), stats.value, a, packetBytes, clock.now);
          c := P.Call(packetBytes, stats, a.checked, a.adjusted, a.restarted, clock.now, clock.now, clock.now);
        }
      }
    }

    method RecordAndWait(packetBytes: nat, stats: Option<P.PathStats>)
      requires Valid()
      modifies this, clock
      ensures Valid() && old(clock.now) <= clock.now
      ensures calls != [] && P.Prefix(calls) == old(calls)
      ensures P.Last(calls).packetBytes == packetBytes && P.Last(calls).stats == stats
      ensures clock.now == P.Returned(created, calls) && recorded == old(recorded) + [packetBytes]
      ensures clock.sleeps == old(clock.sleeps) + P.SleepOf(State(), P.Last(calls))
      ensures unconnected == old(unconnected) + if stats.None? then 1 else 0
    {
      ValidIsHistory();
      ghost var before, beforeNow := State(), clock.now;
      ghost var trace := P.Trace(recorded, unconnected, sleptBefore, clock.sleeps);
      ghost var c := Record(packetBytes, stats);
      ghost var measured, compared := Wait();
      WaitReadings(before, c, measured, compared, clock.now);
      c := c.(measured := measured, compared := compared, returned := clock.now);
      P.HistoryGrows(Start(), created, calls, before, beforeNow, trace, c);
      calls, recorded := calls + [c], recorded + [packetBytes];
      unconnected := unconnected + if stats.None? then 1 else 0;
      ValidIsHistory();
    }

    // Adjusting looks at three clock readings only.
    static lemma AdjustReadings(s: P.State, stats: P.PathStats, a: P.Call, packetBytes: nat, now: real)
      ensures P.Adjust(s, stats, a)
              == P.Adjust(s, stats, P.Call(packetBytes, Some(stats), a.checked, a.adjusted, a.restarted, now, now, now))
    {
    }

    // Waiting changes no state, so its readings do not either.
    static lemma WaitReadings(s: P.State, c: P.Call, measured: real, compared: real, returned: real)
      ensures P.Step(s, c.(measured := measured, compared := compared, returned := returned)) == P.Step(s, c)
    {
    }

    /** What every promise about runs says of the object: the bytes recorded so far stay in budget. */
    lemma BytesWithinBudget(largest: nat)
      requires Valid() && mbps > 0
      requires P.NeverSaturates(Start(), calls) && P.PacketsAtMost(calls, largest)
      ensures P.WithinBudget(P.Total(calls), P.TargetRate(mbps).value, P.Returned(created, calls) - created, 0.0,
                             P.BurstBytes(P.TargetRate(mbps), packetBytes), largest,
                             P.ResetBudget(adaptive, P.Returned(created, calls) - created))
    {
      ValidIsHistory();
      P.WholeRunBound(mbps, packetBytes, adaptive, created, calls, largest);
    }

    /**
     Every sleep of the object's history is tight: the calls slept what the clock slept, each at most once, only
     while the epoch bound did not hold, and until the earliest instant at which it does.
     */
    lemma SleepsAreTight(k: nat)
      requires Valid() && mbps > 0 && P.NeverSaturates(Start(), calls) && k < |calls|
      ensures clock.sleeps == sleptBefore + P.Sleeps(Start(), calls)
      ensures P.Sleeps(Start(), calls[..k + 1])
              == P.Sleeps(Start(), calls[..k]) + P.SleepOf(P.After(Start(), calls[..k + 1]), calls[k])
      ensures P.After(Start(), calls[..k + 1]).currentRate.Some?
      ensures P.Tight(P.After(Start(), calls[..k]), P.After(Start(), calls[..k + 1]), P.Returned(created, calls[..k]),
                      calls[k], P.TargetRate(mbps).value)
    {
      ValidIsHistory();
      P.RunPrefix(Start(), created, calls, k + 1);
      assert P.Prefix(calls[..k + 1]) == calls[..k];
      P.EverySleepIsTight(mbps, packetBytes, adaptive, created, calls[..k + 1]);
    }
  }
}
