/**
 The egress pacer: a byte counter per epoch, a burst allowance, and a rate controller that
 restarts the epoch whenever it changes the rate.

 Instants and durations are real seconds and rates are real bytes per second: rounding of
 floating point numbers and of `Duration` is not modelled. The u64 byte counter saturates as
 in the source.
 */
module Pacer {
  import opened Wrappers

  const EPSILON: real := 1.0 / 4503599627370496.0
  const BURST_WINDOW_SECS: real := 0.005
  const ADJUST_INTERVAL_SECS: real := 0.25

  type Rate = r: real | r > 0.0 witness 1.0

  datatype PathStats = PathStats(lostPackets: nat, congestionEvents: nat)

  datatype State = State(
    maxRate: Option<Rate>,
    currentRate: Option<Rate>,
    minRate: Option<Rate>,
    burstBytes: nat,
    epochStarted: real,
    epochBytes: nat,
    adaptive: bool,
    lastAdjust: real,
    lastLostPackets: Option<nat>,
    lastCongestionEvents: Option<nat>)

  /** One call of `record_and_wait`: its arguments, and every clock reading it makes, in order. */
  datatype Call = Call(
    packetBytes: nat,
    stats: Option<PathStats>,  // None when no connection is passed
    checked: real,             // last_adjust.elapsed()
    adjusted: real,            // the new last_adjust
    restarted: real,           // the new epoch_started
    measured: real,            // epoch_started.elapsed()
    compared: real,            // the comparison with the sleep target
    returned: real)            // when the call returns

  function TargetRate(mbps: nat): Option<Rate> {
    if mbps == 0 then None else Some(mbps as real * 1000000.0 / 8.0)
  }

  // The conversion to u64 saturates at both ends.
  function BurstBytes(rate: Option<Rate>, mtu: nat): nat {
    match rate
    case None => 0
    case Some(r) =>
      var c := Ceil(Max(r * BURST_WINDOW_SECS, mtu as real));
      if c < 0 then 0 else if c > U64_MAX then U64_MAX else c
  }

  function Initial(mbps: nat, packetBytes: nat, adaptive: bool, now: real): State {
    var max := TargetRate(mbps);
    var min: Option<Rate> := match max case None => None case Some(r) => Some(r * 0.50);
    State(max, max, min, BurstBytes(max, packetBytes), now, 0, adaptive, now, None, None)
  }

  // What the controller asks for after one comparison of loss counters.
  function NextRate(current: Rate, min: Rate, max: Rate, lossy: bool): Rate {
    if lossy then Max(current * 0.85, min) else Min(current * 1.02, max)
  }

  function Lossy(s: State, stats: PathStats): bool
    requires s.lastLostPackets.Some?
  {
    stats.lostPackets > s.lastLostPackets.value
    || stats.congestionEvents > s.lastCongestionEvents.GetOr(stats.congestionEvents)
  }

  function Adjust(s: State, stats: PathStats, c: Call): State {
    if s.currentRate.None? || c.checked - s.lastAdjust < ADJUST_INTERVAL_SECS then s
    else
      var s' := s.(lastLostPackets := Some(stats.lostPackets),
                   lastCongestionEvents := Some(stats.congestionEvents),
                   lastAdjust := c.adjusted);
      if s.lastLostPackets.None? then s'
      else
        var current := s.currentRate.value;
        var next := NextRate(current, s.minRate.GetOr(current), s.maxRate.GetOr(current), Lossy(s, stats));
        if Abs(next - current) > EPSILON
        then s'.(currentRate := Some(next), epochStarted := c.restarted, epochBytes := 0)
        else s'
  }

  function Record(s: State, n: nat): State {
    s.(epochBytes := SaturatingAdd(s.epochBytes, n))
  }

  // The state after a call; waiting changes nothing.
  function Step(s: State, c: Call): State {
    var r := Record(s, c.packetBytes);
    if s.adaptive && c.stats.Some? then Adjust(r, c.stats.value, c) else r
  }

  // The instant `wait` sleeps until, or None when it returns at once.
  function SleepTarget(s: State, measured: real, compared: real): Option<real> {
    if s.currentRate.None? || s.epochBytes <= s.burstBytes then None
    else
      var rate := s.currentRate.value;
      if s.epochBytes as real <= (measured - s.epochStarted) * rate + s.burstBytes as real then None
      else
        var target := s.epochStarted + (s.epochBytes - s.burstBytes) as real / rate;
        if target > compared then Some(target) else None
  }

  // The clock never runs backwards, and a sleep does not end before its target.
  predicate ValidCall(s: State, now: real, c: Call) {
    && now <= c.checked <= c.adjusted <= c.restarted <= c.measured <= c.compared <= c.returned
    && match SleepTarget(Step(s, c), c.measured, c.compared)
       case None => true
       case Some(target) => target <= c.returned
  }

  // ----- Whole runs: calls in order, the last one last

  function Prefix(calls: seq<Call>): seq<Call>
    requires calls != []
  {
    calls[..|calls| - 1]
  }

  function Last(calls: seq<Call>): Call
    requires calls != []
  {
    calls[|calls| - 1]
  }

  function After(s: State, calls: seq<Call>): State {
    if calls == [] then s else Step(After(s, Prefix(calls)), Last(calls))
  }

  function Returned(start: real, calls: seq<Call>): real {
    if calls == [] then start else Last(calls).returned
  }

  predicate ValidRun(s: State, start: real, calls: seq<Call>) {
    calls == []
    || (ValidRun(s, start, Prefix(calls))
        && ValidCall(After(s, Prefix(calls)), Returned(start, Prefix(calls)), Last(calls)))
  }

  // One more call at the end of a run.
  lemma Extend(s: State, start: real, calls: seq<Call>, c: Call)
    requires ValidRun(s, start, calls) && ValidCall(After(s, calls), Returned(start, calls), c)
    ensures Prefix(calls + [c]) == calls && Last(calls + [c]) == c
    ensures ValidRun(s, start, calls + [c]) && After(s, calls + [c]) == Step(After(s, calls), c)
    ensures Returned(start, calls + [c]) == c.returned
    ensures Sleeps(s, calls + [c]) == Sleeps(s, calls) + SleepOf(After(s, calls + [c]), c)
  {
    assert Prefix(calls + [c]) == calls;
  }

  // How many calls do not pass the connection.
  function Unconnected(calls: seq<Call>): nat {
    if calls == [] then 0 else Unconnected(Prefix(calls)) + if Last(calls).stats.None? then 1 else 0
  }

  // Every sleep of a run: the instants it slept until, in order.
  function Sleeps(s: State, calls: seq<Call>): seq<real> {
    if calls == [] then [] else Sleeps(s, Prefix(calls)) + SleepOf(After(s, calls), Last(calls))
  }

  // The sleep of one call that ends in state s: none, or one.
  function SleepOf(s: State, c: Call): seq<real> {
    match SleepTarget(s, c.measured, c.compared)
    case None => []
    case Some(target) => [target]
  }

  function Sizes(calls: seq<Call>): seq<nat> {
    if calls == [] then [] else Sizes(Prefix(calls)) + [Last(calls).packetBytes]
  }

  // What an object tells of its calls: their sizes, how many were unconnected, and the clock's sleeps before and since.
  datatype Trace = Trace(recorded: seq<nat>, unconnected: nat, sleptBefore: seq<real>, slept: seq<real>)

  ghost predicate IsHistory(s0: State, start: real, calls: seq<Call>, s: State, now: real, trace: Trace) {
    && ValidRun(s0, start, calls) && s == After(s0, calls) && Returned(start, calls) <= now
    && trace.recorded == Sizes(calls) && trace.unconnected == Unconnected(calls)
    && trace.slept == trace.sleptBefore + Sleeps(s0, calls)
  }

  lemma HistoryGrows(s0: State, start: real, calls: seq<Call>, s: State, now: real, trace: Trace, c: Call)
    requires IsHistory(s0, start, calls, s, now, trace) && ValidCall(s, Returned(start, calls), c)
    ensures Prefix(calls + [c]) == calls && Last(calls + [c]) == c
    ensures IsHistory(s0, start, calls + [c], Step(s, c), c.returned,
                      Trace(trace.recorded + [c.packetBytes], trace.unconnected + if c.stats.None? then 1 else 0,
                            trace.sleptBefore, trace.slept + SleepOf(Step(s, c), c)))
    ensures Returned(start, calls + [c]) == c.returned
  {
    Extend(s0, start, calls, c);
  }

  function Total(calls: seq<Call>): nat {
    if calls == [] then 0 else Total(Prefix(calls)) + Last(calls).packetBytes
  }

  // The controller changed the rate during the call.
  predicate Steered(s: State, c: Call) {
    Step(s, c).currentRate != s.currentRate
  }

  function Resets(s: State, calls: seq<Call>): nat {
    if calls == [] then 0
    else Resets(s, Prefix(calls)) + if Steered(After(s, Prefix(calls)), Last(calls)) then 1 else 0
  }

  predicate PacketsAtMost(calls: seq<Call>, largest: nat) {
    forall i :: 0 <= i < |calls| ==> calls[i].packetBytes <= largest
  }

  // No record of the run reaches the limit of the 64-bit byte counter.
  predicate NeverSaturates(s: State, calls: seq<Call>) {
    calls == []
    || (NeverSaturates(s, Prefix(calls)) && After(s, Prefix(calls)).epochBytes + Last(calls).packetBytes <= U64_MAX)
  }

  // ----- The invariant of every run

  ghost predicate RatesInBand(s: State) {
    && s.currentRate.Some? && s.minRate.Some? && s.maxRate.Some?
    && 0.0 < s.maxRate.value
    && s.minRate.value == s.maxRate.value * 0.50
    && s.minRate.value <= s.currentRate.value <= s.maxRate.value
  }

  ghost predicate Paced(s: State, now: real) {
    s.currentRate.Some? && s.epochBytes as real <= s.burstBytes as real + s.currentRate.value * (now - s.epochStarted)
  }

  // How a pacer stands between two calls.
  ghost predicate Ready(s: State, now: real) {
    RatesInBand(s) && Paced(s, now) && s.epochStarted <= now && s.lastAdjust <= now
  }

  // What the time of the epoch has paid for and nobody has sent: negative while the burst is in use.
  function Credit(s: State, now: real): real
    requires s.currentRate.Some?
  {
    s.currentRate.value * (now - s.epochStarted) - s.epochBytes as real
  }

  // The line rate over the time, some slack, one burst, and one burst and packet per reset.
  ghost predicate WithinBudget(total: nat, rate: Rate, elapsed: real, slack: real, burst: nat, largest: nat,
                               resets: int)
  {
    total as real <= rate * elapsed + slack + burst as real + resets as real * (burst + largest) as real
  }

  // The bytes of all epochs before the current one, which `elapsed` after the start of the run was empty.
  ghost predicate Forgotten(bytes: int, rate: Rate, elapsed: real, slack: real, burst: nat, largest: nat, resets: nat) {
    bytes as real <= rate * elapsed + slack + resets as real * (burst + largest) as real
  }

  // If `total` more bytes in the epoch are paced, they are within the maximum line rate, one burst and `slack` bytes.
  ghost predicate SlackCovers(s0: State, start: real, slack: real, total: nat, now: real)
    requires s0.maxRate.Some?
  {
    start <= now && Paced(s0.(epochBytes := s0.epochBytes + total), now)
    && (total == 0 || s0.epochBytes + total <= U64_MAX)
    ==> WithinBudget(total, s0.maxRate.value, now - start, slack, s0.burstBytes, 0, 0)
  }

  // So before its first reset a pacer stays within that.
  ghost predicate SlackSuffices(s0: State, start: real, slack: real)
    requires s0.maxRate.Some?
  {
    forall total: nat, now: real :: SlackCovers(s0, start, slack, total, now)
  }

  // One once the loss counters have been sampled for the first time.
  function FirstSample(s0: State, s: State): nat {
    if s0.lastLostPackets.None? && s.lastLostPackets.Some? then 1 else 0
  }

  // The pacer's state s after `total` bytes and `resets` epoch restarts since it was s0.
  ghost predicate RunInvariant(s0: State, start: real, slack: real, s: State, now: real, total: nat, resets: nat,
                               largest: nat)
  {
    && Ready(s, now) && start <= now
    && s.maxRate == s0.maxRate && s.burstBytes == s0.burstBytes && s.adaptive == s0.adaptive
    && (if resets == 0
        then
          && s.currentRate == s0.currentRate && s.epochStarted == s0.epochStarted
          && s.epochBytes == s0.epochBytes + total && (total == 0 || s.epochBytes <= U64_MAX)
        else
          && s.adaptive && s.lastLostPackets.Some? && start <= s.epochStarted && s.epochBytes <= total
          && Forgotten(total - s.epochBytes, s.maxRate.value, s.epochStarted - start, slack, s.burstBytes, largest,
                       resets)
          && 0.25 * (resets - 1) as real <= s.lastAdjust - start)
    && 0.25 * (resets + FirstSample(s0, s)) as real <= s.lastAdjust - s0.lastAdjust
  }

  lemma ScaleBy(a: real, b: real, x: real)
    requires a <= b && 0.0 <= x
    ensures a * x <= b * x
  {
  }

  lemma AddEpoch(rate: Rate, max: Rate, from: real, started: real, now: real)
    requires rate <= max && from <= now
    ensures rate * (now - started) <= rate * (from - started) + max * (now - from)
  {
    ScaleBy(rate, max, now - from);
    assert rate * (now - started) == rate * (from - started) + rate * (now - from);
  }

  lemma CreditSuffices(s: State, start: real)
    requires RatesInBand(s)
    ensures SlackSuffices(s, start, Credit(s, start))
  {
    forall total: nat, now: real ensures SlackCovers(s, start, Credit(s, start), total, now) {
      if start <= now {
        AddEpoch(s.currentRate.value, s.maxRate.value, start, s.epochStarted, now);
      }
    }
  }

  lemma FirstEpochBound(s0: State, start: real, slack: real, s: State, now: real, total: nat, largest: nat)
    requires s0.maxRate.Some? && SlackCovers(s0, start, slack, total, now)
    requires RunInvariant(s0, start, slack, s, now, total, 0, largest)
    ensures WithinBudget(total, s.maxRate.value, now - start, slack, s.burstBytes, largest, 0)
  {
    assert s0.(epochBytes := s0.epochBytes + total).epochStarted == s.epochStarted;
  }

  lemma LaterEpochBound(s0: State, start: real, slack: real, s: State, now: real, total: nat, resets: nat, largest: nat)
    requires RunInvariant(s0, start, slack, s, now, total, resets, largest) && resets > 0
    ensures WithinBudget(total, s.maxRate.value, now - start, slack, s.burstBytes, largest, resets)
  {
    var rate, max := s.currentRate.value, s.maxRate.value;
    AddEpoch(rate, max, s.epochStarted, s.epochStarted, now);
    assert max * (now - start) == max * (now - s.epochStarted) + max * (s.epochStarted - start);
  }

  lemma InvariantBoundsTotal(s0: State, start: real, slack: real, s: State, now: real, total: nat, resets: nat,
                             largest: nat)
    requires s0.maxRate.Some? && SlackSuffices(s0, start, slack)
    requires RunInvariant(s0, start, slack, s, now, total, resets, largest)
    ensures WithinBudget(total, s.maxRate.value, now - start, slack, s.burstBytes, largest, resets)
  {
    if resets == 0 {
      assert SlackCovers(s0, start, slack, total, now);
      FirstEpochBound(s0, start, slack, s, now, total, largest);
    } else {
      LaterEpochBound(s0, start, slack, s, now, total, resets, largest);
    }
  }

  lemma Monotone(rate: Rate, a: real, b: real)
    requires a <= b
    ensures rate * a <= rate * b
  {
  }

  lemma TargetReached(rate: Rate, excess: real, started: real, returned: real)
    requires started + excess / rate <= returned
    ensures excess <= rate * (returned - started)
  {
    Monotone(rate, excess / rate, returned - started);
  }

  lemma WaitPaces(s: State, measured: real, compared: real, returned: real)
    requires s.currentRate.Some? && s.epochStarted <= measured <= compared <= returned
    requires var t := SleepTarget(s, measured, compared); t.Some? ==> t.value <= returned
    ensures Paced(s, returned)
  {
    var rate := s.currentRate.value;
    if s.epochBytes <= s.burstBytes {
      Monotone(rate, 0.0, returned - s.epochStarted);
    } else if s.epochBytes as real <= (measured - s.epochStarted) * rate + s.burstBytes as real {
      Monotone(rate, measured - s.epochStarted, returned - s.epochStarted);
    } else {
      TargetReached(rate, (s.epochBytes - s.burstBytes) as real, s.epochStarted, returned);
    }
  }

  // A call either keeps the epoch and the rate, or changes the rate and starts an empty epoch;
  // the controller never runs twice within one adjust interval.
  ghost predicate Shape(s: State, s': State, c: Call) {
    && RatesInBand(s') && s'.maxRate == s.maxRate && s'.burstBytes == s.burstBytes && s'.adaptive == s.adaptive
    && (if s'.currentRate == s.currentRate
        then s'.epochStarted == s.epochStarted && s'.epochBytes == s.epochBytes + c.packetBytes
        else s'.epochStarted == c.restarted && s'.epochBytes == 0 && s.adaptive && s.lastLostPackets.Some?)
    && (s.lastLostPackets.Some? ==> s'.lastLostPackets.Some?)
    && (if s'.lastAdjust == s.lastAdjust
        then s'.lastLostPackets.Some? == s.lastLostPackets.Some? && s'.currentRate == s.currentRate
        else
          && s'.lastAdjust == c.adjusted && s'.lastLostPackets.Some?
          && s.lastAdjust + 0.25 <= c.adjusted)
  }

  lemma StepShape(s: State, now: real, c: Call)
    requires RatesInBand(s) && ValidCall(s, now, c) && s.epochBytes + c.packetBytes <= U64_MAX
    ensures Shape(s, Step(s, c), c)
  {
  }

  lemma KeepInvariant(s0: State, start: real, slack: real, s: State, s': State, now: real, total: nat, resets: nat,
                      largest: nat, c: Call)
    requires RunInvariant(s0, start, slack, s, now, total, resets, largest)
    requires Shape(s, s', c) && s'.currentRate == s.currentRate && s'.epochBytes <= U64_MAX
    requires now <= c.adjusted <= c.returned && Paced(s', c.returned)
    ensures RunInvariant(s0, start, slack, s', c.returned, total + c.packetBytes, resets, largest)
  {
  }

  // All the bytes of the epoch are forgotten at once, the packet in hand among them.
  lemma ForgetEpoch(total: nat, n: nat, max: Rate, elapsed: real, later: real, slack: real, burst: nat, largest: nat,
                    resets: nat)
    requires WithinBudget(total, max, elapsed, slack, burst, largest, resets) && n <= largest && elapsed <= later
    ensures Forgotten(total + n, max, later, slack, burst, largest, resets + 1)
  {
    Monotone(max, elapsed, later);
    assert (resets + 1) as real * (burst + largest) as real
        == resets as real * (burst + largest) as real + (burst + largest) as real;
  }

  lemma ResetInvariant(s0: State, start: real, slack: real, s: State, s': State, now: real, total: nat, resets: nat,
                       largest: nat, c: Call)
    requires RunInvariant(s0, start, slack, s, now, total, resets, largest)
    requires WithinBudget(total, s.maxRate.value, now - start, slack, s.burstBytes, largest, resets)
    requires Shape(s, s', c) && s'.currentRate != s.currentRate && c.packetBytes <= largest
    requires now <= c.adjusted <= c.restarted <= c.returned && Paced(s', c.returned)
    ensures RunInvariant(s0, start, slack, s', c.returned, total + c.packetBytes, resets + 1, largest)
  {
    ForgetEpoch(total, c.packetBytes, s.maxRate.value, now - start, c.restarted - start, slack, s.burstBytes, largest,
                resets);
    ResetTimes(s0, start, slack, s, s', now, total, resets, largest, c);
  }

  lemma ResetTimes(s0: State, start: real, slack: real, s: State, s': State, now: real, total: nat, resets: nat,
                   largest: nat, c: Call)
    requires RunInvariant(s0, start, slack, s, now, total, resets, largest)
    requires Shape(s, s', c) && s'.currentRate != s.currentRate && now <= c.adjusted
    ensures 0.25 * resets as real <= s'.lastAdjust - start
    ensures 0.25 * (resets + 1 + FirstSample(s0, s')) as real <= s'.lastAdjust - s0.lastAdjust
  {
  }

  lemma StepInvariant(s0: State, start: real, slack: real, s: State, now: real, total: nat, resets: nat, largest: nat,
                      c: Call)
    requires RunInvariant(s0, start, slack, s, now, total, resets, largest)
    requires WithinBudget(total, s.maxRate.value, now - start, slack, s.burstBytes, largest, resets)
    requires ValidCall(s, now, c) && c.packetBytes <= largest && s.epochBytes + c.packetBytes <= U64_MAX
    ensures RunInvariant(s0, start, slack, Step(s, c), c.returned, total + c.packetBytes,
                         resets + if Steered(s, c) then 1 else 0, largest)
  {
    StepShape(s, now, c);
    WaitPaces(Step(s, c), c.measured, c.compared, c.returned);
    if Steered(s, c) {
      ResetInvariant(s0, start, slack, s, Step(s, c), now, total, resets, largest, c);
    } else {
      KeepInvariant(s0, start, slack, s, Step(s, c), now, total, resets, largest, c);
    }
  }

  /** Every run from a pacer between two calls, a new one or one in use, keeps the invariant. */
  lemma {:induction false} EveryRunInvariant(s0: State, start: real, slack: real, calls: seq<Call>, largest: nat)
    requires Ready(s0, start) && SlackSuffices(s0, start, slack) && ValidRun(s0, start, calls)
    requires PacketsAtMost(calls, largest) && NeverSaturates(s0, calls)
    ensures RunInvariant(s0, start, slack, After(s0, calls), Returned(start, calls), Total(calls), Resets(s0, calls),
                         largest)
  {
    if calls != [] {
      var s, now, total := After(s0, Prefix(calls)), Returned(start, Prefix(calls)), Total(Prefix(calls));
      var resets := Resets(s0, Prefix(calls));
      EveryRunInvariant(s0, start, slack, Prefix(calls), largest);
      InvariantBoundsTotal(s0, start, slack, s, now, total, resets, largest);
      StepInvariant(s0, start, slack, s, now, total, resets, largest, Last(calls));
    }
  }

  lemma InitialIsReady(mbps: nat, packetBytes: nat, adaptive: bool, start: real)
    requires mbps > 0
    ensures Ready(Initial(mbps, packetBytes, adaptive, start), start)
    ensures Credit(Initial(mbps, packetBytes, adaptive, start), start) == 0.0
  {
  }

  // ----- Main results on the byte count

  // The resets there is time for: adjustments are at least one interval apart and the first one only samples
  // the loss counters.
  function ResetBudget(adaptive: bool, elapsed: real): nat {
    var intervals := (elapsed / 0.25).Floor;
    if !adaptive || intervals <= 1 then 0 else intervals - 1
  }

  lemma ResetsWithinBudget(resets: nat, elapsed: real)
    requires 0.0 <= elapsed && (resets > 0 ==> 0.25 * (resets + 1) as real <= elapsed)
    ensures resets <= ResetBudget(true, elapsed)
  {
    if resets > 0 {
      assert (resets + 1) as real <= elapsed / 0.25;
    }
  }

  lemma BudgetGrows(total: nat, rate: Rate, elapsed: real, burst: nat, largest: nat, a: int, b: int)
    requires WithinBudget(total, rate, elapsed, 0.0, burst, largest, a) && a <= b
    ensures WithinBudget(total, rate, elapsed, 0.0, burst, largest, b)
  {
    ScaleBy(a as real, b as real, (burst + largest) as real);
  }

  /** All bytes ever recorded, against the time since the pacer was created. */
  lemma WholeRunBound(mbps: nat, packetBytes: nat, adaptive: bool, start: real, calls: seq<Call>, largest: nat)
    requires mbps > 0
    requires ValidRun(Initial(mbps, packetBytes, adaptive, start), start, calls)
    requires PacketsAtMost(calls, largest) && NeverSaturates(Initial(mbps, packetBytes, adaptive, start), calls)
    ensures WithinBudget(Total(calls), TargetRate(mbps).value, Returned(start, calls) - start, 0.0,
                         BurstBytes(TargetRate(mbps), packetBytes), largest,
                         ResetBudget(adaptive, Returned(start, calls) - start))
  {
    var s0, elapsed := Initial(mbps, packetBytes, adaptive, start), Returned(start, calls) - start;
    var s, resets, budget := After(s0, calls), Resets(s0, calls), ResetBudget(adaptive, elapsed);
    InitialIsReady(mbps, packetBytes, adaptive, start);
    CreditSuffices(s0, start);
    EveryRunInvariant(s0, start, 0.0, calls, largest);
    InvariantBoundsTotal(s0, start, 0.0, s, start + elapsed, Total(calls), resets, largest);
    ResetsWithinBudget(resets, elapsed);
    BudgetGrows(Total(calls), s.maxRate.value, elapsed, s.burstBytes, largest, resets, budget);
  }

  // The burst is the least 64-bit number of bytes that covers one packet and five milliseconds,
  // or the largest such number if none does.
  lemma BurstIsLeast(mbps: nat, mtu: nat, bytes: nat)
    requires mbps > 0
    ensures BurstBytes(TargetRate(mbps), mtu) <= bytes
            <==> bytes >= U64_MAX || (mtu <= bytes && mbps as real * 625.0 <= bytes as real)
  {
    var x := Max(mbps as real * 625.0, mtu as real);
    var minus := 0 - bytes;
    assert minus as real == -(bytes as real);
    assert x <= bytes as real <==> minus as real <= -x;
  }

  // ----- Sleeping is never longer than the byte bound asks

  lemma NoSleepIffPaced(s: State, measured: real, compared: real)
    requires s.currentRate.Some? && s.epochStarted <= measured <= compared
    ensures SleepTarget(s, measured, compared).None? <==> Paced(s, compared)
    ensures SleepTarget(s, measured, compared).Some? ==> !Paced(s, measured)
  {
    var rate := s.currentRate.value;
    Monotone(rate, 0.0, compared - s.epochStarted);
    Monotone(rate, 0.0, measured - s.epochStarted);
    Monotone(rate, measured - s.epochStarted, compared - s.epochStarted);
    if s.epochBytes > s.burstBytes {
      EarliestPaced(s, compared);
    }
  }

  lemma EarliestPaced(s: State, t: real)
    requires s.currentRate.Some? && s.epochBytes > s.burstBytes
    ensures Paced(s, t) <==> s.epochStarted + (s.epochBytes - s.burstBytes) as real / s.currentRate.value <= t
  {
    var rate, excess := s.currentRate.value, (s.epochBytes - s.burstBytes) as real;
    assert rate * (excess / rate) == excess;
    if s.epochStarted + excess / rate <= t {
      Monotone(rate, excess / rate, t - s.epochStarted);
    } else {
      assert rate * (excess / rate - (t - s.epochStarted)) > 0.0;
    }
  }

  // What a sleep target means: none if the epoch bound holds, otherwise the earliest instant at which it does.
  lemma TargetIsEarliest(s: State, measured: real, compared: real)
    requires s.currentRate.Some? && s.epochStarted <= measured <= compared
    ensures match SleepTarget(s, measured, compared)
            case None => Paced(s, compared)
            case Some(target) => !Paced(s, compared) && forall t: real :: Paced(s, t) <==> target <= t
  {
    NoSleepIffPaced(s, measured, compared);
    if SleepTarget(s, measured, compared).Some? {
      forall t: real ensures Paced(s, t) <==> SleepTarget(s, measured, compared).value <= t {
        EarliestPaced(s, t);
      }
    }
  }

  lemma DivideLe(a: real, b: real, rate: Rate)
    requires a <= b
    ensures a / rate <= b / rate
  {
  }

  // A packet is never held longer than its own size takes at the current rate.
  lemma SleepAtMostOwnSize(s: State, s': State, now: real, n: nat)
    requires s.currentRate.Some? && Paced(s, now) && s'.epochBytes > s'.burstBytes && s'.burstBytes == s.burstBytes
    requires s'.epochStarted == s.epochStarted && s'.epochBytes == s.epochBytes + n && s'.currentRate == s.currentRate
    ensures s'.epochStarted + (s'.epochBytes - s'.burstBytes) as real / s'.currentRate.value
            <= now + n as real / s'.currentRate.value
  {
    var rate := s.currentRate.value;
    var credit := rate * (now - s.epochStarted);
    DivideLe((s'.epochBytes - s'.burstBytes) as real, credit + n as real, rate);
    assert (credit + n as real) / rate == credit / rate + n as real / rate;
    assert credit / rate == now - s.epochStarted;
  }

  // The call c, made in state `before` at time `now` and ending in state s, sleeps no longer than it must.
  ghost predicate Tight(before: State, s: State, now: real, c: Call, max: Rate)
    requires s.currentRate.Some?
  {
    match SleepTarget(s, c.measured, c.compared)
    case None => Paced(s, c.compared)
    case Some(target) =>
      && !Paced(s, c.measured) && c.compared < target
      && (forall t: real :: Paced(s, t) <==> target <= t)
      && s.currentRate == before.currentRate
      && target <= now + c.packetBytes as real / s.currentRate.value
      && target <= now + 2.0 * c.packetBytes as real / max
  }

  lemma StepIsTight(before: State, s: State, now: real, c: Call)
    requires Ready(before, now) && Shape(before, s, c) && now <= c.restarted <= c.measured <= c.compared
    ensures Tight(before, s, now, c, s.maxRate.value)
  {
    NoSleepIffPaced(s, c.measured, c.compared);
    if SleepTarget(s, c.measured, c.compared).Some? {
      forall t: real ensures Paced(s, t) <==> SleepTarget(s, c.measured, c.compared).value <= t {
        EarliestPaced(s, t);
      }
      SleepAtMostOwnSize(before, s, now, c.packetBytes);
      HalfRate(c.packetBytes as real, s.currentRate.value, s.maxRate.value);
    }
  }

  /**
   In every run: a call sleeps exactly when the epoch bound does not hold yet, until the earliest
   instant at which it does, and no longer after the previous return than its own packet takes
   at the current rate (so at most twice what it takes at the configured rate).
   */
  lemma EverySleepIsTight(mbps: nat, packetBytes: nat, adaptive: bool, start: real, calls: seq<Call>)
    requires mbps > 0 && calls != []
    requires ValidRun(Initial(mbps, packetBytes, adaptive, start), start, calls)
    requires NeverSaturates(Initial(mbps, packetBytes, adaptive, start), calls)
    ensures var s0 := Initial(mbps, packetBytes, adaptive, start);
            && After(s0, calls).currentRate.Some?
            && Tight(After(s0, Prefix(calls)), After(s0, calls), Returned(start, Prefix(calls)), Last(calls),
                     TargetRate(mbps).value)
  {
    var s0, c := Initial(mbps, packetBytes, adaptive, start), Last(calls);
    var before, now := After(s0, Prefix(calls)), Returned(start, Prefix(calls));
    InitialIsReady(mbps, packetBytes, adaptive, start);
    CreditSuffices(s0, start);
    TotalBoundsPackets(Prefix(calls));
    EveryRunInvariant(s0, start, 0.0, Prefix(calls), Total(Prefix(calls)));
    StepShape(before, now, c);
    StepIsTight(before, Step(before, c), now, c);
  }

  // What a call takes apart from the time up to its sleep target: the clock moving on, or the sleep ending late.
  function Delay(s: State, now: real, c: Call): real {
    match SleepTarget(s, c.measured, c.compared)
    case None => c.returned - now
    case Some(target) => c.returned - target
  }

  function Delays(s: State, start: real, calls: seq<Call>): real {
    if calls == [] then 0.0
    else Delays(s, start, Prefix(calls)) + Delay(After(s, calls), Returned(start, Prefix(calls)), Last(calls))
  }

  // The lowest rate of a pacer.
  function FloorRate(mbps: nat, adaptive: bool): Rate
    requires mbps > 0
  {
    TargetRate(mbps).value * if adaptive then 0.50 else 1.0
  }

  // The time this many bytes take.
  function LineTime(bytes: nat, rate: Rate): real {
    bytes as real / rate
  }

  lemma LineTimeAdds(a: nat, b: nat, rate: Rate)
    ensures LineTime(a + b, rate) == LineTime(a, rate) + LineTime(b, rate) && 0.0 <= LineTime(a, rate)
  {
  }

  lemma LineTimeFalls(bytes: nat, slow: Rate, fast: Rate)
    requires slow <= fast
    ensures LineTime(bytes, fast) <= LineTime(bytes, slow)
  {
    var time := LineTime(bytes, fast);
    assert slow * time <= fast * time;
    DivideLe(slow * time, bytes as real, slow);
  }

  lemma StepKeepsUp(before: State, s: State, now: real, c: Call, slowest: Rate)
    requires Ready(before, now) && Shape(before, s, c) && now <= c.restarted <= c.measured <= c.compared
    requires slowest <= s.currentRate.value
    ensures c.returned <= now + LineTime(c.packetBytes, slowest) + Delay(s, now, c)
  {
    StepIsTight(before, s, now, c);
    LineTimeAdds(c.packetBytes, 0, slowest);
    LineTimeFalls(c.packetBytes, slowest, s.currentRate.value);
  }

  /**
   Throughput: apart from delays that are none of its doing, a whole run takes no longer than its bytes take
   at the lowest rate, which is the configured rate for a static pacer and half of it for an adaptive one.
   */
  lemma {:induction false} EveryRunKeepsUp(mbps: nat, packetBytes: nat, adaptive: bool, start: real, calls: seq<Call>)
    requires mbps > 0
    requires ValidRun(Initial(mbps, packetBytes, adaptive, start), start, calls)
    requires NeverSaturates(Initial(mbps, packetBytes, adaptive, start), calls)
    ensures Returned(start, calls) - start
            <= LineTime(Total(calls), FloorRate(mbps, adaptive))
               + Delays(Initial(mbps, packetBytes, adaptive, start), start, calls)
  {
    var s0, slowest := Initial(mbps, packetBytes, adaptive, start), FloorRate(mbps, adaptive);
    if calls == [] {
      LineTimeAdds(0, 0, slowest);
    } else {
      var c, before, now := Last(calls), After(s0, Prefix(calls)), Returned(start, Prefix(calls));
      EveryRunKeepsUp(mbps, packetBytes, adaptive, start, Prefix(calls));
      RateAtLeastFloor(mbps, packetBytes, adaptive, start, calls);
      StepShape(before, now, c);
      StepKeepsUp(before, Step(before, c), now, c, slowest);
      LineTimeAdds(Total(Prefix(calls)), c.packetBytes, slowest);
    }
  }

  lemma RateAtLeastFloor(mbps: nat, packetBytes: nat, adaptive: bool, start: real, calls: seq<Call>)
    requires mbps > 0 && calls != []
    requires ValidRun(Initial(mbps, packetBytes, adaptive, start), start, calls)
    requires NeverSaturates(Initial(mbps, packetBytes, adaptive, start), calls)
    ensures var s0 := Initial(mbps, packetBytes, adaptive, start);
            && Ready(After(s0, Prefix(calls)), Returned(start, Prefix(calls)))
            && After(s0, calls).currentRate.Some?
            && FloorRate(mbps, adaptive) <= After(s0, calls).currentRate.value
  {
    var s0 := Initial(mbps, packetBytes, adaptive, start);
    InitialIsReady(mbps, packetBytes, adaptive, start);
    CreditSuffices(s0, start);
    TotalBoundsPackets(calls);
    EveryRunInvariant(s0, start, 0.0, calls, Total(calls));
    EveryRunInvariant(s0, start, 0.0, Prefix(calls), Total(calls));
  }

  lemma {:induction false} ValidPrefix(s: State, start: real, calls: seq<Call>, k: nat)
    requires ValidRun(s, start, calls) && k <= |calls|
    ensures ValidRun(s, start, calls[..k])
  {
    if k == |calls| {
      assert calls[..k] == calls;
    } else {
      assert Prefix(calls)[..k] == calls[..k];
      ValidPrefix(s, start, Prefix(calls), k);
    }
  }

  lemma {:induction false} RunPrefix(s: State, start: real, calls: seq<Call>, k: nat)
    requires ValidRun(s, start, calls) && NeverSaturates(s, calls) && k <= |calls|
    ensures ValidRun(s, start, calls[..k]) && NeverSaturates(s, calls[..k])
  {
    if k == |calls| {
      assert calls[..k] == calls;
    } else {
      assert Prefix(calls)[..k] == calls[..k];
      RunPrefix(s, start, Prefix(calls), k);
    }
  }

  lemma HalfRate(n: real, cur: Rate, max: Rate)
    requires max * 0.50 <= cur && 0.0 <= n
    ensures n / cur <= 2.0 * n / max
  {
    assert n / cur * max <= n / cur * (2.0 * cur);
    assert n / cur * (2.0 * cur) == 2.0 * n;
    DivideLe(n / cur * max, 2.0 * n, max);
  }

  lemma {:induction false} TotalBoundsPackets(calls: seq<Call>)
    ensures PacketsAtMost(calls, Total(calls))
  {
    if calls != [] {
      TotalBoundsPackets(Prefix(calls));
      assert forall i :: 0 <= i < |calls| - 1 ==> calls[i] == Prefix(calls)[i];
    }
  }

  // A pacer without a target never sleeps.
  lemma {:induction false} UnlimitedNeverSleeps(packetBytes: nat, adaptive: bool, start: real, calls: seq<Call>,
                                                measured: real, compared: real)
    ensures SleepTarget(After(Initial(0, packetBytes, adaptive, start), calls), measured, compared).None?
    ensures After(Initial(0, packetBytes, adaptive, start), calls).currentRate.None?
    ensures Sleeps(Initial(0, packetBytes, adaptive, start), calls) == []
  {
    if calls != [] {
      UnlimitedNeverSleeps(packetBytes, adaptive, start, Prefix(calls), measured, compared);
    }
  }
}
