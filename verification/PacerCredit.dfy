/**
 The pacer seen from the middle of a run: a window of calls is bounded up to the credit at its
 start, and exactly up to it. What happens at the limit of the 64-bit byte counter.
 */
module PacerCredit {
  import opened Wrappers
  import opened Pacer

  // ----- The bound on a window

  // Adjustments in one window are at least one interval apart.
  function WindowResets(elapsed: real): int {
    (elapsed / 0.25).Floor + 1
  }

  /**
   From any point of a run: what is recorded from there on stays within the configured rate times the time,
   the credit at that point, one burst, and one burst and packet per reset.
   */
  lemma WindowBound(s: State, now: real, calls: seq<Call>, largest: nat)
    requires Ready(s, now) && ValidRun(s, now, calls)
    requires PacketsAtMost(calls, largest) && NeverSaturates(s, calls)
    ensures var elapsed := Returned(now, calls) - now;
            && WithinBudget(Total(calls), s.maxRate.value, elapsed, Credit(s, now), s.burstBytes, largest,
                            Resets(s, calls))
            && Resets(s, calls) <= (if s.adaptive then WindowResets(elapsed) else 0)
            && Ready(After(s, calls), now + elapsed)
  {
    var s', resets, elapsed := After(s, calls), Resets(s, calls), Returned(now, calls) - now;
    CreditSuffices(s, now);
    EveryRunInvariant(s, now, Credit(s, now), calls, largest);
    InvariantBoundsTotal(s, now, Credit(s, now), s', now + elapsed, Total(calls), resets, largest);
    if resets > 0 {
      assert (resets - 1) as real <= elapsed / 0.25;
    }
  }

  // ----- Calls as the pumps and the benchmarks make them

  // Every call passes the connection.
  predicate Connected(calls: seq<Call>) {
    forall i :: 0 <= i < |calls| ==> calls[i].stats.Some?
  }

  // A call that looks at the clock now samples the loss counters.
  predicate Due(s: State, now: real) {
    s.adaptive && now - s.lastAdjust >= 0.25
  }

  // The verdict would change the rate.
  predicate Moves(s: State, lossy: bool)
    requires s.currentRate.Some? && s.minRate.Some? && s.maxRate.Some?
  {
    Abs(NextRate(s.currentRate.value, s.minRate.value, s.maxRate.value, lossy) - s.currentRate.value) > EPSILON
  }

  // The next call changes the rate, and so restarts the epoch, whatever the loss counters say.
  predicate MustSteer(s: State, now: real)
    requires s.currentRate.Some? && s.minRate.Some? && s.maxRate.Some?
  {
    Due(s, now) && s.lastLostPackets.Some? && Moves(s, true) && Moves(s, false)
  }

  // Calls now with these counters leave the rate alone.
  predicate Quiet(s: State, now: real, stats: PathStats)
    requires s.currentRate.Some? && s.minRate.Some? && s.maxRate.Some?
  {
    Due(s, now) && s.lastLostPackets.Some? ==> !Moves(s, Lossy(s, stats))
  }

  function QuietStats(s: State): PathStats
    requires s.currentRate.Some? && s.minRate.Some? && s.maxRate.Some?
  {
    var lost := s.lastLostPackets.GetOr(0);
    PathStats(if Moves(s, false) then lost + 1 else lost, s.lastCongestionEvents.GetOr(0))
  }

  lemma QuietUnlessMustSteer(s: State, now: real)
    requires RatesInBand(s) && !MustSteer(s, now)
    ensures Quiet(s, now, QuietStats(s))
  {
  }

  // States that differ at most in what the controller remembers.
  predicate SameEpoch(a: State, b: State) {
    && a.maxRate == b.maxRate && a.currentRate == b.currentRate && a.minRate == b.minRate
    && a.burstBytes == b.burstBytes && a.epochStarted == b.epochStarted && a.epochBytes == b.epochBytes
    && a.adaptive == b.adaptive
  }

  lemma QuietStep(s: State, now: real, c: Call)
    requires RatesInBand(s) && c.stats.Some? && c.checked == c.adjusted == now && Quiet(s, now, c.stats.value)
    ensures SameEpoch(Step(s, c), Record(s, c.packetBytes)) && Quiet(Step(s, c), now, c.stats.value)
  {
  }

  // Packets of the given sizes, all recorded and released at the same instant t.
  function AtOnce(t: real, sizes: seq<nat>, stats: PathStats): (calls: seq<Call>)
    ensures Connected(calls)
  {
    seq(|sizes|, i requires 0 <= i < |sizes| => Call(sizes[i], Some(stats), t, t, t, t, t, t))
  }

  lemma {:induction false} AtOnceRecords(s: State, t: real, sizes: seq<nat>, stats: PathStats)
    requires RatesInBand(s) && Quiet(s, t, stats) && s.epochBytes <= U64_MAX
    ensures var calls := AtOnce(t, sizes, stats);
            && SameEpoch(After(s, calls), Record(s, Sum(sizes))) && Quiet(After(s, calls), t, stats)
            && Total(calls) == Sum(sizes) && Resets(s, calls) == 0
            && (s.epochBytes + Sum(sizes) <= U64_MAX ==> NeverSaturates(s, calls))
  {
    if sizes != [] {
      var fewer := sizes[..|sizes| - 1];
      AtOnceRecords(s, t, fewer, stats);
      assert Prefix(AtOnce(t, sizes, stats)) == AtOnce(t, fewer, stats);
      QuietStep(After(s, AtOnce(t, fewer, stats)), t, Last(AtOnce(t, sizes, stats)));
    }
  }

  lemma FewerPaced(s: State, t: real, a: nat, b: nat)
    requires a <= b && Paced(Record(s, b), t)
    ensures Paced(Record(s, a), t)
  {
  }

  // The pacer releases packets all at once if the epoch bound holds with all of them recorded.
  lemma {:induction false} AtOncePasses(s: State, now: real, t: real, sizes: seq<nat>, stats: PathStats)
    requires RatesInBand(s) && Quiet(s, t, stats) && s.epochStarted <= now <= t && s.epochBytes <= U64_MAX
    requires Paced(Record(s, Sum(sizes)), t)
    ensures var calls := AtOnce(t, sizes, stats);
            ValidRun(s, now, calls) && Returned(now, calls) == if sizes == [] then now else t
  {
    var calls := AtOnce(t, sizes, stats);
    if sizes != [] {
      var fewer := sizes[..|sizes| - 1];
      FewerPaced(s, t, Sum(fewer), Sum(sizes));
      AtOncePasses(s, now, t, fewer, stats);
      assert Prefix(calls) == AtOnce(t, fewer, stats);
      AtOnceRecords(s, t, fewer, stats);
      QuietStep(After(s, Prefix(calls)), t, Last(calls));
      OnePasses(After(s, Prefix(calls)), Record(s, Sum(sizes)), Returned(now, Prefix(calls)), Last(calls), t);
    }
  }

  lemma OnePasses(s: State, s': State, now: real, c: Call, t: real)
    requires now <= c.checked <= c.adjusted <= c.restarted <= c.measured == c.compared == c.returned == t
    requires SameEpoch(Step(s, c), s') && s'.epochStarted <= t && Paced(s', t)
    ensures ValidCall(s, now, c)
  {
    assert Paced(Step(s, c), t);
    NoSleepIffPaced(Step(s, c), t, t);
  }

  function Ones(n: nat): (sizes: seq<nat>)
    ensures |sizes| == n && forall i :: 0 <= i < n ==> sizes[i] == 1
  {
    seq(n, _ => 1)
  }

  lemma {:induction false} SumOfOnes(n: nat)
    ensures Sum(Ones(n)) == n
  {
    if n > 0 {
      assert Ones(n)[..n - 1] == Ones(n - 1);
      SumOfOnes(n - 1);
    }
  }

  // ----- The bound is exact

  // A run within the bound on windows, with `extra` bytes in place of the credit.
  ghost predicate Within(s: State, now: real, calls: seq<Call>, extra: nat, largest: nat)
    requires s.maxRate.Some?
  {
    WithinBudget(Total(calls), s.maxRate.value, Returned(now, calls) - now, extra as real, s.burstBytes, largest,
                 Resets(s, calls))
  }

  // So is every continuation from here.
  ghost predicate AlwaysWithin(s: State, now: real, extra: nat, largest: nat)
    requires s.maxRate.Some?
  {
    forall calls |
      ValidRun(s, now, calls) && Connected(calls) && PacketsAtMost(calls, largest) && NeverSaturates(s, calls) ::
      Within(s, now, calls, extra, largest)
  }

  // The line earns `extra` + 1 bytes no sooner at the current rate than one byte takes at the maximum rate.
  predicate CreditSpent(s: State, now: real, extra: nat)
    requires s.currentRate.Some? && s.maxRate.Some?
  {
    s.currentRate.value <= s.maxRate.value * ((extra + 1) as real - Credit(s, now))
  }

  predicate CounterNearlyFull(s: State, extra: nat) {
    s.epochBytes + s.burstBytes + extra >= U64_MAX
  }

  // With or without a connection: credit that is spent, or cannot be spent, never shows.
  lemma SpentCreditNeverShows(s: State, now: real, calls: seq<Call>, extra: nat, largest: nat)
    requires Ready(s, now) && (CreditSpent(s, now, extra) || CounterNearlyFull(s, extra))
    requires ValidRun(s, now, calls) && PacketsAtMost(calls, largest) && NeverSaturates(s, calls)
    ensures Within(s, now, calls, extra, largest)
  {
    ExtraSuffices(s, now, extra, extra as real);
    EveryRunInvariant(s, now, extra as real, calls, largest);
    InvariantBoundsTotal(s, now, extra as real, After(s, calls), Returned(now, calls), Total(calls), Resets(s, calls),
                         largest);
  }

  /**
   From any state between two calls, every continuation stays within the line rate, one burst, one burst and
   packet per reset, and `extra` bytes, if and only if the credit does not buy one byte more in time, or the
   counter would saturate first, or the controller is bound to restart the epoch at the next call.
   */
  lemma AlwaysWithinIff(s: State, now: real, extra: nat, largest: nat)
    requires Ready(s, now) && largest > 0
    ensures AlwaysWithin(s, now, extra, largest)
            <==> CreditSpent(s, now, extra) || CounterNearlyFull(s, extra) || MustSteer(s, now)
  {
    if CreditSpent(s, now, extra) || CounterNearlyFull(s, extra) || MustSteer(s, now) {
      forall calls |
        ValidRun(s, now, calls) && Connected(calls) && PacketsAtMost(calls, largest) && NeverSaturates(s, calls)
        ensures Within(s, now, calls, extra, largest)
      {
        if MustSteer(s, now) {
          SteeredRunWithin(s, now, calls, extra, largest);
        } else {
          SpentCreditNeverShows(s, now, calls, extra, largest);
        }
      }
    } else {
      var calls := SpendCredit(s, now, extra, largest);
      assert PacketsAtMost(calls, largest);
    }
  }

  // A first call that restarts the epoch forgets the credit with it.
  lemma {:induction false} SteeredRun(s: State, now: real, slack: real, calls: seq<Call>, largest: nat)
    requires Ready(s, now) && MustSteer(s, now) && 0.0 <= slack && calls != []
    requires ValidRun(s, now, calls) && Connected(calls) && PacketsAtMost(calls, largest) && NeverSaturates(s, calls)
    ensures Resets(s, calls) > 0
    ensures RunInvariant(s, now, slack, After(s, calls), Returned(now, calls), Total(calls), Resets(s, calls), largest)
  {
    var before, c := Prefix(calls), Last(calls);
    if before == [] {
      FirstCall(s, now, slack, c, largest);
    } else {
      var s', now', total, resets := After(s, before), Returned(now, before), Total(before), Resets(s, before);
      SteeredRun(s, now, slack, before, largest);
      LaterEpochBound(s, now, slack, s', now', total, resets, largest);
      StepInvariant(s, now, slack, s', now', total, resets, largest, c);
    }
  }

  lemma FirstCall(s: State, now: real, slack: real, c: Call, largest: nat)
    requires Ready(s, now) && MustSteer(s, now) && 0.0 <= slack && ValidCall(s, now, c) && c.stats.Some?
    requires c.packetBytes <= largest && s.epochBytes + c.packetBytes <= U64_MAX
    ensures Steered(s, c) && RunInvariant(s, now, slack, Step(s, c), c.returned, c.packetBytes, 1, largest)
  {
    FirstCallSteers(s, now, c);
    NothingSent(s.maxRate.value, slack, s.burstBytes, largest);
    StepInvariant(s, now, slack, s, now, 0, 0, largest, c);
  }

  lemma FirstCallSteers(s: State, now: real, c: Call)
    requires RatesInBand(s) && MustSteer(s, now) && now <= c.checked && c.stats.Some?
    ensures Steered(s, c)
  {
  }

  lemma SteeredRunWithin(s: State, now: real, calls: seq<Call>, extra: nat, largest: nat)
    requires Ready(s, now) && MustSteer(s, now)
    requires ValidRun(s, now, calls) && Connected(calls) && PacketsAtMost(calls, largest) && NeverSaturates(s, calls)
    ensures Within(s, now, calls, extra, largest)
  {
    if calls != [] {
      SteeredRun(s, now, extra as real, calls, largest);
      LaterEpochBound(s, now, extra as real, After(s, calls), Returned(now, calls), Total(calls), Resets(s, calls),
                      largest);
    } else {
      NothingSent(s.maxRate.value, extra as real, s.burstBytes, largest);
    }
  }

  lemma NothingSent(rate: Rate, slack: real, burst: nat, largest: nat)
    requires 0.0 <= slack
    ensures WithinBudget(0, rate, 0.0, slack, burst, largest, 0)
  {
  }

  // At the full rate, one byte in time is one byte of credit.
  lemma SpentAtFullRate(s: State, now: real, extra: nat)
    requires s.maxRate.Some? && s.currentRate == s.maxRate
    ensures CreditSpent(s, now, extra) <==> Credit(s, now) <= extra as real
  {
    var rate, x := s.maxRate.value, (extra + 1) as real - Credit(s, now);
    if rate <= rate * x {
      Divide(rate, 1.0, x);
    } else if 1.0 <= x {
      Monotone(rate, 1.0, x);
    }
  }

  lemma {:induction false} StaticNeverSteers(s: State, calls: seq<Call>)
    requires !s.adaptive && s.currentRate == s.maxRate
    ensures var s' := After(s, calls); !s'.adaptive && s'.currentRate == s'.maxRate
    ensures Resets(s, calls) == 0
  {
    if calls != [] {
      StaticNeverSteers(s, Prefix(calls));
    }
  }

  lemma ReadyLater(s: State, returned: real, now: real)
    requires Ready(s, returned) && returned <= now
    ensures Ready(s, now)
  {
    Monotone(s.currentRate.value, returned - s.epochStarted, now - s.epochStarted);
  }

  /**
   A static pacer, at any time after any run: every continuation stays within the line rate, one burst and
   `extra` bytes if and only if its credit is at most `extra` by then. With no extra bytes this is the bound on
   a sliding window: it holds exactly from the times at which the epoch's time is used up.
   */
  lemma SlidingWindowIffNoCredit(mbps: nat, packetBytes: nat, start: real, earlier: seq<Call>, now: real, extra: nat,
                                 largest: nat)
    requires mbps > 0 && largest > 0 && ValidRun(Initial(mbps, packetBytes, false, start), start, earlier)
    requires NeverSaturates(Initial(mbps, packetBytes, false, start), earlier) && Returned(start, earlier) <= now
    ensures var s := After(Initial(mbps, packetBytes, false, start), earlier);
            && s.maxRate.Some? && s.currentRate == s.maxRate && (forall calls :: Resets(s, calls) == 0)
            && (AlwaysWithin(s, now, extra, largest)
                <==> Credit(s, now) <= extra as real || CounterNearlyFull(s, extra))
  {
    var s0 := Initial(mbps, packetBytes, false, start);
    var s := After(s0, earlier);
    InitialIsReady(mbps, packetBytes, false, start);
    TotalBoundsPackets(earlier);
    WindowBound(s0, start, earlier, Total(earlier));
    ReadyLater(s, Returned(start, earlier), now);
    StaticNeverSteers(s0, earlier);
    forall calls ensures Resets(s, calls) == 0 {
      StaticNeverSteers(s, calls);
    }
    SpentAtFullRate(s, now, extra);
    AlwaysWithinIff(s, now, extra, largest);
  }

  lemma ExtraSuffices(s: State, now: real, extra: nat, slack: real)
    requires Ready(s, now) && (CreditSpent(s, now, extra) || CounterNearlyFull(s, extra)) && slack == extra as real
    ensures SlackSuffices(s, now, slack)
  {
    forall total: nat, end: real ensures SlackCovers(s, now, slack, total, end) {
      if now <= end {
        if total <= s.burstBytes + extra {
          LineCovers(s, now, end, total, extra);
        } else if CreditSpent(s, now, extra) {
          ExtraCovers(s, now, end, total, extra);
        }
      }
    }
  }

  lemma LineCovers(s: State, now: real, end: real, total: nat, extra: nat)
    requires RatesInBand(s) && now <= end && total <= s.burstBytes + extra
    ensures SlackCovers(s, now, extra as real, total, end)
  {
    Monotone(s.maxRate.value, 0.0, end - now);
  }

  lemma ExtraCovers(s: State, now: real, end: real, total: nat, extra: nat)
    requires RatesInBand(s) && now <= end && CreditSpent(s, now, extra) && total > s.burstBytes + extra
    ensures SlackCovers(s, now, extra as real, total, end)
  {
    var rate, max := s.currentRate.value, s.maxRate.value;
    SplitTime(rate, s.epochStarted, now, end);
    var late, over := (extra + 1) as real - Credit(s, now), (total - s.burstBytes - extra) as real;
    if over - 1.0 + late <= rate * (end - now) {
      WholeBytes(rate, max, over, late, end - now);
    }
  }

  // Bytes are whole: where the first of them takes its time at the maximum rate, so do the others.
  lemma WholeBytes(rate: Rate, max: Rate, bytes: real, late: real, elapsed: real)
    requires rate <= max && 1.0 <= bytes && rate <= max * late && bytes - 1.0 + late <= rate * elapsed
    ensures bytes <= max * elapsed
  {
    Monotone(max, bytes - 1.0 + late, rate * elapsed);
    ScaleBy(rate, max, bytes - 1.0);
    Distribute(max, bytes - 1.0, late);
    Distribute(rate, bytes - 1.0, 1.0);
    Commute(max, rate, elapsed);
    Divide(rate, bytes, max * elapsed);
  }

  lemma Distribute(rate: Rate, a: real, b: real)
    ensures rate * (a + b) == rate * a + rate * b
  {
  }

  lemma Commute(a: Rate, b: Rate, x: real)
    ensures a * (b * x) == b * (a * x)
  {
  }

  lemma Divide(rate: Rate, a: real, b: real)
    requires rate * a <= rate * b
    ensures a <= b
  {
    Distribute(rate, b - a, a);
  }

  lemma SplitTime(rate: Rate, a: real, b: real, c: real)
    ensures rate * (c - a) == rate * (b - a) + rate * (c - b)
  {
  }

  // How long the line takes to pay for this many bytes.
  lemma PaidIn(bytes: real, rate: Rate) returns (elapsed: real)
    requires 0.0 <= bytes
    ensures 0.0 <= elapsed && rate * elapsed == bytes
  {
    elapsed := bytes / rate;
  }

  // One byte more than the bound, in packets of one byte: all but the last at once, and the last when the credit
  // covers it. The controller looks at the clock before any time has passed.
  lemma SpendCredit(s: State, now: real, extra: nat, largest: nat) returns (calls: seq<Call>)
    requires Ready(s, now) && !CreditSpent(s, now, extra) && !CounterNearlyFull(s, extra) && !MustSteer(s, now)
    ensures ValidRun(s, now, calls) && Connected(calls) && NeverSaturates(s, calls) && PacketsAtMost(calls, 1)
    ensures !Within(s, now, calls, extra, largest)
  {
    var n := s.burstBytes + extra;
    var elapsed := CreditCovers(s, now, extra, largest);
    calls := OneByteLater(s, now, n, elapsed);
  }

  lemma OneByteLater(s: State, now: real, n: nat, elapsed: real) returns (calls: seq<Call>)
    requires RatesInBand(s) && !MustSteer(s, now) && s.epochStarted <= now
    requires s.epochBytes + n < U64_MAX && 0.0 <= elapsed
    requires Paced(Record(s, n), now) && Paced(Record(s, n + 1), now + elapsed)
    ensures ValidRun(s, now, calls) && Connected(calls) && NeverSaturates(s, calls) && PacketsAtMost(calls, 1)
    ensures Total(calls) == n + 1 && Returned(now, calls) - now == elapsed && Resets(s, calls) == 0
  {
    var stats := QuietStats(s);
    QuietUnlessMustSteer(s, now);
    SumOfOnes(n);
    AtOnceRecords(s, now, Ones(n), stats);
    AtOncePasses(s, now, now, Ones(n), stats);
    var first, t := AtOnce(now, Ones(n), stats), now + elapsed;
    var c := Call(1, Some(stats), now, now, now, t, t, t);
    QuietStep(After(s, first), now, c);
    OnePasses(After(s, first), Record(s, n + 1), now, c, t);
    Extend(s, now, first, c);
    calls := first + [c];
  }

  lemma CreditCovers(s: State, now: real, extra: nat, largest: nat) returns (elapsed: real)
    requires RatesInBand(s) && !CreditSpent(s, now, extra) && !CounterNearlyFull(s, extra)
    ensures 0.0 <= elapsed && Paced(Record(s, s.burstBytes + extra), now)
    ensures Paced(Record(s, s.burstBytes + extra + 1), now + elapsed)
    ensures !WithinBudget(s.burstBytes + extra + 1, s.maxRate.value, elapsed, extra as real, s.burstBytes, largest, 0)
  {
    var rate, max, late := s.currentRate.value, s.maxRate.value, (extra + 1) as real - Credit(s, now);
    var missing := Max(0.0, late);
    elapsed := PaidIn(missing, rate);
    LessThanOneByte(rate, max, missing, elapsed);
    LateByLessThanOneByte(rate, max, late);
    LaterCredit(s, now, elapsed, missing, s.burstBytes + extra + 1);
    CreditPaces(s, now, s.burstBytes + extra);
  }

  lemma LateByLessThanOneByte(rate: Rate, max: Rate, late: real)
    requires rate <= max && max * late < rate
    ensures late < 1.0
  {
    if 1.0 <= late {
      Monotone(max, 1.0, late);
    }
  }

  lemma CreditPaces(s: State, now: real, n: nat)
    requires s.currentRate.Some?
    requires SaturatingAdd(s.epochBytes, n) as real <= s.epochBytes as real + s.burstBytes as real + Credit(s, now)
    ensures Paced(Record(s, n), now)
  {
  }

  lemma LessThanOneByte(rate: Rate, max: Rate, bytes: real, elapsed: real)
    requires max * bytes < rate && rate * elapsed == bytes
    ensures max * elapsed < 1.0
  {
    assert rate * (max * elapsed) == max * bytes;
    if max * elapsed >= 1.0 {
      Monotone(rate, 1.0, max * elapsed);
    }
  }

  lemma LaterCredit(s: State, now: real, elapsed: real, bytes: real, n: nat)
    requires s.currentRate.Some? && s.currentRate.value * elapsed == bytes
    requires SaturatingAdd(s.epochBytes, n) as real
             <= s.epochBytes as real + s.burstBytes as real + Credit(s, now) + bytes
    ensures Paced(Record(s, n), now + elapsed)
  {
    SplitTime(s.currentRate.value, s.epochStarted, now, now + elapsed);
  }

  lemma EpochPays(s: State, elapsed: real, bytes: nat, n: nat)
    requires s.currentRate.Some? && s.epochBytes == 0 && s.currentRate.value * elapsed == bytes as real
    requires SaturatingAdd(0, n) <= bytes + s.burstBytes
    ensures Paced(Record(s, n), s.epochStarted + elapsed)
  {
    assert s.epochStarted + elapsed - s.epochStarted == elapsed;
  }

  // A new epoch releases at one instant what its line has paid for by then, and the burst.
  lemma EpochReleases(s: State, elapsed: real, bytes: nat, sizes: seq<nat>, stats: PathStats)
    requires RatesInBand(s) && s.lastLostPackets.None? && s.epochBytes == 0 && 0.0 <= elapsed
    requires s.currentRate.value * elapsed == bytes as real
    requires SaturatingAdd(0, Sum(sizes)) <= bytes + s.burstBytes
    ensures var calls := AtOnce(s.epochStarted + elapsed, sizes, stats);
            && ValidRun(s, s.epochStarted, calls) && Total(calls) == Sum(sizes)
            && (sizes != [] ==> Returned(s.epochStarted, calls) - s.epochStarted == elapsed)
  {
    EpochPays(s, elapsed, bytes, Sum(sizes));
    AtOnceRecords(s, s.epochStarted + elapsed, sizes, stats);
    AtOncePasses(s, s.epochStarted, s.epochStarted + elapsed, sizes, stats);
  }

  /** However large the burst, a new pacer that was idle long enough releases it in no time. */
  lemma IdleCreditIsUnbounded(mbps: nat, packetBytes: nat, adaptive: bool, start: real, sizes: seq<nat>,
                              stats: PathStats)
  returns (t: real)
    requires mbps > 0
    ensures start <= t && ValidRun(Initial(mbps, packetBytes, adaptive, start), start, AtOnce(t, sizes, stats))
    ensures Total(AtOnce(t, sizes, stats)) == Sum(sizes)
  {
    var s0 := Initial(mbps, packetBytes, adaptive, start);
    InitialIsReady(mbps, packetBytes, adaptive, start);
    var elapsed := PaidIn(Sum(sizes) as real, s0.currentRate.value);
    EpochReleases(s0, elapsed, Sum(sizes), sizes, stats);
    t := start + elapsed;
  }

  // ----- The limit of the byte counter

  // When the counter has reached its limit in an epoch that paid for it, nothing is held back any more.
  lemma SaturatedRun(mbps: nat, packetBytes: nat, adaptive: bool, start: real, elapsed: real, total: nat)
  returns (calls: seq<Call>)
    requires mbps > 0 && total > 0 && 0.0 <= elapsed
    requires TargetRate(mbps).value * elapsed == (U64_MAX - BurstBytes(TargetRate(mbps), packetBytes)) as real
    ensures ValidRun(Initial(mbps, packetBytes, adaptive, start), start, calls) && Connected(calls)
    ensures Total(calls) == total && PacketsAtMost(calls, 1) && Returned(start, calls) - start == elapsed
  {
    SumOfOnes(total);
    InitialIsReady(mbps, packetBytes, adaptive, start);
    EpochReleases(Initial(mbps, packetBytes, adaptive, start), elapsed,
                  U64_MAX - BurstBytes(TargetRate(mbps), packetBytes), Ones(total), PathStats(0, 0));
    calls := AtOnce(start + elapsed, Ones(total), PathStats(0, 0));
  }

  // A run within the bound on whole runs.
  ghost predicate KeepsBudget(mbps: nat, packetBytes: nat, adaptive: bool, start: real, calls: seq<Call>, largest: nat)
    requires mbps > 0
  {
    var elapsed := Returned(start, calls) - start;
    WithinBudget(Total(calls), TargetRate(mbps).value, elapsed, 0.0, BurstBytes(TargetRate(mbps), packetBytes),
                 largest, ResetBudget(adaptive, elapsed))
  }

  // All runs of a static pacer with this total are.
  ghost predicate RunsWithinBudget(mbps: nat, packetBytes: nat, start: real, largest: nat, total: nat)
    requires mbps > 0
  {
    forall calls |
      ValidRun(Initial(mbps, packetBytes, false, start), start, calls) && PacketsAtMost(calls, largest)
      && Total(calls) == total :: KeepsBudget(mbps, packetBytes, false, start, calls, largest)
  }

  lemma {:induction false} EpochWithinTotal(s: State, calls: seq<Call>)
    requires s.epochBytes + Total(calls) <= U64_MAX
    ensures NeverSaturates(s, calls) && After(s, calls).epochBytes <= s.epochBytes + Total(calls)
  {
    if calls != [] {
      EpochWithinTotal(s, Prefix(calls));
    }
  }

  /** A static pacer keeps every run of `total` bytes within the bound if and only if they fit its 64-bit counter. */
  lemma BoundIffTotalFits(mbps: nat, packetBytes: nat, start: real, largest: nat, total: nat)
    requires mbps > 0 && largest > 0
    ensures RunsWithinBudget(mbps, packetBytes, start, largest, total) <==> total <= U64_MAX
  {
    var s0 := Initial(mbps, packetBytes, false, start);
    if total <= U64_MAX {
      forall calls | ValidRun(s0, start, calls) && PacketsAtMost(calls, largest) && Total(calls) == total
        ensures KeepsBudget(mbps, packetBytes, false, start, calls, largest)
      {
        EpochWithinTotal(s0, calls);
        WholeRunBound(mbps, packetBytes, false, start, calls, largest);
      }
    } else {
      var calls := OneByteTooMany(mbps, packetBytes, start, largest, total);
      assert PacketsAtMost(calls, largest);
    }
  }

  lemma OneByteTooMany(mbps: nat, packetBytes: nat, start: real, largest: nat, total: nat) returns (calls: seq<Call>)
    requires mbps > 0 && total > U64_MAX
    ensures ValidRun(Initial(mbps, packetBytes, false, start), start, calls) && Connected(calls)
    ensures PacketsAtMost(calls, 1)
    ensures Total(calls) == total && !KeepsBudget(mbps, packetBytes, false, start, calls, largest)
  {
    var burst, rate := BurstBytes(TargetRate(mbps), packetBytes), TargetRate(mbps).value;
    var elapsed := PaidIn((U64_MAX - burst) as real, rate);
    OverBudget(total, rate, elapsed, burst, largest, 0, 0);
    calls := SaturatedRun(mbps, packetBytes, false, start, elapsed, total);
  }

  /** An adaptive pacer may record more than that in several epochs, but saturating one of them breaks its bound too. */
  lemma SaturationBreaksBound(mbps: nat, packetBytes: nat, adaptive: bool, start: real, largest: nat)
  returns (calls: seq<Call>)
    requires mbps > 0 && largest > 0
    ensures ValidRun(Initial(mbps, packetBytes, adaptive, start), start, calls) && Connected(calls)
    ensures PacketsAtMost(calls, largest)
    ensures !NeverSaturates(Initial(mbps, packetBytes, adaptive, start), calls)
    ensures !KeepsBudget(mbps, packetBytes, adaptive, start, calls, largest)
  {
    calls := RunOverBudget(mbps, packetBytes, adaptive, start, largest);
    if NeverSaturates(Initial(mbps, packetBytes, adaptive, start), calls) {
      WholeRunBound(mbps, packetBytes, adaptive, start, calls, largest);
    }
  }

  lemma RunOverBudget(mbps: nat, packetBytes: nat, adaptive: bool, start: real, largest: nat)
  returns (calls: seq<Call>)
    requires mbps > 0
    ensures ValidRun(Initial(mbps, packetBytes, adaptive, start), start, calls) && Connected(calls)
    ensures PacketsAtMost(calls, 1)
    ensures !KeepsBudget(mbps, packetBytes, adaptive, start, calls, largest)
  {
    var burst, rate := BurstBytes(TargetRate(mbps), packetBytes), TargetRate(mbps).value;
    var elapsed := PaidIn((U64_MAX - burst) as real, rate);
    var total := TotalOverBudget(rate, elapsed, burst, largest, ResetBudget(adaptive, elapsed));
    calls := SaturatedRun(mbps, packetBytes, adaptive, start, elapsed, total);
  }

  lemma TotalOverBudget(rate: Rate, elapsed: real, burst: nat, largest: nat, resets: nat) returns (total: nat)
    requires burst <= U64_MAX && rate * elapsed == (U64_MAX - burst) as real
    ensures total > 0 && !WithinBudget(total, rate, elapsed, 0.0, burst, largest, resets)
  {
    var allowed := ResetBytes(resets, burst, largest);
    total := U64_MAX + 1 + allowed;
    OverBudget(total, rate, elapsed, burst, largest, resets, allowed);
  }

  function ResetBytes(resets: nat, burst: nat, largest: nat): (bytes: nat)
    ensures bytes as real == resets as real * (burst + largest) as real
  {
    resets * (burst + largest)
  }

  lemma OverBudget(total: nat, rate: Rate, elapsed: real, burst: nat, largest: nat, resets: nat, allowed: nat)
    requires burst <= U64_MAX && rate * elapsed == (U64_MAX - burst) as real
    requires allowed as real == resets as real * (burst + largest) as real && total > U64_MAX + allowed
    ensures !WithinBudget(total, rate, elapsed, 0.0, burst, largest, resets)
  {
  }
}
