/**
 The cap on queued datagrams that the connection has not transmitted yet. The connection's
 transmit counter, the clock and what ends each pause are the environment: they arrive as the
 list of polls a wait would make. A list that ends early means the wait is still going on.
 */
module Backlog {
  import opened Wrappers

  datatype State = State(baseline: nat, queued: nat, transmitted: nat, cap: nat)

  datatype Wake = TimerFired | DeadlineFired | ConnectionClosed

  /** One turn of the polling loop: the counter read, the clock after it, and what ends the pause. */
  datatype Poll = Poll(counter: nat, clock: real, wake: Wake)

  // Ok(true), Ok(false), the closed-connection error, or still waiting.
  datatype Outcome = Ready | TimedOut | Closed | Waiting

  datatype Waited = Waited(outcome: Outcome, state: State, polls: nat, sleeps: nat)

  function Initial(counter: nat, cap: nat): State {
    State(counter, 0, 0, cap)
  }

  function Estimated(s: State): nat {
    SaturatingSub(s.queued, s.transmitted)
  }

  function Queue(s: State): State {
    s.(queued := SaturatingAdd(s.queued, 1))
  }

  function Refresh(s: State, counter: nat): State {
    s.(transmitted := SaturatingSub(counter, s.baseline))
  }

  function PollLoop(s: State, deadline: Option<real>, polls: seq<Poll>): Waited
    decreases |polls|
  {
    if polls == [] then Waited(Waiting, s, 0, 0)
    else
      var p := polls[0];
      var s' := Refresh(s, p.counter);
      if Estimated(s') <= s.cap then Waited(Ready, s', 1, 0)
      else if deadline.Some? && p.clock >= deadline.value then Waited(TimedOut, s', 1, 0)
      else
        match p.wake
        case DeadlineFired => Waited(TimedOut, s', 1, 1)
        case ConnectionClosed => Waited(Closed, s', 1, 1)
        case TimerFired =>
          var rest := PollLoop(s', deadline, polls[1..]);
          rest.(polls := rest.polls + 1, sleeps := rest.sleeps + 1)
  }

  // The source: trust the cached counter first.
  function Wait(s: State, deadline: Option<real>, polls: seq<Poll>): Waited {
    if s.cap == 0 || Estimated(s) <= s.cap then Waited(Ready, s, 0, 0) else PollLoop(s, deadline, polls)
  }

  // The reference: read the counter on every call.
  function AlwaysPoll(s: State, deadline: Option<real>, polls: seq<Poll>): Waited {
    if s.cap == 0 then Waited(Ready, s, 0, 0) else PollLoop(s, deadline, polls)
  }

  // ----- What the environment may do

  // Counter readings never decrease, start from `low`, and count no more than `high` datagrams.
  predicate CountersWithin(polls: seq<Poll>, low: nat, high: nat) {
    polls == [] || (low <= polls[0].counter <= high && CountersWithin(polls[1..], polls[0].counter, high))
  }

  // Without a deadline the pause cannot end on one.
  predicate WakesPossible(polls: seq<Poll>, deadline: Option<real>) {
    deadline.None? ==> forall i :: 0 <= i < |polls| ==> polls[i].wake != DeadlineFired
  }

  // The clock is at least `from` at the first poll and a timer pause lasts two milliseconds.
  predicate ClockAdvances(polls: seq<Poll>, from: real) {
    polls == []
    || (from <= polls[0].clock
        && ClockAdvances(polls[1..],
                         polls[0].clock + if polls[0].wake.TimerFired? then 0.002 else 0.0))
  }

  // The highest counter value known after the given polls.
  function LastCounter(polls: seq<Poll>, n: nat, low: nat): nat
    requires n <= |polls|
  {
    if n == 0 then low else polls[n - 1].counter
  }

  // ----- One wait

  lemma {:induction false} PollLoopOutcome(s: State, deadline: Option<real>, polls: seq<Poll>, low: nat)
    requires s.baseline <= low && s.transmitted <= low - s.baseline <= s.queued
    requires CountersWithin(polls, low, s.baseline + s.queued)
    ensures var w := PollLoop(s, deadline, polls);
            && w.state == s.(transmitted := w.state.transmitted)
            && w.polls <= |polls| && w.sleeps <= w.polls
            && (w.polls == 0 ==> w.state == s && w.outcome == Waiting)
            && (w.polls > 0 ==> w.state.transmitted == polls[w.polls - 1].counter - s.baseline)
            && (w.outcome == Ready <==> w.polls > 0 && s.queued - w.state.transmitted <= s.cap)
            && low <= LastCounter(polls, w.polls, low) <= s.baseline + s.queued
            && (w.outcome == Waiting ==> w.polls == |polls|)
            && (forall i :: 0 <= i < w.sleeps ==> s.queued - (polls[i].counter - s.baseline) > s.cap)
    decreases |polls|
  {
    if polls != [] {
      var p := polls[0];
      var s' := Refresh(s, p.counter);
      PollLoopOutcome(s', deadline, polls[1..], p.counter);
      var w, r := PollLoop(s, deadline, polls), PollLoop(s', deadline, polls[1..]);
      if w.polls > 1 {
        assert polls[w.polls - 1] == polls[1..][w.polls - 2];
      }
      forall i | 0 <= i < w.sleeps ensures s.queued - (polls[i].counter - s.baseline) > s.cap {
        if i > 0 {
          assert polls[i] == polls[1..][i - 1];
        }
      }
    }
  }

  // The reading leaves no more than the cap untransmitted.
  predicate WithinCap(s: State, p: Poll) {
    s.queued <= s.cap + (if p.counter <= s.baseline then 0 else p.counter - s.baseline)
  }

  // The clock is at the deadline or past it.
  predicate PastDeadline(deadline: Option<real>, p: Poll) {
    deadline.Some? && deadline.value <= p.clock
  }

  // Nothing in this poll ends the wait.
  predicate Idle(s: State, deadline: Option<real>, p: Poll) {
    !WithinCap(s, p) && !PastDeadline(deadline, p) && p.wake == TimerFired
  }

  // What a poll that ends the wait makes of it, and whether it slept first.
  ghost predicate Decides(s: State, deadline: Option<real>, p: Poll, outcome: Outcome, slept: bool) {
    if WithinCap(s, p) then outcome == Ready && !slept
    else if PastDeadline(deadline, p) then outcome == TimedOut && !slept
    else
      && slept && (outcome == TimedOut <==> p.wake == DeadlineFired)
      && (outcome == Closed <==> p.wake == ConnectionClosed)
  }

  /**
   The first poll that is not idle decides the loop: within the cap it is ready, past the deadline or woken by it
   timed out, and closed if the connection is. As long as all polls are idle it goes on waiting.
   */
  lemma {:induction false} FirstPollDecides(s: State, deadline: Option<real>, polls: seq<Poll>, k: nat)
    requires k <= |polls| && forall i :: 0 <= i < k ==> Idle(s, deadline, polls[i])
    ensures var w := PollLoop(s, deadline, polls);
            && (k == |polls| ==> w.outcome == Waiting && w.polls == w.sleeps == k)
            && (k < |polls| && !Idle(s, deadline, polls[k]) ==>
                  && w.polls == k + 1 && k <= w.sleeps <= k + 1
                  && Decides(s, deadline, polls[k], w.outcome, w.sleeps == k + 1)
                  && w.state == s.(transmitted := SaturatingSub(polls[k].counter, s.baseline)))
    decreases |polls|
  {
    if k > 0 {
      assert forall i :: 0 <= i < k - 1 ==> polls[1..][i] == polls[i + 1];
      FirstPollDecides(Refresh(s, polls[0].counter), deadline, polls[1..], k - 1);
    }
  }

  // Where that poll is.
  function FirstNotIdle(s: State, deadline: Option<real>, polls: seq<Poll>): (k: nat)
    ensures k <= |polls| && (forall i :: 0 <= i < k ==> Idle(s, deadline, polls[i]))
    ensures k < |polls| ==> !Idle(s, deadline, polls[k])
    decreases |polls|
  {
    if polls == [] || !Idle(s, deadline, polls[0]) then 0
    else
      var k := FirstNotIdle(s, deadline, polls[1..]);
      assert forall i :: 0 < i <= k ==> polls[i] == polls[1..][i - 1];
      k + 1
  }

  /**
   The outcome of a whole wait, for any polls: ready at once without a cap or with a cached counter within it;
   otherwise Waiting if and only if all polls are idle, and never timed out where no deadline can wake it.
   */
  lemma WaitOutcome(s: State, deadline: Option<real>, polls: seq<Poll>)
    ensures var w, k := Wait(s, deadline, polls), FirstNotIdle(s, deadline, polls);
            if s.cap == 0 || s.queued <= s.cap + s.transmitted then w == Waited(Ready, s, 0, 0)
            else
              && (w.outcome == Waiting <==> k == |polls|)
              && (k < |polls| ==> Decides(s, deadline, polls[k], w.outcome, w.sleeps == k + 1) && w.polls == k + 1)
              && (w.outcome == TimedOut ==>
                    deadline.Some? || exists i :: 0 <= i < |polls| && polls[i].wake == DeadlineFired)
  {
    FirstPollDecides(s, deadline, polls, FirstNotIdle(s, deadline, polls));
  }

  /** With a deadline the wait ends after at most ceil((deadline - now) / 2 ms) + 1 polls, whatever is transmitted. */
  lemma DeadlineEndsWait(s: State, deadline: real, now: real, polls: seq<Poll>)
    requires ClockAdvances(polls, now)
    requires |polls| > Polls(deadline - now)
    ensures var w := Wait(s, Some(deadline), polls);
            && w.outcome != Waiting
            && w.polls <= Polls(deadline - now) + 1
            && (w.outcome == TimedOut ==> w.polls > 0 && s.cap > 0 && Estimated(w.state) > s.cap)
  {
    DeadlineEndsLoop(s, deadline, now, polls);
  }

  lemma {:induction false} DeadlineEndsLoop(s: State, deadline: real, now: real, polls: seq<Poll>)
    requires ClockAdvances(polls, now)
    requires |polls| > Polls(deadline - now)
    ensures var w := PollLoop(s, Some(deadline), polls);
            && w.outcome != Waiting
            && w.polls <= Polls(deadline - now) + 1
            && (w.outcome == TimedOut ==> w.polls > 0 && Estimated(w.state) > s.cap)
    decreases |polls|
  {
    var p := polls[0];
    var s' := Refresh(s, p.counter);
    if Estimated(s') > s.cap && p.clock < deadline && p.wake.TimerFired? {
      PollsStep(deadline - p.clock, deadline - now);
      DeadlineEndsLoop(s', deadline, p.clock + 0.002, polls[1..]);
    }
  }

  // How many pauses fit before a deadline this far away.
  function Polls(remaining: real): nat {
    if remaining <= 0.0 then 0 else Ceil(remaining / 0.002)
  }

  lemma PollsStep(remaining: real, before: real)
    requires 0.0 < remaining <= before
    ensures Polls(remaining - 0.002) + 1 <= Polls(before)
  {
    var x, y := remaining / 0.002, before / 0.002;
    assert (remaining - 0.002) / 0.002 == x - 1.0;
    assert (-x).Floor + 1 == (-(x - 1.0)).Floor;
    assert x <= y;
  }

  // ----- Whole runs: the cache agrees with always polling

  /** One call of `queued` or `queued_until`. */
  datatype Call = Call(deadline: Option<real>, polls: seq<Poll>)

  // Every call finds the counter readable, and readings never decrease from call to call.
  predicate ValidCalls(baseline: nat, queued: nat, calls: seq<Call>, low: nat)
    decreases |calls|
  {
    calls == []
    || (var c := calls[0];
        && |c.polls| > 0 && WakesPossible(c.polls, c.deadline)
        && queued + 1 <= U64_MAX
        && CountersWithin(c.polls, low, baseline + queued + 1)
        && ValidCalls(baseline, queued + 1, calls[1..], c.polls[|c.polls| - 1].counter))
  }

  // What a caller can see of a run: each outcome and how often it slept.
  function CachedRun(s: State, calls: seq<Call>): seq<(Outcome, nat)>
    decreases |calls|
  {
    if calls == [] then []
    else
      var w := Wait(Queue(s), calls[0].deadline, calls[0].polls);
      [(w.outcome, w.sleeps)] + CachedRun(w.state, calls[1..])
  }

  function PollingRun(s: State, calls: seq<Call>): seq<(Outcome, nat)>
    decreases |calls|
  {
    if calls == [] then []
    else
      var w := AlwaysPoll(Queue(s), calls[0].deadline, calls[0].polls);
      [(w.outcome, w.sleeps)] + PollingRun(w.state, calls[1..])
  }

  lemma {:induction false} CountersRise(polls: seq<Poll>, low: nat, high: nat, n: nat)
    requires CountersWithin(polls, low, high) && n <= |polls| && polls != []
    ensures low <= LastCounter(polls, n, low) <= polls[|polls| - 1].counter <= high
  {
    if |polls| > 1 {
      CountersRise(polls[1..], polls[0].counter, high, if n > 0 then n - 1 else 0);
    }
  }

  // From the same call, a state that has cached less and one that has cached more decide alike.
  lemma PollLoopIgnoresCache(s: State, t: nat, deadline: Option<real>, polls: seq<Poll>)
    requires polls != []
    ensures PollLoop(s.(transmitted := t), deadline, polls) == PollLoop(s, deadline, polls)
  {
    assert Refresh(s.(transmitted := t), polls[0].counter) == Refresh(s, polls[0].counter);
  }

  /** Over every run, the cached wait gives the same outcomes and sleeps as one that always reads the counter. */
  lemma {:induction false} CacheRefinesPolling(cached: State, polling: State, calls: seq<Call>, low: nat)
    requires cached == polling.(transmitted := cached.transmitted)
    requires cached.baseline <= low
    requires cached.transmitted <= polling.transmitted <= low - cached.baseline <= cached.queued
    requires ValidCalls(cached.baseline, cached.queued, calls, low)
    ensures CachedRun(cached, calls) == PollingRun(polling, calls)
    decreases |calls|
  {
    if calls != [] {
      var c, s, p := calls[0], Queue(cached), Queue(polling);
      var fast, slow := Wait(s, c.deadline, c.polls), AlwaysPoll(p, c.deadline, c.polls);
      var last := c.polls[|c.polls| - 1].counter;
      PollLoopIgnoresCache(p, s.transmitted, c.deadline, c.polls);
      PollLoopOutcome(p, c.deadline, c.polls, low);
      CountersRise(c.polls, low, cached.baseline + s.queued, slow.polls);
      CacheRefinesPolling(fast.state, slow.state, calls[1..], last);
    }
  }

  /** The statement for a fresh backlog on a connection. */
  lemma CacheIsTransparent(counter: nat, cap: nat, calls: seq<Call>)
    requires ValidCalls(counter, 0, calls, counter)
    ensures CachedRun(Initial(counter, cap), calls) == PollingRun(Initial(counter, cap), calls)
  {
    CacheRefinesPolling(Initial(counter, cap), Initial(counter, cap), calls, counter);
  }

  // ----- The datagram pump: only what is sent is queued and paced

  /** One TUN read: its size, the connection's datagram limit then, whether the send worked, the polls of the wait. */
  datatype TunRead = TunRead(n: nat, maxDatagram: Option<nat>, sent: bool, polls: seq<Poll>)

  datatype Stop = Running | SendFailed | Lost | Blocked

  datatype Pumped = Pumped(stop: Stop, state: State, paced: seq<nat>)

  predicate Accepted(r: TunRead) {
    r.n > 0 && (r.maxDatagram.None? || r.n <= r.maxDatagram.value)
  }

  // The pump after these reads: why it stopped, its backlog, and the packet sizes given to the pacer.
  function Pump(s: State, input: seq<TunRead>): Pumped
    decreases |input|
  {
    if input == [] then Pumped(Running, s, [])
    else if !Accepted(input[0]) then Pump(s, input[1..])
    else if !input[0].sent then Pumped(SendFailed, s, [])
    else
      var w := Wait(Queue(s), None, input[0].polls);
      match w.outcome
      case Ready => var rest := Pump(w.state, input[1..]); rest.(paced := [input[0].n] + rest.paced)
      case Waiting => Pumped(Blocked, w.state, [])
      case _ => Pumped(Lost, w.state, [])
  }

  function AcceptedReads(input: seq<TunRead>): seq<TunRead> {
    if input == [] then []
    else (if Accepted(input[0]) then [input[0]] else []) + AcceptedReads(input[1..])
  }

  function Sizes(input: seq<TunRead>): seq<nat> {
    seq(|input|, i requires 0 <= i < |input| => input[i].n)
  }

  /** Empty and oversized reads touch neither the backlog nor the pacer. */
  lemma {:induction false} SkippedReadsLeaveNoTrace(s: State, input: seq<TunRead>)
    ensures Pump(s, AcceptedReads(input)) == Pump(s, input)
    ensures Pump(s, input).paced <= Sizes(AcceptedReads(input))
    ensures Pump(s, input).stop == Running ==> Pump(s, input).paced == Sizes(AcceptedReads(input))
    decreases |input|
  {
    if input != [] {
      var a := AcceptedReads(input);
      if Accepted(input[0]) {
        assert a[0] == input[0] && a[1..] == AcceptedReads(input[1..]);
        assert Sizes(a) == [input[0].n] + Sizes(a[1..]);
        SkippedReadsLeaveNoTrace(Wait(Queue(s), None, input[0].polls).state, input[1..]);
      } else {
        assert a == AcceptedReads(input[1..]);
        SkippedReadsLeaveNoTrace(s, input[1..]);
      }
    }
  }

  lemma {:induction false} PumpAppend(s: State, a: seq<TunRead>, b: seq<TunRead>)
    ensures var p := Pump(s, a);
            Pump(s, a + b)
            == if p.stop != Running then p
               else var rest := Pump(p.state, b); rest.(paced := p.paced + rest.paced)
    decreases |a|
  {
    if a == [] {
      assert a + b == b;
    } else {
      assert (a + b)[0] == a[0] && (a + b)[1..] == a[1..] + b;
      PumpAppend(if Accepted(a[0]) then Wait(Queue(s), None, a[0].polls).state else s, a[1..], b);
    }
  }

  /**
   What any one read does, wherever it comes in a run: an empty packet or one above the connection's datagram limit
   changes nothing; any other is sent, and a failed send stops the pump; a sent one raises the queued datagrams by
   one and, once its wait is ready, is paced with its size.
   */
  lemma ReadInPump(s: State, before: seq<TunRead>, r: TunRead, after: seq<TunRead>)
    requires Pump(s, before).stop == Running
    ensures var p, whole := Pump(s, before), Pump(s, before + [r] + after);
            if r.n == 0 || (r.maxDatagram.Some? && r.maxDatagram.value < r.n) then whole == Pump(s, before + after)
            else if !r.sent then whole == Pumped(SendFailed, p.state, p.paced)
            else
              var w := Wait(p.state.(queued := SaturatingAdd(p.state.queued, 1)), None, r.polls);
              var rest := Pump(w.state, after);
              match w.outcome
              case Ready => whole == Pumped(rest.stop, rest.state, p.paced + [r.n] + rest.paced)
              case Waiting => whole == Pumped(Blocked, w.state, p.paced)
              case _ => whole == Pumped(Lost, w.state, p.paced)
  {
    assert before + [r] + after == before + ([r] + after) && ([r] + after)[1..] == after;
    PumpAppend(s, before, [r] + after);
    PumpAppend(s, before, after);
  }

  predicate ValidReads(s: State, input: seq<TunRead>, low: nat)
    decreases |input|
  {
    input == []
    || (if !Accepted(input[0]) || !input[0].sent then ValidReads(s, input[1..], low)
        else
          var polls := input[0].polls;
          && |polls| > 0 && WakesPossible(polls, None) && s.queued + 1 <= U64_MAX
          && CountersWithin(polls, low, s.baseline + s.queued + 1)
          && ValidReads(Queue(s), input[1..], polls[|polls| - 1].counter))
  }

  // Datagrams queued and not yet transmitted when the connection's counter stands at `counter`.
  function Outstanding(s: State, counter: nat): int {
    s.queued - (counter - s.baseline)
  }

  // What one accepted send does to the real backlog, at every counter value it can meet.
  lemma SendStaysWithinCap(s: State, deadline: Option<real>, polls: seq<Poll>, low: nat, counter: nat)
    requires 0 < s.cap && s.queued + 1 <= U64_MAX
    requires s.baseline <= low && s.transmitted <= low - s.baseline <= s.queued
    requires Outstanding(s, low) <= s.cap
    requires CountersWithin(polls, low, s.baseline + s.queued + 1) && low <= counter
    ensures Outstanding(Queue(s), counter) <= s.cap + 1
    ensures var w := Wait(Queue(s), deadline, polls);
            && w.state == Queue(s).(transmitted := w.state.transmitted)
            && w.polls <= |polls| && s.baseline + w.state.transmitted <= LastCounter(polls, w.polls, low)
            && (w.outcome == Ready && LastCounter(polls, w.polls, low) <= counter
                ==> Outstanding(w.state, counter) <= s.cap)
  {
    PollLoopOutcome(Queue(s), deadline, polls, low);
  }

  /**
   Over a whole pump run with a cap: while running, no more than `cap` datagrams are outstanding,
   and never more than `cap` + 1, at whatever later value the transmit counter is looked at.
   */
  lemma {:induction false} PumpStaysWithinCap(s: State, input: seq<TunRead>, low: nat, counter: nat)
    requires 0 < s.cap && s.baseline <= low && s.transmitted <= low - s.baseline <= s.queued
    requires Outstanding(s, low) <= s.cap
    requires ValidReads(s, input, low) && LastRead(input, low) <= counter
    ensures var p := Pump(s, input);
            && Outstanding(p.state, counter) <= s.cap + 1
            && (p.stop == Running ==> Outstanding(p.state, counter) <= s.cap)
            && p.state.queued == s.queued + |p.paced| + (if p.stop == Lost || p.stop == Blocked then 1 else 0)
            && p.state.baseline == s.baseline && p.state.cap == s.cap
    decreases |input|
  {
    LastReadRises(s, input, low);
    if input != [] {
      if !Accepted(input[0]) || !input[0].sent {
        PumpStaysWithinCap(s, input[1..], low, counter);
      } else {
        var polls := input[0].polls;
        var last, w := polls[|polls| - 1].counter, Wait(Queue(s), None, polls);
        LastReadRises(Queue(s), input[1..], last);
        CountersRise(polls, low, s.baseline + s.queued + 1, 0);
        SendStaysWithinCap(s, None, polls, low, last);
        SendStaysWithinCap(s, None, polls, low, counter);
        CountersRise(polls, low, s.baseline + s.queued + 1, w.polls);
        if w.outcome == Ready {
          ValidReadsIgnoreCache(Queue(s), w.state.transmitted, input[1..], last);
          PumpStaysWithinCap(w.state, input[1..], last, counter);
        }
      }
    }
  }

  // The last counter value the environment reported over these reads.
  function LastRead(input: seq<TunRead>, low: nat): nat
    decreases |input|
  {
    if input == [] then low
    else if !Accepted(input[0]) || !input[0].sent || input[0].polls == [] then LastRead(input[1..], low)
    else LastRead(input[1..], input[0].polls[|input[0].polls| - 1].counter)
  }

  lemma {:induction false} LastReadRises(s: State, input: seq<TunRead>, low: nat)
    requires ValidReads(s, input, low)
    ensures low <= LastRead(input, low)
    decreases |input|
  {
    if input != [] {
      if !Accepted(input[0]) || !input[0].sent {
        LastReadRises(s, input[1..], low);
      } else {
        var polls := input[0].polls;
        CountersRise(polls, low, s.baseline + s.queued + 1, 0);
        LastReadRises(Queue(s), input[1..], polls[|polls| - 1].counter);
      }
    }
  }

  lemma {:induction false} ValidReadsIgnoreCache(s: State, t: nat, input: seq<TunRead>, low: nat)
    ensures ValidReads(s.(transmitted := t), input, low) == ValidReads(s, input, low)
    decreases |input|
  {
    if input != [] {
      if !Accepted(input[0]) || !input[0].sent {
        ValidReadsIgnoreCache(s, t, input[1..], low);
      } else if input[0].polls != [] {
        ValidReadsIgnoreCache(Queue(s), t, input[1..], input[0].polls[|input[0].polls| - 1].counter);
      }
    }
  }
}
