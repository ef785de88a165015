/** The datagram backlog as an object, and the pump from the TUN device to QUIC datagrams. */
module DatagramPump {
  import opened Wrappers
  import B = Backlog
  import P = Pacer
  import opened EgressPacers

  class DatagramBacklog {
    const baseline: nat
    var queued: nat
    var transmitted: nat
    const cap: nat

    ghost function State(): B.State
      reads this
    {
      B.State(baseline, queued, transmitted, cap)
    }

    constructor (counter: nat, cap: nat)
      ensures State() == B.Initial(counter, cap)
    {
      baseline, queued, transmitted, this.cap := counter, 0, 0, cap;
    }

    method Queued(polls: seq<B.Poll>) returns (outcome: B.Outcome, ghost polled: nat, ghost slept: nat)
      modifies this
      ensures B.Waited(outcome, State(), polled, slept) == B.Wait(B.Queue(old(State())), None, polls)
    {
      queued := SaturatingAdd(queued, 1);
      outcome, polled, slept := WaitUntil(None, polls);
    }

    method QueuedUntil(deadline: real, polls: seq<B.Poll>)
      returns (outcome: B.Outcome, ghost polled: nat, ghost slept: nat)
      modifies this
      ensures B.Waited(outcome, State(), polled, slept) == B.Wait(B.Queue(old(State())), Some(deadline), polls)
    {
      queued := SaturatingAdd(queued, 1);
      outcome, polled, slept := WaitUntil(Some(deadline), polls);
    }

    // `polled` counts the readings of the counter and `slept` the pauses.
    method WaitUntil(deadline: Option<real>, polls: seq<B.Poll>)
      returns (outcome: B.Outcome, ghost polled: nat, ghost slept: nat)
      modifies this`transmitted
      ensures B.Waited(outcome, State(), polled, slept) == B.Wait(old(State()), deadline, polls)
    {
      polled, slept := 0, 0;
      if cap == 0 {
        return B.Ready, 0, 0;
      }
      if EstimatedBacklog() <= cap {
        return B.Ready, 0, 0;
      }
      var pending := polls;
      while pending != []
        invariant var rest := B.PollLoop(State(), deadline, pending);
                  B.PollLoop(old(State()), deadline, polls)
                  == rest.(polls := polled + rest.polls, sleeps := slept + rest.sleeps)
        decreases |pending|
      {
        var p := pending[0];
        transmitted := SaturatingSub(p.counter, baseline);
        polled := polled + 1;
        if EstimatedBacklog() <= cap {
          return B.Ready, polled, slept;
        }
        if deadline.Some? && p.clock >= deadline.value {
          return B.TimedOut, polled, slept;
        }
        slept := slept + 1;
        match p.wake {
          case TimerFired =>
          case DeadlineFired => return B.TimedOut, polled, slept;
          case ConnectionClosed => return B.Closed, polled, slept;
        }
        pending := pending[1..];
      }
      outcome := B.Waiting;
    }

    function EstimatedBacklog(): nat
      reads this
    {
      SaturatingSub(queued, transmitted)
    }
  }

  /** Pumps the reads in order: each accepted packet is sent, queued against the cap and paced. */
  method PumpTunToQuic(input: seq<B.TunRead>, stats: seq<P.PathStats>, backlog: DatagramBacklog, pacer: EgressPacer)
    returns (stop: B.Stop)
    requires |stats| == |input| && pacer.Valid()
    modifies backlog, pacer, pacer.clock
    ensures pacer.Valid() && pacer.unconnected == old(pacer.unconnected)
    ensures var p := B.Pump(old(backlog.State()), input);
            && stop == p.stop && backlog.State() == p.state
            && pacer.recorded == old(pacer.recorded) + p.paced
  {
    ghost var whole := B.Pump(backlog.State(), input);
    var pending, polled := input, stats;
    while pending != []
      invariant |polled| == |pending| && pacer.Valid() && pacer.unconnected == old(pacer.unconnected)
      invariant var rest := B.Pump(backlog.State(), pending);
                && whole.stop == rest.stop && whole.state == rest.state
                && old(pacer.recorded) + whole.paced == pacer.recorded + rest.paced
      decreases |pending|
    {
      var r, now := pending[0], polled[0];
      pending, polled := pending[1..], polled[1..];
      if r.n == 0 {
        continue;
      }
      if r.maxDatagram.Some? && r.n > r.maxDatagram.value {
        continue;
      }
      if !r.sent {
        return B.SendFailed;
      }
      var outcome, _, _ := backlog.Queued(r.polls);
      match outcome {
        case Ready =>
        case Waiting => return B.Blocked;
        case TimedOut => return B.Lost;
        case Closed => return B.Lost;
      }
      pacer.RecordAndWait(r.n, Some(now));
    }
    stop := B.Running;
  }
}
