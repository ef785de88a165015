/**
 Handover of the tunnel between authenticated clients on the server. Each connection is served by
 its own handler; the steps below are the atomic actions of the handlers, and a run is any interleaving
 of them. A connection is named by the handler that serves it.
 */
module Handover {
  import opened Wrappers

  type HandlerId = nat

  const IDS: nat := U64_MAX + 1

  /** An entry of the active slot. */
  datatype Client = Client(id: nat, handler: HandlerId)

  datatype Phase =
    | Connected                                     // not authenticated yet
    | Numbered(id: nat)                             // has an id, has not taken the lock
    | Swapped(id: nat, previous: Option<Client>)    // sits in the slot, may have someone to close
    | Pumping(id: nat)
    | Exited(clientId: Option<nat>)                 // the handler returned, cleanup is to come
    | Done

  datatype State = State(handlers: map<HandlerId, Phase>, active: Option<Client>, closed: set<HandlerId>, taken: nat)

  datatype Step =
    | Accept(handler: HandlerId)
    | Reject(handler: HandlerId)         // authentication fails, a benchmark is served, or datagrams are too small
    | TakeId(handler: HandlerId)
    | Swap(handler: HandlerId)           // replaces the slot's entry, under the lock
    | ClosePrevious(handler: HandlerId)
    | Exit(handler: HandlerId)           // the pumps end
    | Cleanup(handler: HandlerId)        // clears the slot if it is the handler's own, under the lock
    | Disconnect(handler: HandlerId)     // the peer or the network closes the connection

  const START := State(map[], None, {}, 0)

  // The counter starts at one and wraps around.
  function NextId(taken: nat): nat {
    (taken + 1) % IDS
  }

  function PhaseOf(s: State, t: HandlerId): Phase {
    if t in s.handlers then s.handlers[t] else Done
  }

  predicate Enabled(s: State, step: Step) {
    match step
    case Accept(t) => t !in s.handlers
    case Reject(t) => PhaseOf(s, t).Connected?
    case TakeId(t) => PhaseOf(s, t).Connected?
    case Swap(t) => PhaseOf(s, t).Numbered?
    case ClosePrevious(t) => PhaseOf(s, t).Swapped?
    case Exit(t) => PhaseOf(s, t).Pumping?
    case Cleanup(t) => PhaseOf(s, t).Exited?
    case Disconnect(t) => t in s.handlers
  }

  function Apply(s: State, step: Step): State
    requires Enabled(s, step)
  {
    match step
    case Accept(t) => s.(handlers := s.handlers[t := Connected])
    case Reject(t) => s.(handlers := s.handlers[t := Exited(None)])
    case TakeId(t) => s.(handlers := s.handlers[t := Numbered(NextId(s.taken))], taken := s.taken + 1)
    case Swap(t) =>
      var id := s.handlers[t].id;
      s.(handlers := s.handlers[t := Swapped(id, s.active)], active := Some(Client(id, t)))
    case ClosePrevious(t) =>
      var phase := s.handlers[t];
      s.(handlers := s.handlers[t := Pumping(phase.id)],
         closed := s.closed + if phase.previous.Some? then {phase.previous.value.handler} else {})
    case Exit(t) => s.(handlers := s.handlers[t := Exited(Some(s.handlers[t].id))])
    case Cleanup(t) =>
      var clientId := s.handlers[t].clientId;
      var own := clientId.Some? && s.active.Some? && s.active.value.id == clientId.value;
      s.(handlers := s.handlers[t := Done], active := if own then None else s.active)
    case Disconnect(t) => s.(closed := s.closed + {t})
  }

  // ----- Runs

  function Prefix(run: seq<Step>): seq<Step>
    requires run != []
  {
    run[..|run| - 1]
  }

  predicate ValidRun(run: seq<Step>)
    decreases |run|, 0
  {
    run == [] || (ValidRun(Prefix(run)) && Enabled(After(Prefix(run)), run[|run| - 1]))
  }

  function After(run: seq<Step>): State
    requires ValidRun(run)
    decreases |run|, 1
  {
    if run == [] then START else Apply(After(Prefix(run)), run[|run| - 1])
  }

  lemma Extend(run: seq<Step>, step: Step) returns (longer: seq<Step>)
    requires ValidRun(run) && Enabled(After(run), step)
    ensures longer == run + [step] && ValidRun(longer) && After(longer) == Apply(After(run), step)
  {
    longer := run + [step];
    assert Prefix(longer) == run;
  }

  // ----- The server as it runs

  /** The slot itself: each method body is one critical section of the mutex. */
  class ActiveSlot {
    var active: Option<Client>

    constructor ()
      ensures active == None
    {
      active := None;
    }

    method Replace(client: Client) returns (previous: Option<Client>)
      modifies this
      ensures previous == old(active) && active == Some(client)
    {
      previous := active;
      active := Some(client);
    }

    method ClearIfOwn(id: nat)
      modifies this
      ensures active == if old(active).Some? && old(active).value.id == id then None else old(active)
    {
      var shouldClear := active.Some? && active.value.id == id;
      if shouldClear {
        active := None;
      }
    }
  }

  lemma NextIdStep(taken: nat)
    ensures NextId(taken + 1) == (NextId(taken) + 1) % IDS
  {
    var q := (taken + 1) / IDS;
    assert taken + 1 == q * IDS + NextId(taken);
    if NextId(taken) + 1 == IDS {
      assert taken + 2 == (q + 1) * IDS;
    }
  }

  /** What the handlers share, and what each keeps for itself; `run` is all they have done so far. */
  class Server {
    const slot: ActiveSlot
    var nextClientId: nat
    var handlers: map<HandlerId, Phase>
    var closed: set<HandlerId>
    ghost var run: seq<Step>

    // The shared state is where the run leads.
    ghost predicate Valid()
      reads this, slot
    {
      && ValidRun(run) && nextClientId == NextId(After(run).taken)
      && After(run) == State(handlers, slot.active, closed, After(run).taken)
    }

    constructor ()
      ensures Valid() && run == [] && fresh(slot)
    {
      slot := new ActiveSlot();
      nextClientId, handlers, closed, run := 1, map[], {}, [];
    }

    method Perform(step: Step)
      requires Valid() && Enabled(After(run), step)
      modifies this, slot
      ensures Valid() && run == old(run) + [step]
    {
      ghost var longer := Extend(run, step);
      match step {
        case Accept(t) => handlers := handlers[t := Connected];
        case Reject(t) => handlers := handlers[t := Exited(None)];
        case TakeId(t) =>
          NextIdStep(After(run).taken);
          var id := nextClientId;
          nextClientId := (nextClientId + 1) % IDS;
          handlers := handlers[t := Numbered(id)];
        case Swap(t) =>
          var id := handlers[t].id;
          var previous := slot.Replace(Client(id, t));
          handlers := handlers[t := Swapped(id, previous)];
        case ClosePrevious(t) =>
          var previous := handlers[t].previous;
          if previous.Some? {
            closed := closed + {previous.value.handler};
          }
          handlers := handlers[t := Pumping(handlers[t].id)];
        case Exit(t) => handlers := handlers[t := Exited(Some(handlers[t].id))];
        case Cleanup(t) =>
          if handlers[t].clientId.Some? {
            slot.ClearIfOwn(handlers[t].clientId.value);
          }
          handlers := handlers[t := Done];
        case Disconnect(t) => closed := closed + {t};
      }
      run := longer;
    }
  }

  // ----- What holds in every state

  // The id a handler has taken and not finished with.
  function IdOf(p: Phase): Option<nat> {
    match p
    case Numbered(id) => Some(id)
    case Swapped(id, _) => Some(id)
    case Pumping(id) => Some(id)
    case Exited(clientId) => clientId
    case _ => None
  }

  // No two unfinished handlers have the same id.
  ghost predicate IdsUnique(s: State) {
    forall t, u :: IdOf(PhaseOf(s, t)).Some? && IdOf(PhaseOf(s, t)) == IdOf(PhaseOf(s, u)) ==> t == u
  }

  // The id that is handed out next is not one a handler still has.
  ghost predicate NextIdFree(s: State) {
    forall t :: IdOf(PhaseOf(s, t)) != Some(NextId(s.taken))
  }

  // Every id of the run was free when it was handed out.
  ghost predicate FreshIds(run: seq<Step>)
    requires ValidRun(run)
    decreases |run|
  {
    run == [] || (FreshIds(Prefix(run)) && (run[|run| - 1].TakeId? ==> NextIdFree(After(Prefix(run)))))
  }

  // u has displaced t and not closed it yet.
  predicate Holds(s: State, u: HandlerId, t: HandlerId) {
    PhaseOf(s, u).Swapped? && PhaseOf(s, u).previous.Some? && PhaseOf(s, u).previous.value.handler == t
  }

  predicate InSlot(s: State, t: HandlerId) {
    s.active.Some? && s.active.value.handler == t
  }

  predicate HasSwapped(p: Phase) {
    p.Swapped? || p.Pumping? || (p.Exited? && p.clientId.Some?) || p.Done?
  }

  // The slot and the displaced entries name each connection at most once, and only ones that have swapped.
  ghost predicate OwnedOnce(s: State) {
    && (forall t :: InSlot(s, t) ==> HasSwapped(PhaseOf(s, t)) && IdOf(PhaseOf(s, t)) == Some(s.active.value.id))
    && (forall u, t :: Holds(s, u, t) ==> t in s.handlers && HasSwapped(PhaseOf(s, t)) && !InSlot(s, t))
    && (forall u, v, t :: Holds(s, u, t) && Holds(s, v, t) ==> u == v)
  }

  // A registered client whose handler runs and whose connection is open.
  predicate Live(s: State, t: HandlerId) {
    (PhaseOf(s, t).Swapped? || PhaseOf(s, t).Pumping?) && t !in s.closed
  }

  ghost predicate LiveOwned(s: State) {
    forall t :: Live(s, t) ==> InSlot(s, t) || exists u :: Holds(s, u, t)
  }

  ghost predicate Invariant(s: State) {
    IdsUnique(s) && OwnedOnce(s) && LiveOwned(s)
  }

  lemma IdAfterStep(s: State, step: Step, t: HandlerId)
    requires Enabled(s, step)
    ensures var id, id' := IdOf(PhaseOf(s, t)), IdOf(PhaseOf(Apply(s, step), t));
            id' == None || id' == id || (step == TakeId(t) && id' == Some(NextId(s.taken)))
  {
  }

  lemma IdsStayUnique(s: State, step: Step)
    requires IdsUnique(s) && Enabled(s, step) && (step.TakeId? ==> NextIdFree(s))
    ensures IdsUnique(Apply(s, step))
  {
    var s' := Apply(s, step);
    forall t, u | IdOf(PhaseOf(s', t)).Some? && IdOf(PhaseOf(s', t)) == IdOf(PhaseOf(s', u)) ensures t == u {
      IdAfterStep(s, step, t);
      IdAfterStep(s, step, u);
    }
  }

  lemma OwnedStaysOnce(s: State, step: Step)
    requires IdsUnique(s) && OwnedOnce(s) && Enabled(s, step)
    ensures OwnedOnce(Apply(s, step))
  {
    var s' := Apply(s, step);
    forall t | InSlot(s', t) ensures HasSwapped(PhaseOf(s', t)) && IdOf(PhaseOf(s', t)) == Some(s'.active.value.id) {
      assert InSlot(s, t) || step == Swap(t);
      assert t == step.handler || PhaseOf(s', t) == PhaseOf(s, t);
    }
    forall u, t | Holds(s', u, t) ensures t in s'.handlers && HasSwapped(PhaseOf(s', t)) && !InSlot(s', t) {
      assert Holds(s, u, t) || InSlot(s, t);
    }
    forall u, v, t | Holds(s', u, t) && Holds(s', v, t) ensures u == v {
      assert Holds(s, u, t) || InSlot(s, t);
      assert Holds(s, v, t) || InSlot(s, t);
    }
  }

  lemma LiveStaysOwned(s: State, step: Step)
    requires Invariant(s) && Enabled(s, step)
    ensures LiveOwned(Apply(s, step))
  {
    var s' := Apply(s, step);
    forall t | Live(s', t) && !InSlot(s', t) ensures exists u :: Holds(s', u, t) {
      if step.Swap? && InSlot(s, t) {
        assert Holds(s', step.handler, t);
      } else {
        assert Live(s, t);
        var u :| Holds(s, u, t);
        assert Holds(s', u, t);
      }
    }
  }

  /** Every interleaving keeps the invariant as long as no id is handed out that a handler still has. */
  lemma {:induction false} EveryRunInvariant(run: seq<Step>)
    requires ValidRun(run) && FreshIds(run)
    ensures Invariant(After(run))
  {
    if run != [] {
      var s, step := After(Prefix(run)), run[|run| - 1];
      EveryRunInvariant(Prefix(run));
      IdsStayUnique(s, step);
      OwnedStaysOnce(s, step);
      LiveStaysOwned(s, step);
    }
  }

  // ----- When ids are fresh

  // The position of an id in the order in which ids are taken, before the counter wraps around.
  function Ordinal(id: nat): int {
    if id == 0 then IDS - 1 else id - 1
  }

  ghost predicate IdsTaken(s: State) {
    forall t :: IdOf(PhaseOf(s, t)).Some? ==> 0 <= Ordinal(IdOf(PhaseOf(s, t)).value) < s.taken
  }

  lemma OrdinalOfNext(taken: nat)
    requires taken < IDS
    ensures Ordinal(NextId(taken)) == taken
  {
    assert NextId(taken) == if taken + 1 == IDS then 0 else taken + 1;
  }

  /** The first 2^64 ids are fresh in every run. */
  lemma {:induction false} FirstIdsAreFresh(run: seq<Step>)
    requires ValidRun(run) && After(run).taken <= IDS
    ensures FreshIds(run) && IdsTaken(After(run))
  {
    if run != [] {
      var s, step := After(Prefix(run)), run[|run| - 1];
      FirstIdsAreFresh(Prefix(run));
      if step.TakeId? {
        OrdinalOfNext(s.taken);
      }
      forall t | IdOf(PhaseOf(After(run), t)).Some?
        ensures 0 <= Ordinal(IdOf(PhaseOf(After(run), t)).value) < After(run).taken
      {
        IdAfterStep(s, step, t);
      }
    }
  }

  // The run goes on without taking another id.
  predicate Continues(run: seq<Step>, longer: seq<Step>) {
    run <= longer && forall i :: |run| <= i < |longer| ==> !longer[i].TakeId?
  }

  // The cleanup of t would clear an entry that is not its own.
  predicate Steals(run: seq<Step>, t: HandlerId)
    requires ValidRun(run)
  {
    var s := After(run);
    Enabled(s, Cleanup(t)) && s.active.Some? && !InSlot(s, t) && Apply(s, Cleanup(t)).active == None
  }

  ghost predicate NeverSteals(run: seq<Step>) {
    forall longer, t | ValidRun(longer) && Continues(run, longer) :: !Steals(longer, t)
  }

  lemma {:induction false} FreshContinues(run: seq<Step>, longer: seq<Step>)
    requires ValidRun(run) && FreshIds(run) && ValidRun(longer) && Continues(run, longer)
    ensures FreshIds(longer)
    decreases |longer|
  {
    if |longer| > |run| {
      FreshContinues(run, Prefix(longer));
    } else {
      assert longer == run;
    }
  }

  lemma {:induction false} FreshPrefix(run: seq<Step>, k: nat)
    requires ValidRun(run) && FreshIds(run) && k <= |run|
    ensures ValidRun(run[..k]) && FreshIds(run[..k])
  {
    if k < |run| {
      FreshPrefix(Prefix(run), k);
      assert Prefix(run)[..k] == run[..k];
    } else {
      assert run[..k] == run;
    }
  }

  // A handler's cleanup and all it still has to do before it.
  lemma Finish(run: seq<Step>, t: HandlerId, u: HandlerId) returns (longer: seq<Step>)
    requires ValidRun(run) && IdOf(PhaseOf(After(run), t)).Some? && t != u
    ensures ValidRun(longer) && Continues(run, longer)
    ensures PhaseOf(After(longer), t) == Exited(IdOf(PhaseOf(After(run), t)))
    ensures PhaseOf(After(longer), u) == PhaseOf(After(run), u)
  {
    longer := run;
    if PhaseOf(After(longer), t).Numbered? {
      longer := Extend(longer, Swap(t));
    }
    if PhaseOf(After(longer), t).Swapped? {
      longer := Extend(longer, ClosePrevious(t));
    }
    if PhaseOf(After(longer), t).Pumping? {
      longer := Extend(longer, Exit(t));
    }
  }

  // Two handlers with one id, one of which has yet to swap: the other finishes first and then clears its entry.
  lemma SharedIdSteals(run: seq<Step>, t: HandlerId, u: HandlerId) returns (longer: seq<Step>)
    requires ValidRun(run) && t != u && PhaseOf(After(run), u).Numbered?
    requires IdOf(PhaseOf(After(run), t)) == Some(PhaseOf(After(run), u).id)
    ensures ValidRun(longer) && Continues(run, longer) && Steals(longer, t)
  {
    longer := Finish(run, t, u);
    longer := Extend(longer, Swap(u));
  }

  lemma {:induction false} ReuseSteals(run: seq<Step>) returns (k: nat, longer: seq<Step>, t: HandlerId)
    requires ValidRun(run) && !FreshIds(run)
    ensures k <= |run| && ValidRun(longer) && Continues(run[..k], longer) && Steals(longer, t)
  {
    if !FreshIds(Prefix(run)) {
      k, longer, t := ReuseSteals(Prefix(run));
      assert Prefix(run)[..k] == run[..k];
    } else {
      var s, u := After(Prefix(run)), run[|run| - 1].handler;
      t :| IdOf(PhaseOf(s, t)) == Some(NextId(s.taken));
      assert PhaseOf(After(run), u) == Numbered(NextId(s.taken)) && PhaseOf(After(run), t) == PhaseOf(s, t);
      k := |run|;
      longer := SharedIdSteals(run, t, u);
      assert run[..k] == run;
    }
  }

  /**
   Fresh ids are exactly what the handover needs: all ids of a run were free when handed out if and only if from no
   point of the run on, without another id being taken, a cleanup can clear an entry that is not its own.
   */
  lemma FreshIdsIffNeverSteals(run: seq<Step>)
    requires ValidRun(run)
    ensures FreshIds(run) <==> forall k | 0 <= k <= |run| :: NeverSteals(run[..k])
  {
    if FreshIds(run) {
      forall k | 0 <= k <= |run| ensures NeverSteals(run[..k]) {
        FreshPrefix(run, k);
        forall longer, t | ValidRun(longer) && Continues(run[..k], longer) ensures !Steals(longer, t) {
          FreshContinues(run[..k], longer);
          if Enabled(After(longer), Cleanup(t)) {
            CleanupClearsOnlyOwn(longer, t);
          }
        }
      }
    } else {
      var k, longer, t := ReuseSteals(run);
      assert !NeverSteals(run[..k]);
    }
  }

  // ----- Main results

  /** A live client is in the slot or held by exactly one handler that is about to close it, never both. */
  lemma LiveClientHasOneOwner(run: seq<Step>, t: HandlerId)
    requires ValidRun(run) && FreshIds(run) && Live(After(run), t)
    ensures var s := After(run);
            if InSlot(s, t) then forall u :: !Holds(s, u, t)
            else exists u :: Holds(s, u, t) && forall v :: Holds(s, v, t) ==> v == u
  {
    EveryRunInvariant(run);
    if !InSlot(After(run), t) {
      var u :| Holds(After(run), u, t);
      assert forall v :: Holds(After(run), v, t) ==> v == u;
    }
  }

  function LiveHandlers(s: State): set<HandlerId> {
    set t | t in s.handlers && Live(s, t)
  }

  // The handlers between their swap and the close of whom they displaced.
  function PendingClosers(s: State): set<HandlerId> {
    set u | u in s.handlers && PhaseOf(s, u).Swapped? && PhaseOf(s, u).previous.Some?
  }

  function Displaced(s: State, closers: set<HandlerId>): set<HandlerId>
    requires closers <= PendingClosers(s)
  {
    set u | u in closers :: PhaseOf(s, u).previous.value.handler
  }

  lemma {:induction false} DisplacedNoMore(s: State, closers: set<HandlerId>)
    requires closers <= PendingClosers(s)
    ensures |Displaced(s, closers)| <= |closers|
    decreases |closers|
  {
    if closers != {} {
      var u :| u in closers;
      var fewer := closers - {u};
      DisplacedNoMore(s, fewer);
      assert Displaced(s, closers) == Displaced(s, fewer) + {PhaseOf(s, u).previous.value.handler};
    }
  }

  lemma SubsetNoLarger(a: set<HandlerId>, b: set<HandlerId>)
    requires a <= b
    ensures |a| <= |b|
  {
    assert b == a + (b - a);
  }

  /** At most one live client, plus one per handler that has yet to close the client it displaced. */
  lemma LiveClientsBounded(run: seq<Step>)
    requires ValidRun(run) && FreshIds(run)
    ensures var s := After(run);
            && |LiveHandlers(s)| <= |PendingClosers(s)| + (if s.active.Some? then 1 else 0)
            && (PendingClosers(s) == {} ==> |LiveHandlers(s)| <= 1 && forall t :: Live(s, t) ==> InSlot(s, t))
  {
    var s := After(run);
    EveryRunInvariant(run);
    var slot := if s.active.Some? then {s.active.value.handler} else {};
    var displaced := Displaced(s, PendingClosers(s));
    forall t | t in LiveHandlers(s) ensures t in slot + displaced {
      if !InSlot(s, t) {
        var u :| Holds(s, u, t);
        assert u in PendingClosers(s);
      }
    }
    SubsetNoLarger(LiveHandlers(s), slot + displaced);
    DisplacedNoMore(s, PendingClosers(s));
    assert PendingClosers(s) == {} ==> forall u, t :: Holds(s, u, t) ==> u in PendingClosers(s);
  }

  /** The slot names a handler that has swapped in and not cleaned up; when every handler is done it is empty. */
  lemma SlotNeverLeaks(run: seq<Step>)
    requires ValidRun(run) && FreshIds(run)
    ensures var s := After(run);
            && (s.active.Some? ==>
                  var p := PhaseOf(s, s.active.value.handler);
                  && (p.Swapped? || p.Pumping? || p.Exited?) && IdOf(p) == Some(s.active.value.id))
            && ((forall t :: PhaseOf(s, t).Done?) ==> s.active == None)
  {
    EveryRunInvariant(run);
    var s := After(run);
    assert s.active.Some? ==> InSlot(s, s.active.value.handler);
  }

  /** A cleanup clears exactly its own entry. */
  lemma CleanupClearsOnlyOwn(run: seq<Step>, t: HandlerId)
    requires ValidRun(run) && FreshIds(run) && Enabled(After(run), Cleanup(t))
    ensures var s, s' := After(run), Apply(After(run), Cleanup(t));
            s'.active == if InSlot(s, t) then None else s.active
  {
    EveryRunInvariant(run);
    var s := After(run);
    if s.active.Some? {
      assert InSlot(s, s.active.value.handler);
    }
  }

  // The last handler to take the lock and swap itself in.
  function LastSwapper(run: seq<Step>): Option<HandlerId> {
    if run == [] then None
    else if run[|run| - 1].Swap? then Some(run[|run| - 1].handler)
    else LastSwapper(Prefix(run))
  }

  /** The last handler to swap wins the slot, whatever its id, and keeps it until its own cleanup. */
  lemma {:induction false} LastSwapWins(run: seq<Step>)
    requires ValidRun(run) && FreshIds(run)
    ensures var s := After(run);
            match LastSwapper(run)
            case None => s.active == None
            case Some(t) =>
              && t in s.handlers && HasSwapped(PhaseOf(s, t))
              && (if PhaseOf(s, t).Done? then s.active == None else InSlot(s, t))
  {
    if run != [] {
      LastSwapWins(Prefix(run));
      EveryRunInvariant(Prefix(run));
      if run[|run| - 1].Cleanup? {
        CleanupClearsOnlyOwn(Prefix(run), run[|run| - 1].handler);
      }
    }
  }

  // ----- What a handler may do, and which connections the server closes, told by the actions alone

  // How far a handler has come.
  datatype Stage = NotAccepted | Accepted | HasId | HasLock | ServesTunnel | Left(clientId: bool) | CleanedUp

  function StageOf(run: seq<Step>, t: HandlerId): Stage {
    if Cleanup(t) in run then CleanedUp
    else if Exit(t) in run then Left(true)
    else if Reject(t) in run then Left(false)
    else if ClosePrevious(t) in run then ServesTunnel
    else if Swap(t) in run then HasLock
    else if TakeId(t) in run then HasId
    else if Accept(t) in run then Accepted
    else NotAccepted
  }

  predicate InStage(s: State, t: HandlerId, stage: Stage) {
    match stage
    case NotAccepted => t !in s.handlers
    case Accepted => t in s.handlers && s.handlers[t].Connected?
    case HasId => t in s.handlers && s.handlers[t].Numbered?
    case HasLock => t in s.handlers && s.handlers[t].Swapped?
    case ServesTunnel => t in s.handlers && s.handlers[t].Pumping?
    case Left(hasId) => t in s.handlers && s.handlers[t].Exited? && s.handlers[t].clientId.Some? == hasId
    case CleanedUp => t in s.handlers && s.handlers[t].Done?
  }

  // A handler's actions come in one order and each at most once.
  ghost predicate InOrder(run: seq<Step>, t: HandlerId) {
    && (Cleanup(t) in run ==> Exit(t) in run || Reject(t) in run)
    && (Exit(t) in run ==> ClosePrevious(t) in run)
    && (ClosePrevious(t) in run ==> Swap(t) in run)
    && (Swap(t) in run ==> TakeId(t) in run)
    && (TakeId(t) in run ==> Accept(t) in run && Reject(t) !in run)
    && (Reject(t) in run ==> Accept(t) in run)
  }

  lemma LastIn(run: seq<Step>, step: Step)
    requires run != []
    ensures step in run <==> step == run[|run| - 1] || step in Prefix(run)
  {
    assert run == Prefix(run) + [run[|run| - 1]];
  }

  lemma LastIsIn(run: seq<Step>, t: HandlerId)
    requires run != []
    ensures forall step: Step | step.handler == t :: step in run <==> step == run[|run| - 1] || step in Prefix(run)
  {
    assert run == Prefix(run) + [run[|run| - 1]];
  }

  /** In every run a handler stands where its own actions have brought it. */
  lemma {:induction false} StandsByItsActions(run: seq<Step>, t: HandlerId)
    requires ValidRun(run)
    ensures InStage(After(run), t, StageOf(run, t)) && InOrder(run, t)
  {
    if run != [] {
      var s, step := After(Prefix(run)), run[|run| - 1];
      StandsByItsActions(Prefix(run), t);
      LastIsIn(run, t);
      if step.handler != t {
        assert StageOf(run, t) == StageOf(Prefix(run), t);
      }
    }
  }

  /** An action is possible exactly after those that come before it and once. */
  lemma EnabledIffNext(run: seq<Step>, step: Step)
    requires ValidRun(run)
    ensures var t := step.handler;
            Enabled(After(run), step)
            <==> match step
                 case Accept(_) => Accept(t) !in run
                 case Reject(_) => Accept(t) in run && Reject(t) !in run && TakeId(t) !in run
                 case TakeId(_) => Accept(t) in run && Reject(t) !in run && TakeId(t) !in run
                 case Swap(_) => TakeId(t) in run && Swap(t) !in run
                 case ClosePrevious(_) => Swap(t) in run && ClosePrevious(t) !in run
                 case Exit(_) => ClosePrevious(t) in run && Exit(t) !in run
                 case Cleanup(_) => (Exit(t) in run || Reject(t) in run) && Cleanup(t) !in run
                 case Disconnect(_) => Accept(t) in run
  {
    StandsByItsActions(run, step.handler);
  }

  // The handler that was last to take the lock before u did, unless it had cleaned up by then.
  function DisplacedBy(run: seq<Step>, u: HandlerId): Option<HandlerId> {
    if run == [] then None
    else if run[|run| - 1] != Swap(u) then DisplacedBy(Prefix(run), u)
    else
      match LastSwapper(Prefix(run))
      case None => None
      case Some(t) => if Cleanup(t) in Prefix(run) then None else Some(t)
  }

  lemma {:induction false} NotYetDisplacing(run: seq<Step>, u: HandlerId)
    requires Swap(u) !in run
    ensures DisplacedBy(run, u) == None
  {
    if run != [] {
      LastIn(run, Swap(u));
      NotYetDisplacing(Prefix(run), u);
    }
  }

  // Whom the slot names is the last to swap, until its cleanup.
  lemma SlotIsLastSwapper(run: seq<Step>)
    requires ValidRun(run) && FreshIds(run)
    ensures match LastSwapper(run)
            case None => After(run).active == None
            case Some(t) => if Cleanup(t) in run then After(run).active == None else InSlot(After(run), t)
  {
    LastSwapWins(run);
    if LastSwapper(run).Some? {
      StandsByItsActions(run, LastSwapper(run).value);
    }
  }

  lemma {:induction false} PreviousIsDisplaced(run: seq<Step>, u: HandlerId)
    requires ValidRun(run) && FreshIds(run) && PhaseOf(After(run), u).Swapped?
    ensures var previous := PhaseOf(After(run), u).previous;
            DisplacedBy(run, u) == if previous.Some? then Some(previous.value.handler) else None
  {
    if run[|run| - 1] == Swap(u) {
      SlotIsLastSwapper(Prefix(run));
    } else {
      PreviousIsDisplaced(Prefix(run), u);
    }
  }

  // The peer or the network closed t, or a handler that displaced t did.
  ghost predicate ClosedFor(run: seq<Step>, t: HandlerId) {
    Disconnect(t) in run || exists u :: ClosePrevious(u) in run && DisplacedBy(run, u) == Some(t)
  }

  lemma ClosedForStep(run: seq<Step>, t: HandlerId)
    requires ValidRun(run) && run != []
    ensures var step := run[|run| - 1];
            ClosedFor(run, t)
            <==> ClosedFor(Prefix(run), t) || step == Disconnect(t)
                 || (step.ClosePrevious? && DisplacedBy(run, step.handler) == Some(t))
  {
    var step := run[|run| - 1];
    LastIn(run, Disconnect(t));
    forall u ensures ClosePrevious(u) in run <==> step == ClosePrevious(u) || ClosePrevious(u) in Prefix(run) {
      LastIn(run, ClosePrevious(u));
    }
    if step.Swap? {
      StandsByItsActions(Prefix(run), step.handler);
      assert ClosePrevious(step.handler) !in Prefix(run);
    }
    assert forall u :: ClosePrevious(u) in Prefix(run) ==> DisplacedBy(run, u) == DisplacedBy(Prefix(run), u);
  }

  /** In every run, a connection is closed if and only if it disconnected or the handler that displaced it closed it. */
  lemma {:induction false} ClosedIff(run: seq<Step>, t: HandlerId)
    requires ValidRun(run) && FreshIds(run)
    ensures t in After(run).closed <==> ClosedFor(run, t)
  {
    if run != [] {
      var step := run[|run| - 1];
      ClosedIff(Prefix(run), t);
      ClosedForStep(run, t);
      if step.ClosePrevious? {
        PreviousIsDisplaced(Prefix(run), step.handler);
      }
    }
  }

  lemma {:induction false} DisplacedLosesSlot(run: seq<Step>, u: HandlerId, t: HandlerId)
    requires ValidRun(run) && FreshIds(run) && DisplacedBy(run, u) == Some(t)
    ensures !InSlot(After(run), t) && Swap(t) in run
  {
    var step, s := run[|run| - 1], After(Prefix(run));
    LastIn(run, Swap(t));
    if step == Swap(u) {
      SlotIsLastSwapper(Prefix(run));
      LastSwapWins(Prefix(run));
      StandsByItsActions(Prefix(run), t);
      assert HasSwapped(PhaseOf(s, t)) && PhaseOf(s, u).Numbered?;
    } else {
      DisplacedLosesSlot(Prefix(run), u, t);
      StandsByItsActions(Prefix(run), t);
    }
  }

  /** The client in the slot is never closed by the server. */
  lemma SlotClosedOnlyByPeer(run: seq<Step>, t: HandlerId)
    requires ValidRun(run) && FreshIds(run) && InSlot(After(run), t)
    ensures t in After(run).closed <==> Disconnect(t) in run
  {
    ClosedIff(run, t);
    if Disconnect(t) !in run && ClosedFor(run, t) {
      var u :| ClosePrevious(u) in run && DisplacedBy(run, u) == Some(t);
      DisplacedLosesSlot(run, u, t);
    }
  }

  lemma TwoNumbered() returns (run: seq<Step>)
    ensures run == [Accept(0), Accept(1), TakeId(0), TakeId(1)] && ValidRun(run)
    ensures After(run) == State(map[0 := Numbered(1), 1 := Numbered(2)], None, {}, 2)
  {
    run := Extend([], Accept(0));
    run := Extend(run, Accept(1));
    run := Extend(run, TakeId(0));
    run := Extend(run, TakeId(1));
  }

  /** Ids are taken before the lock: the client with id 1 locks last, displaces the one with id 2 and closes it. */
  lemma LowerIdCanDisplaceHigher() returns (run: seq<Step>)
    ensures run == [Accept(0), Accept(1), TakeId(0), TakeId(1), Swap(1), Swap(0), ClosePrevious(0)] && ValidRun(run)
    ensures var s := After(run);
            s.active == Some(Client(1, 0)) && PhaseOf(s, 1) == Swapped(2, None) && s.closed == {1}
  {
    run := TwoNumbered();
    run := Extend(run, Swap(1));
    run := Extend(run, Swap(0));
    run := Extend(run, ClosePrevious(0));
  }

  // Handler 0 has left its pumps but not cleaned up, while handlers 1 to n have taken ids.
  function Crowd(n: nat): State {
    State(map t: nat | t <= n :: if t == 0 then Exited(Some(1)) else Numbered(NextId(t)), Some(Client(1, 0)), {}, n + 1)
  }

  lemma {:induction false} CrowdIsReachable(n: nat) returns (run: seq<Step>)
    ensures ValidRun(run) && After(run) == Crowd(n)
  {
    if n == 0 {
      run := Extend([], Accept(0));
      run := Extend(run, TakeId(0));
      run := Extend(run, Swap(0));
      run := Extend(run, ClosePrevious(0));
      run := Extend(run, Exit(0));
      assert After(run).handlers == Crowd(0).handlers;
    } else {
      run := CrowdIsReachable(n - 1);
      run := Extend(run, Accept(n));
      run := Extend(run, TakeId(n));
      assert After(run).handlers == Crowd(n).handlers;
    }
  }

  // A handler that has left its pumps evicts one that takes the lock with the same id.
  lemma EvictLive(run: seq<Step>, t: HandlerId, u: HandlerId) returns (longer: seq<Step>)
    requires ValidRun(run) && t != u && u !in After(run).closed && forall v :: !PhaseOf(After(run), v).Swapped?
    requires PhaseOf(After(run), u).Numbered? && PhaseOf(After(run), t) == Exited(Some(PhaseOf(After(run), u).id))
    requires !InSlot(After(run), u)
    ensures ValidRun(longer) && After(longer).taken == After(run).taken
    ensures var s := After(longer); Live(s, u) && s.active == None && forall v :: !Holds(s, v, u)
  {
    longer := Extend(run, Swap(u));
    longer := Extend(longer, ClosePrevious(u));
    longer := Extend(longer, Cleanup(t));
    forall v ensures !Holds(After(longer), v, u) {
      assert !PhaseOf(After(run), v).Swapped?;
    }
  }

  /** With one id more than 64 bits hold, a late cleanup evicts a live client from the slot. */
  lemma WrappedIdEvictsLiveClient() returns (run: seq<Step>)
    ensures ValidRun(run) && After(run).taken == IDS + 1
    ensures Live(After(run), IDS) && After(run).active == None && forall u :: !Holds(After(run), u, IDS)
  {
    run := CrowdIsReachable(IDS - 1);
    run := Extend(run, Accept(IDS));
    run := Extend(run, TakeId(IDS));
    assert NextId(IDS) == 1;
    assert After(run).handlers == Crowd(IDS - 1).handlers[IDS := Numbered(1)];
    run := EvictLive(run, 0, IDS);
  }
}
