/**
  The collector's bounded FIFO (acd-onprem-collector/src/backpressure-queue.ts).

  The drain loop is asynchronous: it suspends at `await process(item)` and at the
  backoff timer, and `enqueue` and `stop` may run in between.  Each method below is
  the code between two suspension points.  A suspended drain loop is a value of type
  `Loop`; nothing in the model limits how many there are, so "one loop at a time" is
  a theorem about `draining`, not an assumption.
 */
module BackpressureQueue {
  import opened Basics

  const DEFAULT_MAX_DEGRADED_RETRIES := 5

  datatype Config = Config(capacity: int, maxDegradedRetries: Option<int>) {
    function Retries(): int {
      if maxDegradedRetries.None? then DEFAULT_MAX_DEGRADED_RETRIES else maxDegradedRetries.value
    }

    /** The number of degraded retries one item can really get: a negative setting means none. */
    function RetryBound(): nat {
      if Retries() < 0 then 0 else Retries()
    }
  }

  /** How one call of `process` ends. */
  datatype Outcome = Succeeded | Failed | Degraded

  /** Why an item left the queue. */
  datatype Fate = Delivered | Errored | GivenUp

  /** What an observer of the callbacks and return values sees, in order. */
  datatype Observation<T> =
    | Accepted(item: T)
    | QueueFull(item: T)
    | Attempt(item: T)
    | Settled(item: T, fate: Fate)
    | BackingOff(attempt: nat)
    | Stopped

  /** A suspended drain loop: the item it holds, `degradedAttempt`, and where it waits. */
  datatype Loop<T> = Processing(item: T, attempt: nat) | Sleeping(item: T, attempt: nat)

  datatype State<T> = State(
    queue: seq<T>, draining: bool, stopped: bool, loops: seq<Loop<T>>, log: seq<Observation<T>>)

  function Initial<T>(): State<T> {
    State([], false, false, [], [])
  }

  // ----- The code between two suspension points, on values -----

  function Note<T>(s: State<T>, o: Observation<T>): State<T> {
    s.(log := s.log + [o])
  }

  /** The head of the `while`: start on the queue's first item, or end the loop. */
  function LoopTop<T>(s: State<T>): State<T> {
    if !s.stopped && |s.queue| > 0 then
      Note(s.(loops := s.loops + [Processing(s.queue[0], 0)]), Attempt(s.queue[0]))
    else
      s.(draining := false)
  }

  function Kick<T>(s: State<T>): State<T> {
    if s.draining then s else LoopTop(s.(draining := true))
  }

  function AfterEnqueue<T>(c: Config, s: State<T>, item: T): State<T> {
    if s.stopped then s
    else if |s.queue| >= c.capacity then Note(s, QueueFull(item))
    else Kick(Note(s.(queue := s.queue + [item]), Accepted(item)))
  }

  function AfterStop<T>(s: State<T>): State<T> {
    Note(s.(stopped := true), Stopped)
  }

  /** `queue.shift()`, which leaves an empty array alone, on behalf of the loop that held `item`. */
  function Shift<T>(s: State<T>, item: T, fate: Fate): State<T> {
    Note(s.(queue := if s.queue == [] then [] else s.queue[1..]), Settled(item, fate))
  }

  function AfterProcess<T>(c: Config, s: State<T>, i: nat, outcome: Outcome): State<T>
    requires i < |s.loops| && s.loops[i].Processing?
  {
    var Processing(item, attempt) := s.loops[i];
    var s := s.(loops := Without(s.loops, i));
    match outcome
    case Succeeded => LoopTop(Shift(s, item, Delivered))
    case Failed => LoopTop(Shift(s, item, Errored))
    case Degraded =>
      if attempt >= c.Retries() then LoopTop(Shift(s, item, GivenUp))
      else Note(s.(loops := s.loops + [Sleeping(item, attempt + 1)]), BackingOff(attempt))
  }

  function AfterTimer<T>(s: State<T>, i: nat): State<T>
    requires i < |s.loops| && s.loops[i].Sleeping?
  {
    var Sleeping(item, attempt) := s.loops[i];
    var s := s.(loops := Without(s.loops, i));
    if s.stopped then s
    else Note(s.(loops := s.loops + [Processing(item, attempt)]), Attempt(item))
  }

  // ----- The object -----

  class Queue<T> {
    const config: Config
    var queue: seq<T>
    var draining: bool
    var stopped: bool
    var loops: seq<Loop<T>>
    var log: seq<Observation<T>>

    function Snapshot(): State<T>
      reads this
    {
      State(queue, draining, stopped, loops, log)
    }

    constructor (config: Config)
      ensures this.config == config && Snapshot() == Initial()
    {
      this.config := config;
      queue, draining, stopped, loops, log := [], false, false, [], [];
    }

    method Enqueue(item: T) returns (accepted: bool)
      modifies this
      ensures Snapshot() == AfterEnqueue(config, old(Snapshot()), item)
      ensures accepted <==> !old(stopped) && |old(queue)| < config.capacity
      ensures AcceptedItems(log) == AcceptedItems(old(log)) + if accepted then [item] else []
      ensures SettledItems(log) == SettledItems(old(log)) && queue == old(queue) + if accepted then [item] else []
      ensures !accepted ==> log == old(log) + if old(stopped) then [] else [QueueFull(item)]
    {
      EnqueueAccepts(config, Snapshot(), item);
      if stopped {
        return false;
      }
      if |queue| >= config.capacity {
        log := log + [QueueFull(item)];
        return false;
      }
      queue := queue + [item];
      log := log + [Accepted(item)];
      StartDraining();
      return true;
    }

    method Stop()
      modifies this
      ensures Snapshot() == AfterStop(old(Snapshot()))
    {
      stopped := true;
      log := log + [Stopped];
    }

    method StartDraining()
      modifies this
      ensures Snapshot() == Kick(old(Snapshot()))
    {
      if draining {
        return;
      }
      draining := true;
      RunToSuspension();
    }

    method RunToSuspension()
      modifies this
      ensures Snapshot() == LoopTop(old(Snapshot()))
    {
      if !stopped && |queue| > 0 {
        loops := loops + [Processing(queue[0], 0)];
        log := log + [Attempt(queue[0])];
      } else {
        draining := false;
      }
    }

    method Settle(item: T, fate: Fate)
      modifies this
      ensures Snapshot() == LoopTop(Shift(old(Snapshot()), item, fate))
    {
      if |queue| > 0 {
        queue := queue[1..];
      }
      log := log + [Settled(item, fate)];
      RunToSuspension();
    }

    method OnProcessSettled(i: nat, outcome: Outcome)
      requires i < |loops| && loops[i].Processing?
      modifies this
      ensures Snapshot() == AfterProcess(config, old(Snapshot()), i, outcome)
    {
      var Processing(item, attempt) := loops[i];
      loops := Without(loops, i);
      match outcome {
        case Succeeded => Settle(item, Delivered);
        case Failed => Settle(item, Errored);
        case Degraded =>
          if attempt >= config.Retries() {
            Settle(item, GivenUp);
          } else {
            log := log + [BackingOff(attempt)];
            loops := loops + [Sleeping(item, attempt + 1)];
          }
      }
    }

    method OnTimer(i: nat)
      requires i < |loops| && loops[i].Sleeping?
      modifies this
      ensures Snapshot() == AfterTimer(old(Snapshot()), i)
    {
      var Sleeping(item, attempt) := loops[i];
      loops := Without(loops, i);
      if !stopped {
        loops := loops + [Processing(item, attempt)];
        log := log + [Attempt(item)];
      }
    }
  }

  // ----- Runs: every interleaving -----

  datatype Event<T> =
    | Enqueue(item: T)
    | ProcessSettles(i: nat, outcome: Outcome)
    | TimerFires(i: nat)
    | Stop

  predicate Enabled<T>(s: State<T>, e: Event<T>) {
    match e
    case Enqueue(_) => true
    case ProcessSettles(i, _) => i < |s.loops| && s.loops[i].Processing?
    case TimerFires(i) => i < |s.loops| && s.loops[i].Sleeping?
    case Stop => true
  }

  function Step<T>(c: Config, s: State<T>, e: Event<T>): State<T>
    requires Enabled(s, e)
  {
    match e
    case Enqueue(item) => AfterEnqueue(c, s, item)
    case ProcessSettles(i, outcome) => AfterProcess(c, s, i, outcome)
    case TimerFires(i) => AfterTimer(s, i)
    case Stop => AfterStop(s)
  }

  /** `states` is what the queue goes through when `events` happen in order from `states[0]`. */
  ghost predicate IsRun<T>(c: Config, states: seq<State<T>>, events: seq<Event<T>>) {
    && |states| == |events| + 1
    && forall i {:trigger events[i]} :: 0 <= i < |events| ==>
         Enabled(states[i], events[i]) && states[i + 1] == Step(c, states[i], events[i])
  }

  ghost predicate Reachable<T(!new)>(c: Config, s: State<T>) {
    exists states, events :: IsRun(c, states, events) && states[0] == Initial() && s == states[|events|]
  }

  // ----- Readings of the log -----

  function AcceptedItems<T>(log: seq<Observation<T>>): seq<T> {
    if log == [] then []
    else
      var rest := AcceptedItems(log[..|log| - 1]);
      var o := log[|log| - 1];
      if o.Accepted? then rest + [o.item] else rest
  }

  function SettledItems<T>(log: seq<Observation<T>>): seq<T> {
    if log == [] then []
    else
      var rest := SettledItems(log[..|log| - 1]);
      var o := log[|log| - 1];
      if o.Settled? then rest + [o.item] else rest
  }

  /** How often `process` was called while exactly `k` items had been settled. */
  function AttemptsOn<T>(log: seq<Observation<T>>, k: nat): nat {
    if log == [] then 0
    else
      var before := log[..|log| - 1];
      AttemptsOn(before, k) + if log[|log| - 1].Attempt? && |SettledItems(before)| == k then 1 else 0
  }

  /** Every call of `process` was for the oldest item accepted and not yet settled. */
  ghost predicate AttemptsTakeTheOldest<T>(log: seq<Observation<T>>) {
    forall i :: 0 <= i < |log| && log[i].Attempt? ==>
      var k := |SettledItems(log[..i])|;
      k < |AcceptedItems(log[..i])| && log[i].item == AcceptedItems(log[..i])[k]
  }

  ghost predicate NoAttemptAfterStop<T>(log: seq<Observation<T>>) {
    forall i, j :: 0 <= i < j < |log| && log[i].Stopped? ==> !log[j].Attempt?
  }

  /** An item is given up on only once it has had every attempt it is entitled to. */
  ghost predicate GivesUpOnlyWhenExhausted<T>(c: Config, log: seq<Observation<T>>) {
    forall i :: 0 <= i < |log| && log[i].Settled? && log[i].fate.GivenUp? ==>
      AttemptsOn(log[..i], |SettledItems(log[..i])|) == c.RetryBound() + 1
  }

  // ----- The invariant -----

  /** What holds of every log the queue produces. */
  ghost predicate WellBehaved<T>(c: Config, log: seq<Observation<T>>) {
    && AttemptsTakeTheOldest(log)
    && NoAttemptAfterStop(log)
    && GivesUpOnlyWhenExhausted(c, log)
    && (forall k: nat :: AttemptsOn(log, k) <= c.RetryBound() + 1)
    && (forall k: nat :: k > |SettledItems(log)| ==> AttemptsOn(log, k) == 0)
  }

  ghost predicate Ledger<T>(c: Config, s: State<T>) {
    && AcceptedItems(s.log) == SettledItems(s.log) + s.queue
    && (s.queue == [] || |s.queue| <= c.capacity)
    && (s.stopped <==> Stopped in s.log)
    && WellBehaved(c, s.log)
  }

  ghost predicate Control<T>(c: Config, s: State<T>) {
    var soFar := AttemptsOn(s.log, |SettledItems(s.log)|);
    && |s.loops| <= 1
    && (s.loops == [] && !s.stopped ==> !s.draining && s.queue == [] && soFar == 0)
    && (s.loops != [] ==>
          var l := s.loops[0];
          && s.draining
          && s.queue != []
          && l.item == s.queue[0]
          && (if l.Processing? then 0 else 1) <= l.attempt <= c.RetryBound()
          && soFar == if l.Processing? then l.attempt + 1 else l.attempt)
  }

  ghost predicate Inv<T>(c: Config, s: State<T>) {
    Ledger(c, s) && Control(c, s)
  }

  lemma LogGrows<T>(log: seq<Observation<T>>, o: Observation<T>)
    ensures (log + [o])[..|log|] == log
    ensures AcceptedItems(log + [o]) == if o.Accepted? then AcceptedItems(log) + [o.item] else AcceptedItems(log)
    ensures SettledItems(log + [o]) == if o.Settled? then SettledItems(log) + [o.item] else SettledItems(log)
    ensures forall k: nat :: AttemptsOn(log + [o], k) ==
              AttemptsOn(log, k) + if o.Attempt? && |SettledItems(log)| == k then 1 else 0
  {
    assert (log + [o])[..|log|] == log;
  }

  /** What one more observation must satisfy for the log to stay well behaved. */
  ghost predicate MayFollow<T>(c: Config, log: seq<Observation<T>>, o: Observation<T>) {
    var k := |SettledItems(log)|;
    && (o.Settled? && o.fate.GivenUp? ==> AttemptsOn(log, k) == c.RetryBound() + 1)
    && (o.Attempt? ==>
          && Stopped !in log
          && AttemptsOn(log, k) <= c.RetryBound()
          && k < |AcceptedItems(log)|
          && o.item == AcceptedItems(log)[k])
  }

  lemma WellBehavedGrows<T>(c: Config, log: seq<Observation<T>>, o: Observation<T>)
    requires WellBehaved(c, log) && MayFollow(c, log, o)
    ensures WellBehaved(c, log + [o])
  {
    var grown := log + [o];
    LogGrows(log, o);
    forall i | 0 <= i < |grown| && grown[i].Settled? && grown[i].fate.GivenUp?
      ensures AttemptsOn(grown[..i], |SettledItems(grown[..i])|) == c.RetryBound() + 1
    {
      assert grown[..i] == log[..i];
    }
    forall i | 0 <= i < |grown| && grown[i].Attempt?
      ensures var k := |SettledItems(grown[..i])|;
              k < |AcceptedItems(grown[..i])| && grown[i].item == AcceptedItems(grown[..i])[k]
    {
      assert grown[..i] == log[..i];
    }
  }

  // ----- Every step keeps the invariant -----

  /** A loop that is running, not suspended, calls `process` on the head of the queue. */
  lemma StartAttempt<T>(c: Config, s: State<T>, attempt: nat)
    requires Ledger(c, s) && s.loops == [] && s.draining && !s.stopped && s.queue != []
    requires AttemptsOn(s.log, |SettledItems(s.log)|) == attempt <= c.RetryBound()
    ensures Inv(c, Note(s.(loops := [Processing(s.queue[0], attempt)]), Attempt(s.queue[0])))
  {
    LogGrows(s.log, Attempt(s.queue[0]));
    WellBehavedGrows(c, s.log, Attempt(s.queue[0]));
  }

  lemma LoopTopKeeps<T>(c: Config, s: State<T>)
    requires Ledger(c, s) && s.loops == [] && s.draining
    requires AttemptsOn(s.log, |SettledItems(s.log)|) == 0
    ensures Inv(c, LoopTop(s))
  {
    if !s.stopped && |s.queue| > 0 {
      StartAttempt(c, s, 0);
    }
  }

  lemma ShiftKeeps<T>(c: Config, s: State<T>, fate: Fate)
    requires Ledger(c, s) && s.queue != []
    requires fate.GivenUp? ==> AttemptsOn(s.log, |SettledItems(s.log)|) == c.RetryBound() + 1
    ensures Ledger(c, Shift(s, s.queue[0], fate))
    ensures var t := Shift(s, s.queue[0], fate); AttemptsOn(t.log, |SettledItems(t.log)|) == 0
  {
    var o := Settled(s.queue[0], fate);
    var t := Shift(s, s.queue[0], fate);
    LogGrows(s.log, o);
    WellBehavedGrows(c, s.log, o);
    assert t.log == s.log + [o] && t.queue == s.queue[1..];
    HeadMoves(SettledItems(s.log), s.queue);
    assert AcceptedItems(t.log) == AcceptedItems(s.log);
    assert SettledItems(t.log) == SettledItems(s.log) + [s.queue[0]];
    assert Stopped in t.log <==> Stopped in s.log;
  }

  lemma HeadMoves<T>(settled: seq<T>, queue: seq<T>)
    requires queue != []
    ensures settled + queue == (settled + [queue[0]]) + queue[1..]
  {
  }

  lemma NoteKeeps<T>(c: Config, s: State<T>, o: Observation<T>)
    requires Ledger(c, s) && (o.QueueFull? || o.BackingOff?)
    ensures Ledger(c, Note(s, o))
    ensures SettledItems(Note(s, o).log) == SettledItems(s.log)
    ensures forall k: nat :: AttemptsOn(Note(s, o).log, k) == AttemptsOn(s.log, k)
  {
    LogGrows(s.log, o);
    WellBehavedGrows(c, s.log, o);
  }

  lemma AcceptKeeps<T>(c: Config, s: State<T>, item: T)
    requires Ledger(c, s) && |s.queue| < c.capacity
    ensures Ledger(c, Note(s.(queue := s.queue + [item]), Accepted(item)))
    ensures SettledItems(s.log + [Accepted(item)]) == SettledItems(s.log)
    ensures forall k: nat :: AttemptsOn(s.log + [Accepted(item)], k) == AttemptsOn(s.log, k)
  {
    LogGrows(s.log, Accepted(item));
    WellBehavedGrows(c, s.log, Accepted(item));
    assert Stopped in s.log + [Accepted(item)] <==> Stopped in s.log;
  }

  lemma EnqueueKeeps<T>(c: Config, s: State<T>, item: T)
    requires Inv(c, s)
    ensures Inv(c, AfterEnqueue(c, s, item))
  {
    if s.stopped {
    } else if |s.queue| >= c.capacity {
      NoteKeeps(c, s, QueueFull(item));
    } else {
      AcceptKeeps(c, s, item);
      if !s.draining {
        LoopTopKeeps(c, Note(s.(queue := s.queue + [item]), Accepted(item)).(draining := true));
      }
    }
  }

  /** What an enqueue adds to the record and to the queue: the item, if it is accepted. */
  lemma EnqueueAccepts<T>(c: Config, s: State<T>, item: T)
    ensures var t, more := AfterEnqueue(c, s, item), if !s.stopped && |s.queue| < c.capacity then [item] else [];
            && AcceptedItems(t.log) == AcceptedItems(s.log) + more
            && SettledItems(t.log) == SettledItems(s.log)
            && t.queue == s.queue + more
  {
    if !s.stopped {
      if |s.queue| >= c.capacity {
        LogGrows(s.log, QueueFull(item));
      } else {
        LogGrows(s.log, Accepted(item));
        LogGrows(s.log + [Accepted(item)], Attempt((s.queue + [item])[0]));
      }
    }
  }

  lemma StopKeeps<T>(c: Config, s: State<T>)
    requires Inv(c, s)
    ensures Inv(c, AfterStop(s))
  {
    LogGrows(s.log, Stopped);
    WellBehavedGrows(c, s.log, Stopped);
  }

  lemma SettleKeeps<T>(c: Config, s: State<T>, fate: Fate)
    requires Inv(c, s) && s.loops != []
    requires fate.GivenUp? ==> AttemptsOn(s.log, |SettledItems(s.log)|) == c.RetryBound() + 1
    ensures Inv(c, LoopTop(Shift(s.(loops := []), s.queue[0], fate)))
  {
    var t := s.(loops := []);
    assert Ledger(c, t);
    ShiftKeeps(c, t, fate);
    LoopTopKeeps(c, Shift(t, s.queue[0], fate));
  }

  lemma BackOffKeeps<T>(c: Config, s: State<T>, attempt: nat)
    requires Inv(c, s) && s.queue != [] && s.loops == [Processing(s.queue[0], attempt)] && attempt < c.Retries()
    ensures Inv(c, Note(s.(loops := [Sleeping(s.queue[0], attempt + 1)]), BackingOff(attempt)))
  {
    var t := s.(loops := [Sleeping(s.queue[0], attempt + 1)]);
    assert Ledger(c, t);
    NoteKeeps(c, t, BackingOff(attempt));
  }

  /** What becomes of the only loop. */
  lemma OnlyLoopProcesses<T>(c: Config, s: State<T>, attempt: nat, outcome: Outcome)
    requires s.queue != [] && s.loops == [Processing(s.queue[0], attempt)]
    ensures AfterProcess(c, s, 0, outcome) ==
            if outcome.Degraded? && attempt < c.Retries()
            then Note(s.(loops := [Sleeping(s.queue[0], attempt + 1)]), BackingOff(attempt))
            else LoopTop(Shift(s.(loops := []), s.queue[0],
                               if outcome.Succeeded? then Delivered else if outcome.Failed? then Errored else GivenUp))
  {
    assert Without(s.loops, 0) == [];
  }

  lemma ProcessKeeps<T>(c: Config, s: State<T>, i: nat, outcome: Outcome)
    requires Inv(c, s) && i < |s.loops| && s.loops[i].Processing?
    ensures Inv(c, AfterProcess(c, s, i, outcome))
  {
    var attempt := s.loops[0].attempt;
    assert s.loops == [Processing(s.queue[0], attempt)];
    OnlyLoopProcesses(c, s, attempt, outcome);
    if outcome.Degraded? && attempt < c.Retries() {
      BackOffKeeps(c, s, attempt);
    } else {
      SettleKeeps(c, s, if outcome.Succeeded? then Delivered else if outcome.Failed? then Errored else GivenUp);
    }
  }

  lemma TimerKeeps<T>(c: Config, s: State<T>, i: nat)
    requires Inv(c, s) && i < |s.loops| && s.loops[i].Sleeping?
    ensures Inv(c, AfterTimer(s, i))
  {
    var t := s.(loops := []);
    assert Without(s.loops, i) == [];
    if !s.stopped {
      StartAttempt(c, t, s.loops[0].attempt);
    }
  }

  lemma StepKeeps<T>(c: Config, s: State<T>, e: Event<T>)
    requires Inv(c, s) && Enabled(s, e)
    ensures Inv(c, Step(c, s, e))
  {
    match e
    case Enqueue(item) => EnqueueKeeps(c, s, item);
    case ProcessSettles(i, outcome) => ProcessKeeps(c, s, i, outcome);
    case TimerFires(i) => TimerKeeps(c, s, i);
    case Stop => StopKeeps(c, s);
  }

  lemma {:induction false} RunKeeps<T>(c: Config, states: seq<State<T>>, events: seq<Event<T>>, n: nat)
    requires IsRun(c, states, events) && n <= |events| && Inv(c, states[0])
    ensures Inv(c, states[n])
  {
    if n > 0 {
      RunKeeps(c, states, events, n - 1);
      StepKeeps(c, states[n - 1], events[n - 1]);
    }
  }

  lemma ReachableInv<T(!new)>(c: Config, s: State<T>)
    requires Reachable(c, s)
    ensures Inv(c, s)
  {
    var states, events :| IsRun(c, states, events) && states[0] == Initial() && s == states[|events|];
    RunKeeps(c, states, events, |events|);
  }

  // ----- Theorems -----

  /**
    Conservation and order: whatever the interleaving, the items accepted so far are the
    items settled so far, in the same order, followed by the items still queued.
   */
  lemma FifoConservation<T(!new)>(c: Config, s: State<T>)
    requires Reachable(c, s)
    ensures AcceptedItems(s.log) == SettledItems(s.log) + s.queue
    ensures s.queue == [] || |s.queue| <= c.capacity
    ensures AttemptsTakeTheOldest(s.log)
  {
    ReachableInv(c, s);
  }

  /** The item of the event at `j`, if it is an enqueue that met an unstopped queue with room. */
  ghost function AdmittedAt<T>(c: Config, states: seq<State<T>>, events: seq<Event<T>>, j: nat): seq<T>
    requires |states| == |events| + 1 && j < |events|
  {
    if events[j].Enqueue? && Stop !in events[..j] && |states[j].queue| < c.capacity then [events[j].item] else []
  }

  ghost function Admitted<T>(c: Config, states: seq<State<T>>, events: seq<Event<T>>, n: nat): seq<T>
    requires |states| == |events| + 1 && n <= |events|
  {
    if n == 0 then [] else Admitted(c, states, events, n - 1) + AdmittedAt(c, states, events, n - 1)
  }

  /** Nothing but an enqueue accepts anything, and nothing but a stop stops. */
  lemma StepAccepts<T>(c: Config, s: State<T>, e: Event<T>)
    requires Enabled(s, e)
    ensures AcceptedItems(Step(c, s, e).log) ==
            AcceptedItems(s.log) + if e.Enqueue? && !s.stopped && |s.queue| < c.capacity then [e.item] else []
    ensures Step(c, s, e).stopped <==> s.stopped || e.Stop?
  {
    match e
    case Enqueue(item) => EnqueueAccepts(c, s, item);
    case ProcessSettles(i, outcome) => ProcessAccepts(c, s, i, outcome);
    case TimerFires(i) =>
      var Sleeping(item, _) := s.loops[i];
      LogGrows(s.log, Attempt(item));
    case Stop => LogGrows(s.log, Stopped);
  }

  lemma ProcessAccepts<T>(c: Config, s: State<T>, i: nat, outcome: Outcome)
    requires i < |s.loops| && s.loops[i].Processing?
    ensures AcceptedItems(AfterProcess(c, s, i, outcome).log) == AcceptedItems(s.log)
    ensures AfterProcess(c, s, i, outcome).stopped == s.stopped
  {
    var Processing(item, attempt) := s.loops[i];
    var t := s.(loops := Without(s.loops, i));
    if outcome.Degraded? && attempt < c.Retries() {
      LogGrows(s.log, BackingOff(attempt));
    } else {
      var fate := if outcome.Succeeded? then Delivered else if outcome.Failed? then Errored else GivenUp;
      SettleAccepts(t, item, fate);
    }
  }

  lemma SettleAccepts<T>(s: State<T>, item: T, fate: Fate)
    ensures AcceptedItems(LoopTop(Shift(s, item, fate)).log) == AcceptedItems(s.log)
  {
    var t := Shift(s, item, fate);
    LogGrows(s.log, Settled(item, fate));
    if !t.stopped && |t.queue| > 0 {
      LogGrows(t.log, Attempt(t.queue[0]));
    }
  }

  lemma AdmittedIsAccepted<T>(c: Config, states: seq<State<T>>, events: seq<Event<T>>, n: nat)
    requires IsRun(c, states, events) && states[0] == Initial() && n <= |events|
    ensures AcceptedItems(states[n].log) == Admitted(c, states, events, n)
  {
    forall j | 0 <= j < n
      ensures AcceptedItems(states[j + 1].log) == AcceptedItems(states[j].log) + AdmittedAt(c, states, events, j)
    {
      StoppedByStop(c, states, events, j);
      RunStepAccepts(c, states, events, j);
    }
    AdmittedAddsUp(c, states, events, n);
  }

  lemma {:induction false} AdmittedAddsUp<T>(c: Config, states: seq<State<T>>, events: seq<Event<T>>, n: nat)
    requires |states| == |events| + 1 && n <= |events| && AcceptedItems(states[0].log) == []
    requires forall j :: 0 <= j < n ==>
               AcceptedItems(states[j + 1].log) == AcceptedItems(states[j].log) + AdmittedAt(c, states, events, j)
    ensures AcceptedItems(states[n].log) == Admitted(c, states, events, n)
  {
    if n > 0 {
      AdmittedAddsUp(c, states, events, n - 1);
      assert AcceptedItems(states[n - 1 + 1].log) ==
             AcceptedItems(states[n - 1].log) + AdmittedAt(c, states, events, n - 1);
    }
  }

  lemma {:induction false} StoppedByStop<T>(c: Config, states: seq<State<T>>, events: seq<Event<T>>, n: nat)
    requires IsRun(c, states, events) && states[0] == Initial() && n <= |events|
    ensures states[n].stopped <==> Stop in events[..n]
  {
    if n > 0 {
      StoppedByStop(c, states, events, n - 1);
      assert events[..n] == events[..n - 1] + [events[n - 1]];
      RunStepAccepts(c, states, events, n - 1);
    }
  }

  lemma RunStepAccepts<T>(c: Config, states: seq<State<T>>, events: seq<Event<T>>, n: nat)
    requires IsRun(c, states, events) && n < |events|
    ensures var s, t, e := states[n], states[n + 1], events[n];
            && AcceptedItems(t.log) ==
               AcceptedItems(s.log) + (if e.Enqueue? && !s.stopped && |s.queue| < c.capacity then [e.item] else [])
            && (t.stopped <==> s.stopped || e.Stop?)
  {
    StepAccepts(c, states[n], events[n]);
  }

  /**
    Nothing accepted is lost and nothing else gets in: in every run the items settled so far
    followed by those still queued are exactly the items of the enqueues that met an
    unstopped queue below capacity, in the order in which they came.
   */
  lemma EnqueuedItemsAreConserved<T(!new)>(c: Config, states: seq<State<T>>, events: seq<Event<T>>, n: nat)
    requires IsRun(c, states, events) && states[0] == Initial() && n <= |events|
    ensures SettledItems(states[n].log) + states[n].queue == Admitted(c, states, events, n)
  {
    RunKeeps(c, states, events, n);
    AdmittedIsAccepted(c, states, events, n);
  }

  /** One drain loop at a time, no lost wakeup, and the head stays put while it is in flight. */
  lemma SingleLiveLoop<T(!new)>(c: Config, s: State<T>)
    requires Reachable(c, s)
    ensures |s.loops| <= 1
    ensures !s.stopped ==> (|s.loops| == 1 <==> s.queue != [])
    ensures forall l :: l in s.loops ==> s.queue != [] && l.item == s.queue[0]
  {
    ReachableInv(c, s);
  }

  lemma BoundedAttempts<T(!new)>(c: Config, s: State<T>, k: nat)
    requires Reachable(c, s)
    ensures AttemptsOn(s.log, k) <= c.RetryBound() + 1
    ensures c.RetryBound() == Max(0, if c.maxDegradedRetries.None? then 5 else c.maxDegradedRetries.value)
    ensures NoAttemptAfterStop(s.log)
    ensures GivesUpOnlyWhenExhausted(c, s.log)
  {
    ReachableInv(c, s);
  }

  // ----- Every outcome is told -----

  function CountFate<T>(log: seq<Observation<T>>, fate: Fate): nat {
    if log == [] then 0
    else
      var o := log[|log| - 1];
      CountFate(log[..|log| - 1], fate) + if o.Settled? && o.fate == fate then 1 else 0
  }

  function CountOutcome<T>(events: seq<Event<T>>, outcome: Outcome): nat {
    if events == [] then 0
    else
      var e := events[|events| - 1];
      CountOutcome(events[..|events| - 1], outcome) + if e.ProcessSettles? && e.outcome == outcome then 1 else 0
  }

  lemma FateGrows<T>(log: seq<Observation<T>>, o: Observation<T>, fate: Fate)
    ensures CountFate(log + [o], fate) == CountFate(log, fate) + if o.Settled? && o.fate == fate then 1 else 0
  {
    assert (log + [o])[..|log|] == log;
  }

  lemma LoopTopTellsNothing<T>(s: State<T>, fate: Fate)
    ensures CountFate(LoopTop(s).log, fate) == CountFate(s.log, fate)
  {
    if !s.stopped && |s.queue| > 0 {
      FateGrows(s.log, Attempt(s.queue[0]), fate);
    }
  }

  lemma ProcessTells<T>(c: Config, s: State<T>, i: nat, outcome: Outcome, fate: Fate)
    requires i < |s.loops| && s.loops[i].Processing? && !fate.GivenUp?
    ensures CountFate(AfterProcess(c, s, i, outcome).log, fate) ==
            CountFate(s.log, fate) + if outcome == (if fate.Delivered? then Succeeded else Failed) then 1 else 0
  {
    var Processing(item, attempt) := s.loops[i];
    var t := s.(loops := Without(s.loops, i));
    if outcome.Degraded? && attempt < c.Retries() {
      FateGrows(s.log, BackingOff(attempt), fate);
    } else {
      var told := if outcome.Succeeded? then Delivered else if outcome.Failed? then Errored else GivenUp;
      FateGrows(s.log, Settled(item, told), fate);
      LoopTopTellsNothing(Shift(t, item, told), fate);
    }
  }

  lemma StepTells<T>(c: Config, s: State<T>, e: Event<T>, fate: Fate)
    requires Enabled(s, e) && !fate.GivenUp?
    ensures CountFate(Step(c, s, e).log, fate) == CountFate(s.log, fate)
            + if e.ProcessSettles? && e.outcome == (if fate.Delivered? then Succeeded else Failed) then 1 else 0
  {
    match e
    case Enqueue(item) => EnqueueTells(c, s, item, fate);
    case ProcessSettles(i, outcome) => ProcessTells(c, s, i, outcome, fate);
    case TimerFires(i) => FateGrows(s.log, Attempt(s.loops[i].item), fate);
    case Stop => FateGrows(s.log, Stopped, fate);
  }

  lemma EnqueueTells<T>(c: Config, s: State<T>, item: T, fate: Fate)
    ensures CountFate(AfterEnqueue(c, s, item).log, fate) == CountFate(s.log, fate)
  {
    FateGrows(s.log, QueueFull(item), fate);
    FateGrows(s.log, Accepted(item), fate);
    var t := Note(s.(queue := s.queue + [item]), Accepted(item));
    LoopTopTellsNothing(t.(draining := true), fate);
  }

  /** In every run the items delivered are as many as the calls of `process` that succeeded, those errored as failed. */
  lemma {:induction false} OutcomesAreTold<T>(
    c: Config, states: seq<State<T>>, events: seq<Event<T>>, n: nat, fate: Fate)
    requires IsRun(c, states, events) && states[0] == Initial() && n <= |events| && !fate.GivenUp?
    ensures CountFate(states[n].log, fate) == CountOutcome(events[..n], if fate.Delivered? then Succeeded else Failed)
  {
    if n > 0 {
      OutcomesAreTold(c, states, events, n - 1, fate);
      assert events[..n][..n - 1] == events[..n - 1];
      StepTells(c, states[n - 1], events[n - 1], fate);
    }
  }

  // ----- Draining terminates -----

  /** `perItem` resumptions for each of `items` items. */
  function Budget(items: nat, perItem: nat): nat {
    if items == 0 then 0 else perItem + Budget(items - 1, perItem)
  }

  lemma {:induction false} BudgetIsProduct(items: nat, perItem: nat)
    ensures Budget(items, perItem) == items * perItem
  {
    if items > 0 {
      BudgetIsProduct(items - 1, perItem);
      assert (items - 1) * perItem + perItem == items * perItem;
    }
  }

  function PerItem(c: Config): nat {
    2 * c.RetryBound() + 1
  }

  /** How many more times the drain loop can resume if nothing is enqueued. */
  function Work<T>(c: Config, s: State<T>): int {
    if s.loops == [] || s.queue == [] then 0
    else
      Budget(|s.queue| - 1, PerItem(c))
      + 2 * (c.RetryBound() - s.loops[0].attempt) + if s.loops[0].Processing? then 1 else 2
  }

  predicate Resumes<T>(e: Event<T>) {
    e.ProcessSettles? || e.TimerFires?
  }

  function Resumptions<T>(events: seq<Event<T>>): nat {
    if events == [] then 0
    else Resumptions(events[..|events| - 1]) + if Resumes(events[|events| - 1]) then 1 else 0
  }

  lemma ResumingDoesWork<T>(c: Config, s: State<T>, e: Event<T>)
    requires Control(c, s) && Enabled(s, e) && !e.Enqueue?
    ensures Work(c, Step(c, s, e)) <= Work(c, s) - if Resumes(e) then 1 else 0
  {
  }

  lemma RunStepDoesWork<T>(c: Config, states: seq<State<T>>, events: seq<Event<T>>, n: nat)
    requires IsRun(c, states, events) && Inv(c, states[0]) && n < |events| && !events[n].Enqueue?
    ensures Work(c, states[n + 1]) <= Work(c, states[n]) - if Resumes(events[n]) then 1 else 0
  {
    RunKeeps(c, states, events, n);
    ResumingDoesWork(c, states[n], events[n]);
  }

  lemma {:induction false} RunDoesWork<T>(c: Config, states: seq<State<T>>, events: seq<Event<T>>, n: nat)
    requires IsRun(c, states, events) && Inv(c, states[0]) && n <= |events|
    requires forall e :: e in events ==> !e.Enqueue?
    ensures Work(c, states[n]) <= Work(c, states[0]) - Resumptions(events[..n])
  {
    if n > 0 {
      RunDoesWork(c, states, events, n - 1);
      assert events[n - 1] in events;
      RunStepDoesWork(c, states, events, n - 1);
      assert events[..n][..n - 1] == events[..n - 1];
    }
  }

  lemma WorkBounds<T>(c: Config, s: State<T>)
    requires Control(c, s)
    ensures 0 <= Work(c, s) <= |s.queue| * PerItem(c)
  {
    BudgetIsProduct(|s.queue|, PerItem(c));
  }

  /** An unstopped queue that holds items can always resume its loop. */
  lemma NoDeadlock<T(!new)>(c: Config, s: State<T>)
    requires Reachable(c, s) && !s.stopped && s.queue != []
    ensures exists e: Event<T> :: Resumes(e) && Enabled(s, e)
  {
    ReachableInv(c, s);
    var e: Event<T> := if s.loops[0].Processing? then ProcessSettles(0, Succeeded) else TimerFires(0);
    assert Resumes(e) && Enabled(s, e);
  }

  lemma ResumptionsAreBounded<T(!new)>(c: Config, states: seq<State<T>>, events: seq<Event<T>>)
    requires IsRun(c, states, events) && Reachable(c, states[0])
    requires forall e :: e in events ==> !e.Enqueue?
    ensures Resumptions(events) <= |states[0].queue| * PerItem(c)
  {
    ReachableInv(c, states[0]);
    RunKeeps(c, states, events, |events|);
    RunDoesWork(c, states, events, |events|);
    WorkBounds(c, states[0]);
    WorkBounds(c, states[|events|]);
    assert events[..|events|] == events;
  }

  lemma {:induction false} ResumptionsAreNumber<T>(events: seq<Event<T>>, n: nat)
    requires n <= |events|
    ensures Resumptions(events[..n]) == Number(n, (i: int) => 0 <= i < |events| && Resumes(events[i]))
  {
    if n > 0 {
      ResumptionsAreNumber(events, n - 1);
      assert events[..n][..n - 1] == events[..n - 1];
    }
  }

  lemma ResumptionsAreCounted<T>(events: seq<Event<T>>)
    ensures Resumptions(events) ==
            |set i | 0 <= i < |events| && (events[i].ProcessSettles? || events[i].TimerFires?)|
  {
    var resumes := (i: int) => 0 <= i < |events| && Resumes(events[i]);
    ResumptionsAreNumber(events, |events|);
    NumberIsCardinality(|events|, resumes);
    assert events[..|events|] == events;
    assert (set i | 0 <= i < |events| && resumes(i)) ==
           set i | 0 <= i < |events| && (events[i].ProcessSettles? || events[i].TimerFires?);
  }

  /**
    With no further enqueues the loop resumes at most `2 * retries + 1` times for each
    queued item.  By `NoDeadlock`, a run that has used that budget up has settled
    everything that was accepted, or was stopped.
   */
  lemma DrainingTerminates<T(!new)>(c: Config, states: seq<State<T>>, events: seq<Event<T>>, retries: int)
    requires IsRun(c, states, events) && Reachable(c, states[0])
    requires forall e :: e in events ==> !e.Enqueue?
    requires retries == Max(0, if c.maxDegradedRetries.None? then 5 else c.maxDegradedRetries.value)
    ensures |set i | 0 <= i < |events| && (events[i].ProcessSettles? || events[i].TimerFires?)|
            <= |states[0].queue| * (2 * retries + 1)
  {
    ResumptionsAreBounded(c, states, events);
    ResumptionsAreCounted(events);
    assert PerItem(c) == 2 * retries + 1;
  }

  lemma RunExtends<T>(c: Config, states: seq<State<T>>, events: seq<Event<T>>, e: Event<T>)
    requires IsRun(c, states, events) && Enabled(states[|events|], e)
    ensures IsRun(c, states + [Step(c, states[|events|], e)], events + [e])
  {
  }

  /** One item that keeps signalling degradation: after each backoff the loop holds it, one attempt further. */
  lemma {:induction false} ItemDegrades<T>(c: Config, item: T, k: nat)
    returns (states: seq<State<T>>, events: seq<Event<T>>)
    requires c.capacity > 0 && k <= c.RetryBound()
    ensures IsRun(c, states, events) && states[0] == Initial() && |events| == 2 * k + 1
    ensures var s := states[|events|];
            !s.stopped && s.draining && s.queue == [item] && s.loops == [Processing(item, k)]
    ensures events[0] == Enqueue(item) && forall i :: 0 < i < |events| ==> Resumes(events[i])
  {
    if k == 0 {
      states, events := [Initial(), AfterEnqueue(c, Initial(), item)], [Enqueue(item)];
    } else {
      states, events := ItemDegrades(c, item, k - 1);
      RunExtends(c, states, events, ProcessSettles(0, Degraded));
      states := states + [Step(c, states[|events|], ProcessSettles(0, Degraded))];
      events := events + [ProcessSettles(0, Degraded)];
      RunExtends(c, states, events, TimerFires(0));
      states := states + [Step(c, states[|events|], TimerFires(0))];
      events := events + [TimerFires(0)];
    }
  }

  /** The bound is reached: a single item can make the loop resume that often before it is given up on. */
  lemma BudgetIsReached<T>(c: Config, item: T, retries: int)
    returns (states: seq<State<T>>, events: seq<Event<T>>)
    requires c.capacity > 0
    requires retries == Max(0, if c.maxDegradedRetries.None? then 5 else c.maxDegradedRetries.value)
    ensures IsRun(c, states, events) && states[0] == Initial()
    ensures |events| == 1 + (2 * retries + 1) && events[0] == Enqueue(item)
    ensures forall i :: 0 < i < |events| ==> events[i].ProcessSettles? || events[i].TimerFires?
    ensures states[|events|].queue == [] && Settled(item, GivenUp) in states[|events|].log
  {
    states, events := ItemDegrades(c, item, c.RetryBound());
    var e: Event<T> := ProcessSettles(0, Degraded);
    RunExtends(c, states, events, e);
    var s := Step(c, states[|events|], e);
    assert s.log[|s.log| - 1] == Settled(item, GivenUp);
    states, events := states + [s], events + [e];
  }

  /** How often a stopped queue can still resume: to settle the item in flight, or end after a backoff. */
  function WorkOnceStopped<T>(s: State<T>): nat {
    if s.loops == [] then 0 else if s.loops[0].Processing? then 2 else 1
  }

  lemma StoppedDoesWork<T>(c: Config, states: seq<State<T>>, events: seq<Event<T>>, n: nat)
    requires IsRun(c, states, events) && Inv(c, states[0]) && n < |events| && states[n].stopped
    ensures states[n + 1].stopped
    ensures WorkOnceStopped(states[n + 1]) + (if Resumes(events[n]) then 1 else 0) <= WorkOnceStopped(states[n])
  {
    RunKeeps(c, states, events, n);
    assert Enabled(states[n], events[n]);
  }

  lemma {:induction false} StoppedRunDoesWork<T>(c: Config, states: seq<State<T>>, events: seq<Event<T>>, n: nat)
    requires IsRun(c, states, events) && Inv(c, states[0]) && n <= |events| && states[0].stopped
    ensures states[n].stopped
    ensures WorkOnceStopped(states[n]) + Resumptions(events[..n]) <= WorkOnceStopped(states[0])
  {
    if n > 0 {
      StoppedRunDoesWork(c, states, events, n - 1);
      StoppedDoesWork(c, states, events, n - 1);
      assert events[..n][..n - 1] == events[..n - 1];
    }
  }

  /** Whoever calls `enqueue` afterwards, a stopped queue resumes at most twice more, and then never again. */
  lemma StopIsPrompt<T(!new)>(c: Config, states: seq<State<T>>, events: seq<Event<T>>)
    requires IsRun(c, states, events) && Reachable(c, states[0]) && states[0].stopped
    ensures |set i | 0 <= i < |events| && (events[i].ProcessSettles? || events[i].TimerFires?)| <= 2
  {
    ReachableInv(c, states[0]);
    StoppedRunDoesWork(c, states, events, |events|);
    assert events[..|events|] == events;
    ResumptionsAreCounted(events);
  }
}
