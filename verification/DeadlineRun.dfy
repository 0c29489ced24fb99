/** One `run` of a shared deadline, as the microtask queue executes it (runner-evidence-deadline.ts).

    The run's own microtasks are first in, first out. Between any two of them anything else may
    happen: the operation settles, the timer or another user aborts, the deadline is closed. */
module DeadlineRun {
  import opened Wrappers

  /** Begin starts the operation. When it settles, Late (dispose if aborted) and then RaceValue
      are queued; an abort queues RaceAbort; a decided race queues Resume. */
  datatype Task = Begin | Late | RaceValue | RaceAbort | Resume

  datatype Pending<V> = Waiting | Running | Fulfilled(value: V) | Rejected

  datatype Race<V> = Undecided | Won(value: V) | Failed | Aborted

  datatype Outcome<V> = Returned(value: V) | Threw

  datatype State<V> = State(
    aborted: bool,
    closed: bool,
    queue: seq<Task>,
    pending: Pending<V>,
    race: Race<V>,
    outcome: Option<Outcome<V>>,
    supplied: bool,
    disposed: bool,
    disposals: seq<V>)

  /** Settle and Fail end the operation; Turn executes the next microtask, whose own clock check,
      if it makes one, finds the budget as given. */
  datatype Event<V> = Turn(budget: bool) | Settle(value: V) | Fail | Abort | Close

  /** The state after `run` has passed its first check, with or without a disposer. */
  function Initial<V>(supplied: bool): State<V> {
    State(false, false, [Begin], Waiting, Undecided, None, supplied, false, [])
  }

  /** `controller.abort`: the first abort rejects the race while the run still listens. */
  function AbortNow<V>(s: State<V>): State<V> {
    if s.aborted then s
    else s.(aborted := true, queue := if s.outcome.None? then s.queue + [RaceAbort] else s.queue)
  }

  /** `check`: whether it passes, and the state after it. A check that fails has aborted. */
  function Check<V>(s: State<V>, budget: bool): (bool, State<V>) {
    if s.closed || s.aborted || !budget then (false, AbortNow(s)) else (true, s)
  }

  function Dispose<V>(s: State<V>, value: V): State<V> {
    if s.disposed || !s.supplied then s else s.(disposed := true, disposals := s.disposals + [value])
  }

  function Settled<V>(s: State<V>, pending: Pending<V>): State<V> {
    s.(pending := pending, queue := s.queue + [Late, RaceValue])
  }

  function Decided<V>(s: State<V>, race: Race<V>): State<V> {
    if s.race.Undecided? then s.(race := race, queue := s.queue + [Resume]) else s
  }

  function Execute<V>(s: State<V>, task: Task, budget: bool): State<V> {
    match task
    case Begin =>
      var (ok, t) := Check(s, budget);
      if ok then t.(pending := Running) else Settled(t, Rejected)
    case Late => if s.pending.Fulfilled? && s.aborted then Dispose(s, s.pending.value) else s
    case RaceValue => Decided(s, if s.pending.Fulfilled? then Won(s.pending.value) else Failed)
    case RaceAbort => Decided(s, Aborted)
    case Resume =>
      var (ok, t) := Check(s, budget);
      if s.race.Won? then
        if ok then t.(outcome := Some(Returned(s.race.value))) else Dispose(t, s.race.value).(outcome := Some(Threw))
      else if s.aborted then s.(outcome := Some(Threw))
      else t.(outcome := Some(Threw))
  }

  function Step<V>(s: State<V>, e: Event<V>): State<V> {
    match e
    case Turn(budget) => if s.queue == [] then s else Execute(s.(queue := s.queue[1..]), s.queue[0], budget)
    case Settle(value) => if s.pending.Running? then Settled(s, Fulfilled(value)) else s
    case Fail => if s.pending.Running? then Settled(s, Rejected) else s
    case Abort => AbortNow(s)
    case Close => s.(closed := true)
  }

  function Run<V>(s: State<V>, events: seq<Event<V>>): State<V>
    decreases |events|
  {
    if events == [] then s else Run(Step(s, events[0]), events[1..])
  }

  // What every step keeps

  ghost predicate Distinct(q: seq<Task>) { forall i, j :: 0 <= i < j < |q| ==> q[i] != q[j] }

  /** Every a in the queue comes before every b. */
  ghost predicate Precedes(q: seq<Task>, a: Task, b: Task) {
    forall i, j :: 0 <= i < |q| && 0 <= j < |q| && q[i] == a && q[j] == b ==> i < j
  }

  ghost predicate QueueOk<V>(s: State<V>) {
    && Distinct(s.queue)
    && (Begin in s.queue <==> s.pending.Waiting?) && (s.pending.Waiting? ==> s.queue[0] == Begin && s.race.Undecided?)
    && (s.pending.Waiting? || s.pending.Running? ==> Late !in s.queue && RaceValue !in s.queue)
    && (Late in s.queue ==> RaceValue in s.queue) && Precedes(s.queue, Late, RaceValue)
    && (Resume in s.queue <==> !s.race.Undecided? && s.outcome.None?)
    && (RaceAbort in s.queue ==> s.aborted)
  }

  ghost predicate RaceOk<V>(s: State<V>) {
    && (s.race.Undecided? && (s.pending.Fulfilled? || s.pending.Rejected?) ==> RaceValue in s.queue)
    && (s.race.Undecided? ==> s.outcome.None?) && (s.race.Undecided? && s.aborted ==> RaceAbort in s.queue)
    && (s.race.Won? ==> s.pending == Fulfilled(s.race.value) && RaceValue !in s.queue && Late !in s.queue)
    && (s.race.Aborted? ==> s.aborted)
    && (s.race.Failed? ==> s.pending.Rejected?)
    && (s.outcome.Some? && s.outcome.value.Returned? ==> s.race == Won(s.outcome.value.value))
  }

  /** Who owns the value: at most one disposal, none of a returned value, and a value that is not
      disposed of still is on its way to the caller. */
  ghost predicate ValueOk<V>(s: State<V>) {
    && s.disposals == (if s.disposed && s.pending.Fulfilled? then [s.pending.value] else [])
    && (s.disposed ==> s.pending.Fulfilled? && s.supplied && s.aborted)
    && (s.outcome.Some? && s.outcome.value.Returned? ==> !s.disposed)
    && (s.pending.Fulfilled? && Late !in s.queue && s.supplied && !s.disposed ==>
          || (s.race.Undecided? && Precedes(s.queue, RaceValue, RaceAbort))
          || (s.race.Won? && (s.outcome.None? || s.outcome.value.Returned?)))
  }

  ghost predicate Inv<V>(s: State<V>) { QueueOk(s) && RaceOk(s) && ValueOk(s) }

  // Queues

  lemma Pushed(q: seq<Task>, x: Task)
    requires Distinct(q) && x !in q
    ensures Distinct(q + [x]) && (forall y :: y in q + [x] <==> y in q || y == x)
    ensures forall a, b :: Precedes(q, a, b) && (a != x || b !in q + [x]) ==> Precedes(q + [x], a, b)
  {
  }

  lemma Popped(q: seq<Task>)
    requires Distinct(q) && q != []
    ensures Distinct(q[1..]) && (forall y :: y in q[1..] <==> y in q && y != q[0])
    ensures forall a, b :: Precedes(q, a, b) ==> Precedes(q[1..], a, b)
    ensures forall a :: Precedes(q, a, q[0]) ==> a !in q
  {
    forall y | y in q && y != q[0] ensures y in q[1..] {
      var i :| 0 <= i < |q| && q[i] == y;
      assert q[1..][i - 1] == y;
    }
    forall a, b | Precedes(q, a, b) ensures Precedes(q[1..], a, b) {
      assert forall i :: 0 <= i < |q| - 1 ==> q[1..][i] == q[i + 1];
    }
    forall a | Precedes(q, a, q[0]) ensures a !in q {
      assert forall i :: 0 <= i < |q| && q[i] == a ==> i < 0;
    }
  }

  // AbortNow as a step of its own, also of a state whose first microtask was just taken.
  lemma AbortQueue<V>(s: State<V>)
    requires QueueOk(s)
    ensures QueueOk(AbortNow(s)) && AbortNow(s).aborted
    ensures AbortNow(s) == s.(aborted := true, queue := AbortNow(s).queue)
    ensures forall y :: y in AbortNow(s).queue ==> y in s.queue || y == RaceAbort
    ensures forall y :: y in s.queue ==> y in AbortNow(s).queue
    ensures Precedes(s.queue, RaceValue, RaceAbort) ==> Precedes(AbortNow(s).queue, RaceValue, RaceAbort)
  {
    if !s.aborted && s.outcome.None? { Pushed(s.queue, RaceAbort); }
  }

  lemma AbortKeeps<V>(s: State<V>)
    requires Inv(s)
    ensures Inv(AbortNow(s))
  {
    AbortQueue(s);
  }

  lemma SettledQueue(q: seq<Task>)
    requires Distinct(q) && Late !in q && RaceValue !in q
    ensures Distinct(q + [Late, RaceValue]) && Precedes(q + [Late, RaceValue], Late, RaceValue)
    ensures forall y :: y in q + [Late, RaceValue] <==> y in q || y == Late || y == RaceValue
  {
    Pushed(q, Late);
    Pushed(q + [Late], RaceValue);
    assert (q + [Late]) + [RaceValue] == q + [Late, RaceValue];
  }

  lemma SettleKeeps<V>(s: State<V>, pending: Pending<V>)
    requires Inv(s) && s.pending.Running? && (pending.Fulfilled? || pending.Rejected?)
    ensures Inv(Settled(s, pending))
  {
    SettledQueue(s.queue);
  }

  // Begin is alone in the queue, or with the abort.
  lemma TurnBegin<V>(s: State<V>, budget: bool)
    requires Inv(s) && s.queue != [] && s.queue[0] == Begin
    ensures Inv(Step(s, Turn(budget)))
  {
    Popped(s.queue);
    var r := s.(queue := s.queue[1..], pending := Running);
    assert Inv(r);
    if !Check(r, budget).0 {
      AbortKeeps(r);
      SettleKeeps(AbortNow(r), Rejected);
      assert Step(s, Turn(budget)) == Settled(AbortNow(r), Rejected);
    }
  }

  lemma TurnLate<V>(s: State<V>, budget: bool)
    requires Inv(s) && s.queue != [] && s.queue[0] == Late
    ensures Inv(Step(s, Turn(budget)))
  {
    Popped(s.queue);
  }

  lemma Decides<V>(s: State<V>, race: Race<V>)
    requires QueueOk(s) && s.race.Undecided? && s.outcome.None? && !race.Undecided? && !s.pending.Waiting?
    ensures QueueOk(Decided(s, race))
    ensures forall y :: y in Decided(s, race).queue <==> y in s.queue || y == Resume
  {
    Pushed(s.queue, Resume);
  }

  lemma TurnRaceValue<V>(s: State<V>, budget: bool)
    requires Inv(s) && s.queue != [] && s.queue[0] == RaceValue
    ensures Inv(Step(s, Turn(budget)))
  {
    Popped(s.queue);
    var r := s.(queue := s.queue[1..]);
    if s.race.Undecided? { Decides(r, if s.pending.Fulfilled? then Won(s.pending.value) else Failed); }
  }

  lemma TurnRaceAbort<V>(s: State<V>, budget: bool)
    requires Inv(s) && s.queue != [] && s.queue[0] == RaceAbort
    ensures Inv(Step(s, Turn(budget)))
  {
    Popped(s.queue);
    var r := s.(queue := s.queue[1..]);
    if s.race.Undecided? { Decides(r, Aborted); }
  }

  lemma TurnResume<V>(s: State<V>, budget: bool)
    requires Inv(s) && s.queue != [] && s.queue[0] == Resume
    ensures Inv(Step(s, Turn(budget)))
  {
    Popped(s.queue);
    var r := s.(queue := s.queue[1..]);
    if !Check(r, budget).0 && !r.aborted && r.outcome.None? { Pushed(r.queue, RaceAbort); }
  }

  lemma StepKeeps<V>(s: State<V>, e: Event<V>)
    requires Inv(s)
    ensures Inv(Step(s, e))
  {
    match e
    case Turn(budget) =>
      if s.queue != [] {
        match s.queue[0]
        case Begin => TurnBegin(s, budget);
        case Late => TurnLate(s, budget);
        case RaceValue => TurnRaceValue(s, budget);
        case RaceAbort => TurnRaceAbort(s, budget);
        case Resume => TurnResume(s, budget);
      }
    case Settle(value) => if s.pending.Running? { SettleKeeps(s, Fulfilled(value)); }
    case Fail => if s.pending.Running? { SettleKeeps(s, Rejected); }
    case Abort => AbortKeeps(s);
    case Close =>
  }

  lemma {:induction false} RunKeeps<V>(s: State<V>, events: seq<Event<V>>)
    requires Inv(s)
    ensures Inv(Run(s, events))
    decreases |events|
  {
    if events != [] {
      StepKeeps(s, events[0]);
      RunKeeps(Step(s, events[0]), events[1..]);
    }
  }

  /** Exactly one owner: the caller, or the disposer if there is one. */
  ghost predicate OneOwner<V>(s: State<V>, value: V) {
    || (s.outcome == Some(Returned(value)) && s.disposals == [])
    || (s.outcome == Some(Threw) && s.disposals == if s.supplied then [value] else [])
  }

  lemma Quiescent<V>(s: State<V>)
    requires Inv(s) && s.queue == [] && s.pending.Fulfilled?
    ensures OneOwner(s, s.pending.value)
  {
    assert !s.race.Undecided? && s.outcome.Some?;
    assert s.supplied && !s.disposed ==> s.outcome.value.Returned?;
    assert s.outcome.value.Returned? ==> s.outcome == Some(Returned(s.pending.value)) && !s.disposed;
    assert s.outcome.value.Threw? ==> s.outcome == Some(Threw);
  }

  /** In every ordering of settling, aborting, closing and clock checks: a value is never both
      returned and disposed of, nor disposed of twice; and once the operation has produced a value
      and no microtask is left, it was returned, or the run threw and it was disposed of. */
  lemma ReturnedOrDisposed<V>(supplied: bool, events: seq<Event<V>>)
    ensures
      var s: State<V> := Run(Initial(supplied), events);
      && s.supplied == supplied && |s.disposals| <= 1
      && (s.outcome.Some? && s.outcome.value.Returned? ==> s.disposals == [] && s.pending == Fulfilled(s.outcome.value.value))
      && (s.queue == [] && s.pending.Fulfilled? ==> OneOwner(s, s.pending.value))
  {
    RunKeeps(Initial<V>(supplied), events);
    SuppliedStays(Initial<V>(supplied), events);
    var s: State<V> := Run(Initial(supplied), events);
    if s.queue == [] && s.pending.Fulfilled? { Quiescent(s); }
  }

  /** An abort releases the caller whatever the operation does, and so does a failed operation: when
      no microtask is left the run has ended, and without a value it threw. */
  lemma AlwaysReleased<V>(supplied: bool, events: seq<Event<V>>)
    ensures
      var s: State<V> := Run(Initial(supplied), events);
      s.queue == [] && (s.aborted || !s.pending.Running?) ==>
        s.outcome.Some? && (!s.pending.Fulfilled? ==> s.outcome.value.Threw? && s.disposals == [])
  {
    RunKeeps(Initial<V>(supplied), events);
  }

  /** A value is returned only by a turn whose own check finds the deadline open, not aborted and within
      budget; likewise the operation starts. */
  lemma OnlyWithinBudget<V>(s: State<V>, e: Event<V>)
    ensures
      var t := Step(s, e);
      && (!s.pending.Running? && t.pending.Running? ==> e == Turn(true) && !s.aborted && !s.closed)
      && (s.outcome.None? && t.outcome.Some? && t.outcome.value.Returned? ==> e == Turn(true) && !s.aborted && !s.closed)
  {
    if e.Turn? && s.queue != [] {
      var r := s.(queue := s.queue[1..]);
      assert Step(s, e) == Execute(r, s.queue[0], e.budget);
      match s.queue[0]
      case Begin => assert Check(r, e.budget).0 <==> !s.closed && !s.aborted && e.budget;
      case Resume => assert Check(r, e.budget).0 <==> !s.closed && !s.aborted && e.budget;
      case _ =>
    }
  }

  lemma StepSupplied<V>(s: State<V>, e: Event<V>)
    ensures Step(s, e).supplied == s.supplied
  {
  }

  lemma {:induction false} SuppliedStays<V>(s: State<V>, events: seq<Event<V>>)
    ensures Run(s, events).supplied == s.supplied
    decreases |events|
  {
    if events != [] {
      StepSupplied(s, events[0]);
      SuppliedStays(Step(s, events[0]), events[1..]);
    }
  }

  /** Once aborted or closed, a run that has not returned never returns a value. */
  lemma {:induction false} NeverAfterAbort<V>(s: State<V>, events: seq<Event<V>>)
    requires s.aborted || s.closed
    requires s.outcome.None? || s.outcome.value.Threw?
    ensures Run(s, events).outcome.None? || Run(s, events).outcome.value.Threw?
    decreases |events|
  {
    if events != [] { NeverAfterAbort(Step(s, events[0]), events[1..]); }
  }

  /** Undisturbed and within budget, the value that the operation produces is returned. */
  lemma UndisturbedReturns<V>(supplied: bool, value: V)
    ensures
      var turn: Event<V> := Turn(true);
      Run(Initial<V>(supplied), [turn, Settle(value), turn, turn, turn]) ==
        State(false, false, [], Fulfilled(value), Won(value), Some(Returned(value)), supplied, false, [])
  {
    var turn: Event<V> := Turn(true);
    var s0: State<V> := Initial(supplied);
    var s1 := Step(s0, turn);
    assert s1 == s0.(queue := [], pending := Running);
    var s2 := Step(s1, Settle(value));
    assert s2 == s1.(queue := [Late, RaceValue], pending := Fulfilled(value));
    var s3 := Step(s2, turn);
    assert s3 == s2.(queue := [RaceValue]);
    var s4 := Step(s3, turn);
    assert s4 == s3.(queue := [Resume], race := Won(value));
    RunStep(s0, turn, [Settle(value), turn, turn, turn]);
    RunStep(s1, Settle(value), [turn, turn, turn]);
    RunStep(s2, turn, [turn, turn]);
    RunStep(s3, turn, [turn]);
    RunStep(s4, turn, []);
  }

  /** An operation that fails makes the run throw, and leaves the deadline as it is. */
  lemma UndisturbedThrows<V>(supplied: bool)
    ensures
      var turn: Event<V> := Turn(true);
      Run(Initial<V>(supplied), [turn, Fail, turn, turn, turn]) ==
        State(false, false, [], Rejected, Failed, Some(Threw), supplied, false, [])
  {
    var turn: Event<V> := Turn(true);
    var s0: State<V> := Initial(supplied);
    var s1 := Step(s0, turn);
    assert s1 == s0.(queue := [], pending := Running);
    var s2 := Step(s1, Fail);
    assert s2 == s1.(queue := [Late, RaceValue], pending := Rejected);
    var s3 := Step(s2, turn);
    assert s3 == s2.(queue := [RaceValue]);
    var s4 := Step(s3, turn);
    assert s4 == s3.(queue := [Resume], race := Failed);
    RunStep(s0, turn, [Fail, turn, turn, turn]);
    RunStep(s1, Fail, [turn, turn, turn]);
    RunStep(s2, turn, [turn, turn]);
    RunStep(s3, turn, [turn]);
    RunStep(s4, turn, []);
  }

  lemma RunStep<V>(s: State<V>, e: Event<V>, rest: seq<Event<V>>)
    ensures Run(s, [e] + rest) == Run(Step(s, e), rest)
  {
    assert ([e] + rest)[1..] == rest;
  }
}
