/**
 What a client has seen from the origin (sdk/go/diagnosis.go:60-111): the object, and the same code
 run by any number of goroutines, one shared access at a time.
 */
module Origin {
  import opened Options

  /** The moment of no answer: Go's zero time.Time, as Unix seconds. */
  const ZERO_TIME := -62135596800

  datatype OriginHistory = OriginHistory(completedCalls: int, sinceLastAnswer: int)

  /** The sequential meaning: what there is to say at `now` after answers at these moments. */
  function HistoryOf(answers: seq<int>, now: int): OriginHistory {
    if answers == [] then OriginHistory(0, 0)
    else OriginHistory(|answers|, now - answers[|answers| - 1])
  }

  class OriginTracker {
    var calls: int
    var lastAnswered: int
    ghost var answers: seq<int>

    ghost predicate Valid()
      reads this
    {
      calls == |answers| && (answers != [] ==> lastAnswered == answers[|answers| - 1])
    }

    constructor ()
      ensures Valid() && answers == []
    {
      calls, lastAnswered, answers := 0, ZERO_TIME, [];
    }

    method RecordAnswer(now: int)
      requires Valid()
      modifies this
      ensures Valid() && answers == old(answers) + [now]
    {
      calls := calls + 1;
      lastAnswered := now;
      answers := answers + [now];
    }

    method Snapshot(now: int) returns (h: OriginHistory)
      requires Valid()
      ensures h == HistoryOf(answers, now)
      ensures h.completedCalls == |answers|
      ensures h.sinceLastAnswer == if |answers| == 0 then 0 else now - answers[|answers| - 1]
    {
      if calls == 0 {
        return OriginHistory(0, 0);
      }
      return OriginHistory(calls, now - lastAnswered);
    }
  }

  // ---- the same code, interleaved ----

  /** The code as written is Design(true, false); the other three are what its comments warn of. */
  datatype Design = Design(locked: bool, earlyClock: bool)

  /** Where a goroutine is; `stamp` is the clock reading it brought along, if it reads early. */
  datatype Pc =
    | Idle
    | WantsRecord(stamp: Option<int>)
    | InRecord(stamp: Option<int>)
    | Counted(stamp: Option<int>)
    | WantsSnapshot(stamp: Option<int>)
    | InSnapshot(stamp: Option<int>)
    | Leaving

  /** A snapshot taken: what it said, and the answers there had been and the time when it was read. */
  datatype Observation = Observation(history: OriginHistory, answers: seq<int>, at: int)

  datatype State = State(
    clock: int, lock: Option<nat>, calls: int, lastAnswered: int, threads: seq<Pc>,
    answers: seq<int>, observed: seq<Observation>)

  /** Time passes, a goroutine calls one of the two methods, or it takes its next step if it can. */
  datatype Action = Tick(elapsed: nat) | CallRecord(t: nat) | CallSnapshot(t: nat) | Next(t: nat)

  function Init(goroutines: nat, now: int): State {
    State(now, None, 0, ZERO_TIME, seq(goroutines, _ => Idle), [], [])
  }

  function Moment(stamp: Option<int>, clock: int): int {
    if stamp.Some? then stamp.value else clock
  }

  function At(s: State, t: nat, pc: Pc): State
    requires t < |s.threads|
  {
    s.(threads := s.threads[t := pc])
  }

  function Enter(d: Design, s: State, t: nat, pc: Pc): State
    requires t < |s.threads|
  {
    if !d.locked then At(s, t, pc)
    else if s.lock.None? then At(s.(lock := Some(t)), t, pc)
    else s
  }

  function NextStep(d: Design, s: State, t: nat): State
    requires t < |s.threads|
  {
    match s.threads[t]
    case Idle => s
    case WantsRecord(stamp) => Enter(d, s, t, InRecord(stamp))
    case InRecord(stamp) => At(s.(calls := s.calls + 1), t, Counted(stamp))
    case Counted(stamp) =>
      At(s.(lastAnswered := Moment(stamp, s.clock), answers := s.answers + [s.clock]), t, Leaving)
    case WantsSnapshot(stamp) => Enter(d, s, t, InSnapshot(stamp))
    case InSnapshot(stamp) =>
      var h := if s.calls == 0 then OriginHistory(0, 0)
               else OriginHistory(s.calls, Moment(stamp, s.clock) - s.lastAnswered);
      At(s.(observed := s.observed + [Observation(h, s.answers, s.clock)]), t, Leaving)
    case Leaving => At(if d.locked then s.(lock := None) else s, t, Idle)
  }

  function Step(d: Design, s: State, a: Action): State {
    var stamp := if d.earlyClock then Some(s.clock) else None;
    match a
    case Tick(elapsed) => s.(clock := s.clock + elapsed)
    case CallRecord(t) =>
      if t < |s.threads| && s.threads[t].Idle? then At(s, t, WantsRecord(stamp)) else s
    case CallSnapshot(t) =>
      if t < |s.threads| && s.threads[t].Idle? then At(s, t, WantsSnapshot(stamp)) else s
    case Next(t) => if t < |s.threads| then NextStep(d, s, t) else s
  }

  function Run(d: Design, s: State, actions: seq<Action>): State
    decreases |actions|
  {
    if actions == [] then s else Run(d, Step(d, s, actions[0]), actions[1..])
  }

  /** The snapshot is one that a sequential client could have taken, and its age is not negative. */
  predicate Sequential(o: Observation) {
    && o.history == HistoryOf(o.answers, o.at)
    && o.history.sinceLastAnswer >= 0
  }

  predicate AllSequential(s: State) {
    forall o :: o in s.observed ==> Sequential(o)
  }

  // ---- the design as written keeps it ----

  predicate Inside(pc: Pc) {
    pc.InRecord? || pc.Counted? || pc.InSnapshot? || pc.Leaving?
  }

  predicate Unstamped(pc: Pc) {
    pc.Idle? || pc.Leaving? || pc.stamp.None?
  }

  /** Only the holder is inside, and only between its two writes do count and moment disagree. */
  predicate Safe(s: State) {
    && (forall t :: 0 <= t < |s.threads| ==> (Inside(s.threads[t]) <==> s.lock == Some(t)) && Unstamped(s.threads[t]))
    && (s.lock.Some? ==> s.lock.value < |s.threads|)
    && s.calls == |s.answers| + (if s.lock.Some? && s.threads[s.lock.value].Counted? then 1 else 0)
    && (s.answers != [] ==> s.lastAnswered == s.answers[|s.answers| - 1] <= s.clock)
    && AllSequential(s)
  }

  lemma NextKeepsSafe(s: State, t: nat)
    requires Safe(s) && t < |s.threads|
    ensures Safe(NextStep(Design(true, false), s, t))
  {
    match s.threads[t]
    case Idle =>
    case WantsRecord(stamp) =>
    case InRecord(stamp) => assert s.lock == Some(t);
    case Counted(stamp) => assert s.lock == Some(t);
    case WantsSnapshot(stamp) =>
    case InSnapshot(stamp) => assert s.lock == Some(t);
    case Leaving => assert s.lock == Some(t);
  }

  lemma StepKeepsSafe(s: State, a: Action)
    requires Safe(s)
    ensures Safe(Step(Design(true, false), s, a))
  {
    if a.Next? && a.t < |s.threads| {
      NextKeepsSafe(s, a.t);
    } else {
      hide NextStep;
    }
  }

  lemma {:induction false} RunKeepsSafe(s: State, actions: seq<Action>)
    requires Safe(s)
    ensures Safe(Run(Design(true, false), s, actions))
    decreases |actions|
  {
    if actions != [] {
      StepKeepsSafe(s, actions[0]);
      RunKeepsSafe(Step(Design(true, false), s, actions[0]), actions[1..]);
    }
  }

  // ---- the designs the comments reject ----

  /** Two atomics and no lock: a reader between the two writes counts an answer without a moment. */
  lemma UnlockedTrace(early: bool, now: int) returns (actions: seq<Action>)
    ensures var s := Run(Design(false, early), Init(2, now), actions);
      && !AllSequential(s)
      && exists o :: o in s.observed && o.history.completedCalls > 0 && o.answers == []
  {
    var d := Design(false, early);
    var s0 := Init(2, now);
    var s1 := Step(d, s0, CallRecord(0));
    var s2 := Step(d, s1, Next(0));
    var s3 := Step(d, s2, Next(0));
    var s4 := Step(d, s3, CallSnapshot(1));
    var s5 := Step(d, s4, Next(1));
    var s6 := Step(d, s5, Next(1));
    assert s6.observed[0].history.completedCalls == 1 && s6.observed[0].answers == [];
    assert s6.observed[0] in s6.observed;
    actions := [CallRecord(0), Next(0), Next(0), CallSnapshot(1), Next(1), Next(1)];
    RunOf(d, [s0, s1, s2, s3, s4, s5, s6], actions);
  }

  /** A clock read before locking: an answer in between makes the age negative. */
  lemma EarlyClockTrace(now: int) returns (actions: seq<Action>)
    ensures var s := Run(Design(true, true), Init(2, now), actions);
      && !AllSequential(s)
      && exists o :: o in s.observed && o.history.sinceLastAnswer < 0
  {
    var d := Design(true, true);
    var s0 := Init(2, now);
    var s1 := Step(d, s0, CallSnapshot(0));
    var s2 := Step(d, s1, Tick(1));
    var s3 := Step(d, s2, CallRecord(1));
    var s4 := Step(d, s3, Next(1));
    var s5 := Step(d, s4, Next(1));
    var s6 := Step(d, s5, Next(1));
    var s7 := Step(d, s6, Next(1));
    var s8 := Step(d, s7, Next(0));
    var s9 := Step(d, s8, Next(0));
    assert s9.observed[0].history == OriginHistory(1, -1);
    assert s9.observed[0] in s9.observed;
    actions := [CallSnapshot(0), Tick(1), CallRecord(1), Next(1), Next(1), Next(1), Next(1), Next(0), Next(0)];
    RunOf(d, [s0, s1, s2, s3, s4, s5, s6, s7, s8, s9], actions);
  }

  lemma {:induction false} RunOf(d: Design, states: seq<State>, actions: seq<Action>)
    requires |states| == |actions| + 1
    requires forall i :: 0 <= i < |actions| ==> states[i + 1] == Step(d, states[i], actions[i])
    ensures Run(d, states[0], actions) == states[|actions|]
    decreases |actions|
  {
    if actions != [] { RunOf(d, states[1..], actions[1..]); }
  }

  /**
   Of the four designs, exactly the one as written keeps every snapshot of every run, by any number
   of goroutines over any clock that does not go back, equal to a sequential history.
   */
  lemma OnlyLockAndLateClock(d: Design)
    ensures (forall n, now, actions :: AllSequential(Run(d, Init(n, now), actions)))
       <==> d.locked && !d.earlyClock
  {
    if d.locked && !d.earlyClock {
      forall n, now, actions ensures AllSequential(Run(d, Init(n, now), actions)) {
        RunKeepsSafe(Init(n, now), actions);
      }
    } else if !d.locked {
      var actions := UnlockedTrace(d.earlyClock, 0);
    } else {
      var actions := EarlyClockTrace(0);
    }
  }

  /**
   What the design as written reports, in any run: as many calls as answers recorded by then, and the
   time since the last of them, which is never negative; nothing before the first.
   */
  lemma EverySnapshotIs(goroutines: nat, now: int, actions: seq<Action>, o: Observation)
    requires o in Run(Design(true, false), Init(goroutines, now), actions).observed
    ensures o.history.completedCalls == |o.answers|
    ensures |o.answers| == 0 ==> o.history.sinceLastAnswer == 0
    ensures |o.answers| > 0 ==> o.history.sinceLastAnswer == o.at - o.answers[|o.answers| - 1] >= 0
  {
    RunKeepsSafe(Init(goroutines, now), actions);
  }
}
