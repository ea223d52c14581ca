/**
 One attempt at a request: its cancellable context, its timer and the body it may leave open
 (sdk/go/client.go:373-422 and 506-518), with what package context and package time contribute.

 Timer, caller and transport run concurrently with the attempt. Everything they can do to it is an
 EnvEvent, and a timer that expires needs two of them: expiring (from then on Stop is too late) and
 running its function, which cancels.
 */
module Attempts {
  import opened Options
  import opened Sequences
  import opened RetryPolicy

  // ---- the state of one attempt, and everything that can happen to it ----

  datatype CtxError = Canceled | DeadlineExceeded

  /** A finished caller context: its Err(), and whether its Cause is DeadlineExceeded. */
  datatype Done = Done(err: CtxError, isDeadline: bool)

  datatype Actor = ByCaller | ByTimer | ByRelease

  /** What cancelled an attempt. The program can read isDeadline; the actor it cannot see. */
  datatype Cancellation = Cancellation(isDeadline: bool, actor: Actor)

  datatype TimerState = Armed | Firing | Fired | Stopped

  datatype Attempt = Attempt(caller: Option<Done>, cancelled: Option<Cancellation>, timer: TimerState)

  datatype EnvEvent = CallerCancels(done: Done) | Propagates | TimerExpires | TimerCancels

  datatype Event = Env(e: EnvEvent) | CloseBody

  datatype Kind = Unary | Stream | Bytes

  /** The first cancellation wins. */
  function Cancel(a: Attempt, c: Cancellation): Attempt {
    if a.cancelled.Some? then a else a.(cancelled := Some(c))
  }

  function Started(caller: Option<Done>): Attempt {
    var a := Attempt(caller, None, Armed);
    if caller.Some? then Cancel(a, Cancellation(caller.value.isDeadline, ByCaller)) else a
  }

  function EnvStep(a: Attempt, e: EnvEvent): Attempt {
    match e
    case CallerCancels(done) => if a.caller.Some? then a else a.(caller := Some(done))
    case Propagates =>
      if a.caller.Some? then Cancel(a, Cancellation(a.caller.value.isDeadline, ByCaller)) else a
    case TimerExpires => if a.timer == Armed then a.(timer := Firing) else a
    case TimerCancels =>
      if a.timer == Firing then Cancel(a.(timer := Fired), Cancellation(true, ByTimer)) else a
  }

  function StopTimer(a: Attempt): Attempt {
    if a.timer == Armed then a.(timer := Stopped) else a
  }

  function AtHeaders(a: Attempt, stopOnHeaders: bool): Attempt {
    if stopOnHeaders then StopTimer(a) else a
  }

  function Released(a: Attempt): Attempt {
    Cancel(StopTimer(a), Cancellation(false, ByRelease))
  }

  function RunEnv(a: Attempt, es: seq<EnvEvent>): Attempt
    decreases |es|
  {
    if es == [] then a else RunEnv(EnvStep(a, es[0]), es[1..])
  }

  function Step(a: Attempt, event: Event): Attempt {
    match event
    case Env(e) => EnvStep(a, e)
    case CloseBody => Released(a)
  }

  function Run(a: Attempt, events: seq<Event>): Attempt
    decreases |events|
  {
    if events == [] then a else Run(Step(a, events[0]), events[1..])
  }

  /** Holds in every reachable state. */
  predicate Consistent(a: Attempt) {
    && (a.timer == Fired ==> a.cancelled.Some?)
    && (a.cancelled.Some? ==>
          match a.cancelled.value.actor
          case ByCaller => a.caller.Some? && a.cancelled.value.isDeadline == a.caller.value.isDeadline
          case ByTimer => a.cancelled.value.isDeadline && a.timer == Fired
          case ByRelease => a.timer != Armed)
  }

  /** Whatever has cancelled it, it was not its own release. */
  predicate Unreleased(a: Attempt) {
    Consistent(a) && (a.cancelled.Some? ==> a.cancelled.value.actor != ByRelease)
  }

  /** b is reached from a by the environment alone. */
  ghost predicate Evolves(a: Attempt, b: Attempt) {
    exists es: seq<EnvEvent> :: b == RunEnv(a, es)
  }

  lemma EvolvesBy(a: Attempt, es: seq<EnvEvent>)
    ensures Evolves(a, RunEnv(a, es))
  {}

  /** Cancellation is for good, and the environment neither releases nor starts nor stops timers. */
  predicate Later(a: Attempt, b: Attempt) {
    && (a.timer == Stopped <==> b.timer == Stopped)
    && (a.timer != Armed ==> b.timer != Armed)
    && (a.caller.Some? ==> b.caller == a.caller)
    && (a.cancelled.Some? ==> b.cancelled == a.cancelled)
    && (a.cancelled.None? && b.cancelled.Some? ==> b.cancelled.value.actor != ByRelease)
  }

  lemma {:induction false} RunEnvKeeps(a: Attempt, es: seq<EnvEvent>)
    requires Consistent(a)
    ensures Consistent(RunEnv(a, es)) && Later(a, RunEnv(a, es))
    decreases |es|
  {
    if es != [] { RunEnvKeeps(EnvStep(a, es[0]), es[1..]); }
  }

  /**
   Attribution under every interleaving. The attempt starts, things happen, the transport fails and
   the cause is read; things happen, the attempt is released, things happen, and the caller's Err()
   is read. If the caller is still live then, a DeadlineExceeded cause is the timer's and a timer's
   cancellation is a DeadlineExceeded cause: although a caller's own deadline leaves the same cause. If
   the caller was done before the attempt, the attempt never runs under anything but its cancellation.
   */
  lemma {:induction false} ExpiryUnderALiveCaller(
    caller: Option<Done>, before: seq<EnvEvent>, between: seq<EnvEvent>, after: seq<EnvEvent>)
    ensures
      var failed := RunEnv(Started(caller), before);
      var checked := RunEnv(Released(RunEnv(failed, between)), after);
      && (checked.caller.None? && failed.cancelled.Some? ==> failed.cancelled.value == Cancellation(true, ByTimer))
      && (caller.Some? ==> failed.cancelled == Some(Cancellation(caller.value.isDeadline, ByCaller)))
  {
    var failed := RunEnv(Started(caller), before);
    RunEnvKeeps(Started(caller), before);
    RunEnvKeeps(failed, between);
    RunEnvKeeps(Released(RunEnv(failed, between)), after);
  }

  // ---- what the deadline bounds ----

  predicate CutByTimer(a: Attempt) {
    a.cancelled.Some? && a.cancelled.value.actor == ByTimer
  }

  lemma {:induction false} DisarmedStaysUncut(a: Attempt, events: seq<Event>)
    requires a.timer == Stopped && !CutByTimer(a)
    ensures Run(a, events).timer == Stopped && !CutByTimer(Run(a, events))
    decreases |events|
  {
    if events != [] { DisarmedStaysUncut(Step(a, events[0]), events[1..]); }
  }

  lemma RunOne(a: Attempt, event: Event)
    ensures Run(a, [event]) == Step(a, event)
  {
    assert Run(a, [event]) == Run(Step(a, event), [event][1..]);
  }

  /**
   A stream outlives its deadline: once the headers are in, the timer can still cut it if and only
   if it had already expired when headersReceived ran.
   */
  lemma StreamOutlivesDeadline(a: Attempt)
    requires Consistent(a) && a.cancelled.None? && a.timer != Stopped
    ensures (exists events: seq<Event> :: CutByTimer(Run(AtHeaders(a, true), events))) <==> a.timer == Firing
  {
    var h := AtHeaders(a, true);
    if a.timer == Firing {
      RunOne(h, Env(TimerCancels));
      assert CutByTimer(Run(h, [Env(TimerCancels)]));
    } else {
      forall events: seq<Event> ensures !CutByTimer(Run(h, events)) {
        DisarmedStaysUncut(h, events);
      }
    }
  }

  lemma {:induction false} OpenBodyKeepsTimer(a: Attempt, events: seq<Event>)
    requires CloseBody !in events && a.timer != Stopped && Consistent(a)
    ensures Run(a, events).timer != Stopped && Consistent(Run(a, events))
    decreases |events|
  {
    if events != [] { OpenBodyKeepsTimer(Step(a, events[0]), events[1..]); }
  }

  /**
   A unary or bytes attempt keeps its deadline over the body: headers change nothing, and however
   long the body stays open, the timer can still go off and the attempt is then cancelled, by that
   very timer unless the caller was first.
   */
  lemma BodyStaysBounded(a: Attempt, events: seq<Event>)
    requires Consistent(a) && a.timer != Stopped && a.cancelled.None? && CloseBody !in events
    ensures AtHeaders(a, false) == a
    ensures var b := Run(Run(a, events), [Env(TimerExpires), Env(TimerCancels)]);
      b.cancelled.Some? && (b.caller.None? ==> b.cancelled.value == Cancellation(true, ByTimer))
  {
    OpenBodyKeepsTimer(a, events);
    NotReleasedWhileOpen(a, events);
    var b := Run(a, events);
    var c, d := EnvStep(b, TimerExpires), EnvStep(EnvStep(b, TimerExpires), TimerCancels);
    assert [Env(TimerExpires), Env(TimerCancels)][1..] == [Env(TimerCancels)];
    assert Run(c, [Env(TimerCancels)]) == Run(d, []);
  }

  lemma {:induction false} NotReleasedWhileOpen(a: Attempt, events: seq<Event>)
    requires CloseBody !in events && (a.cancelled.Some? ==> a.cancelled.value.actor != ByRelease)
    ensures Run(a, events).cancelled.Some? ==> Run(a, events).cancelled.value.actor != ByRelease
    decreases |events|
  {
    if events != [] { NotReleasedWhileOpen(Step(a, events[0]), events[1..]); }
  }

  /** After release nothing reaches the attempt any more: no timer is left to expire. */
  lemma {:induction false} ReleaseIsFinal(a: Attempt, events: seq<Event>)
    ensures Run(Released(a), events).cancelled == Released(a).cancelled
    ensures Released(a).cancelled == if a.cancelled.None? then Some(Cancellation(false, ByRelease)) else a.cancelled
    ensures Run(Released(a), events).timer != Armed
    ensures Released(Released(a)) == Released(a)
  {
    ReleaseIsFinalFrom(Released(a), events);
  }

  lemma {:induction false} ReleaseIsFinalFrom(a: Attempt, events: seq<Event>)
    requires a.cancelled.Some? && a.timer != Armed
    ensures Run(a, events).cancelled == a.cancelled && Run(a, events).timer != Armed
    decreases |events|
  {
    if events != [] { ReleaseIsFinalFrom(Step(a, events[0]), events[1..]); }
  }

  // ---- the objects ----

  class CallerContext {
    var done: Option<Done>

    /** ctx.Err(), on the record. */
    method Err(ledger: Ledger) returns (err: Option<CtxError>)
      modifies ledger
      ensures err == if done.Some? then Some(done.value.err) else None
      ensures ledger.log == old(ledger.log) + [CallerRead(err)]
      ensures ledger.deadlines == old(ledger.deadlines) && ledger.bodies == old(ledger.bodies)
    {
      err := if done.Some? then Some(done.value.err) else None;
      ledger.log := ledger.log + [CallerRead(err)];
    }

    /**
     A timer of `wait` against ctx.Done(), until one of them is ready; when this returns, both may be.
     On the record.
     */
    method Race(wait: int, ledger: Ledger) returns (ranOut: bool)
      modifies this, ledger
      ensures old(done).Some? ==> done == old(done)
      ensures !ranOut ==> done.Some?
      ensures ledger.log == old(ledger.log) + [Paused(wait, ranOut, done)]
      ensures ledger.deadlines == old(ledger.deadlines) && ledger.bodies == old(ledger.bodies)
    {
      ranOut := *;
      var gaveUp: bool, end: Done := *, *;
      if done.None? && (gaveUp || !ranOut) {
        done := Some(end);
      }
      ledger.log := ledger.log + [Paused(wait, ranOut, done)];
    }
  }

  /** How a body was left: what had been read of it, how that ended if it did, and its attempt by then. */
  datatype Closing = Closing(read: string, end: Option<ReadError>, attempt: Attempt)

  /** What such a reading can be of a body that holds `content`: all of it, or a part, and why. */
  predicate Received(c: Closing, content: string) {
    && c.read <= content && (c.end == Some(EOF) ==> c.read == content)
    && (c.end.Some? && c.end.value.Cut? ==> c.attempt.cancelled == Some(c.end.value.cancellation))
  }

  /**
   What a call met of its surroundings: a request that could not be built; a transport failure and
   whether the caller had given up by then; the cause of the attempt's end and the caller's error, as
   they were when the client read them; a response; the state in which headersReceived found the timer;
   a body closed; a wait, whether its timer had run out when one of the two was ready, and how the
   caller stood then.
   */
  datatype LogEntry =
    | BuildRefused
    | NoAnswer(callerThen: Option<Done>)
    | CauseRead(seen: Option<Cancellation>)
    | CallerRead(err: Option<CtxError>)
    | Answer(status: int, retryAfter: RetryAfter, content: string)
    | HeadersIn(found: TimerState)
    | BodyClosed(closing: Closing)
    | Paused(wait: int, ranOut: bool, callerThen: Option<Done>)

  /** What is live (attempts not released, bodies not closed), and all the call met. */
  class Ledger {
    ghost var deadlines: set<AttemptDeadline>
    ghost var bodies: set<ResponseBody>
    ghost var log: seq<LogEntry>
  }

  class AttemptDeadline {
    const ctx: CallerContext
    const ledger: Ledger
    const stopOnHeaders: bool
    var cancelled: Option<Cancellation>
    var timer: TimerState

    function State(): Attempt
      reads this, ctx
    {
      Attempt(ctx.done, cancelled, timer)
    }

    /** startAttempt. No other attempt of the same ledger may be live. */
    constructor Start(ctx: CallerContext, kind: Kind, ledger: Ledger)
      requires ledger.deadlines == {}
      modifies ledger
      ensures this.ctx == ctx && this.ledger == ledger && stopOnHeaders == (kind == Stream)
      ensures State() == Started(ctx.done)
      ensures ledger.deadlines == {this}
      ensures ledger.bodies == old(ledger.bodies) && ledger.log == old(ledger.log)
    {
      this.ctx, this.ledger, this.stopOnHeaders := ctx, ledger, kind == Stream;
      cancelled := if ctx.done.Some? then Some(Cancellation(ctx.done.value.isDeadline, ByCaller)) else None;
      timer := Armed;
      new;
      ledger.deadlines := {this};
    }

    /** headersReceived, on the record. */
    method HeadersReceived()
      modifies this, ledger
      ensures State() == AtHeaders(old(State()), stopOnHeaders)
      ensures ledger.log == old(ledger.log) + [HeadersIn(old(timer))]
      ensures ledger.deadlines == old(ledger.deadlines) && ledger.bodies == old(ledger.bodies)
    {
      ledger.log := ledger.log + [HeadersIn(timer)];
      if stopOnHeaders && timer == Armed { timer := Stopped; }
    }

    method Release()
      modifies this, ledger
      ensures State() == Released(old(State()))
      ensures ledger.deadlines == old(ledger.deadlines) - {this}
      ensures ledger.bodies == old(ledger.bodies) && ledger.log == old(ledger.log)
    {
      if timer == Armed { timer := Stopped; }
      if cancelled.None? { cancelled := Some(Cancellation(false, ByRelease)); }
      ledger.deadlines := ledger.deadlines - {this};
    }

    /** errors.Is(context.Cause(d.ctx), context.DeadlineExceeded), on the record. */
    method Expired() returns (yes: bool)
      modifies ledger
      ensures yes == (cancelled.Some? && cancelled.value.isDeadline)
      ensures ledger.log == old(ledger.log) + [CauseRead(cancelled)]
      ensures ledger.deadlines == old(ledger.deadlines) && ledger.bodies == old(ledger.bodies)
    {
      yes := cancelled.Some? && cancelled.value.isDeadline;
      ledger.log := ledger.log + [CauseRead(cancelled)];
    }

    method Happen(es: seq<EnvEvent>)
      requires Consistent(State())
      modifies this, ctx
      ensures State() == RunEnv(old(State()), es)
      ensures Consistent(State()) && Later(old(State()), State())
    {
      RunEnvKeeps(State(), es);
      var after := RunEnv(State(), es);
      ctx.done, cancelled, timer := after.caller, after.cancelled, after.timer;
    }

    /** Time passes: the environment takes any number of steps. */
    method Interfere()
      requires Consistent(State())
      modifies this, ctx
      ensures Evolves(old(State()), State())
      ensures Consistent(State()) && Later(old(State()), State())
    {
      var es: seq<EnvEvent> := *;
      EvolvesBy(State(), es);
      Happen(es);
    }

    /**
     Time passes until something has cancelled the attempt: the timer unless it was stopped, or the
     caller. (If neither ever does, this does not return.)
     */
    method Await()
      requires Consistent(State())
      modifies this, ctx
      ensures Consistent(State()) && Later(old(State()), State()) && cancelled.Some?
    {
      Interfere();
      if cancelled.None? {
        var done: Done := *;
        var es := if timer == Stopped then [CallerCancels(done), Propagates] else [TimerExpires, TimerCancels];
        CancelledByTwo(State(), done);
        Happen(es);
      }
    }
  }

  lemma CancelledByTwo(a: Attempt, done: Done)
    requires Consistent(a)
    ensures RunEnv(a, [CallerCancels(done), Propagates]).cancelled.Some?
    ensures a.timer != Stopped ==> RunEnv(a, [TimerExpires, TimerCancels]).cancelled.Some?
  {
    assert [CallerCancels(done), Propagates][1..] == [Propagates];
    assert RunEnv(EnvStep(a, CallerCancels(done)), [Propagates])
        == RunEnv(EnvStep(EnvStep(a, CallerCancels(done)), Propagates), []);
    assert [TimerExpires, TimerCancels][1..] == [TimerCancels];
    assert RunEnv(EnvStep(a, TimerExpires), [TimerCancels])
        == RunEnv(EnvStep(EnvStep(a, TimerExpires), TimerCancels), []);
  }

  /** How a body ends. A reading is Cut by whatever has cancelled the attempt. */
  datatype ReadError = EOF | Failed(code: int) | Cut(cancellation: Cancellation)

  const READ_AFTER_CLOSE := Failed(0)

  function Concat(chunks: seq<string>): string {
    if chunks == [] then "" else chunks[0] + Concat(chunks[1..])
  }

  function FirstBytes(s: string, limit: nat): string {
    if |s| <= limit then s else s[..limit]
  }

  /**
   A response body: the chunks on their way and what follows them, which for a body that never ends by
   itself is nothing. Reading it is part of its attempt. Once the attempt is cancelled a read may still
   get what has already arrived, or fail, and then every later one does.
   */
  class ResponseBody {
    const deadline: AttemptDeadline
    const ending: Option<ReadError>
    ghost const content: string
    var arriving: seq<string>
    var ended: Option<ReadError>
    var closed: bool
    ghost var read: string

    ghost predicate Valid()
      reads this, deadline, deadline.ctx
    {
      && content == read + Concat(arriving) && Consistent(deadline.State())
      && (ending.Some? ==> !ending.value.Cut?)
      && (ended.Some? ==>
            if ended.value.Cut? then deadline.cancelled == Some(ended.value.cancellation) else arriving == [] && ended == ending)
    }

    constructor Open(arriving: seq<string>, ending: Option<ReadError>, deadline: AttemptDeadline)
      requires deadline.ledger.bodies == {} && Consistent(deadline.State())
      requires ending.Some? ==> !ending.value.Cut?
      modifies deadline.ledger
      ensures Valid() && this.deadline == deadline && this.ending == ending
      ensures content == Concat(arriving) && read == "" && ended == None && !closed
      ensures deadline.ledger.bodies == {this}
      ensures deadline.ledger.deadlines == old(deadline.ledger.deadlines) && deadline.ledger.log == old(deadline.ledger.log)
    {
      this.arriving, this.ending, this.deadline := arriving, ending, deadline;
      ended, closed, read, content := None, false, "", Concat(arriving);
      new;
      deadline.ledger.bodies := {this};
    }

    /** How a read fails from now on, if reading has come to an end. */
    function End(): Option<ReadError>
      reads this
    {
      if closed then Some(READ_AFTER_CLOSE) else ended
    }

    ghost function Left(): Closing
      reads this, deadline, deadline.ctx
    {
      Closing(read, ended, deadline.State())
    }

    method Read() returns (chunk: string, err: Option<ReadError>)
      requires Valid()
      modifies this, deadline, deadline.ctx
      ensures Valid() && Later(old(deadline.State()), deadline.State()) && closed == old(closed)
      ensures read == old(read) + chunk
      ensures err == End() && (err.Some? ==> chunk == "")
      ensures old(End()).Some? ==> End() == old(End()) && ended == old(ended)
      ensures err.None? ==> |arriving| < |old(arriving)|
    {
      deadline.Interfere();
      if closed {
        return "", Some(READ_AFTER_CLOSE);
      }
      if ended.None? && deadline.cancelled.Some? {
        if * {
          ended := Some(Cut(deadline.cancelled.value));
        }
      }
      if ended.None? && arriving == [] {
        if ending.Some? {
          ended := ending;
        } else {
          deadline.Await();
          ended := Some(Cut(deadline.cancelled.value));
        }
      }
      if ended.Some? {
        return "", ended;
      }
      chunk, err := arriving[0], None;
      Assoc(read, chunk, Concat(arriving[1..]));
      arriving, read := arriving[1..], read + chunk;
    }

    /** io.ReadAll: everything up to the end, and the error unless the end is EOF. */
    method ReadAll() returns (bytes: string, err: Option<ReadError>)
      requires Valid()
      modifies this, deadline, deadline.ctx
      ensures Valid() && Later(old(deadline.State()), deadline.State()) && closed == old(closed)
      ensures read == old(read) + bytes && End().Some?
      ensures err == if End() == Some(EOF) then None else End()
    {
      hide Concat, Received;
      bytes := "";
      while true
        invariant Valid() && Later(old(deadline.State()), deadline.State()) && closed == old(closed)
        invariant read == old(read) + bytes
        decreases |arriving|
      {
        var chunk, e := Read();
        bytes := bytes + chunk;
        if e.Some? {
          err := if e.value == EOF then None else e;
          return;
        }
      }
    }

    /** io.ReadAll of an io.LimitReader, the error dropped. */
    method ReadAtMost(limit: nat) returns (bytes: string)
      requires Valid() && read == ""
      modifies this, deadline, deadline.ctx
      ensures Valid() && Later(old(deadline.State()), deadline.State()) && closed == old(closed)
      ensures bytes == FirstBytes(read, limit) && (|read| < limit ==> End().Some?)
    {
      hide Concat;
      bytes := "";
      var over := false;
      while |bytes| < limit && !over
        invariant Valid() && Later(old(deadline.State()), deadline.State()) && closed == old(closed)
        invariant read == bytes && (over ==> End().Some?)
        decreases !over, |arriving|
      {
        var chunk, e := Read();
        bytes := bytes + chunk;
        over := e.Some?;
      }
      bytes := FirstBytes(bytes, limit);
    }

    /** The connection is given back, on the record. */
    method Close()
      requires Valid()
      modifies this, deadline.ledger
      ensures closed && read == old(read) && ended == old(ended) && Valid()
      ensures deadline.ledger.bodies == old(deadline.ledger.bodies) - {this}
      ensures deadline.ledger.deadlines == old(deadline.ledger.deadlines)
      ensures deadline.ledger.log == old(deadline.ledger.log) + [BodyClosed(Left())]
      ensures Received(Left(), content)
    {
      closed := true;
      deadline.ledger.bodies := deadline.ledger.bodies - {this};
      deadline.ledger.log := deadline.ledger.log + [BodyClosed(Left())];
      assert ended == Some(EOF) ==> read + Concat([]) == read;
    }
  }

  /** Ties a body's lifetime to its attempt. */
  class CancellingBody {
    const inner: ResponseBody
    const deadline: AttemptDeadline

    constructor (inner: ResponseBody, deadline: AttemptDeadline)
      ensures this.inner == inner && this.deadline == deadline
    {
      this.inner, this.deadline := inner, deadline;
    }

    /** `left` is how the body was closed, `last` its attempt when it was released. */
    method Close() returns (ghost left: Closing, ghost last: Attempt)
      requires inner.Valid() && inner.deadline == deadline
      modifies inner, deadline, deadline.ctx, deadline.ledger
      ensures inner.Valid() && inner.closed && inner.read == old(inner.read) && inner.ended == old(inner.ended)
      ensures left.read == inner.read && left.end == inner.ended && Received(left, inner.content)
      ensures Later(old(deadline.State()), left.attempt) && Later(left.attempt, last)
      ensures Consistent(left.attempt) && deadline.State() == Released(last)
      ensures deadline.ledger.bodies == old(deadline.ledger.bodies) - {inner}
      ensures deadline.ledger.deadlines == old(deadline.ledger.deadlines) - {deadline}
      ensures deadline.ledger.log == old(deadline.ledger.log) + [BodyClosed(left)]
    {
      hide Concat;
      deadline.Interfere();
      inner.Close();
      left := inner.Left();
      deadline.Interfere();
      last := deadline.State();
      deadline.Release();
    }
  }
}
