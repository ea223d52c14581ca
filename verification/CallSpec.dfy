/**
 What one call of `do` amounts to (sdk/go/client.go:424-483), as a function of what its attempts
 met: transport, timer, caller and deployment decide the outcomes, the policy decides the rest.
 */
module CallSpec {
  import opened Options
  import opened Sequences
  import opened Attempts
  import opened RetryPolicy

  datatype Failure =
    | BuildError
    | CallerError(err: CtxError)
    | TimeoutError
    | ConnectionError
    | ApiError(status: int, body: string)

  datatype Verdict = Accepted(status: int) | Rejected(failure: Failure)

  /**
   A backoff. When one of the two was ready, its timer had run out or not, and the caller had given up
   or not; `woken` is the caller's error if that is what ended it.
   */
  datatype Pause = Pause(ranOut: bool, caller: Option<Done>, woken: Option<CtxError>)

  /**
   What one attempt met. Without a response: `callerThen`, how the caller had ended when the transport
   failed; `seen`, what had cancelled the attempt when the client asked; `callerErr`, the caller's Err()
   read after that. With one: what its body holds, and either the state `found` of the timer when the
   response is accepted, or how the body was left when it is refused. `draw` and `pause` are the jitter
   and the course of the backoff, if one follows.
   */
  datatype Outcome =
    | NotBuilt
    | NoResponse(callerThen: Option<Done>, seen: Option<Cancellation>, callerErr: Option<CtxError>,
                 draw: Draw, pause: Pause)
    | Answered(status: int, retryAfter: RetryAfter, content: string, found: TimerState, left: Closing,
               draw: Draw, pause: Pause)

  /** Of a body that is none of this outcome's. */
  const UNREAD := Closing("", None, Attempt(None, None, Armed))

  const BODY_LIMIT := 0x10_0000

  /** The policy asks for another attempt after a wait. */
  predicate BacksOff(verb: string, retries: int, i: nat, o: Outcome) {
    && i < retries && Idempotent(verb)
    && match o
       case NotBuilt => false
       case NoResponse(_, _, callerErr, _, _) => callerErr.None?
       case Answered(status, _, _, _, _, _, _) => RetriableStatus(status)
  }

  predicate Repeats(verb: string, retries: int, i: nat, o: Outcome) {
    BacksOff(verb, retries, i, o) && o.pause.woken.None?
  }

  /** What the call returns if this outcome is its last. */
  function Image(verb: string, retries: int, i: nat, o: Outcome): Verdict {
    if BacksOff(verb, retries, i, o) && o.pause.woken.Some? then Rejected(CallerError(o.pause.woken.value))
    else
      match o
      case NotBuilt => Rejected(BuildError)
      case NoResponse(_, seen, callerErr, _, _) =>
        if callerErr.Some? then Rejected(CallerError(callerErr.value))
        else if seen.Some? && seen.value.isDeadline then Rejected(TimeoutError)
        else Rejected(ConnectionError)
      case Answered(status, _, _, _, left, _, _) =>
        if status < 400 then Accepted(status)
        else Rejected(ApiError(status, FirstBytes(left.read, BODY_LIMIT)))
  }

  /** A complete call: every outcome but the last is repeated, and the last gives the verdict. */
  ghost predicate IsCall(verb: string, retries: int, outcomes: seq<Outcome>, v: Verdict) {
    && outcomes != []
    && (forall i :: 0 <= i < |outcomes| - 1 ==> Repeats(verb, retries, i, outcomes[i]))
    && var last := |outcomes| - 1;
       !Repeats(verb, retries, last, outcomes[last]) && v == Image(verb, retries, last, outcomes[last])
  }

  /**
   What the interplay of contexts and timers allows an attempt to meet. Without a response: the
   caller's cancellation is visible in its Err() from then on, the timer leaves its own cause, and
   nobody else has cancelled. Of a refusal as much as the limit allows was read, under the attempt's
   deadline, unless the body ended or was cut before. A backoff lasts until its timer runs out or the
   caller gives up; if both are so by the time it looks, either ends it.
   */
  predicate Possible(o: Outcome) {
    match o
    case NotBuilt => true
    case NoResponse(callerThen, seen, callerErr, _, pause) =>
      PossibleFailure(callerThen, seen, callerErr) && PossiblePause(pause)
    case Answered(status, _, content, found, left, _, pause) =>
      && (if status < 400 then found != Stopped
          else Received(left, content) && UnderDeadline(left.attempt) && (|left.read| < BODY_LIMIT ==> left.end.Some?))
      && PossiblePause(pause)
  }

  predicate PossibleFailure(callerThen: Option<Done>, seen: Option<Cancellation>, callerErr: Option<CtxError>) {
    && (callerThen.Some? ==> callerErr == Some(callerThen.value.err))
    && (seen.Some? ==>
          match seen.value.actor
          case ByCaller => callerErr.Some?
          case ByTimer => seen.value.isDeadline
          case ByRelease => false)
  }

  predicate PossiblePause(p: Pause) {
    && (!p.ranOut ==> p.caller.Some? && p.woken.Some?)
    && (p.woken.Some? ==> p.caller.Some? && p.woken.value == p.caller.value.err)
  }

  /** Its deadline has been over it all the time, and it was not released. */
  predicate UnderDeadline(a: Attempt) {
    Unreleased(a) && a.timer != Stopped
  }

  /** Whatever shows up as the caller's is what the caller's context ended with. */
  predicate CallersOwn(o: Outcome, done: Option<Done>) {
    && (o.NoResponse? && o.callerThen.Some? ==> o.callerThen == done)
    && (o.NoResponse? && o.callerErr.Some? ==> done.Some? && o.callerErr.value == done.value.err)
    && (o.Answered? && o.status >= 400 && o.left.attempt.caller.Some? ==> o.left.attempt.caller == done)
    && (!o.NotBuilt? && o.pause.caller.Some? ==> o.pause.caller == done)
  }

  /** What an attempt can meet between two states of its caller's context. */
  predicate Meets(o: Outcome, was: Option<Done>, done: Option<Done>) {
    && Possible(o) && CallersOwn(o, done)
    && (was.Some? ==>
          && done == was
          && (o.NoResponse? ==> o.callerThen == was)
          && (!o.NotBuilt? ==> o.pause.caller == was))
  }

  function WaitAfter(i: nat, o: Outcome): int
    requires !o.NotBuilt?
  {
    if o.Answered? && ParseRetryAfter(o.retryAfter).Some? then ParseRetryAfter(o.retryAfter).value
    else Backoff(i, o.draw)
  }

  /** The backoffs a call asks for, in order. */
  function Waits(verb: string, retries: int, outcomes: seq<Outcome>): seq<int> {
    if outcomes == [] then []
    else
      var i := |outcomes| - 1;
      Waits(verb, retries, outcomes[..i]) + if BacksOff(verb, retries, i, outcomes[i]) then [WaitAfter(i, outcomes[i])] else []
  }

  /** One more attempt, while the caller's context went from `middle` to `done`. */
  lemma MeetsOneMore(outcomes: seq<Outcome>, o: Outcome, was: Option<Done>, middle: Option<Done>, done: Option<Done>)
    requires forall i :: 0 <= i < |outcomes| ==> Meets(outcomes[i], was, middle)
    requires Meets(o, middle, done)
    requires (was.Some? ==> middle == was) && (middle.Some? ==> done == middle)
    ensures forall i :: 0 <= i < |outcomes| + 1 ==> Meets((outcomes + [o])[i], was, done)
  {
    forall i | 0 <= i < |outcomes| ensures Meets(outcomes[i], was, done) {
      assert Meets(outcomes[i], was, middle);
    }
  }

  /** The caller's context may go on from `middle` to `done` after the last attempt. */
  lemma MeetsStill(outcomes: seq<Outcome>, was: Option<Done>, middle: Option<Done>, done: Option<Done>)
    requires forall i :: 0 <= i < |outcomes| ==> Meets(outcomes[i], was, middle)
    requires middle.Some? ==> done == middle
    ensures forall i :: 0 <= i < |outcomes| ==> Meets(outcomes[i], was, done)
  {
    forall i | 0 <= i < |outcomes| ensures Meets(outcomes[i], was, done) {
      assert Meets(outcomes[i], was, middle);
    }
  }

  /** What the surroundings of an attempt have on record about it, up to its backoff. */
  function Encounter(o: Outcome): seq<LogEntry> {
    match o
    case NotBuilt => [BuildRefused]
    case NoResponse(callerThen, seen, callerErr, _, _) =>
      [NoAnswer(callerThen), CauseRead(seen), CallerRead(callerErr)]
    case Answered(status, retryAfter, content, found, left, _, _) =>
      [Answer(status, retryAfter, content), if status < 400 then HeadersIn(found) else BodyClosed(left)]
  }

  function PauseOf(verb: string, retries: int, i: nat, o: Outcome): seq<LogEntry> {
    if BacksOff(verb, retries, i, o) then [Paused(WaitAfter(i, o), o.pause.ranOut, o.pause.caller)] else []
  }

  function LogOf(verb: string, retries: int, i: nat, o: Outcome): seq<LogEntry> {
    Encounter(o) + PauseOf(verb, retries, i, o)
  }

  function Log(verb: string, retries: int, outcomes: seq<Outcome>): seq<LogEntry> {
    if outcomes == [] then []
    else
      var i := |outcomes| - 1;
      Log(verb, retries, outcomes[..i]) + LogOf(verb, retries, i, outcomes[i])
  }

  /**
   `v` is what a call came to that met `outcomes`, while its caller's context went from `was` to `done`
   and its record from `before` to `log`.
   */
  ghost predicate Happened(verb: string, retries: int, outcomes: seq<Outcome>, v: Verdict,
                           was: Option<Done>, done: Option<Done>, before: seq<LogEntry>, log: seq<LogEntry>)
  {
    && IsCall(verb, retries, outcomes, v)
    && (forall i :: 0 <= i < |outcomes| ==> Meets(outcomes[i], was, done))
    && log == before + Log(verb, retries, outcomes)
  }

  function WaitIn(entry: LogEntry): seq<int> {
    if entry.Paused? then [entry.wait] else []
  }

  /** The backoffs of a call are the waits its surroundings recorded. */
  lemma {:induction false} WaitsAreLogged(verb: string, retries: int, outcomes: seq<Outcome>)
    ensures FlatMap(WaitIn, Log(verb, retries, outcomes)) == Waits(verb, retries, outcomes)
  {
    if outcomes != [] {
      var i := |outcomes| - 1;
      WaitsAreLogged(verb, retries, outcomes[..i]);
      FlatMapAppend(WaitIn, Log(verb, retries, outcomes[..i]), LogOf(verb, retries, i, outcomes[i]));
      WaitsInOne(verb, retries, i, outcomes[i]);
    }
  }

  lemma WaitsInOne(verb: string, retries: int, i: nat, o: Outcome)
    ensures FlatMap(WaitIn, LogOf(verb, retries, i, o))
         == if BacksOff(verb, retries, i, o) then [WaitAfter(i, o)] else []
  {
    NoWaitsIn(Encounter(o));
    Units(Encounter(o));
    if BacksOff(verb, retries, i, o) {
      FlatMapAppend(WaitIn, Encounter(o), PauseOf(verb, retries, i, o));
      FlatMapOne(WaitIn, PauseOf(verb, retries, i, o)[0]);
    }
  }

  lemma {:induction false} NoWaitsIn(log: seq<LogEntry>)
    requires forall entry :: entry in log ==> !entry.Paused?
    ensures FlatMap(WaitIn, log) == []
  {
    if log != [] {
      NoWaitsIn(log[1..]);
    }
  }

  function Answers(outcomes: seq<Outcome>): nat {
    if outcomes == [] then 0
    else Answers(outcomes[..|outcomes| - 1]) + if outcomes[|outcomes| - 1].Answered? then 1 else 0
  }

  lemma OneMore(verb: string, retries: int, outcomes: seq<Outcome>, o: Outcome)
    ensures Log(verb, retries, outcomes + [o]) == Log(verb, retries, outcomes) + LogOf(verb, retries, |outcomes|, o)
    ensures Answers(outcomes + [o]) == Answers(outcomes) + if o.Answered? then 1 else 0
  {
    assert (outcomes + [o])[..|outcomes|] == outcomes;
  }

  function Sum(xs: seq<int>): int {
    if xs == [] then 0 else Sum(xs[..|xs| - 1]) + xs[|xs| - 1]
  }

  lemma {:induction false} SumAppend(xs: seq<int>, ys: seq<int>)
    ensures Sum(xs + ys) == Sum(xs) + Sum(ys) && (|ys| == 1 ==> Sum(ys) == ys[0])
  {
    if ys == [] {
      Units(xs);
    } else {
      SumAppend(xs, ys[..|ys| - 1]);
      assert (xs + ys)[..|xs + ys| - 1] == xs + ys[..|ys| - 1];
      assert |ys| == 1 ==> ys[..0] == [];
    }
  }

  // ---- termination, and the one verdict ----

  /** At most retries + 1 attempts, and exactly one for any method but GET, HEAD and DELETE. */
  lemma AttemptsBounded(verb: string, retries: int, outcomes: seq<Outcome>, v: Verdict)
    requires IsCall(verb, retries, outcomes, v)
    ensures 1 <= |outcomes| && (|outcomes| == 1 || |outcomes| <= retries + 1)
    ensures verb !in {"GET", "HEAD", "DELETE"} ==> |outcomes| == 1
  {
    if |outcomes| > 1 {
      assert Repeats(verb, retries, |outcomes| - 2, outcomes[|outcomes| - 2]);
    }
  }

  function Script(outcome: nat -> Outcome, n: nat): seq<Outcome> {
    seq(n, i requires 0 <= i < n => outcome(i))
  }

  lemma FindLast(verb: string, retries: int, outcome: nat -> Outcome, from: nat) returns (last: nat)
    requires forall i :: 0 <= i < from ==> Repeats(verb, retries, i, outcome(i))
    ensures !Repeats(verb, retries, last, outcome(last))
    ensures forall i :: 0 <= i < last ==> Repeats(verb, retries, i, outcome(i))
    decreases retries - from
  {
    if Repeats(verb, retries, from, outcome(from)) {
      last := FindLast(verb, retries, outcome, from + 1);
    } else {
      last := from;
    }
  }

  /** Whatever the attempts would meet, for ever, there is exactly one complete call and one verdict. */
  lemma EveryScriptHasOneCall(verb: string, retries: int, outcome: nat -> Outcome)
    ensures exists n, v :: IsCall(verb, retries, Script(outcome, n), v)
    ensures forall n, v, m, w ::
      IsCall(verb, retries, Script(outcome, n), v) && IsCall(verb, retries, Script(outcome, m), w) ==> n == m && v == w
  {
    var last := FindLast(verb, retries, outcome, 0);
    assert IsCall(verb, retries, Script(outcome, last + 1), Image(verb, retries, last, outcome(last)));
    forall n, v, m, w |
      IsCall(verb, retries, Script(outcome, n), v) && IsCall(verb, retries, Script(outcome, m), w)
      ensures n == m && v == w
    {
      CallEndsAt(verb, retries, outcome, n, v, last);
      CallEndsAt(verb, retries, outcome, m, w, last);
    }
  }

  lemma CallEndsAt(verb: string, retries: int, outcome: nat -> Outcome, n: nat, v: Verdict, last: nat)
    requires IsCall(verb, retries, Script(outcome, n), v)
    requires !Repeats(verb, retries, last, outcome(last))
    requires forall i :: 0 <= i < last ==> Repeats(verb, retries, i, outcome(i))
    ensures n == last + 1 && v == Image(verb, retries, last, outcome(last))
  {
    var outcomes := Script(outcome, n);
    assert forall i :: 0 <= i < n ==> outcomes[i] == outcome(i);
  }

  // ---- who is to blame ----

  /** The last attempt got no response, the caller was live when asked, and no retry was left. */
  predicate FailedForGood(verb: string, retries: int, outcomes: seq<Outcome>)
    requires outcomes != []
  {
    var i := |outcomes| - 1;
    outcomes[i].NoResponse? && outcomes[i].callerErr.None? && !BacksOff(verb, retries, i, outcomes[i])
  }

  /**
   A TimeoutError means the client's own timer, and every such end means a TimeoutError: of the calls
   that failed for good, those whose last attempt its timer had cancelled before anybody else. The
   others are ConnectionErrors, and nobody at all had cancelled their last attempt. A caller's
   deadline, which leaves the same cause as the timer, never shows up as either.
   */
  lemma TimeoutIsTheTimer(verb: string, retries: int, outcomes: seq<Outcome>, v: Verdict)
    requires IsCall(verb, retries, outcomes, v) && Possible(outcomes[|outcomes| - 1])
    ensures var last := outcomes[|outcomes| - 1];
      v == Rejected(TimeoutError) <==>
        FailedForGood(verb, retries, outcomes) && last.seen.Some? && last.seen.value.actor == ByTimer
    ensures
      v == Rejected(ConnectionError) <==>
        FailedForGood(verb, retries, outcomes) && outcomes[|outcomes| - 1].seen.None?
  {}

  /**
   The caller gets its own error, the one its context ended with, exactly when its Err() was read
   after a failed attempt or when it cut a backoff short. If it had given up when a transport failed,
   or while a backoff was still running, at whatever attempt, that attempt is the last and it gets its
   own error: no retry, no TimeoutError, no ConnectionError.
   */
  lemma CallerErrorIsTheCaller(verb: string, retries: int, outcomes: seq<Outcome>, v: Verdict,
                               was: Option<Done>, done: Option<Done>)
    requires IsCall(verb, retries, outcomes, v)
    requires forall i :: 0 <= i < |outcomes| ==> Meets(outcomes[i], was, done)
    ensures var last := outcomes[|outcomes| - 1];
      v.Rejected? && v.failure.CallerError? <==>
        || (last.NoResponse? && last.callerErr.Some?)
        || (BacksOff(verb, retries, |outcomes| - 1, last) && last.pause.woken.Some?)
    ensures v.Rejected? && v.failure.CallerError? ==> done.Some? && v.failure.err == done.value.err
    ensures forall i :: 0 <= i < |outcomes| && GivenUp(verb, retries, i, outcomes[i], was) ==>
      i == |outcomes| - 1 && done.Some? && v == Rejected(CallerError(done.value.err))
  {
    forall i | 0 <= i < |outcomes| && GivenUp(verb, retries, i, outcomes[i], was)
      ensures i == |outcomes| - 1 && done.Some? && v == Rejected(CallerError(done.value.err))
    {
      assert Meets(outcomes[i], was, done);
      assert !Repeats(verb, retries, i, outcomes[i]);
    }
  }

  /**
   The caller, in state `was` at the start, had given up when the transport failed, or did while the
   backoff's timer was still running.
   */
  predicate GivenUp(verb: string, retries: int, i: nat, o: Outcome, was: Option<Done>) {
    || (o.NoResponse? && (was.Some? || o.callerThen.Some?))
    || (BacksOff(verb, retries, i, o) && !o.pause.ranOut)
  }

  /**
   A call goes on after an attempt only when the backoff's timer has run out; under a caller that was
   done before the call, only after a refusal, and then the timer and the caller were both ready.
   */
  lemma OnlyTheRaceGoesOn(verb: string, retries: int, outcomes: seq<Outcome>, v: Verdict,
                          was: Option<Done>, done: Option<Done>, i: nat)
    requires IsCall(verb, retries, outcomes, v)
    requires forall i :: 0 <= i < |outcomes| ==> Meets(outcomes[i], was, done)
    requires i < |outcomes| - 1
    ensures !outcomes[i].NotBuilt? && outcomes[i].pause.ranOut && outcomes[i].pause.woken.None?
    ensures was.Some? ==> outcomes[i].Answered? && outcomes[i].pause.caller == was
  {
    assert Repeats(verb, retries, i, outcomes[i]) && Meets(outcomes[i], was, done);
  }

  /** That race is possible, and so a caller that was done before the call may even be served. */
  lemma BothReady(verb: string, retries: int, content: string, done: Done) returns (outcomes: seq<Outcome>)
    requires Idempotent(verb) && retries >= 1
    ensures Happened(verb, retries, outcomes, Accepted(200), Some(done), Some(done), [], Log(verb, retries, outcomes))
    ensures |outcomes| == 2 && outcomes[0].pause == Pause(true, Some(done), None)
  {
    var a := Attempt(Some(done), None, Armed);
    var pause := Pause(true, Some(done), None);
    outcomes := [
      Answered(503, Absent, "", Armed, Closing("", Some(EOF), a), 0.0, pause),
      Answered(200, Absent, content, Armed, Closing("", None, a), 0.0, pause)];
    Units(Log(verb, retries, outcomes));
  }

  /** A caller that gives up after its Err() was read may get a TimeoutError all the same. */
  lemma GaveUpTooLate(verb: string, done: Done) returns (o: Outcome)
    ensures Happened(verb, 0, [o], Rejected(TimeoutError), None, Some(done), [], LogOf(verb, 0, 0, o))
  {
    o := NoResponse(None, Some(Cancellation(true, ByTimer)), None, 0.0, Pause(true, None, None));
    assert [o][..0] == [];
    Units(LogOf(verb, 0, 0, o));
  }

  /** A response below 400 is returned as it came, at whatever attempt; no other is. */
  lemma AcceptedIsBelow400(verb: string, retries: int, outcomes: seq<Outcome>, v: Verdict)
    requires IsCall(verb, retries, outcomes, v)
    ensures v.Accepted? <==> outcomes[|outcomes| - 1].Answered? && outcomes[|outcomes| - 1].status < 400
    ensures forall i :: 0 <= i < |outcomes| - 1 && outcomes[i].Answered? ==> outcomes[i].status >= 400
  {
    forall i | 0 <= i < |outcomes| - 1 && outcomes[i].Answered? ensures outcomes[i].status >= 400 {
      assert Repeats(verb, retries, i, outcomes[i]);
    }
  }

  // ---- how long it waits ----

  predicate NoRetryAfter(o: Outcome) {
    o.Answered? ==> ParseRetryAfter(o.retryAfter).None?
  }

  lemma {:induction false} WaitsOfBlindBackoff(verb: string, retries: int, outcomes: seq<Outcome>)
    requires forall i :: 0 <= i < |outcomes| ==> BacksOff(verb, retries, i, outcomes[i]) && NoRetryAfter(outcomes[i])
    ensures Sum(Waits(verb, retries, outcomes)) <= (TotalCeiling(|outcomes|) - |outcomes|) * MILLISECOND
  {
    if outcomes == [] {
      assert Pow2(0) == 1;
    } else {
      var n := |outcomes| - 1;
      var front, o := outcomes[..n], outcomes[n];
      WaitsOfBlindBackoff(verb, retries, front);
      BackoffBelowCeiling(n, o.draw);
      TotalCeilingStep(n);
      var ws := Waits(verb, retries, front);
      assert NoRetryAfter(o);
      assert WaitAfter(n, o) == Backoff(n, o.draw);
      assert Waits(verb, retries, outcomes) == ws + [WaitAfter(n, o)];
      assert (ws + [WaitAfter(n, o)])[..|ws|] == ws;
    }
  }

  /** Without Retry-After, n >= 1 backoffs take strictly less than the sum of their ceilings. */
  lemma TotalBackoff(verb: string, retries: int, outcomes: seq<Outcome>)
    requires outcomes != []
    requires forall i :: 0 <= i < |outcomes| ==> BacksOff(verb, retries, i, outcomes[i]) && NoRetryAfter(outcomes[i])
    ensures var n := |outcomes|;
      Sum(Waits(verb, retries, outcomes))
        < (if n <= 6 then [250, 750, 1750, 3750, 7750, 15750][n - 1] else 15750 + 8000 * (n - 6)) * 1_000_000
  {
    WaitsOfBlindBackoff(verb, retries, outcomes);
    TotalCeilingIs(|outcomes|);
  }

  /** No single wait is longer than a minute, whatever the deployment asks for. */
  lemma {:induction false} WaitsCapped(verb: string, retries: int, outcomes: seq<Outcome>)
    ensures forall w :: w in Waits(verb, retries, outcomes) ==> w <= 60_000_000_000
    ensures Waits(verb, retries, outcomes) == [] || |Waits(verb, retries, outcomes)| <= retries
  {
    WaitsCounted(verb, retries, outcomes);
    if outcomes != [] {
      var n := |outcomes| - 1;
      WaitsCapped(verb, retries, outcomes[..n]);
      if BacksOff(verb, retries, n, outcomes[n]) {
        BackoffBelowCeiling(n, outcomes[n].draw);
        CeilingShape(n);
      }
    }
  }

  lemma {:induction false} WaitsCounted(verb: string, retries: int, outcomes: seq<Outcome>)
    ensures |Waits(verb, retries, outcomes)| <= |outcomes|
    ensures Waits(verb, retries, outcomes) == [] || |Waits(verb, retries, outcomes)| <= retries
  {
    if outcomes != [] { WaitsCounted(verb, retries, outcomes[..|outcomes| - 1]); }
  }

  // ---- what reaches the deployment ----

  function Applied<S>(effect: S -> S, k: nat, s: S): S {
    if k == 0 then s else effect(Applied(effect, k - 1, s))
  }

  lemma AppliedAgain<S>(effect: S -> S, k: nat, j: nat, s: S)
    requires j <= 1
    ensures Applied(effect, j, Applied(effect, k, s)) == Applied(effect, k + j, s)
  {
    if j == 1 {
      assert Applied(effect, 1, Applied(effect, k, s)) == effect(Applied(effect, 0, Applied(effect, k, s)));
    }
  }

  lemma AppliedOnce<S>(effect: S -> S, s: S)
    ensures Applied(effect, 0, s) == s && Applied(effect, 1, s) == effect(s)
  {
    assert Applied(effect, 1, s) == effect(Applied(effect, 0, s));
  }

  ghost predicate IsIdempotent<S(!new)>(effect: S -> S) {
    forall s :: effect(effect(s)) == effect(s)
  }

  /** However often an idempotent request got through, the deployment is as after zero or one. */
  lemma {:induction false} RepeatsCollapse<S(!new)>(effect: S -> S, k: nat, s: S)
    requires k > 1 ==> IsIdempotent(effect)
    ensures Applied(effect, k, s) == if k == 0 then s else effect(s)
  {
    if k > 1 {
      RepeatsCollapse(effect, k - 1, s);
    } else if k == 1 {
      assert Applied(effect, 0, s) == s;
    }
  }
}
