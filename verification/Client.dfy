/**
 The transport of the Go SDK (sdk/go/client.go:424-597) against an adversary. From the start of an
 attempt to its release, over its body as well, the timer may go off and the caller may cancel between
 any two statements that read or change it (AttemptDeadline.Interfere); the network may lose a request,
 lose a response, or answer anything (RoundTrip).
 */
module Client {
  import opened Options
  import opened Sequences
  import opened Attempts
  import opened RetryPolicy
  import opened CallSpec
  import opened Replies
  import opened Origin
  import opened Iteration
  import opened Sse
  import opened EventStreams

  /** From state s to s1 by whole applications, each of a request that was sent. */
  ghost predicate Reached<S>(
    effect: S -> S, s: S, sends0: nat, applied0: nat, s1: S, sends1: nat, applied1: nat)
  {
    sends0 <= sends1 && applied0 <= applied1 && applied1 - applied0 <= sends1 - sends0
    && s1 == Applied(effect, applied1 - applied0, s)
  }

  lemma ReachedAgain<S>(effect: S -> S, s: S, sends0: nat, applied0: nat, s1: S, sends1: nat, applied1: nat,
                        s2: S, sends2: nat, applied2: nat)
    requires Reached(effect, s, sends0, applied0, s1, sends1, applied1)
    requires Reached(effect, s1, sends1, applied1, s2, sends2, applied2) && sends2 <= sends1 + 1
    ensures Reached(effect, s, sends0, applied0, s2, sends2, applied2)
  {
    AppliedAgain(effect, applied1 - applied0, applied2 - applied1, s);
  }

  /** The deployment, undisturbed by others: what one request does to it, and how often it did. */
  class Deployment<S> {
    const effect: S -> S
    var state: S
    ghost var sends: nat
    ghost var applied: nat

    constructor (effect: S -> S, state: S)
      ensures this.effect == effect && this.state == state && sends == applied == 0
    {
      this.effect, this.state, sends, applied := effect, state, 0, 0;
    }

    /** Nothing but whole applications of the request has happened since it was in state s. */
    ghost predicate Since(s: S, sends0: nat, applied0: nat)
      reads this
    {
      Reached(effect, s, sends0, applied0, state, sends, applied)
    }

    /** One request at most has been sent since then, and at most once applied. */
    ghost predicate SentOnce(s: S, sends0: nat, applied0: nat)
      reads this
    {
      Since(s, sends0, applied0) && sends <= sends0 + 1
    }

    lemma Untouched()
      ensures SentOnce(state, sends, applied)
    {}

    /** A request on its way: it may not have been sent, may be lost, or is applied. */
    method Receive()
      modifies this
      ensures SentOnce(old(state), old(sends), old(applied))
    {
      AppliedOnce(effect, state);
      hide Applied;
      if * {
        sends := sends + 1;
        if * {
          state := effect(state);
          applied := applied + 1;
        }
      }
    }
  }

  /** A verdict exactly when the outcome is not repeated, and then the specified one. */
  ghost predicate Decides(verb: string, retries: int, i: nat, o: Outcome, v: Option<Verdict>) {
    && (v.None? <==> Repeats(verb, retries, i, o))
    && (v.Some? ==> v.value == Image(verb, retries, i, o))
  }

  /**
   An accepted response comes with its body, of which nothing was read, and the two are the only things
   live; anything else leaves nothing live. A stream is past its deadline, unless that had run out when
   the headers came in; any other body is still under it.
   */
  ghost predicate HandsOver(v: Option<Verdict>, o: Outcome, body: CancellingBody?, ctx: CallerContext, kind: Kind,
                            ledger: Ledger)
    reads ledger, body,
      if body == null then {} else {body.inner, body.inner.deadline, body.inner.deadline.ctx, body.deadline, body.deadline.ctx}
  {
    if v.Some? && v.value.Accepted? then
      && o.Answered? && body != null && Fresh(body.inner, body.deadline, o.content)
      && body.deadline.ledger == ledger && body.deadline.ctx == ctx
      && ledger.deadlines == {body.deadline} && ledger.bodies == {body.inner}
      && Unreleased(body.deadline.State())
      && (if kind != Stream then body.deadline.timer != Stopped
          else body.deadline.timer != Armed && o.found != Stopped && (o.found == Armed ==> body.deadline.timer == Stopped))
    else
      body == null && ledger.deadlines == {} && ledger.bodies == {}
  }

  /** A body of that content of which nothing was read. */
  ghost predicate Fresh(body: ResponseBody, deadline: AttemptDeadline, content: string)
    reads body, body.deadline, body.deadline.ctx
  {
    body.deadline == deadline && body.Valid() && body.content == content
    && body.read == "" && body.ended.None? && !body.closed
  }

  datatype Transported =
    | Lost
    | Response(status: int, retryAfter: RetryAfter, body: ResponseBody)

  /** buildRequest: encoding the body or composing the URL may fail; nothing has been sent then. */
  method BuildRequest(d: AttemptDeadline) returns (built: bool)
    requires Unreleased(d.State())
    modifies d, d.ctx, d.ledger
    ensures Unreleased(d.State()) && Later(old(d.State()), d.State())
    ensures d.ledger.log == old(d.ledger.log) + if built then [] else [BuildRefused]
    ensures d.ledger.deadlines == old(d.ledger.deadlines) && d.ledger.bodies == old(d.ledger.bodies)
  {
    d.Interfere();
    built := *;
    if !built {
      d.ledger.log := d.ledger.log + [BuildRefused];
    }
  }

  /** httpClient.Do: the request may be lost, the response may be lost, or a response arrives. */
  method RoundTrip<S>(d: AttemptDeadline, deployment: Deployment<S>) returns (t: Transported)
    requires d.ledger.bodies == {} && Unreleased(d.State())
    modifies d, d.ctx, deployment, d.ledger
    ensures Unreleased(d.State()) && Later(old(d.State()), d.State())
    ensures deployment.SentOnce(old(deployment.state), old(deployment.sends), old(deployment.applied))
    ensures d.ledger.deadlines == old(d.ledger.deadlines)
    ensures d.ledger.log == old(d.ledger.log) + [
      match t case Lost => NoAnswer(d.ctx.done) case Response(s, r, b) => Answer(s, r, b.content)]
    ensures t.Lost? ==> d.ledger.bodies == {}
    ensures t.Response? ==> fresh(t.body) && Fresh(t.body, d, t.body.content) && d.ledger.bodies == {t.body}
  {
    hide Evolves, Concat;
    hide Reached;
    d.Interfere();
    deployment.Receive();
    d.Interfere();
    if * {
      d.ledger.log := d.ledger.log + [NoAnswer(d.ctx.done)];
      return Lost;
    }
    var status: int, retryAfter: RetryAfter, arriving: seq<string>, ending: Option<ReadError> := *, *, *, *;
    if ending.Some? && ending.value.Cut? {
      ending := None;
    }
    var body := new ResponseBody.Open(arriving, ending, d);
    d.ledger.log := d.ledger.log + [Answer(status, retryAfter, body.content)];
    return Response(status, retryAfter, body);
  }

  /** sleep: the wait runs out, or the caller's context ends it with its own error; if both, either. */
  method Sleep(ctx: CallerContext, wait: int, ledger: Ledger) returns (err: Option<CtxError>, ghost pause: Pause)
    requires ledger.deadlines == {} && ledger.bodies == {}
    modifies ctx, ledger
    ensures old(ctx.done).Some? ==> ctx.done == old(ctx.done)
    ensures pause == Pause(pause.ranOut, ctx.done, err) && PossiblePause(pause)
    ensures ledger.log == old(ledger.log) + [Paused(wait, pause.ranOut, pause.caller)]
    ensures ledger.deadlines == {} && ledger.bodies == {}
  {
    var ranOut := ctx.Race(wait, ledger);
    var choice: bool := *;
    if ctx.done.Some? && (!ranOut || choice) {
      err := Some(ctx.done.value.err);
    } else {
      err := None;
    }
    pause := Pause(ranOut, ctx.done, err);
  }

  class Client {
    const maxRetries: int
    const origin: OriginTracker

    /** New: an option left at zero retries means two. */
    constructor (maxRetries: int)
      ensures this.maxRetries == if maxRetries == 0 then 2 else maxRetries
      ensures fresh(origin) && origin.Valid() && origin.answers == []
    {
      this.maxRetries := if maxRetries == 0 then 2 else maxRetries;
      origin := new OriginTracker();
    }

    /**
     client.go:435-452: no response. The attempt is over; wait for the next, or say why not.
     `callerThen` is how the caller had ended when the transport failed.
     */
    method AfterFailure(verb: string, retries: int, attempt: nat, deadline: AttemptDeadline,
                        ghost before: seq<LogEntry>, ghost callerThen: Option<Done>)
      returns (v: Option<Verdict>, ghost o: Outcome)
      requires deadline.ledger.log == before + [NoAnswer(callerThen)]
      requires callerThen.Some? ==> deadline.ctx.done == callerThen
      requires deadline.ledger.deadlines == {deadline} && deadline.ledger.bodies == {}
      requires Unreleased(deadline.State())
      modifies deadline, deadline.ctx, deadline.ledger
      ensures o.NoResponse? && o.callerThen == callerThen && Possible(o) && CallersOwn(o, deadline.ctx.done)
      ensures o.pause.caller == deadline.ctx.done
      ensures Decides(verb, retries, attempt, o, v) && (v.Some? ==> v.value.Rejected?)
      ensures deadline.ledger.log == before + LogOf(verb, retries, attempt, o)
      ensures deadline.ledger.deadlines == {} && deadline.ledger.bodies == {}
      ensures old(deadline.ctx.done).Some? ==> deadline.ctx.done == old(deadline.ctx.done)
    {
      hide Unreleased, PossibleFailure;
      var timedOut, callerErr;
      ghost var seen;
      timedOut, callerErr, seen := EndFailed(deadline, before, callerThen);
      hide Concat;
      if callerErr.Some? {
        o := NoResponse(callerThen, seen, callerErr, 0.0, Pause(true, deadline.ctx.done, None));
        v := Some(Rejected(CallerError(callerErr.value)));
      } else {
        v, o := RetryOrGiveUp(verb, retries, attempt, deadline.ctx, deadline.ledger, timedOut, before, callerThen, seen);
      }
    }

    /** client.go:436-440: why the attempt ended, its release, and how the caller stands after it. */
    method EndFailed(deadline: AttemptDeadline, ghost before: seq<LogEntry>, ghost callerThen: Option<Done>)
      returns (timedOut: bool, callerErr: Option<CtxError>, ghost seen: Option<Cancellation>)
      requires deadline.ledger.log == before + [NoAnswer(callerThen)]
      requires callerThen.Some? ==> deadline.ctx.done == callerThen
      requires deadline.ledger.deadlines == {deadline} && deadline.ledger.bodies == {}
      requires Unreleased(deadline.State())
      modifies deadline, deadline.ctx, deadline.ledger
      ensures timedOut == (seen.Some? && seen.value.isDeadline)
      ensures PossibleFailure(callerThen, seen, callerErr)
      ensures callerThen.Some? ==> deadline.ctx.done == callerThen
      ensures callerErr.Some? ==> deadline.ctx.done.Some? && callerErr.value == deadline.ctx.done.value.err
      ensures deadline.ledger.log == before + [NoAnswer(callerThen), CauseRead(seen), CallerRead(callerErr)]
      ensures deadline.ledger.deadlines == {} && deadline.ledger.bodies == {}
      ensures old(deadline.ctx.done).Some? ==> deadline.ctx.done == old(deadline.ctx.done)
    {
      hide Evolves;
      deadline.Interfere();
      seen := deadline.cancelled;
      timedOut := deadline.Expired();
      deadline.Interfere();
      deadline.Release();
      deadline.Interfere();
      callerErr := deadline.ctx.Err(deadline.ledger);
      deadline.Interfere();
    }

    /** client.go:443-452: the caller was still live; wait for the next attempt, or say what went wrong. */
    method RetryOrGiveUp(verb: string, retries: int, attempt: nat, ctx: CallerContext, ledger: Ledger, timedOut: bool,
                         ghost before: seq<LogEntry>, ghost callerThen: Option<Done>, ghost seen: Option<Cancellation>)
      returns (v: Option<Verdict>, ghost o: Outcome)
      requires ledger.log == before + [NoAnswer(callerThen), CauseRead(seen), CallerRead(None)]
      requires timedOut == (seen.Some? && seen.value.isDeadline)
      requires ledger.deadlines == {} && ledger.bodies == {}
      modifies ctx, ledger
      ensures o.NoResponse? && o == NoResponse(callerThen, seen, None, o.draw, o.pause)
      ensures PossiblePause(o.pause) && o.pause.caller == ctx.done
      ensures Decides(verb, retries, attempt, o, v) && (v.Some? ==> v.value.Rejected?)
      ensures ledger.log == before + LogOf(verb, retries, attempt, o)
      ensures ledger.deadlines == {} && ledger.bodies == {}
      ensures old(ctx.done).Some? ==> ctx.done == old(ctx.done)
    {
      o := NoResponse(callerThen, seen, None, 0.0, Pause(true, ctx.done, None));
      if attempt < retries && Idempotent(verb) {
        var draw: Draw := *;
        var sleepErr;
        ghost var pause;
        sleepErr, pause := Sleep(ctx, Backoff(attempt, draw), ledger);
        o := NoResponse(callerThen, seen, None, draw, pause);
        if sleepErr.Some? {
          return Some(Rejected(CallerError(sleepErr.value))), o;
        }
        return None, o;
      }
      if timedOut {
        return Some(Rejected(TimeoutError)), o;
      }
      return Some(Rejected(ConnectionError)), o;
    }

    /** client.go:455-462: the response's body goes to the caller and takes the attempt with it. */
    method AfterSuccess(ctx: CallerContext, kind: Kind, deadline: AttemptDeadline, response: Transported,
                        ghost before: seq<LogEntry>)
      returns (body: CancellingBody, ghost o: Outcome)
      requires response.Response? && response.status < 400 && Fresh(response.body, deadline, response.body.content)
      requires deadline.ledger.deadlines == {deadline} && deadline.ledger.bodies == {response.body}
      requires deadline.ctx == ctx && deadline.stopOnHeaders == (kind == Stream)
      requires deadline.ledger.log == before + [Answer(response.status, response.retryAfter, response.body.content)]
      requires Unreleased(deadline.State()) && deadline.timer != Stopped
      modifies deadline, ctx, deadline.ledger
      ensures fresh(body) && body.deadline == deadline && body.inner == response.body
      ensures o.Answered?
      ensures o == Answered(response.status, response.retryAfter, response.body.content, o.found, UNREAD, 0.0, o.pause)
      ensures Possible(o) && CallersOwn(o, ctx.done) && o.pause.caller == ctx.done
      ensures deadline.ledger.log == before + Encounter(o)
      ensures HandsOver(Some(Accepted(response.status)), o, body, ctx, kind, deadline.ledger)
      ensures old(ctx.done).Some? ==> ctx.done == old(ctx.done)
    {
      hide Evolves, Concat;
      deadline.Interfere();
      ghost var found := deadline.timer;
      deadline.HeadersReceived();
      deadline.Interfere();
      body := new CancellingBody(response.body, deadline);
      o := Answered(response.status, response.retryAfter, response.body.content, found, UNREAD, 0.0,
                    Pause(true, ctx.done, None));
    }

    /** client.go:465-481: a refusal. Its body is read and closed before anything else happens. */
    method AfterRefusal(verb: string, retries: int, attempt: nat, deadline: AttemptDeadline, response: Transported,
                        ghost before: seq<LogEntry>)
      returns (v: Option<Verdict>, ghost o: Outcome)
      requires response.Response? && response.status >= 400 && Fresh(response.body, deadline, response.body.content)
      requires deadline.ledger.deadlines == {deadline} && deadline.ledger.bodies == {response.body}
      requires deadline.ledger.log == before + [Answer(response.status, response.retryAfter, response.body.content)]
      requires Unreleased(deadline.State()) && deadline.timer != Stopped
      modifies deadline, deadline.ctx, deadline.ledger, response.body
      ensures o.Answered? && Possible(o) && CallersOwn(o, deadline.ctx.done) && o.pause.caller == deadline.ctx.done
      ensures Decides(verb, retries, attempt, o, v) && (v.Some? ==> v.value.Rejected?)
      ensures deadline.ledger.log == before + LogOf(verb, retries, attempt, o)
      ensures deadline.ledger.deadlines == {} && deadline.ledger.bodies == {}
      ensures old(deadline.ctx.done).Some? ==> deadline.ctx.done == old(deadline.ctx.done)
    {
      hide Concat, ParseRetryAfter, RetriableStatus, Idempotent, Received, UnderDeadline;
      ghost var content := response.body.content;
      var rawBody;
      ghost var left;
      rawBody, left := ReadRefusal(deadline, response.body,
                                   before + [Answer(response.status, response.retryAfter, content)]);
      var retryAfter := ParseRetryAfter(response.retryAfter);
      o := Answered(response.status, response.retryAfter, content, Armed, left, 0.0, Pause(true, deadline.ctx.done, None));
      v, o := RetryOrRefuse(verb, retries, attempt, deadline.ctx, deadline.ledger, response.status, retryAfter, rawBody,
                            before, o);
    }

    /** client.go:465-468: as much of the body as the limit allows; then all of the attempt is over. */
    method ReadRefusal(deadline: AttemptDeadline, body: ResponseBody, ghost before: seq<LogEntry>)
      returns (rawBody: string, ghost left: Closing)
      requires Fresh(body, deadline, body.content) && deadline.ledger.log == before
      requires deadline.ledger.deadlines == {deadline} && deadline.ledger.bodies == {body}
      requires Unreleased(deadline.State()) && deadline.timer != Stopped
      modifies deadline, deadline.ctx, deadline.ledger, body
      ensures rawBody == FirstBytes(left.read, BODY_LIMIT) && (|left.read| < BODY_LIMIT ==> left.end.Some?)
      ensures Received(left, body.content) && UnderDeadline(left.attempt)
      ensures left.attempt.caller.Some? ==> left.attempt.caller == deadline.ctx.done
      ensures deadline.ledger.log == before + [BodyClosed(left)]
      ensures deadline.ledger.deadlines == {} && deadline.ledger.bodies == {}
      ensures old(deadline.ctx.done).Some? ==> deadline.ctx.done == old(deadline.ctx.done)
    {
      hide Evolves, Concat;
      rawBody := body.ReadAtMost(BODY_LIMIT);
      deadline.Interfere();
      body.Close();
      left := body.Left();
      deadline.Interfere();
      deadline.Release();
      deadline.Interfere();
    }

    /** client.go:470-480: all of the refusal is settled, and `met` says how; wait for the next attempt, or report it. */
    method RetryOrRefuse(verb: string, retries: int, attempt: nat, ctx: CallerContext, ledger: Ledger,
                         status: int, retryAfter: Option<int>, rawBody: string, ghost before: seq<LogEntry>, ghost met: Outcome)
      returns (v: Option<Verdict>, ghost o: Outcome)
      requires met.Answered? && met.status == status >= 400 && ledger.log == before + Encounter(met)
      requires retryAfter == ParseRetryAfter(met.retryAfter) && rawBody == FirstBytes(met.left.read, BODY_LIMIT)
      requires ledger.deadlines == {} && ledger.bodies == {}
      modifies ctx, ledger
      ensures o.Answered? && PossiblePause(o.pause) && o.pause.caller == ctx.done
      ensures o == Answered(met.status, met.retryAfter, met.content, met.found, met.left, o.draw, o.pause)
      ensures Decides(verb, retries, attempt, o, v) && (v.Some? ==> v.value.Rejected?)
      ensures ledger.log == before + LogOf(verb, retries, attempt, o)
      ensures ledger.deadlines == {} && ledger.bodies == {}
      ensures old(ctx.done).Some? ==> ctx.done == old(ctx.done)
    {
      hide ParseRetryAfter, RetriableStatus, Idempotent, FirstBytes;
      o := Answered(status, met.retryAfter, met.content, met.found, met.left, 0.0, Pause(true, ctx.done, None));
      if attempt < retries && Idempotent(verb) && RetriableStatus(status) {
        var draw: Draw := *;
        var wait := Backoff(attempt, draw);
        if retryAfter.Some? {
          wait := retryAfter.value;
        }
        var sleepErr;
        ghost var pause;
        sleepErr, pause := Sleep(ctx, wait, ledger);
        o := Answered(status, met.retryAfter, met.content, met.found, met.left, draw, pause);
        if sleepErr.Some? {
          return Some(Rejected(CallerError(sleepErr.value))), o;
        }
        return None, o;
      }
      return Some(Rejected(ApiError(status, rawBody))), o;
    }

    /** client.go:428-482: one turn of the loop. No verdict means another turn. */
    method TryOnce<S>(ctx: CallerContext, verb: string, kind: Kind, retries: int, attempt: nat,
                      deployment: Deployment<S>, ledger: Ledger)
      returns (v: Option<Verdict>, body: CancellingBody?, ghost o: Outcome)
      requires origin.Valid() && ledger.deadlines == {} && ledger.bodies == {}
      modifies ctx, deployment, ledger, origin
      ensures Meets(o, old(ctx.done), ctx.done) && Decides(verb, retries, attempt, o, v)
      ensures ledger.log == old(ledger.log) + LogOf(verb, retries, attempt, o)
      ensures HandsOver(v, o, body, ctx, kind, ledger) && (v.None? ==> ledger.deadlines == {} && ledger.bodies == {})
      ensures body != null ==> fresh(body) && fresh(body.inner) && fresh(body.deadline)
      ensures deployment.SentOnce(old(deployment.state), old(deployment.sends), old(deployment.applied))
      ensures o.NotBuilt? ==> deployment.sends == old(deployment.sends)
      ensures origin.Valid() && |origin.answers| == |old(origin.answers)| + if o.Answered? then 1 else 0
      ensures old(ctx.done).Some? ==> ctx.done == old(ctx.done)
    {
      hide Evolves, Concat, Reached, PossiblePause, FirstBytes, ParseRetryAfter, Idempotent;
      deployment.Untouched();
      body := null;
      var deadline := new AttemptDeadline.Start(ctx, kind, ledger);
      var built := BuildRequest(deadline);
      if !built {
        deadline.Interfere();
        deadline.Release();
        return Some(Rejected(BuildError)), null, NotBuilt;
      }
      var response := RoundTrip(deadline, deployment);
      if response.Lost? {
        v, o := AfterFailure(verb, retries, attempt, deadline, old(ledger.log), ctx.done);
        return v, null, o;
      }
      v, body, o := AfterAnswer(ctx, verb, kind, retries, attempt, deadline, response, old(ledger.log));
    }

    /** client.go:454-481: the origin answered. */
    method AfterAnswer(ctx: CallerContext, verb: string, kind: Kind, retries: int, attempt: nat,
                       deadline: AttemptDeadline, response: Transported, ghost before: seq<LogEntry>)
      returns (v: Option<Verdict>, body: CancellingBody?, ghost o: Outcome)
      requires origin.Valid() && response.Response? && Fresh(response.body, deadline, response.body.content)
      requires deadline.ctx == ctx && deadline.stopOnHeaders == (kind == Stream)
      requires deadline.ledger.deadlines == {deadline} && deadline.ledger.bodies == {response.body}
      requires deadline.ledger.log == before + [Answer(response.status, response.retryAfter, response.body.content)]
      requires Unreleased(deadline.State()) && deadline.timer != Stopped
      modifies deadline, ctx, deadline.ledger, response.body, origin
      ensures o.Answered? && Possible(o) && CallersOwn(o, ctx.done) && o.pause.caller == ctx.done
      ensures Decides(verb, retries, attempt, o, v)
      ensures deadline.ledger.log == before + LogOf(verb, retries, attempt, o)
      ensures HandsOver(v, o, body, ctx, kind, deadline.ledger)
      ensures v.None? ==> deadline.ledger.deadlines == {} && deadline.ledger.bodies == {}
      ensures body != null ==> fresh(body) && body.inner == response.body && body.deadline == deadline
      ensures origin.Valid() && |origin.answers| == |old(origin.answers)| + 1
      ensures old(ctx.done).Some? ==> ctx.done == old(ctx.done)
    {
      hide Concat, PossiblePause, FirstBytes, ParseRetryAfter, Idempotent;
      body := null;
      var now: int := *;
      origin.RecordAnswer(now);
      if response.status < 400 {
        body, o := AfterSuccess(ctx, kind, deadline, response, before);
        v := Some(Accepted(response.status));
      } else {
        v, o := AfterRefusal(verb, retries, attempt, deadline, response, before);
      }
    }

    /**
     The request with the retry policy. One ledger belongs to one call: nothing else is live in it.
     */
    method Do<S>(ctx: CallerContext, verb: string, kind: Kind, retries: int, deployment: Deployment<S>, ledger: Ledger)
      returns (v: Verdict, body: CancellingBody?, ghost outcomes: seq<Outcome>)
      requires origin.Valid() && ledger.deadlines == {} && ledger.bodies == {}
      modifies ctx, deployment, ledger, origin
      // it refines the pure specification, on what its attempts met
      ensures Happened(verb, retries, outcomes, v, old(ctx.done), ctx.done, old(ledger.log), ledger.log)
      ensures forall e :: v == Rejected(CallerError(e)) ==> ctx.done.Some? && e == ctx.done.value.err
      // it hands over exactly one live pair, or leaves none
      ensures HandsOver(Some(v), outcomes[|outcomes| - 1], body, ctx, kind, ledger)
      ensures body != null ==> fresh(body) && fresh(body.inner) && fresh(body.deadline)
      // what reached the deployment
      ensures deployment.Since(old(deployment.state), old(deployment.sends), old(deployment.applied))
      ensures deployment.sends - old(deployment.sends) <= |outcomes|
      // what the client remembers, and that a cancelled caller stays cancelled
      ensures origin.Valid() && |origin.answers| == |old(origin.answers)| + Answers(outcomes)
      ensures old(ctx.done).Some? ==> ctx.done == old(ctx.done)
    {
      hide Meets, Image, LogOf, HandsOver, Reached, Concat, GivenUp, Possible;
      deployment.Untouched();
      outcomes := [];
      var attempt := 0;
      while true
        invariant attempt == |outcomes|
        invariant forall i :: 0 <= i < attempt ==> Repeats(verb, retries, i, outcomes[i])
        invariant forall i :: 0 <= i < attempt ==> Meets(outcomes[i], old(ctx.done), ctx.done)
        invariant ledger.log == old(ledger.log) + Log(verb, retries, outcomes)
        invariant ledger.deadlines == {} && ledger.bodies == {}
        invariant deployment.Since(old(deployment.state), old(deployment.sends), old(deployment.applied))
        invariant deployment.sends - old(deployment.sends) <= |outcomes|
        invariant origin.Valid() && |origin.answers| == |old(origin.answers)| + Answers(outcomes)
        invariant old(ctx.done).Some? ==> ctx.done == old(ctx.done)
        decreases retries - attempt
      {
        ghost var was, state, sends, applied := ctx.done, deployment.state, deployment.sends, deployment.applied;
        var verdict, open, o := TryOnce(ctx, verb, kind, retries, attempt, deployment, ledger);
        MeetsOneMore(outcomes, o, old(ctx.done), was, ctx.done);
        OneMore(verb, retries, outcomes, o);
        ReachedAgain(deployment.effect, old(deployment.state), old(deployment.sends), old(deployment.applied),
                     state, sends, applied, deployment.state, deployment.sends, deployment.applied);
        outcomes := outcomes + [o];
        if verdict.Some? {
          CallerErrorIsTheCaller(verb, retries, outcomes, verdict.value, old(ctx.done), ctx.done);
          return verdict.value, open, outcomes;
        }
        attempt := attempt + 1;
      }
    }

    /** request: the JSON body of the response, decoded; `decodes` says which texts are JSON for it. */
    method Request<S>(ctx: CallerContext, verb: string, deployment: Deployment<S>, ledger: Ledger, decodes: string -> bool)
      returns (r: Reply, ghost v: Verdict, ghost outcomes: seq<Outcome>, ghost left: Closing)
      requires origin.Valid() && ledger.deadlines == {} && ledger.bodies == {}
      modifies ctx, deployment, ledger, origin
      ensures Exchanged(verb, maxRetries, outcomes, v, old(ctx.done), ctx.done, old(ledger.log), ledger.log, left)
      ensures r == JsonReply(v, left, decodes)
      ensures v.Rejected? ==> r == Reply.Failure(v.failure)
      ensures v.Accepted? && left.end != Some(EOF) ==> r == Reply.Failure(ConnectionError)
      ensures v.Accepted? && left.end == Some(EOF) ==>
        var c := outcomes[|outcomes| - 1].content;
        && (r == NoBody <==> c == "")
        && (r == Decoded(c) <==> c != "" && decodes(c))
        && (r == DecodeError(c) <==> c != "" && !decodes(c))
      ensures ledger.deadlines == {} && ledger.bodies == {}
      ensures deployment.Since(old(deployment.state), old(deployment.sends), old(deployment.applied))
      ensures deployment.sends - old(deployment.sends) <= |outcomes|
      ensures origin.Valid() && |origin.answers| == |old(origin.answers)| + Answers(outcomes)
    {
      hide Meets, Log, Reached, Concat, Answers, IsCall;
      var verdict, body;
      verdict, body, outcomes := Do(ctx, verb, Unary, maxRetries, deployment, ledger);
      v, left := verdict, UNREAD;
      if verdict.Rejected? {
        Units(ledger.log);
        return Reply.Failure(verdict.failure), v, outcomes, left;
      }
      ghost var accepted := ctx.done;
      var bytes, err := body.inner.ReadAll();
      Units(bytes);
      if err.Some? {
        r := Reply.Failure(ConnectionError);
      } else if |bytes| == 0 {
        r := NoBody;
      } else if !decodes(bytes) {
        r := DecodeError(bytes);
      } else {
        r := Decoded(bytes);
      }
      ghost var last;
      left, last := body.Close();
      MeetsStill(outcomes, old(ctx.done), accepted, ctx.done);
    }

    /** requestNoContent: whatever the body holds or however it ends, it is drained and closed. */
    method RequestNoContent<S>(ctx: CallerContext, verb: string, deployment: Deployment<S>, ledger: Ledger)
      returns (r: Reply, ghost v: Verdict, ghost outcomes: seq<Outcome>, ghost left: Closing)
      requires origin.Valid() && ledger.deadlines == {} && ledger.bodies == {}
      modifies ctx, deployment, ledger, origin
      ensures Exchanged(verb, maxRetries, outcomes, v, old(ctx.done), ctx.done, old(ledger.log), ledger.log, left)
      ensures r == NoContentReply(v)
      ensures v.Rejected? ==> r == Reply.Failure(v.failure)
      ensures v.Accepted? ==> r == NoBody
      ensures ledger.deadlines == {} && ledger.bodies == {}
      ensures deployment.Since(old(deployment.state), old(deployment.sends), old(deployment.applied))
      ensures deployment.sends - old(deployment.sends) <= |outcomes|
      ensures origin.Valid() && |origin.answers| == |old(origin.answers)| + Answers(outcomes)
    {
      hide Meets, Log, Reached, Concat, Answers, IsCall;
      var verdict, body;
      verdict, body, outcomes := Do(ctx, verb, Unary, maxRetries, deployment, ledger);
      v, left := verdict, UNREAD;
      if verdict.Rejected? {
        Units(ledger.log);
        return Reply.Failure(verdict.failure), v, outcomes, left;
      }
      ghost var accepted := ctx.done;
      var _, _ := body.inner.ReadAll();
      r := NoBody;
      ghost var last;
      left, last := body.Close();
      MeetsStill(outcomes, old(ctx.done), accepted, ctx.done);
    }

    /** requestBytes: the body as it is, read whole. */
    method RequestBytes<S>(ctx: CallerContext, verb: string, deployment: Deployment<S>, ledger: Ledger)
      returns (r: Reply, ghost v: Verdict, ghost outcomes: seq<Outcome>, ghost left: Closing)
      requires origin.Valid() && ledger.deadlines == {} && ledger.bodies == {}
      modifies ctx, deployment, ledger, origin
      ensures Exchanged(verb, maxRetries, outcomes, v, old(ctx.done), ctx.done, old(ledger.log), ledger.log, left)
      ensures r == BytesReply(v, left)
      ensures v.Rejected? ==> r == Reply.Failure(v.failure)
      ensures v.Accepted? && left.end != Some(EOF) ==> r == Reply.Failure(ConnectionError)
      ensures v.Accepted? && left.end == Some(EOF) ==> r == Decoded(outcomes[|outcomes| - 1].content)
      ensures ledger.deadlines == {} && ledger.bodies == {}
      ensures deployment.Since(old(deployment.state), old(deployment.sends), old(deployment.applied))
      ensures deployment.sends - old(deployment.sends) <= |outcomes|
      ensures origin.Valid() && |origin.answers| == |old(origin.answers)| + Answers(outcomes)
    {
      hide Meets, Log, Reached, Concat, Answers, IsCall;
      var verdict, body;
      verdict, body, outcomes := Do(ctx, verb, Bytes, maxRetries, deployment, ledger);
      v, left := verdict, UNREAD;
      if verdict.Rejected? {
        Units(ledger.log);
        return Reply.Failure(verdict.failure), v, outcomes, left;
      }
      ghost var accepted := ctx.done;
      var bytes, err := body.inner.ReadAll();
      Units(bytes);
      r := if err.Some? then Reply.Failure(ConnectionError) else Decoded(bytes);
      ghost var last;
      left, last := body.Close();
      MeetsStill(outcomes, old(ctx.done), accepted, ctx.done);
    }

    /** stream: one attempt and no retry; the caller owns what is live until it closes the stream. */
    method OpenStream<S>(ctx: CallerContext, verb: string, deployment: Deployment<S>, ledger: Ledger)
      returns (stream: EventStream?, failure: Option<CallSpec.Failure>, ghost v: Verdict, ghost o: Outcome)
      requires origin.Valid() && ledger.deadlines == {} && ledger.bodies == {}
      modifies ctx, deployment, ledger, origin
      ensures Happened(verb, 0, [o], v, old(ctx.done), ctx.done, old(ledger.log), ledger.log)
      ensures deployment.SentOnce(old(deployment.state), old(deployment.sends), old(deployment.applied))
      ensures HandsOver(Some(v), o, if stream == null then null else stream.body, ctx, Stream, ledger)
      ensures failure == (if v.Rejected? then Some(v.failure) else None) && (stream == null <==> v.Rejected?)
      ensures stream != null ==> stream.Valid() && !stream.closed && stream.err == None
      ensures stream != null ==> stream.given == [] && stream.reader.buffered == ""
      ensures stream != null ==> fresh(stream) && fresh(stream.reader)
      ensures stream != null ==> fresh(stream.body) && fresh(stream.body.inner) && fresh(stream.body.deadline)
    {
      hide Meets, Log, Reached, Concat, SoFar;
      var verdict, body;
      ghost var outcomes;
      verdict, body, outcomes := Do(ctx, verb, Stream, 0, deployment, ledger);
      v := verdict;
      AttemptsBounded(verb, 0, outcomes, v);
      o := outcomes[0];
      assert outcomes == [o];
      if verdict.Rejected? {
        return null, Some(verdict.failure), v, o;
      }
      failure := None;
      stream := new EventStream(body);
    }

    /**
     The documented use of a stream (sse.go:61-67): open it, range over it, close it. However the
     consumer stops and whatever cuts the stream, it has seen the events of the bytes that were read,
     and nothing stays live.
     */
    method Watch<S>(ctx: CallerContext, verb: string, deployment: Deployment<S>, ledger: Ledger,
                    wants: seq<StreamEvent> -> bool)
      returns (seen: seq<StreamEvent>, failure: Option<CallSpec.Failure>, err: Option<ReadError>,
               ghost v: Verdict, ghost o: Outcome, ghost left: Closing)
      requires origin.Valid() && ledger.deadlines == {} && ledger.bodies == {}
      modifies ctx, deployment, ledger, origin
      ensures Called(verb, 0, [o], v, old(ctx.done), ctx.done, old(ledger.log), ledger.log, left)
      ensures deployment.SentOnce(old(deployment.state), old(deployment.sends), old(deployment.applied))
      ensures ledger.deadlines == {} && ledger.bodies == {}
      ensures failure == (if v.Rejected? then Some(v.failure) else None)
      ensures v.Rejected? ==> seen == [] && err == None
      ensures v.Accepted? ==>
        && o.Answered? && Streamed(left, o.content, o.found, ctx.done)
        && seen == Taken(Parse(left.read), wants)
        && (err.Some? ==> err == left.end && err != Some(EOF))
        && (seen == [] || wants(seen) ==> left.end.Some? && (err.None? <==> left.end == Some(EOF)))
    {
      hide Parse, Taken, Concat, Reached, SoFar, Meets, Log, IsCall;
      var stream;
      left := UNREAD;
      stream, failure, v, o := OpenStream(ctx, verb, deployment, ledger);
      if stream == null {
        Units(ledger.log);
        return [], failure, None, v, o, left;
      }
      ghost var accepted := ctx.done;
      seen, err, left := RangeThenClose(stream, wants);
      MeetsStill([o], old(ctx.done), accepted, ctx.done);
    }
  }

  /** One request at most for a method that may not be replayed; the rest collapses by idempotence. */
  lemma AtMostOnce<S(!new)>(deployment: Deployment<S>, verb: string, s: S, sends0: nat, applied0: nat,
                            outcomes: seq<Outcome>, retries: int, v: Verdict)
    requires IsCall(verb, retries, outcomes, v)
    requires deployment.Since(s, sends0, applied0) && deployment.sends - sends0 <= |outcomes|
    requires verb in {"GET", "HEAD", "DELETE"} ==> IsIdempotent(deployment.effect)
    ensures deployment.state == s || deployment.state == deployment.effect(s)
    ensures verb !in {"GET", "HEAD", "DELETE"} || retries <= 0 ==> deployment.sends <= sends0 + 1
  {
    AttemptsBounded(verb, retries, outcomes, v);
    RepeatsCollapse(deployment.effect, deployment.applied - applied0, s);
  }
}
