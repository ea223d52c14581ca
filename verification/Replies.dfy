/**
 What the entry points make of a call and of the body it may hand over (sdk/go/client.go:520-584): the
 JSON of a response, nothing, its bytes, or a stream of events. Reading a body is still under the
 attempt, so how it ends can be the doing of the attempt's timer or caller.
 */
module Replies {
  import opened Options
  import opened Sequences
  import opened Attempts
  import opened RetryPolicy
  import opened CallSpec

  datatype Reply = Failure(failure: CallSpec.Failure) | NoBody | DecodeError(rawBody: string) | Decoded(body: string)

  /** request: a body that does not end by itself is a ConnectionError, whatever cut it. */
  function JsonReply(v: Verdict, left: Closing, decodes: string -> bool): Reply {
    if v.Rejected? then Failure(v.failure)
    else if left.end != Some(EOF) then Failure(ConnectionError)
    else if left.read == "" then NoBody
    else if decodes(left.read) then Decoded(left.read)
    else DecodeError(left.read)
  }

  /** requestNoContent: the body and its end do not matter. */
  function NoContentReply(v: Verdict): Reply {
    if v.Rejected? then Failure(v.failure) else NoBody
  }

  function BytesReply(v: Verdict, left: Closing): Reply {
    if v.Rejected? then Failure(v.failure)
    else if left.end != Some(EOF) then Failure(ConnectionError)
    else Decoded(left.read)
  }

  /** The attempt is no other caller's. */
  predicate Under(a: Attempt, done: Option<Done>) {
    a.caller.Some? ==> a.caller == done
  }

  /** A body that was read to its end, all the time under its attempt's deadline. */
  predicate ReadOut(left: Closing, content: string, done: Option<Done>) {
    Received(left, content) && left.end.Some? && UnderDeadline(left.attempt) && Under(left.attempt, done)
  }

  /** A body that was read as a stream: past its deadline, unless that had run out at the headers. */
  predicate Streamed(left: Closing, content: string, found: TimerState, done: Option<Done>) {
    && Received(left, content) && Unreleased(left.attempt) && Under(left.attempt, done)
    && left.attempt.timer != Armed && found != Stopped && (found == Armed ==> left.attempt.timer == Stopped)
  }

  /** The call as it happened, and `left` the body it handed over, if it did, all on record. */
  ghost predicate Called(verb: string, retries: int, outcomes: seq<Outcome>, v: Verdict, was: Option<Done>,
                         done: Option<Done>, before: seq<LogEntry>, log: seq<LogEntry>, left: Closing)
  {
    && Happened(verb, retries, outcomes, v, was, done, before, before + Log(verb, retries, outcomes))
    && log == before + Log(verb, retries, outcomes) + if v.Accepted? then [BodyClosed(left)] else []
  }

  /** The same with a body that was read out, under its deadline. */
  ghost predicate Exchanged(verb: string, retries: int, outcomes: seq<Outcome>, v: Verdict, was: Option<Done>,
                            done: Option<Done>, before: seq<LogEntry>, log: seq<LogEntry>, left: Closing)
  {
    && Called(verb, retries, outcomes, v, was, done, before, log, left)
    && (v.Accepted? ==> ReadOut(left, outcomes[|outcomes| - 1].content, done))
  }

  // ---- who ends a body, and what the caller is told ----

  /** A body under its deadline is cut by its timer or by its caller, and by nobody else. */
  lemma BodyCutBy(left: Closing, content: string, done: Option<Done>)
    requires ReadOut(left, content, done) && left.end.value.Cut?
    ensures var c := left.end.value.cancellation;
      || (c == Cancellation(true, ByTimer) && left.attempt.timer == Fired)
      || (done.Some? && c == Cancellation(done.value.isDeadline, ByCaller))
  {}

  /** A stream is cut by its caller, or by a timer that had already run out when the headers came in. */
  lemma StreamCutBy(left: Closing, content: string, found: TimerState, done: Option<Done>)
    requires Streamed(left, content, found, done) && left.end.Some? && left.end.value.Cut?
    ensures var c := left.end.value.cancellation;
      || (done.Some? && c == Cancellation(done.value.isDeadline, ByCaller))
      || (c == Cancellation(true, ByTimer) && found in {Firing, Fired})
  {}

  /** The failure a reply reports, if it does. */
  function FailureOf(r: Reply): Option<CallSpec.Failure> {
    if r.Failure? then Some(r.failure) else None
  }

  /**
   What an exchange may report, and exactly when. TimeoutError: the last attempt got no response and its
   own timer had ended it; never because of a body. ConnectionError: it got none and nobody had ended
   it, or the body of an accepted response did not come to its own end. The caller's error: exactly when
   the call ended with it; one that gives up while the body is read gets a ConnectionError.
   */
  lemma WhatIsReported(verb: string, retries: int, outcomes: seq<Outcome>, v: Verdict, was: Option<Done>, done: Option<Done>,
                       before: seq<LogEntry>, log: seq<LogEntry>, left: Closing, decodes: string -> bool, r: Reply)
    requires Exchanged(verb, retries, outcomes, v, was, done, before, log, left)
    requires r == JsonReply(v, left, decodes) || r == BytesReply(v, left)
    ensures var last := outcomes[|outcomes| - 1];
      && (FailureOf(r) == Some(TimeoutError) <==>
            FailedForGood(verb, retries, outcomes) && last.seen.Some? && last.seen.value.actor == ByTimer)
      && (FailureOf(r) == Some(ConnectionError) <==>
            || (FailedForGood(verb, retries, outcomes) && last.seen.None?)
            || (last.Answered? && last.status < 400 && left.end != Some(EOF)))
      && (FailureOf(r).Some? && FailureOf(r).value.CallerError? <==> v.Rejected? && v.failure.CallerError?)
      && (FailureOf(NoContentReply(v)) == Some(ConnectionError) <==> FailedForGood(verb, retries, outcomes) && last.seen.None?)
  {
    TimeoutIsTheTimer(verb, retries, outcomes, v);
    AcceptedIsBelow400(verb, retries, outcomes, v);
  }

  /** Whoever could cut a body: an accepted response whose body its timer, or its caller, has cut. */
  lemma CutInTheBody(verb: string, content: string, cause: Cancellation, done: Option<Done>, decodes: string -> bool)
    returns (o: Outcome, left: Closing)
    requires cause == Cancellation(true, ByTimer) || (done.Some? && cause == Cancellation(done.value.isDeadline, ByCaller))
    ensures Exchanged(verb, 0, [o], Accepted(200), None, done, [], LogOf(verb, 0, 0, o) + [BodyClosed(left)], left)
    ensures left.end == Some(Cut(cause)) && o.content == content && o.found == Armed
    ensures JsonReply(Accepted(200), left, decodes) == BytesReply(Accepted(200), left) == Failure(ConnectionError)
  {
    left := Closing("", Some(Cut(cause)), Attempt(done, Some(cause), if cause.actor == ByTimer then Fired else Armed));
    o := Answered(200, Absent, content, Armed, left, 0.0, Pause(true, None, None));
    ServedAtOnce(verb, o, done);
    hide IsCall, Meets, Log, LogOf, Happened;
  }

  lemma ServedAtOnce(verb: string, o: Outcome, done: Option<Done>)
    requires o.Answered? && o.status < 400 && Meets(o, None, done)
    ensures var log := LogOf(verb, 0, 0, o);
      Log(verb, 0, [o]) == log && [] + log == log && Happened(verb, 0, [o], Accepted(o.status), None, done, [], log)
  {
    OneMore(verb, 0, [], o);
    Units(LogOf(verb, 0, 0, o));
    assert [] + [o] == [o];
    hide Log, LogOf;
  }
}
