/**
 The retry policy and its verdicts in full (sdk/go/client.go:269-291, 424-483 and 599-621): what a
 complete call amounts to, said in methods, statuses and nanoseconds, for every sequence of outcomes.
 */
module CallLaws {
  import opened Options
  import opened Attempts
  import opened RetryPolicy
  import opened CallSpec

  /**
   Another attempt follows exactly when the method is GET, HEAD or DELETE, a retry is left, there was
   no response under a live caller or one of 429, 502, 503 or 504, and the caller did not cut the
   backoff short.
   */
  lemma GoesOnExactlyWhen(verb: string, retries: int, outcomes: seq<Outcome>, v: Verdict, i: nat)
    requires IsCall(verb, retries, outcomes, v) && i < |outcomes|
    ensures var o := outcomes[i];
      i < |outcomes| - 1 <==>
        && verb in {"GET", "HEAD", "DELETE"} && i < retries
        && ((o.NoResponse? && o.callerErr.None?) || (o.Answered? && o.status in {429, 502, 503, 504}))
        && o.pause.woken.None?
  {
    assert i < |outcomes| - 1 ==> Repeats(verb, retries, i, outcomes[i]);
  }

  /**
   The verdict is that of the last attempt. If a retry was due after it, then the caller's error that
   cut the backoff short; otherwise the failure to build the request, the caller's error, TimeoutError
   if what had cancelled the attempt says DeadlineExceeded, ConnectionError, the response below 400, or
   the ApiError of its status with what was read of the body, a mebibyte at most.
   */
  lemma VerdictInFull(verb: string, retries: int, outcomes: seq<Outcome>, v: Verdict)
    requires IsCall(verb, retries, outcomes, v)
    ensures var o, due := outcomes[|outcomes| - 1], verb in {"GET", "HEAD", "DELETE"} && |outcomes| <= retries;
      match o
      case NotBuilt => v == Rejected(BuildError)
      case NoResponse(_, seen, callerErr, _, pause) =>
        if callerErr.Some? then v == Rejected(CallerError(callerErr.value))
        else if due then pause.woken.Some? && v == Rejected(CallerError(pause.woken.value))
        else if seen.Some? && seen.value.isDeadline then v == Rejected(TimeoutError)
        else v == Rejected(ConnectionError)
      case Answered(status, _, _, _, left, _, pause) =>
        if due && status in {429, 502, 503, 504} then pause.woken.Some? && v == Rejected(CallerError(pause.woken.value))
        else if status < 400 then v == Accepted(status)
        else && v.Rejected? && v.failure.ApiError? && v.failure.status == status
             && v.failure.body <= left.read
             && |v.failure.body| == if |left.read| <= 1_048_576 then |left.read| else 1_048_576
  {}

  /**
   An ApiError carries the beginning of what the deployment sent, and all of it if that is less than a
   mebibyte and reading it came to its end.
   */
  lemma RefusalIsReported(verb: string, retries: int, outcomes: seq<Outcome>, v: Verdict,
                          was: Option<Done>, done: Option<Done>, status: int, body: string)
    requires IsCall(verb, retries, outcomes, v) && Meets(outcomes[|outcomes| - 1], was, done)
    requires v == Rejected(ApiError(status, body))
    ensures var o := outcomes[|outcomes| - 1];
      && o.Answered? && o.status == status >= 400
      && body <= o.content && |body| <= 1_048_576
      && (|body| < 1_048_576 ==> o.left.end.Some? && (o.left.end == Some(EOF) ==> body == o.content))
  {
    VerdictInFull(verb, retries, outcomes, v);
  }

  /** A wait is on record after an attempt exactly when a retry was due after it. */
  lemma PausesExactlyWhen(verb: string, retries: int, i: nat, o: Outcome)
    ensures (exists entry :: entry in LogOf(verb, retries, i, o) && entry.Paused?) <==>
      && verb in {"GET", "HEAD", "DELETE"} && i < retries
      && ((o.NoResponse? && o.callerErr.None?) || (o.Answered? && o.status in {429, 502, 503, 504}))
  {
    var log := LogOf(verb, retries, i, o);
    assert BacksOff(verb, retries, i, o) ==> log[|log| - 1].Paused?;
  }

  /**
   The wait on record is what the deployment asked for, in seconds (as a signed 64-bit number of
   nanoseconds, which wraps from 9223372037 on) or up to a date, but at most a minute; if it asked for nothing readable, the draw's share of 250 ms doubled with every attempt, or
   of 8 s from the sixth attempt on, in whole milliseconds.
   */
  lemma WaitInFull(verb: string, retries: int, i: nat, o: Outcome, entry: LogEntry)
    requires entry in LogOf(verb, retries, i, o) && entry.Paused?
    ensures !o.NotBuilt? && var header := if o.Answered? then o.retryAfter else Absent;
      match header
      case DeltaSeconds(n) =>
        if n < 0 then DrawnOf(i, o.draw, entry.wait)
        else
          var product := n * 1_000_000_000 % 0x1_0000_0000_0000_0000;
          && entry.wait == (if product >= 0x8000_0000_0000_0000 then product - 0x1_0000_0000_0000_0000
                            else if product <= 60_000_000_000 then product else 60_000_000_000)
          && (n <= 9223372036 ==> product == n * 1_000_000_000)
      case HttpDate(until) =>
        entry.wait == if until < 0 then 0 else if until <= 60_000_000_000 then until else 60_000_000_000
      case _ => DrawnOf(i, o.draw, entry.wait)
  {
    assert entry == Paused(WaitAfter(i, o), o.pause.ranOut, o.pause.caller);
    CeilingIs(i);
    BackoffIsDrawn(i, o.draw);
    if o.Answered? && o.retryAfter.DeltaSeconds? && o.retryAfter.n >= 0 {
      WrapMeets(o.retryAfter.n * SECOND);
    }
  }

  /** The wait is a whole number of milliseconds: that part of the ceiling, rounded down. */
  predicate DrawnOf(i: nat, draw: Draw, wait: int) {
    var ceiling := if i < 5 then [250.0, 500.0, 1000.0, 2000.0, 4000.0][i] else 8000.0;
    wait % 1_000_000 == 0 && (wait / 1_000_000) as real <= draw * ceiling < (wait / 1_000_000) as real + 1.0
  }

  lemma BackoffIsDrawn(i: nat, draw: Draw)
    ensures DrawnOf(i, draw, Backoff(i, draw))
  {
    CeilingIs(i);
    var ms := (draw * Ceiling(i) as real).Floor;
    assert Backoff(i, draw) == ms * 1_000_000 && Backoff(i, draw) / 1_000_000 == ms;
  }
}
