# The Go SDK's transport, proved

A Dafny model of the hand-written half of cat-factory's Go SDK (`sdk/go`): the request engine with its
retries, deadlines and resources, the server-sent-events reader, the auto-pagers, the record of what
the origin answered, path rendering, and the tagged-union codecs. `dafny verify dfyconfig.toml` checks it.

| file | what it holds |
|---|---|
| `Options.dfy`, `Sequences.dfy` | the option type; splitting and joining, the one notion behind lines, records and path segments |
| `Iteration.dfy` | the consumer of a push iterator: any function of what it was given so far |
| `Attempts.dfy` | one attempt: context, timer, body, and everything that may happen to them concurrently |
| `RetryPolicy.dfy` | which methods and statuses are retried, backoff, Retry-After in 64-bit arithmetic |
| `CallSpec.dfy` | a whole call as a pure function of what its attempts met, and what follows from it |
| `CallLaws.dfy` | the retry policy, its waits and its verdicts in full, in methods, statuses and nanoseconds |
| `Replies.dfy` | what the entry points make of a call and of the body it hands over, and who may cut that body |
| `Client.dfy` | `do` and the four entry points, against an adversarial network, timer and caller |
| `Sse.dfy`, `SseLaws.dfy`, `SsePrinter.dfy`, `SseFields.dfy`, `EventStreams.dfy` | the meaning of a byte stream, its laws, its inverse, what each written field means, and the incremental reader |
| `Pager.dfy`, `PagerLaws.dfy`, `Keyset.dfy` | the pager loop against any server, its walk in full, and against a keyset that changes while it is walked |
| `Origin.dfy` | the origin tracker, alone and under every interleaving of goroutines |
| `Routes.dfy` | path escaping and route rendering |
| `TaggedUnions.dfy` | decode and encode of an n-variant union |

What a call meets is recorded in its ledger by the environment itself: a request that could not be built,
a transport failure and whether the caller had given up by then, every reading of the attempt's cause and
of the caller's `Err()`, a response and all its body holds, the state in which `headersReceived` found the
timer, how a body was left when it was closed and in what state its attempt was by then, a backoff, whether
its timer had run out when it ended and how the caller stood then. The ledger also knows which attempts
and bodies are live. `CallSpec.Happened` ties a call's verdict to that record, and `do` and all its entry
points promise it, so what is said about a call is said about what happened to it.

How the concurrency is modelled. Between any two statements that read or change an attempt, from its start
to its release, every single read of its body included, the environment may take any number of steps: the
caller cancels, a parent's cancellation reaches the child, the timer expires, the expired timer's function
runs. Those are four different events, so a timer that expires just before `Stop` is in the model. Once an
attempt is cancelled a read of its body may still get what has arrived, or be cut, and then every later read
is; a body of which nothing more comes is read until its attempt is cancelled. A backoff is a race of its
timer and the caller's context, and `select` takes either if both are ready. What the network does is chosen
freely at every round trip. A caller's context error and the question whether its cause is a deadline are
independent, so a caller's own deadline and a custom cause are both covered. A consumer of events or pages
is an arbitrary function of all it has been given. The server of a pager answers from everything it was ever
asked, the cursors it was sent included, and the caller's context cuts a walk off after any number of
requests. The deployment is a state and the effect of one request on it, undisturbed by other clients for
the length of a call; that a repeatable method's effect is idempotent is section 9.2.2 of RFC 9110.

What the code does that its own comments do not say, and which the model follows:

- `EventStream`'s comment offers ranging to completion as a way to release the socket. `Events` never
  closes anything; only `Close` does (`EventStream.Events`, `EventStream.Close`).
- A union's comment says exactly one variant pointer is set. Decoding twice into one value leaves two
  set and may encode the older one (`LeftoverFork`, `TwoDecodes`). Exactly one is set if and only if no
  other was before (`OnlyOneExactlyWhen`), and the body last decoded is the one encoded if and only if no
  earlier-declared one was (`ReuseExactlyWhen`).
- A Retry-After of more than 9223372036 seconds overflows, and the client then may not wait at all
  (`HonestExactlyWhen`, `NegativeExactlyWhen`, `FirstWrap`).
- The pagers stop at a cursor repeated at once, not at a longer cycle (`EndsExactlyWhen`,
  `LongCycleNeverEnds`).
- The comment on `do` says the caller's cancellation is not re-wrapped as a fault. That holds of a caller
  that had given up when the transport failed, or does while a backoff's timer is running
  (`CallerErrorIsTheCaller`). One that gives up after its `Err()` was read can still be answered with a
  `TimeoutError` (`GaveUpTooLate`), and one that gives up while an accepted body is read gets a
  `ConnectionError` (`WhatIsReported`, `CutInTheBody`).
- The comment on `sleep` says a cancelled call does not sit through a backoff. It does only if the timer has
  run out as well by the time `select` looks (`OnlyTheRaceGoesOn`), and may then even be served (`BothReady`).
- A deadline that expires while a body is read is a `ConnectionError`, not a `TimeoutError`
  (`WhatIsReported`, `CutInTheBody`).
- The SSE reader follows sections 9.2.5 and 9.2.6 of the WHATWG HTML Living Standard except that only LF
  ends a line and all trailing CRs go, a record unfinished at the end of the stream is dispatched, so is
  a record with a name and no data, an id is not remembered across records, and a byte order mark stays.

## Model

| member | source | states |
|---|---|---|
| Attempts.RunEnvKeeps | sdk/go/client.go:380-422 | every reachable state of an attempt is consistent; cancellation is for good, whatever the environment does |
| Attempts.ExpiryUnderALiveCaller | sdk/go/client.go:436-451 | in every interleaving of timer, caller, transport failure and release: a cancellation seen under a caller that is still live afterwards is the client's own timer's |
| Attempts.StreamOutlivesDeadline | sdk/go/client.go:396-415 | after the headers of a stream, the timer can still cut it if and only if it had already expired when headersReceived ran |
| Attempts.DisarmedStaysUncut | sdk/go/client.go:405-409 | with the timer stopped, no later event makes the timer the one that cancelled |
| Attempts.BodyStaysBounded | sdk/go/client.go:344-357 | a unary or bytes attempt stays under its deadline as long as its body is open, and the deadline still ends it |
| Attempts.ReleaseIsFinal | sdk/go/client.go:411-415 | after release nothing reaches the attempt, no timer can still expire, and releasing again changes nothing |
| Attempts.AttemptDeadline.Start | sdk/go/client.go:389-401 | starts an attempt under the caller's context; no other attempt of the call may be live |
| Attempts.AttemptDeadline.HeadersReceived | sdk/go/client.go:403-409 | stops a stream's timer and leaves any other attempt alone; the state it found the timer in is on record |
| Attempts.AttemptDeadline.Release | sdk/go/client.go:411-415 | stops the timer, cancels unless already cancelled, and takes the attempt off the live ones |
| Attempts.ResponseBody.Open | sdk/go/client.go:434-467 | a response's body is live from now on, unread, and belongs to its attempt; no other body of the call may be live |
| Attempts.ResponseBody.Read | sdk/go/client.go:457-467 | a read gets the next bytes of the body, or fails: as the body ends, or cut by exactly what has cancelled its attempt; once it fails it fails for good |
| Attempts.ResponseBody.ReadAll | sdk/go/client.go:528-531 | all the bytes up to the end, and the error unless that is EOF |
| Attempts.ResponseBody.Close | sdk/go/client.go:467-468 | puts on record what was read, how that ended, and the state of the attempt by then; after EOF that is the whole body |
| Attempts.CancellingBody.Close | sdk/go/client.go:509-518 | closing the body closes the connection's body, on record, and then releases exactly its attempt |
| RetryPolicy.CeilingShape | sdk/go/client.go:286-291 | the backoff ceiling doubles from 250 ms, never falls, and is 8000 ms from the sixth attempt on |
| RetryPolicy.BackoffBelowCeiling | sdk/go/client.go:286-291 | a backoff is non-negative and strictly below its ceiling, for every draw |
| RetryPolicy.RetryAfterIsCapped | sdk/go/client.go:599-621 | an accepted Retry-After never asks for more than a minute, and a date never for less than nothing |
| RetryPolicy.HonestExactlyWhen | sdk/go/client.go:610-614 | the wait is the seconds asked for, capped, if and only if they are at most 9223372036 or the wrapped product reaches a minute |
| RetryPolicy.NegativeExactlyWhen | sdk/go/client.go:610-614 | delta-seconds give a negative wait if and only if the product holds an odd number of 2^63 |
| RetryPolicy.FirstWrap | sdk/go/client.go:614 | 9223372036 is served honestly and 9223372037 is not: the threshold is tight |
| CallSpec.AttemptsBounded | sdk/go/client.go:269-277 | a call makes between one and retries + 1 attempts, and exactly one for any method but GET, HEAD and DELETE |
| CallSpec.EveryScriptHasOneCall | sdk/go/client.go:426-483 | whatever the attempts would meet for ever, there is exactly one complete call and one verdict: `do` terminates |
| CallLaws.GoesOnExactlyWhen | sdk/go/client.go:443-448 | another attempt follows if and only if the method is GET, HEAD or DELETE, a retry is left, there was no response under a live caller or one of 429, 502, 503 or 504, and the caller did not cut the backoff short |
| CallLaws.VerdictInFull | sdk/go/client.go:424-483 | every verdict, for every last outcome: with a retry due only the caller's error; otherwise the build error, the caller's error, TimeoutError, ConnectionError, the response below 400, or the ApiError of that status with what was read, a mebibyte at most |
| CallLaws.RefusalIsReported | sdk/go/client.go:465-481 | an ApiError carries the status and the beginning of the body the deployment sent, all of it if that is less than a mebibyte and was read to its end |
| CallLaws.PausesExactlyWhen | sdk/go/client.go:470-477 | a wait is on record after an attempt if and only if a retry was due |
| CallLaws.WaitInFull | sdk/go/client.go:599-621 | the wait on record: the seconds asked for as a 64-bit product, or the time up to the date but not less than nothing, either at most a minute; if nothing readable was asked for, the draw's share of 250, 500, 1000, 2000, 4000, then 8000 ms, in whole milliseconds |
| CallSpec.TimeoutIsTheTimer | sdk/go/client.go:435-452 | the verdict is TimeoutError if and only if the last attempt got no response, its own timer cancelled it first, the caller was live when asked, and no retry was left; ConnectionError if and only if the same but nobody had cancelled it |
| CallSpec.CallerErrorIsTheCaller | sdk/go/client.go:438-446 | the caller's own error, the one its context ended with, if and only if its Err() was set after a failed attempt or it cut a backoff short; if the caller had given up when a transport failed, or gave up while a backoff's timer was running, at any attempt, that attempt is the last and the caller gets its own error |
| CallSpec.OnlyTheRaceGoesOn | sdk/go/client.go:586-597 | another attempt follows a backoff only if its timer had run out; under a caller that was done before the call, only after a refusal, with timer and caller both ready |
| CallSpec.BothReady | sdk/go/client.go:590-596 | that race: a caller that was done before the call is retried for and served |
| CallSpec.GaveUpTooLate | sdk/go/client.go:440-450 | a call answered with TimeoutError although its caller gave up before it returned: after its Err() had been read |
| CallSpec.AcceptedIsBelow400 | sdk/go/client.go:455-481 | a response is returned if and only if it is below 400, and no such response is ever retried away |
| CallSpec.WaitsAreLogged | sdk/go/client.go:443-479 | the backoffs of a call are exactly the waits recorded while it ran, in order |
| CallSpec.TotalBackoff | sdk/go/client.go:286-291 | n backoffs without Retry-After take less than 250 (2^n - 1) ms, or 15750 + 8000 (n - 6) ms beyond six |
| CallSpec.WaitsCapped | sdk/go/client.go:443-479 | no wait exceeds a minute and there are at most as many as retries |
| CallSpec.RepeatsCollapse | sdk/go/client.go:269-277 | any number of applications of an idempotent request is one |
| Client.Sleep | sdk/go/client.go:586-597 | a backoff whose timer has not run out ends with the caller's own error; under a live caller it ends by itself; if both are ready, either; nothing of the call is live meanwhile |
| Client.Client.AfterFailure | sdk/go/client.go:435-452 | after a failed transport the attempt is released, and the verdict is the specified one of an outcome on record: the caller's state at the failure, the cause as read, the caller's Err() as read after it, and the backoff; what is the caller's is its context's own error |
| Client.Client.EndFailed | sdk/go/client.go:436-440 | the cause of the attempt's end is read before its release can hide it, and the caller's Err() after that, both on record; a caller that had given up is found so, and a cause read under a live caller is the timer's |
| Client.Client.RetryOrGiveUp | sdk/go/client.go:443-452 | under a live caller: the backoff, the caller's error if it gives up while that runs, TimeoutError if the cause read was a deadline, ConnectionError otherwise |
| Client.Client.AfterSuccess | sdk/go/client.go:455-462 | an accepted response takes its attempt along, its body unread; a stream's timer is stopped unless it had already expired, any other's is not |
| Client.Client.AfterRefusal | sdk/go/client.go:465-481 | a refusal is read up to a mebibyte or to where it is cut, closed and released, and only then waited for |
| Client.Client.ReadRefusal | sdk/go/client.go:465-468 | what was read of the refused body, under its deadline; then body and attempt are no longer live |
| Client.Client.RetryOrRefuse | sdk/go/client.go:470-480 | with nothing live: the wait the deployment or the backoff asks for, the caller's error if it gives up while that runs, the ApiError of what was read otherwise |
| Client.Client.TryOnce | sdk/go/client.go:427-482 | one turn of the loop decides as specified on an outcome that is on record, sends at most once and nothing if the request could not be built, and leaves nothing live unless accepted |
| Client.Client.Do | sdk/go/client.go:424-483 | in every run the verdict is the pure specification's, on outcomes that are exactly what the ledger recorded; a CallerError carries the error of the caller's context; it hands over exactly one live attempt and its unread body, or leaves none; the deployment has seen at most one send per attempt |
| Client.AtMostOnce | sdk/go/client.go:269-277 | one call leaves the deployment as after zero or one application; any method but GET, HEAD and DELETE, and every stream, is sent at most once |
| Replies.BodyCutBy | sdk/go/client.go:344-357 | a unary or bytes body that was cut was cut by its own expired timer or by its caller |
| Replies.StreamCutBy | sdk/go/client.go:346-350 | a stream that was cut was cut by its caller, or by a timer that had already expired when the headers came in |
| Replies.WhatIsReported | sdk/go/client.go:520-571 | TimeoutError if and only if the last attempt got no response and its timer had ended it, never because of a body; ConnectionError if and only if nobody had ended it or an accepted body did not come to its own end; the caller's error if and only if the call ended with it |
| Replies.CutInTheBody | sdk/go/client.go:528-531 | accepted responses whose body the attempt's own timer, or its caller, cuts: both are reported as ConnectionError |
| Client.Client.Request | sdk/go/client.go:520-539 | the same of its call; a rejected verdict is reported as that very failure; an accepted body was read to its end or to where it was cut, under its deadline up to the last; cut, it is a ConnectionError; at EOF, what the deployment sent is nothing, decodes and is returned, or is a DecodeError, exactly as it is empty, decodes or does not; nothing stays live |
| Client.Client.RequestNoContent | sdk/go/client.go:541-551 | the same of its call; a rejected verdict is reported as that very failure; an accepted body is drained under its deadline, and what it holds and how it ends do not matter; nothing stays live |
| Client.Client.RequestBytes | sdk/go/client.go:553-571 | the same of its call; a rejected verdict is reported as that very failure; an accepted body was read to its end or to where it was cut, under its deadline up to the last; its bytes are what the deployment sent, or it is a ConnectionError; nothing stays live |
| Client.Client.OpenStream | sdk/go/client.go:573-584 | a stream is a call of one attempt, never retried; a rejected verdict is reported as that very failure; what is live belongs to the stream, nothing of which was read, and its timer is stopped unless it had expired at the headers |
| Client.Client.Watch | sdk/go/sse.go:59-70 | open, range, close: the consumer sees the events of the bytes that were read, up to where it stops; err is how reading ended, if not at EOF; only the caller, or a timer that had expired at the headers, can have cut it; nothing stays live |
| Sse.EmptyLineSeparates | sdk/go/sse.go:77-85 | an empty line ends a record, whatever stands before and after |
| SseLaws.ConcatAtBlankLine | sdk/go/sse.go:77-85 | the events of two streams joined at a blank line are the events of the one and then the other |
| SseLaws.ExtraBlankLines | sdk/go/sse.go:78-82 | any number of further blank lines between records changes nothing |
| SseLaws.TerminatorIsOptional | sdk/go/sse.go:91-94 | leaving out the last line end, or the last blank line, changes nothing |
| SseLaws.CommentsAreInvisible | sdk/go/sse.go:117-120 | a comment line at the start, between any two lines or at the end changes nothing |
| SseLaws.LineEndingsAreNeutral | sdk/go/sse.go:77 | replacing every LF by CRLF changes nothing |
| SsePrinter.ParsedArePrintable | sdk/go/sse.go:113-141 | no byte stream yields an event that printing could not reproduce |
| SsePrinter.RoundTrip | sdk/go/sse.go:113-141 | reading what was printed gives the events back if and only if each is printable |
| SsePrinter.RoundTripUnterminated | sdk/go/sse.go:91-94 | and also if the final blank line, or the last line end as well, was never sent |
| SsePrinter.Normalises | sdk/go/sse.go:71-99 | printing what was read is a normal form of the stream |
| SseFields.RecordInFull | sdk/go/sse.go:113-141 | the event of a record of any `event: `, `id: ` and `data: ` lines, each any number of times or missing: the last name or `message`, the data joined by LF, the last id or none; no event if there is no data and the name is `message` |
| SseFields.SpaceIsOptional | sdk/go/sse.go:125-126 | `field:value` means what `field: value` does, unless the value begins with a space |
| SseFields.NameAloneIsEmpty | sdk/go/sse.go:121-124 | a line that is only a field's name gives it the empty value |
| SseFields.OtherFieldsMeanNothing | sdk/go/sse.go:127-134 | a field of any other name, in any other case, is as if it were not there |
| SseFields.FieldsCommute | sdk/go/sse.go:127-134 | lines of different fields may change places |
| EventStreams.LineReader.ReadString | sdk/go/sse.go:75 | over any cutting into chunks: the bytes up to the delimiter, or all that is left and how it ended |
| EventStreams.DecodeEvent | sdk/go/sse.go:113-141 | the imperative pass over a record computes the event its fields mean |
| EventStreams.YieldRecord | sdk/go/sse.go:79-81 | a record is yielded if it decodes, and never to a consumer that stopped |
| EventStreams.TakeLine | sdk/go/sse.go:76-86 | a line ends the buffered record or joins it, and whatever bytes may follow, no event is lost or gained by either |
| EventStreams.EventStream.Advance | sdk/go/sse.go:75-86 | the same for a line read off the body, under its attempt |
| EventStreams.EventStream.Range | sdk/go/sse.go:73-97 | the loop: whatever bytes may follow, what was given and what is still to come make up the whole, at every turn |
| EventStreams.EventStream.Events | sdk/go/sse.go:59-99 | what the consumer sees is a pure function of the bytes read, whatever the chunks and whatever cuts them, up to where it stops; the rest is still to come; err tells EOF from another end; nothing is closed |
| EventStreams.EventStream.Close | sdk/go/sse.go:104-111 | closes the body, on record, and releases the attempt, once however often it is called |
| EventStreams.RangeAgain | sdk/go/sse.go:72-99 | breaking and ranging again, any number of times, loses and repeats nothing, and has given everything the stream was once one of the ranges did not break |
| Iteration.Consumer.Yield | sdk/go/sse.go:79-81 | a yield function is never called again after it returned false |
| Iteration.SeenIsTaken | sdk/go/sse.go:72-99 | a consumer served in order and never after it stopped has seen exactly the part it wanted |
| Pager.YieldItems | sdk/go/operations_gen.go:809-813 | the items of a page in order, until the consumer stops |
| Pager.Turn | sdk/go/operations_gen.go:802-823 | one turn of the pager: one request with the cursor last named, and what was yielded and sent stays on the walk |
| Pager.WalkAll | sdk/go/operations_gen.go:796-825 | against a server that answers from all it was asked: the consumer sees the walk up to where it stops; the requests are the walk's and none follows the stop; the caller's query is not written |
| Pager.WalkTwice | sdk/go/operations_gen.go:796-801 | against a server that does not change, ranging again restarts the same walk: the two consumers see their parts of one sequence, and equal policies see the same and send the same requests |
| Pager.AnsweredInTurn | sdk/go/operations_gen.go:802-807 | the i-th reply of a walk answers the i-th request sent, with its cursor, after all those before it |
| Pager.SeenOfSent | sdk/go/operations_gen.go:809-813 | what a consumer saw is what the server answered to the requests actually sent, and nothing else |
| Pager.OnlyLastFails | sdk/go/operations_gen.go:792-795 | at most one error is yielded, and only last |
| Pager.NeverTheSameCursorTwice | sdk/go/operations_gen.go:814-822 | the first request carries the caller's cursor, no later one carries none, the empty one, or that of the request before it, and the rest of the query is the caller's in all of them |
| Pager.CompleteWalk | sdk/go/operations_gen.go:792-795 | a walk to the last page yields exactly all the pages' items in order, with one request per page |
| PagerLaws.FollowedExactlyWhen | sdk/go/operations_gen.go:814-822 | another request follows a reply if and only if the caller lets it and the reply is a page that names a cursor, not the empty one and not the one it was asked with; it carries that cursor and the rest of the query |
| PagerLaws.WalkInFull | sdk/go/operations_gen.go:796-825 | what is yielded: the items of all the pages, in order, then the fault, nothing after a last page, the repeated cursor, or the caller's cut-off |
| PagerLaws.LastPageEndsWalk | sdk/go/operations_gen.go:814-816 | a page that names no cursor, or the empty one, is the last: its items, no error, and no further request whatever the server would answer |
| Pager.EndsExactlyWhen | sdk/go/errors.go:82-91 | for any server and any number of requests let through, the walk comes to its own end if and only if one of those cursors, each sent back as named, is answered with a fault, no next page, or that very cursor |
| Pager.LongCycleNeverEnds | sdk/go/errors.go:82-91 | a static server whose pages A and B name each other is followed for as long as the caller lets it |
| Keyset.WalkOfKeyset | sdk/go/operations_gen.go:3917-3950 | against a server that answers each request with the page its cursor asks for, of what is present then, or fails: the pager yields the keys served, then the failure or the cut-off if there was one, and never reports a repeated cursor |
| Keyset.InOrder | sdk/go/operations_gen.go:3917-3950 | strictly in order, so none twice, and all past the cursor it began at |
| Keyset.OnlyWhatWasPresent | sdk/go/operations_gen.go:3917-3950 | only keys that were present at one of the walk's requests |
| Keyset.NothingMissed | sdk/go/operations_gen.go:3899-3902 | every key past the cursor that was present at all of the walk's requests, up to where the walk got |
| Keyset.FinishesInTime | sdk/go/operations_gen.go:3917-3950 | it is not cut off if finitely many keys ever exist past the cursor and one request more than those is let through |
| Keyset.KeysetWalk | sdk/go/operations_gen.go:3917-3950 | order, presence and completeness together, for the replies of any walk |
| Keyset.WalkKeyset | sdk/go/operations_gen.go:3917-3950 | the same of what the pager's consumer has seen, whatever it wants and wherever it, the caller or the server ends the walk, measured at the requests actually sent; not cut off if one request more is let through than keys ever exist past the cursor |
| Keyset.OneKeyServerIsLawful | sdk/go/operations_gen.go:3899-3902 | there are such servers, for every keyset that comes and goes |
| Origin.OriginTracker.RecordAnswer | sdk/go/diagnosis.go:93-98 | adds one answer at this moment |
| Origin.OriginTracker.Snapshot | sdk/go/diagnosis.go:100-111 | as many calls as answers so far and the time since the last of them; nothing before the first |
| Origin.RunKeepsSafe | sdk/go/diagnosis.go:69-111 | in every interleaving count and moment disagree only inside the lock, and every snapshot equals a sequential one with an age that is not negative |
| Origin.EverySnapshotIs | sdk/go/diagnosis.go:60-111 | in any run of any number of goroutines, a snapshot counts the answers recorded by then and the time since the last of them, never negative |
| Origin.UnlockedTrace | sdk/go/diagnosis.go:69-80 | without the lock, a run whose snapshot counts an answer when none has its moment yet |
| Origin.EarlyClockTrace | sdk/go/diagnosis.go:87-92 | with the clock read before the lock, a run whose snapshot has a negative age |
| Origin.OnlyLockAndLateClock | sdk/go/diagnosis.go:69-111 | of the four designs exactly the one written keeps every snapshot of every run sequential |
| Routes.UnescapeUndoesEscape | sdk/go/client.go:261-267 | percent-decoding gives any id back, and no escaped id holds a slash |
| Routes.EscapedIsASegment | sdk/go/client.go:261-267 | an escaped id is a segment of section 3.3 of RFC 3986: no `/`, `?`, `#`, space or control character, and `%` only before two upper-case hex digits |
| Routes.UnchangedExactlyWhen | sdk/go/client.go:265-267 | an id is left as it is if and only if it is made of letters, digits and `-_.~$&+:=@` |
| Routes.RouteRoundTrip | sdk/go/operations_gen.go:2204-2209 | splitting a rendered path and decoding gives back its segments and all its ids |
| Routes.SegmentOf | sdk/go/operations_gen.go:2204-2209 | the i-th segment is the template's literal or the id whose turn it is, escaped |
| Routes.TargetIsTheRoute | sdk/go/client.go:293-305 | whatever the ids and the query, the path of the request's target is the whole rendered route, and the server gets the ids back from it |
| Routes.RenderIsInjective | sdk/go/operations_gen.go:2625-2630 | two lists of ids render alike if and only if they are the same |
| Routes.NoOtherRoute | sdk/go/client.go:263-264 | a rendered path, with any query, is matched by another route if and only if they agree on every literal, an id counting as a literal only if it is that very text |
| Routes.OnlyDotIdsAreNormalised | sdk/go/client.go:261-267 | dot-segment removal changes a rendered path if and only if some id is `.` or `..` |
| TaggedUnions.Union.UnmarshalJSON | sdk/go/models_gen.go:5042-5154 | sets raw, kind and at most one variant, in that order, up to the step that fails |
| TaggedUnions.DecodeFresh | sdk/go/models_gen.go:5003-5154 | into a fresh value exactly one variant is set if the tag is known and the body fits, none otherwise, and an unknown tag is no error |
| TaggedUnions.DecodeInFull | sdk/go/models_gen.go:5042-5154 | what one decode leaves in any value: the body always, the kind once read, the one variant under that tag if the body fits; it fails if and only if the tag cannot be read, or is known and the body does not fit |
| TaggedUnions.EncodeInFull | sdk/go/models_gen.go:5156-5205 | what is encoded: the first variant set, else the body last decoded, else null |
| TaggedUnions.OnlyOneExactlyWhen | sdk/go/models_gen.go:5003-5154 | after a decode exactly one variant is set if and only if no other was set before |
| TaggedUnions.TwoDecodes | sdk/go/models_gen.go:5003-5154 | two variants decoded into one value, the earlier-declared first: both are set and that one is encoded |
| TaggedUnions.DecodeAfterEncode | sdk/go/models_gen.go:5042-5205 | decode after encode restores a single variant if and only if it carries its own tag |
| TaggedUnions.OwnTagsKept | sdk/go/models_gen.go:1135-1183 | decoding keeps every set variant under its own tag |
| TaggedUnions.ReuseExactlyWhen | sdk/go/models_gen.go:1135-1208 | a value decoded into twice encodes its last body if and only if no earlier-declared variant was left set |
| TaggedUnions.UnknownVerbatimExactlyWhen | sdk/go/models_gen.go:1178-1208 | a body of an unknown variant is encoded verbatim if and only if no variant was left set |
| TaggedUnions.PublicDecisionTagsDistinct | sdk/go/models_gen.go:5003-5040 | the fourteen tags of PublicDecision are distinct |
| TaggedUnions.DecisionCodecIsLawful | sdk/go/models_gen.go:5003-5040 | fourteen types of which no value is of two, under PublicDecision's tags and in a simple wire form of tag and rest, meet the laws all of this assumes |
| TaggedUnions.LeftoverFork | sdk/go/models_gen.go:5042-5205 | a fork and then a judge decoded into one value: both pointers are set, and the fork is encoded |

## Left out

- Client.Client.Do: does not promise that the caller is still live when TimeoutError or ConnectionError is returned, because it can cancel after the last reading of its Err().
- Client.Client.Do: other goroutines of the same client do not record answers during the call; the tracker under concurrency is modelled on its own.
- Client.AtMostOnce: the deployment is not changed by other clients during the call, and net/http's own connection-level replays and redirects are not modelled.
- EventStreams.LineReader.ReadString: bufio's limit of a hundred empty reads in a row is not modelled; an empty chunk is just read over.
- RetryPolicy.HonestExactlyWhen: the header's text is not parsed; what strconv.Atoi and http.ParseTime read is the input.
- TaggedUnions.DecodeAfterEncode: encoding/json is a pair of functions per variant that undo each other on values of its type and keep the tag; its compaction of a nested value's output is not modelled.
- Whether a round trip or a body read ever returns: the network's answer is taken as given, and it is the deadline's business that one comes.
- The record buffer of `Events` and the union's variant pointers are values here: the reuse of the backing array and aliasing of pointers are not captured.
- The text of error messages, the classification of transport failures behind it, and `toAPIError`'s reading of the envelope beyond status and body.
- Building the request (headers, query encoding, the personal password) beyond that it may fail before anything is sent.
- The individual operations, query structs and wire models: thin shells over what is modelled here.
- The directory mirror, the execution engine and everything else in the backend, and the clients in other languages.
