/**
 The incremental reader of sdk/go/sse.go: lines cut out of a chunked body, a record buffer that is
 emptied and reused, and a push iterator whose consumer may stop and range again.
 */
module EventStreams {
  import opened Options
  import opened Sequences
  import opened Sse
  import opened Iteration
  import opened Attempts

  /** bufio.Reader over a body: what it was read of it is either handed out or buffered. */
  class LineReader {
    const body: ResponseBody
    var buffered: string
    ghost var taken: string

    constructor (body: ResponseBody)
      requires body.Valid() && body.read == ""
      ensures Valid() && this.body == body && taken == buffered == ""
    {
      this.body, buffered, taken := body, "", "";
    }

    ghost predicate Valid()
      reads this, body, body.deadline, body.deadline.ctx
    {
      body.Valid() && body.read == taken + buffered
    }

    /** The bytes up to and with the next delimiter, or all of them and how the body ended. */
    method ReadString(delim: char) returns (line: string, err: Option<ReadError>)
      requires Valid()
      modifies this, body, body.deadline, body.deadline.ctx
      ensures Valid() && Later(old(body.deadline.State()), body.deadline.State()) && body.closed == old(body.closed)
      ensures taken == old(taken) + line && old(body.read) <= body.read
      ensures err.None? ==> line != "" && line[|line| - 1] == delim && delim !in line[..|line| - 1]
      ensures err.Some? ==> delim !in line && buffered == "" && err == body.End()
      ensures old(body.End()).Some? ==>
        body.End() == old(body.End()) && body.read == old(body.read) && (old(buffered) == "" ==> line == "" && err.Some?)
    {
      hide Concat, IndexOf;
      while delim !in buffered
        invariant Valid() && taken == old(taken) && old(body.read) <= body.read
        invariant Later(old(body.deadline.State()), body.deadline.State()) && body.closed == old(body.closed)
        invariant old(body.End()).Some? ==>
          body.End() == old(body.End()) && body.read == old(body.read) && buffered == old(buffered)
        decreases |body.arriving|
      {
        ghost var held := buffered;
        var chunk, e := body.Read();
        Assoc(taken, held, chunk);
        Units(held);
        buffered := buffered + chunk;
        if e.Some? {
          line, err := buffered, e;
          Units(taken + line);
          buffered, taken := "", taken + line;
          return;
        }
      }
      var i := IndexOf(buffered, delim);
      line, err := buffered[..i + 1], None;
      assert buffered == line + buffered[i + 1..];
      Assoc(taken, line, buffered[i + 1..]);
      buffered, taken := buffered[i + 1..], taken + line;
    }
  }

  /** strings.TrimRight(line, "\r\n") */
  function TrimRight(line: string): string {
    if line != "" && line[|line| - 1] in {'\r', '\n'} then TrimRight(line[..|line| - 1]) else line
  }

  lemma {:induction false} TrimRightIsTrimCR(p: string)
    requires '\n' !in p
    ensures TrimRight(p) == TrimCR(p)
    decreases |p|
  {
    if p != "" && p[|p| - 1] == '\r' { TrimRightIsTrimCR(p[..|p| - 1]); }
  }

  /** The events still to come when `record` is buffered and `pending` is still to be read. */
  function ToCome(record: seq<string>, pending: string): seq<StreamEvent> {
    EventsOf(record + LinesOf(pending))
  }

  predicate Terminated(line: string) {
    line != "" && line[|line| - 1] == '\n' && '\n' !in line[..|line| - 1]
  }

  /** A line cut off the front of the bytes is the first of their lines. */
  lemma FirstLine(line: string, rest: string)
    requires Terminated(line)
    ensures LinesOf(line + rest) == [TrimRight(line)] + LinesOf(rest)
  {
    var p := line[..|line| - 1];
    calc {
      LinesOf(line + rest);
      { assert line + rest == p + "\n" + rest; }
      LinesOf(p + "\n" + rest);
      { LinesAtNewline(p, rest); }
      LinesOf(p) + LinesOf(rest);
      { LastLine(p); }
      [TrimRight(p)] + LinesOf(rest);
    }
  }

  lemma LastLine(line: string)
    requires '\n' !in line
    ensures LinesOf(line) == [TrimRight(line)]
  {
    SplitWhole(line, '\n');
    TrimRightIsTrimCR(line);
  }

  /** An empty line dispatches the buffered record; any other line joins it. */
  lemma LineStep(seen: seq<StreamEvent>, record: seq<string>, line: string, rest: string)
    requires "" !in record && Terminated(line)
    ensures seen + ToCome(record, line + rest)
         == if TrimRight(line) == "" then seen + Emit(record) + ToCome([], rest)
            else seen + ToCome(record + [TrimRight(line)], rest)
  {
    FirstLine(line, rest);
    var t, lines := TrimRight(line), LinesOf(rest);
    assert record + ([t] + lines) == record + [t] + lines;
    assert [] + lines == lines;
    if t == "" {
      EmptyLineSeparates(record, lines);
      OneRecord(record);
      assert seen + (Emit(record) + EventsOf(lines)) == seen + Emit(record) + EventsOf(lines);
    }
  }

  /** At the end of the stream the buffered record is dispatched, with the unterminated line. */
  lemma EndStep(seen: seq<StreamEvent>, record: seq<string>, line: string)
    requires "" !in record && '\n' !in line
    ensures seen + ToCome(record, line)
         == seen + Emit(if TrimRight(line) == "" then record else record + [TrimRight(line)])
  {
    LastLine(line);
    var t := TrimRight(line);
    if t == "" {
      EmptyLineSeparates(record, []);
      assert record + [""] + [] == record + [""];
      OneRecord(record);
    } else {
      OneRecord(record + [t]);
    }
  }

  /**
   Of the bytes taken so far the events in `given` were yielded and `record` is buffered: whatever
   bytes may still come, or, if the stream is over, for good.
   */
  ghost predicate SoFar(taken: string, given: seq<StreamEvent>, record: seq<string>, over: bool) {
    if over then Parse(taken) == given + Emit(record)
    else forall rest :: Parse(taken + rest) == given + ToCome(record, rest)
  }

  /** One more line, terminated or the last: what is given grows by `more`, and `next` is buffered. */
  lemma SoFarStep(taken: string, given: seq<StreamEvent>, record: seq<string>, over: bool, line: string,
                  more: seq<StreamEvent>, next: seq<string>)
    requires SoFar(taken, given, record, over) && "" !in record
    requires if over then line == "" else Terminated(line) || '\n' !in line
    requires var t := TrimRight(line);
      if line == "" then more == [] && next == record
      else if t == "" then more == Emit(record) && next == []
      else more == [] && next == record + [t]
    ensures SoFar(taken + line, given + more, next, !Terminated(line))
  {
    hide Parse, ToCome, Emit;
    if Terminated(line) {
      forall rest ensures Parse(taken + line + rest) == given + more + ToCome(next, rest) {
        Assoc(taken, line, rest);
        LineStep(given, record, line, rest);
        Units(given);
      }
    } else if over {
      Units(taken);
      Units(given);
    } else {
      Units(taken + line);
      EndStep(given, record, line);
      Units(given);
      NothingFrom(given + more);
    }
  }

  /** The stream was only just opened. */
  lemma StartsEmpty()
    ensures SoFar("", [], [], false)
  {
    forall rest ensures Parse("" + rest) == [] + ToCome([], rest) {
      Units(rest);
      assert [] + LinesOf(rest) == LinesOf(rest);
      Units(EventsOf(LinesOf(rest)));
    }
  }

  lemma NothingFrom(given: seq<StreamEvent>)
    ensures given + Emit([]) == given && given + Parse("") == given && ToCome([], "") == Parse("")
  {
    ToComeOf("");
    LinesOfNothing();
    OneRecord([]);
    hide ToCome, LinesOf, EventsOf;
    Units(given);
  }

  lemma ToComeOf(bytes: string)
    ensures ToCome([], bytes) == Parse(bytes)
  {
    Units(LinesOf(bytes));
  }

  lemma ValuesStep(lines: seq<string>, i: nat, field: string)
    requires i < |lines|
    ensures Values(lines[..i + 1], field)
         == Values(lines[..i], field) + if FieldOf(lines[i]) == field then [ValueOf(lines[i])] else []
  {
    assert lines[..i + 1] == lines[..i] + [lines[i]];
    ValuesAppend(lines[..i], [lines[i]], field);
    ValuesOne(lines[i], field);
  }

  /** decodeEvent: one pass over the lines, remembering what each field was last or so far given. */
  method DecodeEvent(lines: seq<string>) returns (event: Option<StreamEvent>)
    ensures event == Decode(lines)
  {
    var name, id, data: seq<string> := DEFAULT_EVENT, "", [];
    for i := 0 to |lines|
      invariant name == LastOr(Values(lines[..i], "event"), DEFAULT_EVENT)
      invariant id == LastOr(Values(lines[..i], "id"), "")
      invariant data == Values(lines[..i], "data")
    {
      var line := lines[i];
      ValuesStep(lines, i, "event");
      ValuesStep(lines, i, "id");
      ValuesStep(lines, i, "data");
      if line != "" && line[0] == ':' {
        continue;
      }
      match FieldOf(line) {
        case "event" => name := ValueOf(line);
        case "data" => data := data + [ValueOf(line)];
        case "id" => id := ValueOf(line);
        case _ =>
      }
    }
    assert lines[..|lines|] == lines;
    if data == [] && name == DEFAULT_EVENT {
      return None;
    }
    return Some(StreamEvent(name, Join(data, '\n'), id));
  }

  /** What a consumer has seen that stopped, or was served to the end of the stream. */
  lemma SeenOfParse(c: Consumer<StreamEvent>, given: seq<StreamEvent>, taken: string, buffered: string, over: bool)
    requires c.Valid() && SoFar(taken, given + c.seen, [], over) && (over ==> buffered == "") && (c.Stopped() || over)
    ensures Parse(taken + buffered) == given + c.seen + Parse(buffered)
    ensures c.seen == Taken(Parse(taken + buffered)[|given|..], c.wants)
  {
    hide Parse, ToCome, Taken, Emit;
    NothingFrom(given + c.seen);
    ToComeOf(buffered);
    if over { Units(taken); }
    NothingFrom(c.seen);
    Assoc(given, c.seen, Parse(buffered));
    SeenIsTaken(c, c.seen + Parse(buffered));
  }

  /** if event, ok := decodeEvent(record); ok && !yield(event) */
  method YieldRecord(record: seq<string>, consumer: Consumer<StreamEvent>) returns (more: bool)
    requires consumer.Valid() && !consumer.Stopped()
    modifies consumer
    ensures consumer.Valid() && consumer.seen == old(consumer.seen) + Emit(record)
    ensures more == !consumer.Stopped()
  {
    var event := DecodeEvent(record);
    more := true;
    if event.Some? {
      more := consumer.Yield(event.value);
    }
  }

  /**
   One line, at sse.go:76-86: it ends the buffered record or joins it. `given` was yielded in earlier
   ranges, `taken` is what was read before the line.
   */
  method TakeLine(record: seq<string>, line: string, consumer: Consumer<StreamEvent>,
                  ghost given: seq<StreamEvent>, ghost taken: string, ghost over: bool)
    returns (next: seq<string>, more: bool)
    requires consumer.Valid() && !consumer.Stopped() && "" !in record
    requires SoFar(taken, given + consumer.seen, record, over)
    requires if over then line == "" else Terminated(line) || '\n' !in line
    modifies consumer
    ensures consumer.Valid() && more == !consumer.Stopped() && "" !in next && (!more ==> next == [])
    ensures SoFar(taken + line, given + consumer.seen, next, !Terminated(line))
  {
    hide SoFar, Emit, Terminated;
    ghost var before, news := consumer.seen, [];
    next, more := record, true;
    if |line| > 0 {
      var trimmed := TrimRight(line);
      if trimmed == "" {
        more := YieldRecord(record, consumer);
        next, news := [], Emit(record);
      } else {
        next := record + [trimmed];
      }
    }
    Units(before);
    Assoc(given, before, news);
    SoFarStep(taken, given + before, record, over, line, news, next);
  }

  class EventStream {
    const body: CancellingBody
    const reader: LineReader
    var err: Option<ReadError>
    var closed: bool
    /** All that was yielded, over all ranges, and whether a range has come to the end of the stream. */
    ghost var given: seq<StreamEvent>
    ghost var over: bool

    constructor (body: CancellingBody)
      requires body.inner.Valid() && body.inner.deadline == body.deadline && body.inner.read == ""
      ensures Valid() && fresh(reader) && this.body == body && err == None && !closed
      ensures given == [] && reader.buffered == ""
    {
      hide SoFar, Concat;
      this.body, err, closed, given, over := body, None, false, [], false;
      reader := new LineReader(body.inner);
      StartsEmpty();
    }

    ghost predicate Valid()
      reads this, reader, reader.body, reader.body.deadline, reader.body.deadline.ctx
    {
      && reader.body == body.inner && body.inner.deadline == body.deadline && reader.Valid()
      && SoFar(reader.taken, given, [], over)
      && (over ==> reader.buffered == "" && body.inner.End().Some?)
    }

    /** One turn of the loop, sse.go:75-86: read a line, let it end the record or join it. */
    method Advance(record: seq<string>, consumer: Consumer<StreamEvent>, ghost before: seq<StreamEvent>, ghost done: bool)
      returns (next: seq<string>, more: bool, end: Option<ReadError>)
      requires reader.body == body.inner && body.inner.deadline == body.deadline && reader.Valid()
      requires consumer.Valid() && !consumer.Stopped() && "" !in record
      requires SoFar(reader.taken, before + consumer.seen, record, done)
      requires done ==> reader.buffered == "" && body.inner.End().Some?
      modifies reader, body.inner, body.deadline, body.deadline.ctx, consumer
      ensures reader.Valid() && Later(old(body.deadline.State()), body.deadline.State())
      ensures body.inner.closed == old(body.inner.closed) && old(body.inner.read) <= body.inner.read
      ensures old(reader.taken) <= reader.taken && (end.None? ==> |old(reader.taken)| < |reader.taken|)
      ensures old(body.inner.End()).Some? ==>
        body.inner.End() == old(body.inner.End()) && body.inner.read == old(body.inner.read)
      ensures consumer.Valid() && more == !consumer.Stopped() && "" !in next && (!more ==> next == [])
      ensures SoFar(reader.taken, before + consumer.seen, next, end.Some?)
      ensures end.Some? ==> reader.buffered == "" && end == body.inner.End()
    {
      hide SoFar, Concat;
      ghost var taken := reader.taken;
      var line, readErr := reader.ReadString('\n');
      next, more := TakeLine(record, line, consumer, before, taken, done);
      end := readErr;
    }

    /** The loop of Events. */
    method Range(consumer: Consumer<StreamEvent>)
      returns (record: seq<string>, more: bool, end: Option<ReadError>)
      requires Valid() && consumer.Valid() && consumer.seen == []
      modifies reader, body.inner, body.deadline, body.deadline.ctx, consumer
      ensures reader.Valid() && Later(old(body.deadline.State()), body.deadline.State())
      ensures body.inner.closed == old(body.inner.closed) && old(body.inner.read) <= body.inner.read
      ensures old(reader.taken) <= reader.taken
      ensures old(body.inner.End()).Some? ==>
        body.inner.End() == old(body.inner.End()) && body.inner.read == old(body.inner.read)
      ensures consumer.Valid() && more == !consumer.Stopped() && (!more ==> record == [])
      ensures SoFar(reader.taken, given + consumer.seen, record, end.Some?)
      ensures more ==> end.Some?
      ensures end.Some? ==> reader.buffered == "" && end == body.inner.End()
    {
      hide SoFar, Concat;
      record, more, end := [], true, None;
      ghost var done := over;
      Units(given);
      while more && end.None?
        invariant reader.Valid() && Later(old(body.deadline.State()), body.deadline.State())
        invariant body.inner.closed == old(body.inner.closed) && old(body.inner.read) <= body.inner.read
        invariant old(reader.taken) <= reader.taken
        invariant old(body.inner.End()).Some? ==>
          body.inner.End() == old(body.inner.End()) && body.inner.read == old(body.inner.read)
        invariant consumer.Valid() && more == !consumer.Stopped() && "" !in record && (!more ==> record == [])
        invariant SoFar(reader.taken, given + consumer.seen, record, done)
        invariant done ==> reader.buffered == "" && body.inner.End().Some?
        invariant (end.Some? || !more ==> done == end.Some?) && (end.Some? ==> end == body.inner.End())
        decreases end.None?, |body.inner.content| - |reader.taken|
      {
        record, more, end := Advance(record, consumer, given, done);
        done := end.Some?;
      }
    }

    /**
     Ranges over the stream. The consumer sees what the bytes read mean, until it stops; what it did
     not see is still there for the next range; and err tells how the stream ended. Nothing is closed.
     */
    method Events(consumer: Consumer<StreamEvent>) returns (ghost ended: bool)
      requires Valid() && consumer.Valid() && consumer.seen == []
      modifies this, reader, body.inner, body.deadline, body.deadline.ctx, consumer
      ensures Valid() && Later(old(body.deadline.State()), body.deadline.State()) && consumer.Valid()
      ensures given == old(given) + consumer.seen
      ensures Parse(body.inner.read) == given + Parse(reader.buffered)
      ensures consumer.seen == Taken(Parse(body.inner.read)[|old(given)|..], consumer.wants)
      ensures ended ==> over && err == if body.inner.End() == Some(EOF) then old(err) else body.inner.End()
      ensures !ended ==> err == old(err) && consumer.Stopped()
      ensures closed == old(closed) && body.inner.closed == old(body.inner.closed)
      ensures old(body.inner.read) <= body.inner.read && old(reader.taken) <= reader.taken
      ensures old(body.inner.End()).Some? ==>
        body.inner.End() == old(body.inner.End()) && body.inner.read == old(body.inner.read)
    {
      hide Parse, SoFar, Emit, Taken, Concat;
      var record, more, end := Range(consumer);
      over := end.Some?;
      if more {
        if end.value != EOF {
          err := end;
        }
        ghost var seen := consumer.seen;
        var _ := YieldRecord(record, consumer);
        LastRecord(reader.taken, given, seen, record);
      }
      SeenOfParse(consumer, given, reader.taken, reader.buffered, over);
      given := given + consumer.seen;
      ended := more;
    }

    /** Releases the attempt and its body, once however often it is called. */
    method Close() returns (ghost left: Option<Closing>, ghost last: Attempt)
      requires Valid()
      modifies this, body.inner, body.deadline, body.deadline.ctx, body.deadline.ledger
      ensures Valid() && closed && err == old(err) && given == old(given)
      ensures body.inner.read == old(body.inner.read) && body.inner.ended == old(body.inner.ended)
      ensures old(closed) ==>
        && left.None?
        && body.inner.closed == old(body.inner.closed)
        && body.deadline.State() == old(body.deadline.State())
        && body.deadline.ledger.bodies == old(body.deadline.ledger.bodies)
        && body.deadline.ledger.deadlines == old(body.deadline.ledger.deadlines)
        && body.deadline.ledger.log == old(body.deadline.ledger.log)
      ensures !old(closed) ==>
        && body.inner.closed
        && left.Some? && left.value.read == body.inner.read && left.value.end == body.inner.ended
        && Received(left.value, body.inner.content) && Consistent(left.value.attempt)
        && Later(old(body.deadline.State()), left.value.attempt) && Later(left.value.attempt, last)
        && body.deadline.State() == Released(last)
        && body.deadline.ledger.bodies == old(body.deadline.ledger.bodies) - {body.inner}
        && body.deadline.ledger.deadlines == old(body.deadline.ledger.deadlines) - {body.deadline}
        && body.deadline.ledger.log == old(body.deadline.ledger.log) + [BodyClosed(left.value)]
    {
      hide SoFar, Concat;
      left, last := None, body.deadline.State();
      if closed {
        return;
      }
      closed := true;
      ghost var closing;
      closing, last := body.Close();
      left := Some(closing);
    }
  }

  /** The documented use of an open stream (sse.go:63-67): range over it, then close it. */
  method RangeThenClose(s: EventStream, wants: seq<StreamEvent> -> bool)
    returns (seen: seq<StreamEvent>, err: Option<ReadError>, ghost left: Closing)
    requires s.Valid() && !s.closed && !s.body.inner.closed && s.err.None? && s.given == []
    modifies s, s.reader, s.body.inner, s.body.deadline, s.body.deadline.ctx, s.body.deadline.ledger
    ensures seen == Taken(Parse(left.read), wants)
    ensures err.Some? ==> err == left.end && err != Some(EOF)
    ensures seen == [] || wants(seen) ==> left.end.Some? && (err.None? <==> left.end == Some(EOF))
    ensures Received(left, s.body.inner.content) && Consistent(left.attempt)
    ensures Later(old(s.body.deadline.State()), left.attempt)
    ensures left.attempt.caller.Some? ==> s.body.deadline.ctx.done == left.attempt.caller
    ensures s.body.deadline.ledger.bodies == old(s.body.deadline.ledger.bodies) - {s.body.inner}
    ensures s.body.deadline.ledger.deadlines == old(s.body.deadline.ledger.deadlines) - {s.body.deadline}
    ensures s.body.deadline.ledger.log == old(s.body.deadline.ledger.log) + [BodyClosed(left)]
  {
    hide Parse, Taken, Concat, SoFar;
    var consumer := new Consumer(wants);
    ghost var ended := s.Events(consumer);
    assert Parse(s.body.inner.read)[0..] == Parse(s.body.inner.read);
    seen, err := consumer.seen, s.err;
    ghost var closing, last;
    closing, last := s.Close();
    left := closing.value;
  }

  /** The record that is buffered at the end of the stream is given as well. */
  lemma LastRecord(taken: string, given: seq<StreamEvent>, seen: seq<StreamEvent>, record: seq<string>)
    requires SoFar(taken, given + seen, record, true)
    ensures SoFar(taken, given + (seen + Emit(record)), [], true)
  {
    hide Parse, Emit;
    Assoc(given, seen, Emit(record));
    NothingFrom(given + (seen + Emit(record)));
  }

  /** A consumer that ranges to the end. */
  ghost predicate NeverStops(policy: seq<StreamEvent> -> bool) {
    forall seen :: policy(seen)
  }

  /**
   Breaking out of a range and ranging again, with any policies: together the ranges see the one
   sequence the bytes mean, nothing lost and nothing repeated, and all of it once one of them did not
   break out.
   */
  method RangeAgain(s: EventStream, policies: seq<seq<StreamEvent> -> bool>) returns (seen: seq<StreamEvent>)
    requires s.Valid()
    modifies s, s.reader, s.body.inner, s.body.deadline, s.body.deadline.ctx
    ensures s.Valid() && s.given == old(s.given) + seen
    ensures Parse(s.body.inner.read) == old(s.given) + seen + Parse(s.reader.buffered)
    ensures (exists i :: 0 <= i < |policies| && NeverStops(policies[i])) ==>
      s.body.inner.End().Some? && Parse(s.body.inner.read) == old(s.given) + seen
  {
    hide Parse, Taken, SoFar, Concat, Emit;
    seen := [];
    ParseSoFar(s);
    Units(s.given);
    for i := 0 to |policies|
      invariant s.Valid() && s.given == old(s.given) + seen
      invariant Parse(s.body.inner.read) == s.given + Parse(s.reader.buffered)
      invariant (exists k :: 0 <= k < i && NeverStops(policies[k])) ==>
        s.reader.buffered == "" && s.body.inner.End().Some?
    {
      var consumer := new Consumer(policies[i]);
      ghost var before := seen;
      ghost var _ := s.Events(consumer);
      assert NeverStops(policies[i]) ==> !consumer.Stopped();
      seen := seen + consumer.seen;
      Assoc(old(s.given), before, consumer.seen);
    }
    NothingFrom(s.given);
  }

  lemma ParseSoFar(s: EventStream)
    requires s.Valid()
    ensures Parse(s.body.inner.read) == s.given + Parse(s.reader.buffered)
  {
    hide Parse, Emit;
    NothingFrom(s.given);
    ToComeOf(s.reader.buffered);
    Units(s.reader.taken);
  }
}
