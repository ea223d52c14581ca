/**
 The wire format of sdk/go/sse.go as a function of the bytes received: the Go SDK's variant of
 sections 9.2.5 and 9.2.6 of the WHATWG HTML Living Standard. A byte is the char of that code.

 Lines are the pieces between LFs, each without its trailing CRs. Records are the pieces between
 empty lines. The last, unterminated line and record count like any other.
 */
module Sse {
  import opened Options
  import opened Sequences

  datatype StreamEvent = StreamEvent(event: string, data: string, id: string)

  const DEFAULT_EVENT := "message"

  function TrimCR(line: string): string {
    if line != "" && line[|line| - 1] == '\r' then TrimCR(line[..|line| - 1]) else line
  }

  function Trimmed(lines: seq<string>): seq<string> {
    seq(|lines|, i requires 0 <= i < |lines| => TrimCR(lines[i]))
  }

  function FieldOf(line: string): string {
    line[..IndexOf(line, ':')]
  }

  /** What follows the colon, without the one space that is framing. */
  function ValueOf(line: string): string {
    var i := IndexOf(line, ':');
    var raw := if i < |line| then line[i + 1..] else "";
    if raw != "" && raw[0] == ' ' then raw[1..] else raw
  }

  function ValueIn(field: string): string -> seq<string> {
    line => if FieldOf(line) == field then [ValueOf(line)] else []
  }

  /** The values the lines give to one field, in order. */
  function Values(lines: seq<string>, field: string): seq<string> {
    FlatMap(ValueIn(field), lines)
  }

  function LastOr(values: seq<string>, default: string): string {
    if values == [] then default else values[|values| - 1]
  }

  /** The event a record stands for: last name, last id, all data; or none. */
  function Decode(lines: seq<string>): Option<StreamEvent> {
    var data := Values(lines, "data");
    var name := LastOr(Values(lines, "event"), DEFAULT_EVENT);
    if data == [] && name == DEFAULT_EVENT then None
    else Some(StreamEvent(name, Join(data, '\n'), LastOr(Values(lines, "id"), "")))
  }

  function Emit(record: seq<string>): seq<StreamEvent> {
    match Decode(record)
    case None => []
    case Some(e) => [e]
  }

  function LinesOf(bytes: string): seq<string> {
    Trimmed(Split(bytes, '\n'))
  }

  function EventsOf(lines: seq<string>): seq<StreamEvent> {
    FlatMap(Emit, Split(lines, ""))
  }

  function Parse(bytes: string): seq<StreamEvent> {
    EventsOf(LinesOf(bytes))
  }

  // ---- how the pieces compose ----

  lemma TrimmedAppend(a: seq<string>, b: seq<string>)
    ensures Trimmed(a + b) == Trimmed(a) + Trimmed(b)
  {}

  lemma ValuesAppend(a: seq<string>, b: seq<string>, field: string)
    ensures Values(a + b, field) == Values(a, field) + Values(b, field)
  {
    FlatMapAppend(ValueIn(field), a, b);
  }

  lemma ValuesOne(line: string, field: string)
    ensures Values([line], field) == if FieldOf(line) == field then [ValueOf(line)] else []
  {
    FlatMapOne(ValueIn(field), line);
  }

  lemma OneRecord(record: seq<string>)
    requires "" !in record
    ensures EventsOf(record) == Emit(record)
  {
    SplitWhole(record, "");
    FlatMapOne(Emit, record);
  }

  /** An empty line ends a record, whatever stands before and after it. */
  lemma EmptyLineSeparates(a: seq<string>, b: seq<string>)
    ensures EventsOf(a + [""] + b) == EventsOf(a) + EventsOf(b)
  {
    SplitAtSeparator(a, "", b);
    FlatMapAppend(Emit, Split(a, ""), Split(b, ""));
  }

  lemma LinesAtNewline(a: string, b: string)
    ensures LinesOf(a + "\n" + b) == LinesOf(a) + LinesOf(b)
  {
    SplitAtSeparator(a, '\n', b);
    TrimmedAppend(Split(a, '\n'), Split(b, '\n'));
  }

  lemma LinesOfNothing()
    ensures LinesOf("") == [""] && EventsOf([""]) == [] && EventsOf([]) == []
  {
    SplitWhole("", '\n');
    EmptyLineSeparates([], []);
    assert [""] == [] + [""] + [];
  }
}
