/** The producer's side of the format, and the proof that reading undoes writing. */
module SsePrinter {
  import opened Options
  import opened Sequences
  import opened Sse
  import opened SseLaws

  function Line(field: string, value: string): string {
    field + ": " + value
  }

  function DataLines(segments: seq<string>): seq<string> {
    if segments == [] then [] else [Line("data", segments[0])] + DataLines(segments[1..])
  }

  /** One line for the name, one for the id, one per LF-separated segment of the data. */
  function PrintedLines(e: StreamEvent): seq<string> {
    [Line("event", e.event)] + ([Line("id", e.id)] + DataLines(Split(e.data, '\n')))
  }

  function Print(events: seq<StreamEvent>): string {
    if events == [] then "" else Join(PrintedLines(events[0]), '\n') + "\n\n" + Print(events[1..])
  }

  /** A text that survives as one line: no LF in it and no CR at its end. */
  predicate OneLine(text: string) {
    '\n' !in text && (text != "" ==> text[|text| - 1] != '\r')
  }

  predicate Printable(e: StreamEvent) {
    OneLine(e.event) && OneLine(e.id) && forall s :: s in Split(e.data, '\n') ==> OneLine(s)
  }

  // ---- what is read is printable ----

  lemma {:induction false} TrimmedEnd(line: string)
    requires '\n' !in line
    ensures OneLine(TrimCR(line))
    decreases |line|
  {
    if line != "" && line[|line| - 1] == '\r' { TrimmedEnd(line[..|line| - 1]); }
  }

  lemma LinesAreOneLine(bytes: string)
    ensures forall l :: l in LinesOf(bytes) ==> OneLine(l)
  {
    var pieces := Split(bytes, '\n');
    PiecesHoldNoSeparator(bytes, '\n');
    forall l | l in LinesOf(bytes) ensures OneLine(l) {
      var i :| 0 <= i < |pieces| && l == TrimCR(pieces[i]);
      assert pieces[i] in pieces;
      TrimmedEnd(pieces[i]);
    }
  }

  lemma {:induction false} ValuesAreOneLine(lines: seq<string>, field: string)
    requires forall l :: l in lines ==> OneLine(l)
    ensures forall v :: v in Values(lines, field) ==> OneLine(v)
  {
    if lines != [] {
      ValuesAreOneLine(lines[1..], field);
      var line, v := lines[0], ValueOf(lines[0]);
      assert OneLine(line);
      assert v == line[|line| - |v|..];
    }
  }

  lemma DecodedIsPrintable(lines: seq<string>)
    requires forall l :: l in lines ==> OneLine(l)
    ensures Decode(lines).Some? ==> Printable(Decode(lines).value)
  {
    assert OneLine(DEFAULT_EVENT) && OneLine("");
    hide Values, Split, Join, OneLine;
    ValuesAreOneLine(lines, "event");
    ValuesAreOneLine(lines, "id");
    ValuesAreOneLine(lines, "data");
    var data := Values(lines, "data");
    if data == [] { SplitWhole("", '\n'); } else { SplitJoin(data, '\n'); }
  }

  lemma {:induction false} EmittedArePrintable(records: seq<seq<string>>)
    requires forall r, l :: r in records && l in r ==> OneLine(l)
    ensures forall e :: e in FlatMap(Emit, records) ==> Printable(e)
  {
    if records != [] {
      assert records[0] in records;
      DecodedIsPrintable(records[0]);
      EmittedArePrintable(records[1..]);
    }
  }

  lemma {:induction false} PiecesComeFromWhole<T>(s: seq<T>, sep: T)
    ensures forall p, x :: p in Split(s, sep) && x in p ==> x in s
    decreases |s|
  {
    if sep in s {
      var p, rest := FirstPiece(s, sep);
      PiecesComeFromWhole(rest, sep);
    } else {
      SplitWhole(s, sep);
    }
  }

  /** No byte stream whatever yields an event that printing could not reproduce. */
  lemma ParsedArePrintable(bytes: string)
    ensures forall e :: e in Parse(bytes) ==> Printable(e)
  {
    LinesAreOneLine(bytes);
    PiecesComeFromWhole(LinesOf(bytes), "");
    EmittedArePrintable(Split(LinesOf(bytes), ""));
  }

  // ---- printing, then reading ----

  /** One more printed line in front adds its value to its own field, and to no other. */
  lemma LineAdds(field: string, value: string, rest: seq<string>, name: string)
    requires ':' !in field
    ensures Values([Line(field, value)] + rest, name)
         == (if name == field then [value] else []) + Values(rest, name)
  {
    var line := Line(field, value);
    IndexIs(line, ':', |field|);
    assert line[..|field|] == field;
    assert line[|field| + 1..] == " " + value;
    assert ([line] + rest)[1..] == rest;
  }

  lemma LineIsOneLine(field: string, value: string)
    requires '\n' !in field && OneLine(value)
    ensures Line(field, value) != "" && OneLine(Line(field, value))
  {
    var line := Line(field, value);
    assert value != "" ==> line[|line| - 1] == value[|value| - 1];
    assert value == "" ==> line[|line| - 1] == ' ';
  }

  lemma {:induction false} DataLinesHold(segments: seq<string>)
    requires forall s :: s in segments ==> OneLine(s)
    ensures forall l :: l in DataLines(segments) ==> l != "" && OneLine(l)
  {
    if segments != [] {
      DataLinesHold(segments[1..]);
      LineIsOneLine("data", segments[0]);
    }
  }

  lemma {:induction false} DataLinesValues(segments: seq<string>, name: string)
    ensures Values(DataLines(segments), name) == if name == "data" then segments else []
  {
    if segments != [] {
      DataLinesValues(segments[1..], name);
      LineAdds("data", segments[0], DataLines(segments[1..]), name);
    }
  }

  lemma PrintedLinesHold(e: StreamEvent)
    requires Printable(e)
    ensures forall l :: l in PrintedLines(e) ==> l != "" && OneLine(l)
  {
    LineIsOneLine("event", e.event);
    LineIsOneLine("id", e.id);
    DataLinesHold(Split(e.data, '\n'));
  }

  lemma PrintedLinesValues(e: StreamEvent, name: string)
    ensures Values(PrintedLines(e), name)
         == if name == "event" then [e.event] else if name == "id" then [e.id]
            else if name == "data" then Split(e.data, '\n') else []
  {
    var data := DataLines(Split(e.data, '\n'));
    LineAdds("event", e.event, [Line("id", e.id)] + data, name);
    LineAdds("id", e.id, data, name);
    DataLinesValues(Split(e.data, '\n'), name);
  }

  lemma PrintedLinesDecode(e: StreamEvent)
    ensures Decode(PrintedLines(e)) == Some(e)
  {
    PrintedLinesValues(e, "event");
    PrintedLinesValues(e, "id");
    PrintedLinesValues(e, "data");
    JoinSplit(e.data, '\n');
  }

  lemma TrimmedOneLine(lines: seq<string>)
    requires forall l :: l in lines ==> OneLine(l)
    ensures Trimmed(lines) == lines
  {
    forall i | 0 <= i < |lines| ensures TrimCR(lines[i]) == lines[i] {
      assert OneLine(lines[i]);
    }
  }

  lemma LinesOfJoined(lines: seq<string>)
    requires lines != [] && forall l :: l in lines ==> OneLine(l)
    ensures LinesOf(Join(lines, '\n')) == lines
  {
    SplitJoin(lines, '\n');
    TrimmedOneLine(lines);
  }

  lemma ParseOneRecord(e: StreamEvent)
    requires Printable(e)
    ensures Parse(Join(PrintedLines(e), '\n')) == [e]
  {
    PrintedLinesHold(e);
    LinesOfJoined(PrintedLines(e));
    PrintedLinesDecode(e);
    OneRecord(PrintedLines(e));
  }

  lemma PrintFirst(events: seq<StreamEvent>)
    requires events != []
    ensures Print(events) == Join(PrintedLines(events[0]), '\n') + "\n\n" + Print(events[1..])
  {}

  lemma {:induction false} PrintThenParse(events: seq<StreamEvent>)
    requires forall e :: e in events ==> Printable(e)
    ensures Parse(Print(events)) == events
  {
    if events == [] {
      LinesOfNothing();
    } else {
      hide Parse, Print, Printable, PrintedLines, Join;
      PrintFirst(events);
      ParseOneRecord(events[0]);
      ConcatAtBlankLine(Join(PrintedLines(events[0]), '\n'), Print(events[1..]));
      PrintThenParse(events[1..]);
      assert events == [events[0]] + events[1..];
    }
  }

  /** Reading undoes writing for exactly the lists of printable events. */
  lemma RoundTrip(events: seq<StreamEvent>)
    ensures Parse(Print(events)) == events <==> forall e :: e in events ==> Printable(e)
  {
    hide Parse, Print, Printable;
    if forall e :: e in events ==> Printable(e) {
      PrintThenParse(events);
    } else {
      ParsedArePrintable(Print(events));
    }
  }

  lemma {:induction false} PrintEnds(events: seq<StreamEvent>) returns (unended: string)
    requires events != []
    ensures Print(events) == unended + "\n\n"
  {
    var first := Join(PrintedLines(events[0]), '\n');
    if |events| == 1 {
      unended := first;
    } else {
      var rest := PrintEnds(events[1..]);
      unended := first + "\n\n" + rest;
    }
  }

  /** The last record is received even if its blank line, or its last line end, never was sent. */
  lemma RoundTripUnterminated(events: seq<StreamEvent>)
    requires events != [] && forall e :: e in events ==> Printable(e)
    ensures |Print(events)| >= 2
    ensures Parse(Print(events)[..|Print(events)| - 1]) == events
    ensures Parse(Print(events)[..|Print(events)| - 2]) == events
  {
    hide Parse, Printable;
    var unended := PrintEnds(events);
    PrintThenParse(events);
    TerminatorIsOptional(unended);
    assert Print(events)[..|Print(events)| - 1] == unended + "\n";
    assert Print(events)[..|Print(events)| - 2] == unended;
  }

  /** Printing what was read is a normal form: it reads back as the same events. */
  lemma Normalises(bytes: string)
    ensures Parse(Print(Parse(bytes))) == Parse(bytes)
  {
    hide Parse, Print, Printable;
    ParsedArePrintable(bytes);
    PrintThenParse(Parse(bytes));
  }
}
