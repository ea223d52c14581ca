/**
 What a record means, in the bytes of the wire (sdk/go/sse.go:113-141): which event its fields make, and
 in which other ways a producer may write the same field.
 */
module SseFields {
  import opened Sequences
  import opened Sse
  import opened SseLaws
  import opened SsePrinter

  /** The values in turn, each after the same prefix and on a line of its own. */
  function Text(prefix: string, values: seq<string>): string {
    if values == [] then "" else prefix + values[0] + "\n" + Text(prefix, values[1..])
  }

  function Prefixed(prefix: string, values: seq<string>): seq<string> {
    seq(|values|, i requires 0 <= i < |values| => prefix + values[i])
  }

  predicate OneLineEach(values: seq<string>) {
    forall v :: v in values ==> OneLine(v)
  }

  lemma {:induction false} LinesOfText(prefix: string, values: seq<string>, rest: string)
    requires '\n' !in prefix && prefix != "" && prefix[|prefix| - 1] == ' ' && OneLineEach(values)
    ensures LinesOf(Text(prefix, values) + rest) == Prefixed(prefix, values) + LinesOf(rest)
  {
    if values == [] {
      Units(rest);
      Units(LinesOf(rest));
    } else {
      var line, others := prefix + values[0], Text(prefix, values[1..]);
      assert OneLine(values[0]);
      assert Prefixed(prefix, values) == [line] + Prefixed(prefix, values[1..]);
      assert '\n' !in line && line[|line| - 1] != '\r';
      SplitWhole(line, '\n');
      assert LinesOf(line) == [line];
      hide LinesOf, Prefixed;
      LinesOfText(prefix, values[1..], rest);
      Assoc(line + "\n", others, rest);
      LinesAtNewline(line, others + rest);
      Assoc([line], Prefixed(prefix, values[1..]), LinesOf(rest));
    }
  }

  lemma {:induction false} ValuesOfPrefixed(field: string, values: seq<string>, name: string)
    requires ':' !in field
    ensures Values(Prefixed(field + ": ", values), name) == if name == field then values else []
  {
    if values != [] {
      ValuesOfPrefixed(field, values[1..], name);
      var rest := Prefixed(field + ": ", values[1..]);
      assert Prefixed(field + ": ", values) == [Line(field, values[0])] + rest;
      LineAdds(field, values[0], rest, name);
    }
  }

  lemma ValuesOfBlocks(names: seq<string>, ids: seq<string>, data: seq<string>, field: string)
    ensures Values(Prefixed("event: ", names) + Prefixed("id: ", ids) + Prefixed("data: ", data), field)
         == if field == "event" then names else if field == "id" then ids else if field == "data" then data else []
  {
    hide Values, Prefixed;
    var e, i, d := Prefixed("event: ", names), Prefixed("id: ", ids), Prefixed("data: ", data);
    ValuesAppend(e + i, d, field);
    ValuesAppend(e, i, field);
    WithColons();
    ValuesOfPrefixed("event", names, field);
    ValuesOfPrefixed("id", ids, field);
    ValuesOfPrefixed("data", data, field);
    Units(names);
    Units(ids);
    Units(data);
  }

  lemma WithColons()
    ensures "event" + ": " == "event: " && "id" + ": " == "id: " && "data" + ": " == "data: "
  {}

  /**
   A record's event, whatever fields it lacks or repeats: the last name, or "message", all the data
   lines with LFs between, the last id, or none. Without data it is an event only under a name of its
   own; an id alone is none.
   */
  lemma RecordInFull(names: seq<string>, ids: seq<string>, data: seq<string>)
    requires OneLineEach(names) && OneLineEach(ids) && OneLineEach(data)
    ensures
      var name := if names == [] then "message" else names[|names| - 1];
      var id := if ids == [] then "" else ids[|ids| - 1];
      Parse(Text("event: ", names) + Text("id: ", ids) + Text("data: ", data) + "\n")
        == if data == [] && name == "message" then [] else [StreamEvent(name, Join(data, '\n'), id)]
  {
    hide Text, Prefixed, Values, Emit, EventsOf, Split, LinesOf, OneLine, Join;
    var lines := Prefixed("event: ", names) + Prefixed("id: ", ids) + Prefixed("data: ", data);
    ValuesOfBlocks(names, ids, data, "event");
    ValuesOfBlocks(names, ids, data, "id");
    ValuesOfBlocks(names, ids, data, "data");
    LinesOfBlocks(names, ids, data);
    NotEmpty("event: ", names);
    NotEmpty("id: ", ids);
    NotEmpty("data: ", data);
    EventsOfValues(lines, names, ids, data);
  }

  lemma NotEmpty(prefix: string, values: seq<string>)
    requires prefix != ""
    ensures "" !in Prefixed(prefix, values)
  {}

  lemma EventsOfValues(lines: seq<string>, names: seq<string>, ids: seq<string>, data: seq<string>)
    requires "" !in lines
    requires Values(lines, "event") == names && Values(lines, "id") == ids && Values(lines, "data") == data
    ensures
      var name := if names == [] then "message" else names[|names| - 1];
      var id := if ids == [] then "" else ids[|ids| - 1];
      EventsOf(lines + [""] + [""])
        == if data == [] && name == "message" then [] else [StreamEvent(name, Join(data, '\n'), id)]
  {
    hide Values, EventsOf, Join;
    OneRecord(lines);
    EmptyLineSeparates(lines, [""]);
    LinesOfNothing();
    Units(EventsOf(lines));
  }

  lemma LinesOfBlocks(names: seq<string>, ids: seq<string>, data: seq<string>)
    requires OneLineEach(names) && OneLineEach(ids) && OneLineEach(data)
    ensures LinesOf(Text("event: ", names) + Text("id: ", ids) + Text("data: ", data) + "\n")
         == Prefixed("event: ", names) + Prefixed("id: ", ids) + Prefixed("data: ", data) + [""] + [""]
  {
    hide Text, Prefixed, LinesOf, OneLine;
    var e, i, d := Prefixed("event: ", names), Prefixed("id: ", ids), Prefixed("data: ", data);
    var te, ti, td := Text("event: ", names), Text("id: ", ids), Text("data: ", data);
    LinesOfText("event: ", names, ti + (td + "\n"));
    LinesOfText("id: ", ids, td + "\n");
    LinesOfText("data: ", data, "\n");
    TwoEmptyLines();
    Regrouped(te, ti, td, "\n");
    Regrouped(e, i, d, [""] + [""]);
    Assoc(e + i + d, [""], [""]);
  }

  lemma TwoEmptyLines()
    ensures LinesOf("\n") == [""] + [""]
  {
    LinesAfterNewline("");
    LinesOfNothing();
    Units("\n");
  }

  lemma Regrouped<T>(a: seq<T>, b: seq<T>, c: seq<T>, d: seq<T>)
    ensures a + (b + (c + d)) == a + b + c + d
  {}

  // ---- other ways to write the same ----

  /** At the start of the stream, or of a line. */
  predicate AtLineStart(a: string) {
    a == "" || a[|a| - 1] == '\n'
  }

  lemma LinesAhead(a: string, rest: string)
    requires AtLineStart(a)
    ensures LinesOf(a + rest) == (if a == "" then [] else LinesOf(a[..|a| - 1])) + LinesOf(rest)
  {
    if a == "" {
      Units(rest);
      Units(LinesOf(rest));
    } else {
      assert a + rest == a[..|a| - 1] + "\n" + rest;
      LinesAtNewline(a[..|a| - 1], rest);
    }
  }

  lemma LinesAround(a: string, line: string, b: string) returns (before: seq<string>)
    requires AtLineStart(a) && '\n' !in line
    ensures before == if a == "" then [] else LinesOf(a[..|a| - 1])
    ensures LinesOf(a + line + "\n" + b) == before + [TrimCR(line)] + LinesOf(b)
  {
    before := if a == "" then [] else LinesOf(a[..|a| - 1]);
    SplitWhole(line, '\n');
    assert LinesOf(line) == [TrimCR(line)];
    hide LinesOf;
    Regroup(a, line, "\n", b);
    LinesAhead(a, line + "\n" + b);
    LinesAtNewline(line, b);
    Assoc(before, [TrimCR(line)], LinesOf(b));
  }

  /** One line written another way. */
  lemma SameLine(a: string, line: string, other: string, b: string)
    requires AtLineStart(a) && '\n' !in line && '\n' !in other && SameMeaning([TrimCR(line)], [TrimCR(other)])
    ensures Parse(a + line + "\n" + b) == Parse(a + other + "\n" + b)
  {
    hide LinesOf, EventsOf, SameMeaning;
    var before := LinesAround(a, line, b);
    var same := LinesAround(a, other, b);
    SameAnywhere(before, [TrimCR(line)], [TrimCR(other)], LinesOf(b));
  }

  lemma {:induction false} TrimKeepsFront(front: string, value: string)
    requires front != "" && front[|front| - 1] != '\r'
    ensures TrimCR(front + value) == front + TrimCR(value)
    decreases |value|
  {
    if value != "" && value[|value| - 1] == '\r' {
      TrimKeepsFront(front, value[..|value| - 1]);
      assert (front + value)[..|front + value| - 1] == front + value[..|value| - 1];
    } else if value == "" {
      Units(front);
    }
  }

  lemma {:induction false} TrimmedIsFront(s: string)
    ensures TrimCR(s) <= s
    decreases |s|
  {
    if s != "" && s[|s| - 1] == '\r' { TrimmedIsFront(s[..|s| - 1]); }
  }

  /** A line's field and value, if it has a colon. */
  lemma FieldAndValue(field: string, raw: string)
    requires ':' !in field
    ensures FieldOf(field + ":" + raw) == field
    ensures ValueOf(field + ":" + raw) == if raw != "" && raw[0] == ' ' then raw[1..] else raw
  {
    var line := field + ":" + raw;
    IndexIs(line, ':', |field|);
    assert line[..|field|] == field && line[|field| + 1..] == raw;
  }

  /** The space after the colon may be left out before a value that does not begin with one. */
  lemma SpaceIsOptional(a: string, field: string, value: string, b: string)
    requires AtLineStart(a) && ':' !in field && '\n' !in field && '\n' !in value && (value != "" ==> value[0] != ' ')
    ensures Parse(a + (field + ":" + value) + "\n" + b) == Parse(a + (field + ": " + value) + "\n" + b)
  {
    var v := TrimCR(value);
    TrimmedIsFront(value);
    TrimKeepsFront(field + ":", value);
    TrimKeepsFront(field + ": ", value);
    assert field + ": " + v == field + ":" + (" " + v) && (" " + v)[1..] == v;
    FieldAndValue(field, v);
    FieldAndValue(field, " " + v);
    SameFields(field + ":" + v, field + ": " + v);
    SameLine(a, field + ":" + value, field + ": " + value, b);
  }

  lemma SameFields(line: string, other: string)
    requires line != "" && other != "" && FieldOf(line) == FieldOf(other) && ValueOf(line) == ValueOf(other)
    ensures SameMeaning([line], [other])
  {
    forall field | field in {"event", "id", "data"} ensures Values([line], field) == Values([other], field) {
      ValuesOne(line, field);
      ValuesOne(other, field);
    }
  }

  /** A line that is only a field's name gives it the empty value. */
  lemma NameAloneIsEmpty(a: string, field: string, b: string)
    requires AtLineStart(a) && field != "" && ':' !in field && OneLine(field)
    ensures Parse(a + field + "\n" + b) == Parse(a + (field + ":") + "\n" + b)
  {
    hide Parse, IndexOf, TrimCR, SameMeaning, FieldOf, ValueOf, OneLine;
    NameAlone(field);
    SameFields(field, field + ":");
    SameLine(a, field, field + ":", b);
  }

  lemma NameAlone(field: string)
    requires field != "" && ':' !in field && OneLine(field)
    ensures FieldOf(field) == FieldOf(field + ":") && ValueOf(field) == ValueOf(field + ":")
    ensures TrimCR(field) == field && TrimCR(field + ":") == field + ":"
    ensures '\n' !in field && '\n' !in field + ":" && field + ":" != ""
  {
    NoColon(field);
    NotTrimmed(field);
    hide IndexOf, TrimCR, FieldOf, ValueOf;
    FieldAndValue(field, "");
    TrimKeepsFront(field + ":", "");
    Units(field + ":");
  }

  lemma NoColon(field: string)
    requires ':' !in field
    ensures FieldOf(field) == field && ValueOf(field) == ""
  {
    assert field[..|field|] == field;
  }

  lemma NotTrimmed(line: string)
    requires OneLine(line)
    ensures TrimCR(line) == line && TrimCR("") == ""
  {}

  /** A field of any other name, in any other case, is as if it were not there. */
  lemma OtherFieldsMeanNothing(a: string, field: string, raw: string, b: string)
    requires AtLineStart(a) && ':' !in field && '\n' !in field && '\n' !in raw
    requires field != "event" && field != "id" && field != "data"
    ensures Parse(a + (field + ":" + raw) + "\n" + b) == Parse(a + b)
  {
    var line := field + ":" + TrimCR(raw);
    TrimKeepsFront(field + ":", raw);
    FieldAndValue(field, TrimCR(raw));
    ValuesOne(line, "event");
    ValuesOne(line, "id");
    ValuesOne(line, "data");
    assert SameMeaning([line], []);
    hide LinesOf, EventsOf, SameMeaning;
    var before := LinesAround(a, field + ":" + raw, b);
    LinesAhead(a, b);
    SameAnywhere(before, [line], [], LinesOf(b));
    Units(before);
  }

  /** Lines of different fields may change places. */
  lemma FieldsCommute(a: string, field: string, raw: string, other: string, otherRaw: string, b: string)
    requires AtLineStart(a) && ':' !in field && ':' !in other && field != other
    requires '\n' !in field && '\n' !in raw && '\n' !in other && '\n' !in otherRaw
    ensures Parse(a + (field + ":" + raw) + "\n" + ((other + ":" + otherRaw) + "\n" + b))
         == Parse(a + (other + ":" + otherRaw) + "\n" + ((field + ":" + raw) + "\n" + b))
  {
    var u, w := field + ":" + TrimCR(raw), other + ":" + TrimCR(otherRaw);
    TrimKeepsFront(field + ":", raw);
    TrimKeepsFront(other + ":", otherRaw);
    FieldAndValue(field, TrimCR(raw));
    FieldAndValue(other, TrimCR(otherRaw));
    TwoCommute(u, w);
    hide EventsOf, SameMeaning, LinesOf, TrimCR;
    var before := LinesOfTwo(a, field + ":" + raw, other + ":" + otherRaw, b);
    var same := LinesOfTwo(a, other + ":" + otherRaw, field + ":" + raw, b);
    SameAnywhere(before, [u, w], [w, u], LinesOf(b));
  }

  lemma LinesOfTwo(a: string, line: string, next: string, b: string) returns (before: seq<string>)
    requires AtLineStart(a) && '\n' !in line && '\n' !in next
    ensures before == if a == "" then [] else LinesOf(a[..|a| - 1])
    ensures LinesOf(a + line + "\n" + (next + "\n" + b)) == before + [TrimCR(line), TrimCR(next)] + LinesOf(b)
  {
    hide LinesOf, TrimCR;
    before := LinesAround(a, line, next + "\n" + b);
    var none := LinesAround("", next, b);
    assert "" + next == next;
    Units([TrimCR(next)]);
    assert before + [TrimCR(line)] + ([TrimCR(next)] + LinesOf(b)) == before + [TrimCR(line), TrimCR(next)] + LinesOf(b);
  }

  lemma TwoCommute(u: string, w: string)
    requires u != "" && w != "" && FieldOf(u) != FieldOf(w)
    ensures SameMeaning([u, w], [w, u])
  {
    assert [u, w] == [u] + [w] && [w, u] == [w] + [u];
    hide Values, FieldOf, ValueOf;
    forall field | field in {"event", "id", "data"} ensures Values([u, w], field) == Values([w, u], field) {
      ValuesAppend([u], [w], field);
      ValuesAppend([w], [u], field);
      ValuesOne(u, field);
      ValuesOne(w, field);
    }
  }
}
