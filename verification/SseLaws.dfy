/** What a producer may change in the bytes without changing the events. */
module SseLaws {
  import opened Sequences
  import opened Sse

  lemma LinesAfterNewline(b: string)
    ensures LinesOf("\n" + b) == [""] + LinesOf(b)
  {
    LinesAtNewline("", b);
    Units("\n");
    LinesOfNothing();
  }

  lemma BlankLineInFront(b: string)
    ensures Parse("\n" + b) == Parse(b)
  {
    LinesAfterNewline(b);
    EmptyLineSeparates([], LinesOf(b));
    Units([""]);
    LinesOfNothing();
  }

  /** Events concatenate at a blank line: no record leaks into its neighbour. */
  lemma ConcatAtBlankLine(a: string, b: string)
    ensures Parse(a + "\n\n" + b) == Parse(a) + Parse(b)
  {
    hide LinesOf, EventsOf;
    calc {
      LinesOf(a + "\n\n" + b);
      { assert a + "\n\n" + b == a + "\n" + ("\n" + b); }
      LinesOf(a + "\n" + ("\n" + b));
      { LinesAtNewline(a, "\n" + b); }
      LinesOf(a) + LinesOf("\n" + b);
      { LinesAfterNewline(b); }
      LinesOf(a) + ([""] + LinesOf(b));
      LinesOf(a) + [""] + LinesOf(b);
    }
    EmptyLineSeparates(LinesOf(a), LinesOf(b));
  }

  function Blank(n: nat): string {
    if n == 0 then "" else "\n" + Blank(n - 1)
  }

  /** Further blank lines in front of a record, or instead of one, add nothing. */
  lemma {:induction false} LeadingBlankLines(n: nat, b: string)
    ensures Parse(Blank(n) + b) == Parse(b)
  {
    hide Parse;
    if n == 0 {
      Units(b);
    } else {
      Assoc("\n", Blank(n - 1), b);
      BlankLineInFront(Blank(n - 1) + b);
      LeadingBlankLines(n - 1, b);
    }
  }

  lemma ExtraBlankLines(a: string, n: nat, b: string)
    ensures Parse(a + "\n\n" + Blank(n) + b) == Parse(a + "\n\n" + b)
  {
    hide Parse;
    assert a + "\n\n" + Blank(n) + b == a + "\n\n" + (Blank(n) + b);
    ConcatAtBlankLine(a, Blank(n) + b);
    LeadingBlankLines(n, b);
    ConcatAtBlankLine(a, b);
  }

  /** A record left unterminated when the socket closes is still dispatched. */
  lemma TerminatorIsOptional(a: string)
    ensures Parse(a + "\n") == Parse(a) && Parse(a + "\n\n") == Parse(a)
  {
    LinesOfNothing();
    LinesAtNewline(a, "");
    assert a + "\n" + "" == a + "\n";
    EmptyLineSeparates(LinesOf(a), []);
    assert LinesOf(a) + [""] + [] == LinesOf(a) + [""];
    ConcatAtBlankLine(a, "");
    assert a + "\n\n" + "" == a + "\n\n";
  }

  predicate IsComment(line: string) {
    line != "" && line[0] == ':'
  }

  // ---- lines that mean the same ----

  /** Neither list ends a record, and they give the fields of an event the same values. */
  predicate SameMeaning(u: seq<string>, w: seq<string>) {
    "" !in u && "" !in w && forall field :: field in {"event", "id", "data"} ==> Values(u, field) == Values(w, field)
  }

  lemma SameValues(g: seq<string>, u: seq<string>, w: seq<string>, h: seq<string>, field: string)
    requires Values(u, field) == Values(w, field)
    ensures Values(g + u + h, field) == Values(g + w + h, field)
  {
    ValuesAppend(g + u, h, field);
    ValuesAppend(g, u, field);
    ValuesAppend(g + w, h, field);
    ValuesAppend(g, w, field);
  }

  lemma SameInRecord(g: seq<string>, u: seq<string>, w: seq<string>, h: seq<string>)
    requires SameMeaning(u, w) && "" !in g && "" !in h
    ensures EventsOf(g + u + h) == EventsOf(g + w + h)
  {
    hide EventsOf, Values, Join;
    OneRecord(g + u + h);
    OneRecord(g + w + h);
    SameValues(g, u, w, h, "event");
    SameValues(g, u, w, h, "id");
    SameValues(g, u, w, h, "data");
  }

  lemma SameInFirstRecord(x: seq<string>, u: seq<string>, w: seq<string>, y: seq<string>)
    requires SameMeaning(u, w) && "" !in x
    ensures EventsOf(x + u + y) == EventsOf(x + w + y)
  {
    if "" in y {
      var q, s := FirstPiece(y, "");
      SameInRecord(x, u, w, q);
      hide EventsOf, SameMeaning;
      Regroup(x + u, q, [""], s);
      EmptyLineSeparates(x + u + q, s);
      Regroup(x + w, q, [""], s);
      EmptyLineSeparates(x + w + q, s);
    } else {
      SameInRecord(x, u, w, y);
    }
  }

  /** Lines may be replaced by such as mean the same, wherever they stand. */
  lemma {:induction false} SameAnywhere(x: seq<string>, u: seq<string>, w: seq<string>, y: seq<string>)
    requires SameMeaning(u, w)
    ensures EventsOf(x + u + y) == EventsOf(x + w + y)
    decreases |x|
  {
    hide EventsOf, SameMeaning;
    if "" in x {
      var p, s := FirstPiece(x, "");
      SameAnywhere(s, u, w, y);
      assert x + u + y == p + [""] + (s + u + y) && x + w + y == p + [""] + (s + w + y);
      EmptyLineSeparates(p, s + u + y);
      EmptyLineSeparates(p, s + w + y);
    } else {
      SameInFirstRecord(x, u, w, y);
    }
  }

  lemma CommentMeansNothing(c: string)
    requires IsComment(c)
    ensures SameMeaning([c], [])
  {
    ValuesOne(c, "event");
    ValuesOne(c, "id");
    ValuesOne(c, "data");
    assert FieldOf(c) == "";
  }

  lemma EventsIgnoreComment(x: seq<string>, c: string, y: seq<string>)
    requires IsComment(c)
    ensures EventsOf(x + [c] + y) == EventsOf(x + y)
  {
    CommentMeansNothing(c);
    SameAnywhere(x, [c], [], y);
    Units(x);
  }

  lemma {:induction false} TrimKeepsComment(c: string)
    requires IsComment(c)
    ensures IsComment(TrimCR(c))
    decreases |c|
  {
    if c[|c| - 1] == '\r' { TrimKeepsComment(c[..|c| - 1]); }
  }

  lemma LinesOfComment(c: string)
    requires IsComment(c) && '\n' !in c
    ensures LinesOf(c) == [TrimCR(c)] && IsComment(TrimCR(c))
  {
    SplitWhole(c, '\n');
    TrimKeepsComment(c);
  }

  lemma CommentLineInFront(c: string, b: string)
    requires IsComment(c) && '\n' !in c
    ensures LinesOf(c + "\n" + b) == [TrimCR(c)] + LinesOf(b)
    ensures Parse(c + "\n" + b) == Parse(b)
  {
    LinesOfComment(c);
    LinesAtNewline(c, b);
    EventsIgnoreComment([], TrimCR(c), LinesOf(b));
    Units([TrimCR(c)]);
    Units(LinesOf(b));
  }

  lemma CommentLineBetween(a: string, c: string, b: string)
    requires IsComment(c) && '\n' !in c
    ensures Parse(a + "\n" + c + "\n" + b) == Parse(a + "\n" + b)
  {
    hide LinesOf, EventsOf;
    calc {
      LinesOf(a + "\n" + c + "\n" + b);
      { Regroup(a + "\n", c, "\n", b); LinesAtNewline(a, c + "\n" + b); }
      LinesOf(a) + LinesOf(c + "\n" + b);
      { CommentLineInFront(c, b); }
      LinesOf(a) + ([TrimCR(c)] + LinesOf(b));
      LinesOf(a) + [TrimCR(c)] + LinesOf(b);
    }
    LinesOfComment(c);
    EventsIgnoreComment(LinesOf(a), TrimCR(c), LinesOf(b));
    LinesAtNewline(a, b);
  }

  /** A keep-alive comment changes nothing, at the start, between any two lines, or at the end. */
  lemma CommentsAreInvisible(a: string, c: string, b: string)
    requires IsComment(c) && '\n' !in c
    ensures Parse(c + "\n" + b) == Parse(b)
    ensures Parse(a + "\n" + c + "\n" + b) == Parse(a + "\n" + b)
    ensures Parse(a + "\n" + c) == Parse(a)
  {
    hide LinesOf, EventsOf;
    CommentLineInFront(c, b);
    CommentLineBetween(a, c, b);
    LinesOfComment(c);
    LinesAtNewline(a, c);
    EventsIgnoreComment(LinesOf(a), TrimCR(c), []);
    Units(LinesOf(a) + [TrimCR(c)]);
    Units(LinesOf(a));
  }

  /** Every LF replaced by CRLF. */
  function ToCRLF(bytes: string): string {
    if bytes == "" then ""
    else (if bytes[0] == '\n' then "\r\n" else [bytes[0]]) + ToCRLF(bytes[1..])
  }

  lemma {:induction false} ToCRLFOfLine(p: string, rest: string)
    requires '\n' !in p
    ensures ToCRLF(p + rest) == p + ToCRLF(rest)
  {
    if p == "" {
      assert p + rest == rest;
    } else {
      ToCRLFOfLine(p[1..], rest);
      assert (p + rest)[1..] == p[1..] + rest;
    }
  }

  lemma LinesOfLine(p: string, end: string)
    requires '\n' !in p && (end == "" || end == "\r")
    ensures LinesOf(p + end) == [TrimCR(p)]
  {
    SplitWhole(p + end, '\n');
    assert p + "" == p;
    assert (p + "\r")[..|p|] == p;
  }

  lemma CRLFStep(p: string, rest: string)
    requires '\n' !in p
    ensures ToCRLF(p + "\n" + rest) == (p + "\r") + "\n" + ToCRLF(rest)
  {
    assert p + "\n" + rest == p + ("\n" + rest);
    ToCRLFOfLine(p, "\n" + rest);
    assert ToCRLF("\n" + rest) == "\r\n" + ToCRLF(rest) by { assert ("\n" + rest)[1..] == rest; }
    assert p + ("\r\n" + ToCRLF(rest)) == (p + "\r") + "\n" + ToCRLF(rest);
  }

  /** A proxy that normalises line endings does not change what is received. */
  lemma {:induction false} LineEndingsAreNeutral(bytes: string)
    ensures LinesOf(ToCRLF(bytes)) == LinesOf(bytes)
    ensures Parse(ToCRLF(bytes)) == Parse(bytes)
    decreases |bytes|
  {
    hide LinesOf, EventsOf;
    if '\n' in bytes {
      var p, rest := FirstPiece(bytes, '\n');
      LineEndingsAreNeutral(rest);
      CRLFStep(p, rest);
      LinesAtNewline(p + "\r", ToCRLF(rest));
      LinesAtNewline(p, rest);
      LinesOfLine(p, "\r");
      LinesOfLine(p, "");
      assert p + "" == p;
    } else {
      ToCRLFOfLine(bytes, "");
      assert bytes + "" == bytes;
    }
  }
}
