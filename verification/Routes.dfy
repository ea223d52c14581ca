/**
 Path rendering: fmt.Sprintf over a route template, each id through pathEscape
 (sdk/go/client.go:261-267 and the operations of sdk/go/operations_gen.go).
 */
module Routes {
  import opened Options
  import opened Sequences

  type Byte = c: char | c as int < 0x100 witness 'a'

  type Id = seq<Byte>

  predicate Alphanumeric(c: char) {
    'a' <= c <= 'z' || 'A' <= c <= 'Z' || '0' <= c <= '9'
  }

  /** What url.PathEscape leaves alone. */
  predicate Plain(c: char) {
    Alphanumeric(c) || c in {'-', '_', '.', '~', '$', '&', '+', ':', '=', '@'}
  }

  function HexDigit(n: nat): char
    requires n < 16
  {
    if n < 10 then '0' + n as char else 'A' + (n - 10) as char
  }

  function HexValue(c: char): Option<nat> {
    if '0' <= c <= '9' then Some((c - '0') as nat)
    else if 'A' <= c <= 'F' then Some((c - 'A') as nat + 10)
    else if 'a' <= c <= 'f' then Some((c - 'a') as nat + 10)
    else None
  }

  function EscapeByte(c: Byte): string {
    if Plain(c) then [c] else ['%', HexDigit(c as int / 16), HexDigit(c as int % 16)]
  }

  /** url.PathEscape */
  function PathEscape(id: Id): string {
    if id == [] then "" else EscapeByte(id[0]) + PathEscape(id[1..])
  }

  /** Percent-decoding, section 2.1 of RFC 3986; None for a malformed escape. */
  function PathUnescape(s: string): Option<string> {
    if s == "" then Some("")
    else if s[0] != '%' then
      match PathUnescape(s[1..]) case None => None case Some(rest) => Some([s[0]] + rest)
    else if |s| < 3 || HexValue(s[1]).None? || HexValue(s[2]).None? then None
    else
      match PathUnescape(s[3..])
      case None => None
      case Some(rest) => Some([(16 * HexValue(s[1]).value + HexValue(s[2]).value) as char] + rest)
  }

  lemma HexRoundTrip(n: nat)
    requires n < 16
    ensures HexValue(HexDigit(n)) == Some(n) && HexDigit(n) != '/'
  {}

  lemma {:induction false} UnescapeUndoesEscape(id: Id)
    ensures PathUnescape(PathEscape(id)) == Some(id)
    ensures '/' !in PathEscape(id)
  {
    if id != [] {
      UnescapeUndoesEscape(id[1..]);
      var c, rest := id[0], PathEscape(id[1..]);
      assert id == [c] + id[1..];
      if Plain(c) {
        assert PathEscape(id)[1..] == rest;
      } else {
        HexRoundTrip(c as int / 16);
        HexRoundTrip(c as int % 16);
        assert PathEscape(id)[3..] == rest;
      }
    }
  }

  lemma EscapeOfPlain(id: Id)
    ensures (forall c :: c in id ==> Plain(c)) ==> PathEscape(id) == id
    ensures PathEscape(id) == "." <==> id == "."
    ensures PathEscape(id) == ".." <==> id == ".."
  {
    PlainStays(id);
    UnescapeUndoesEscape(id);
    PlainStays(".");
    UnescapeUndoesEscape(".");
    PlainStays("..");
    UnescapeUndoesEscape("..");
  }

  lemma {:induction false} PlainStays(id: Id)
    ensures (forall c :: c in id ==> Plain(c)) ==> PathEscape(id) == id
  {
    if id != [] {
      PlainStays(id[1..]);
      if forall c :: c in id ==> Plain(c) { assert id == [id[0]] + id[1..]; }
    }
  }

  // ---- what an escaped id is made of ----

  /** "%", and the byte in two upper-case hex digits. */
  predicate IsEscape(s: string) {
    |s| == 3 && s[0] == '%' && s[1] in "0123456789ABCDEF" && s[2] in "0123456789ABCDEF"
  }

  /** The characters of a segment, section 3.3 of RFC 3986, other than '%'. */
  predicate IsSegmentChar(c: char) {
    'a' <= c <= 'z' || 'A' <= c <= 'Z' || '0' <= c <= '9' || c in "-._~!$&'()*+,;=:@"
  }

  /** Each piece of an escaped id is a character of a segment or an escape. */
  predicate InSegment(s: string) {
    s == "" || (IsSegmentChar(s[0]) && InSegment(s[1..])) || (|s| >= 3 && IsEscape(s[..3]) && InSegment(s[3..]))
  }

  lemma EscapeByteIs(c: Byte)
    ensures if 'a' <= c <= 'z' || 'A' <= c <= 'Z' || '0' <= c <= '9' || c in "-_.~$&+:=@"
            then EscapeByte(c) == [c] && IsSegmentChar(c)
            else IsEscape(EscapeByte(c))
  {
    HexDigitIs(c as int / 16);
    HexDigitIs(c as int % 16);
  }

  lemma HexDigitIs(n: nat)
    requires n < 16
    ensures HexDigit(n) in "0123456789ABCDEF"
  {
    assert "0123456789ABCDEF"[n] == HexDigit(n);
  }

  /**
   An escaped id is one segment of a path in the sense of section 3.3 of RFC 3986: no '/', '?', '#',
   space or control character is in it, nor a '%' but in front of two hex digits.
   */
  lemma {:induction false} EscapedIsASegment(id: Id)
    ensures InSegment(PathEscape(id))
    ensures forall c :: c in PathEscape(id) ==>
      c in "%-._~!$&'()*+,;=:@" || 'a' <= c <= 'z' || 'A' <= c <= 'Z' || '0' <= c <= '9'
  {
    if id != [] {
      EscapedIsASegment(id[1..]);
      EscapeByteIs(id[0]);
      var e, rest := EscapeByte(id[0]), PathEscape(id[1..]);
      assert (e + rest)[..|e|] == e && (e + rest)[|e|..] == rest;
    }
  }

  /** Exactly the ids of letters, digits and "-_.~$&+:=@" are left as they are. */
  lemma {:induction false} UnchangedExactlyWhen(id: Id)
    ensures |PathEscape(id)| >= |id|
    ensures PathEscape(id) == id <==>
      forall c :: c in id ==> 'a' <= c <= 'z' || 'A' <= c <= 'Z' || '0' <= c <= '9' || c in "-_.~$&+:=@"
  {
    if id != [] {
      UnchangedExactlyWhen(id[1..]);
      EscapeByteIs(id[0]);
      assert id == [id[0]] + id[1..];
      assert forall c :: c in id <==> c == id[0] || c in id[1..];
      assert |EscapeByte(id[0])| == 1 ==> PathEscape(id)[1..] == PathEscape(id[1..]);
    }
  }

  // ---- the target of a request ----

  /** The path of a request's target is what precedes the first '?' or '#'. */
  function PathOf(target: string): string {
    if target == "" || target[0] == '?' || target[0] == '#' then "" else [target[0]] + PathOf(target[1..])
  }

  lemma {:induction false} PathOfTarget(path: string, query: string)
    requires '?' !in path && '#' !in path && (query == "" || query[0] == '?' || query[0] == '#')
    ensures PathOf(path + query) == path
  {
    if path == "" {
      Units(query);
    } else {
      PathOfTarget(path[1..], query);
      assert (path + query)[1..] == path[1..] + query;
    }
  }

  // ---- routes ----

  datatype Part = Literal(text: string) | Param

  /** A route: its segments, the first one the empty text before the leading slash. */
  type Template = seq<Part>

  predicate WellFormed(t: Template) {
    t != [] && forall p :: p in t && p.Literal? ==> '/' !in p.text
  }

  function Params(t: Template): nat {
    if t == [] then 0 else (if t[0].Param? then 1 else 0) + Params(t[1..])
  }

  function Fill(t: Template, ids: seq<Id>): (segments: seq<string>)
    requires |ids| == Params(t)
    ensures |segments| == |t|
  {
    if t == [] then []
    else if t[0].Param? then [PathEscape(ids[0])] + Fill(t[1..], ids[1..])
    else [t[0].text] + Fill(t[1..], ids)
  }

  function Render(t: Template, ids: seq<Id>): string
    requires |ids| == Params(t)
  {
    Join(Fill(t, ids), '/')
  }

  /** Does a template match these segments, and with which ids? */
  function Match(t: Template, segments: seq<string>): Option<seq<string>>
    decreases |t|
  {
    if t == [] then if segments == [] then Some([]) else None
    else if segments == [] then None
    else
      match Match(t[1..], segments[1..])
      case None => None
      case Some(ids) =>
        if t[0].Literal? then if segments[0] == t[0].text then Some(ids) else None
        else
          match PathUnescape(segments[0]) case None => None case Some(id) => Some([id] + ids)
  }

  lemma {:induction false} FillHasNoSlash(t: Template, ids: seq<Id>)
    requires |ids| == Params(t) && forall p :: p in t && p.Literal? ==> '/' !in p.text
    ensures forall s :: s in Fill(t, ids) ==> '/' !in s
  {
    if t != [] {
      if t[0].Param? {
        UnescapeUndoesEscape(ids[0]);
        FillHasNoSlash(t[1..], ids[1..]);
      } else {
        FillHasNoSlash(t[1..], ids);
      }
    }
  }

  lemma {:induction false} MatchFill(t: Template, ids: seq<Id>)
    requires |ids| == Params(t)
    ensures Match(t, Fill(t, ids)) == Some(ids)
  {
    if t != [] {
      if t[0].Param? {
        UnescapeUndoesEscape(ids[0]);
        MatchFill(t[1..], ids[1..]);
        assert ids == [ids[0]] + ids[1..];
      } else {
        MatchFill(t[1..], ids);
      }
    }
  }

  /** Where the i-th segment comes from: the literal, or the id whose turn it is, escaped. */
  lemma {:induction false} SegmentOf(t: Template, ids: seq<Id>, i: nat)
    requires |ids| == Params(t) && i < |t|
    ensures t[i].Literal? ==> Fill(t, ids)[i] == t[i].text
    ensures t[i].Param? ==> Params(t[..i]) < |ids| && Fill(t, ids)[i] == PathEscape(ids[Params(t[..i])])
  {
    if i > 0 {
      assert t[..i] == [t[0]] + t[1..][..i - 1] && t[..i][1..] == t[1..][..i - 1];
      SegmentOf(t[1..], if t[0].Param? then ids[1..] else ids, i - 1);
    }
  }

  /** Splitting a rendered path and decoding gives the segments and the ids back, whatever the ids. */
  lemma RouteRoundTrip(t: Template, ids: seq<Id>)
    requires WellFormed(t) && |ids| == Params(t)
    ensures Split(Render(t, ids), '/') == Fill(t, ids)
    ensures Match(t, Split(Render(t, ids), '/')) == Some(ids)
  {
    FillHasNoSlash(t, ids);
    SplitJoin(Fill(t, ids), '/');
    MatchFill(t, ids);
  }

  lemma {:induction false} JoinHolds(segments: seq<string>, c: char)
    requires c != '/' && forall s :: s in segments ==> c !in s
    ensures c !in Join(segments, '/')
  {
    if |segments| > 1 { JoinHolds(segments[1..], c); }
  }

  lemma {:induction false} FillHasNone(t: Template, ids: seq<Id>, c: char)
    requires |ids| == Params(t) && (c == '?' || c == '#')
    requires forall p :: p in t && p.Literal? ==> c !in p.text
    ensures forall s :: s in Fill(t, ids) ==> c !in s
  {
    hide PathEscape, InSegment;
    if t != [] {
      if t[0].Param? {
        EscapedIsASegment(ids[0]);
        FillHasNone(t[1..], ids[1..], c);
      } else {
        FillHasNone(t[1..], ids, c);
      }
    }
  }

  /**
   The server sees the rendered path, all of it, whatever the ids and whatever query follows it, and gets
   the ids back from it.
   */
  lemma TargetIsTheRoute(t: Template, ids: seq<Id>, query: string)
    requires WellFormed(t) && |ids| == Params(t) && (query == "" || query[0] == '?' || query[0] == '#')
    requires forall p :: p in t && p.Literal? ==> '?' !in p.text && '#' !in p.text
    ensures PathOf(Render(t, ids) + query) == Render(t, ids)
    ensures Match(t, Split(PathOf(Render(t, ids) + query), '/')) == Some(ids)
  {
    FillHasNone(t, ids, '?');
    FillHasNone(t, ids, '#');
    JoinHolds(Fill(t, ids), '?');
    JoinHolds(Fill(t, ids), '#');
    PathOfTarget(Render(t, ids), query);
    RouteRoundTrip(t, ids);
  }

  /** So rendering is injective in the ids. */
  lemma RenderIsInjective(t: Template, a: seq<Id>, b: seq<Id>)
    requires WellFormed(t) && |a| == Params(t) == |b|
    ensures Render(t, a) == Render(t, b) <==> a == b
  {
    RouteRoundTrip(t, a);
    RouteRoundTrip(t, b);
  }

  /** What ids may stand where, for a path of route t to be matched by route u as well. */
  predicate Confusable(t: Template, ids: seq<Id>, u: Template)
    requires |ids| == Params(t)
    decreases |t|
  {
    if t == [] || u == [] then t == [] && u == []
    else if t[0].Param? then
      (u[0].Literal? ==> ids[0] == u[0].text) && Confusable(t[1..], ids[1..], u[1..])
    else
      (u[0].Literal? ==> t[0].text == u[0].text) && Confusable(t[1..], ids, u[1..])
  }

  predicate PlainTexts(t: Template) {
    forall p, c :: p in t && p.Literal? && c in p.text ==> Plain(c)
  }

  lemma {:induction false} UnescapeOfPlain(s: string)
    requires '%' !in s
    ensures PathUnescape(s) == Some(s)
  {
    if s != "" {
      UnescapeOfPlain(s[1..]);
      assert s == [s[0]] + s[1..];
    }
  }

  lemma {:induction false} MatchesExactlyConfusable(t: Template, ids: seq<Id>, u: Template)
    requires |ids| == Params(t) && PlainTexts(t) && PlainTexts(u)
    ensures Match(u, Fill(t, ids)).Some? <==> Confusable(t, ids, u)
    decreases |t|
  {
    if t != [] && u != [] {
      assert !Plain('%') && t[0] in t && u[0] in u;
      if t[0].Param? {
        MatchesExactlyConfusable(t[1..], ids[1..], u[1..]);
        UnescapeUndoesEscape(ids[0]);
        if u[0].Literal? { EscapesToText(ids[0], u[0].text); }
      } else {
        MatchesExactlyConfusable(t[1..], ids, u[1..]);
        UnescapeOfPlain(t[0].text);
      }
    }
  }

  /**
   Which routes a rendered path, with any query, can address: exactly those of as many segments that agree on every
   literal, where an id agrees with a literal only by being that very text. An id with a '/' in it,
   or anything else that is escaped, is no literal's text, so it never moves the request elsewhere.
   */
  lemma NoOtherRoute(t: Template, ids: seq<Id>, u: Template, query: string)
    requires t != [] && |ids| == Params(t) && PlainTexts(t) && PlainTexts(u)
    requires query == "" || query[0] == '?' || query[0] == '#'
    ensures Match(u, Split(PathOf(Render(t, ids) + query), '/')).Some? <==> Confusable(t, ids, u)
  {
    assert !Plain('/') && !Plain('?') && !Plain('#');
    TargetIsTheRoute(t, ids, query);
    FillHasNoSlash(t, ids);
    SplitJoin(Fill(t, ids), '/');
    MatchesExactlyConfusable(t, ids, u);
  }

  lemma EscapesToText(id: Id, text: string)
    requires forall c :: c in text ==> Plain(c)
    ensures PathEscape(id) == text <==> id == text
  {
    UnescapeUndoesEscape(id);
    UnescapeOfPlain(text);
    PlainStays(id);
  }

  // ---- dot segments ----

  predicate IsDots(segment: string) {
    segment == "." || segment == ".."
  }

  /** Section 5.2.4 of RFC 3986, on segments: `out` is done, its first the root. */
  function RemoveDots(out: seq<string>, segments: seq<string>): (r: seq<string>)
    requires out != []
    ensures |r| <= |out| + |segments|
    decreases |segments|
  {
    if segments == [] then out
    else
      var s, last := segments[0], |segments| == 1;
      if !IsDots(s) then RemoveDots(out + [s], segments[1..])
      else
        var kept := if s == ".." && |out| > 1 then out[..|out| - 1] else out;
        if last then kept + [""] else RemoveDots(kept, segments[1..])
  }

  lemma {:induction false} DotsAreRemovedExactlyWhen(out: seq<string>, segments: seq<string>)
    requires out != []
    ensures RemoveDots(out, segments) == out + segments <==> forall s :: s in segments ==> !IsDots(s)
    decreases |segments|
  {
    if segments != [] {
      var s := segments[0];
      if IsDots(s) {
        assert s in segments;
        if |segments| == 1 { assert (out + segments)[|out|] == s; }
      } else {
        DotsAreRemovedExactlyWhen(out + [s], segments[1..]);
        assert out + [s] + segments[1..] == out + segments;
      }
    }
  }

  lemma {:induction false} DotsComeFromIds(t: Template, ids: seq<Id>)
    requires |ids| == Params(t) && forall p :: p in t && p.Literal? ==> !IsDots(p.text)
    ensures (exists s :: s in Fill(t, ids) && IsDots(s)) <==> (exists id :: id in ids && IsDots(id))
  {
    if t != [] {
      if t[0].Param? {
        DotsComeFromIds(t[1..], ids[1..]);
        EscapeOfPlain(ids[0]);
        var rest := Fill(t[1..], ids[1..]);
        assert Fill(t, ids) == [PathEscape(ids[0])] + rest && ids == [ids[0]] + ids[1..];
        assert PathEscape(ids[0]) in Fill(t, ids) && ids[0] in ids;
        assert forall s :: s in rest ==> s in Fill(t, ids);
        assert forall id :: id in ids[1..] ==> id in ids;
      } else {
        DotsComeFromIds(t[1..], ids);
      }
    }
  }

  /** The one thing escaping does not protect: a path is normalised away exactly if an id is "." or "..". */
  lemma OnlyDotIdsAreNormalised(t: Template, ids: seq<Id>)
    requires t != [] && t[0] == Literal("") && |ids| == Params(t)
    requires forall p :: p in t && p.Literal? ==> !IsDots(p.text)
    ensures RemoveDots([""], Fill(t, ids)[1..]) == Fill(t, ids) <==> !exists id :: id in ids && IsDots(id)
  {
    DotsComeFromIds(t, ids);
    var segments := Fill(t, ids);
    assert segments == [""] + segments[1..];
    DotsAreRemovedExactlyWhen([""], segments[1..]);
  }
}
