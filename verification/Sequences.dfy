/**
 Splitting a sequence at a separator and joining it back: the one notion behind lines in a byte
 stream, records in a list of lines, and segments in a path.
 */
module Sequences {

  /** The first position of x in s, or |s|. */
  function IndexOf<T(==)>(s: seq<T>, x: T): (i: nat)
    ensures i <= |s| && (i == |s| <==> x !in s)
    ensures forall k :: 0 <= k < i ==> s[k] != x
    ensures i < |s| ==> s[i] == x
  {
    if s == [] || s[0] == x then 0 else 1 + IndexOf(s[1..], x)
  }

  /** The pieces of s between occurrences of sep: one more piece than there are separators. */
  function Split<T(==)>(s: seq<T>, sep: T): (parts: seq<seq<T>>)
    ensures |parts| > 0
    decreases |s|
  {
    var i := IndexOf(s, sep);
    if i == |s| then [s] else [s[..i]] + Split(s[i + 1..], sep)
  }

  /** The pieces one after another, sep between neighbours. */
  function Join<T>(parts: seq<seq<T>>, sep: T): seq<T> {
    if |parts| == 0 then []
    else if |parts| == 1 then parts[0]
    else parts[0] + [sep] + Join(parts[1..], sep)
  }

  /** The results of f, one after another. */
  function FlatMap<A, B>(f: A -> seq<B>, xs: seq<A>): seq<B> {
    if xs == [] then [] else f(xs[0]) + FlatMap(f, xs[1..])
  }

  lemma {:induction false} FlatMapAppend<A, B>(f: A -> seq<B>, xs: seq<A>, ys: seq<A>)
    ensures FlatMap(f, xs + ys) == FlatMap(f, xs) + FlatMap(f, ys)
  {
    if xs == [] {
      assert xs + ys == ys;
    } else {
      FlatMapAppend(f, xs[1..], ys);
      assert (xs + ys)[0] == xs[0] && (xs + ys)[1..] == xs[1..] + ys;
      Assoc(f(xs[0]), FlatMap(f, xs[1..]), FlatMap(f, ys));
    }
  }

  lemma FlatMapOne<A, B>(f: A -> seq<B>, x: A)
    ensures FlatMap(f, [x]) == f(x)
  {
    assert [x][1..] == [];
  }

  lemma Regroup<T>(a: seq<T>, b: seq<T>, c: seq<T>, d: seq<T>)
    ensures a + (b + c + d) == a + b + c + d
  {}

  lemma Assoc<T>(a: seq<T>, b: seq<T>, c: seq<T>)
    ensures a + b + c == a + (b + c)
  {}

  lemma Units<T>(s: seq<T>)
    ensures [] + s == s && s + [] == s
  {}

  lemma IndexIs<T>(s: seq<T>, x: T, i: nat)
    requires i < |s| && s[i] == x && forall k :: 0 <= k < i ==> s[k] != x
    ensures IndexOf(s, x) == i
  {}

  lemma SplitWhole<T>(s: seq<T>, sep: T)
    requires sep !in s
    ensures Split(s, sep) == [s]
  {}

  lemma {:induction false} PiecesHoldNoSeparator<T>(s: seq<T>, sep: T)
    ensures forall p :: p in Split(s, sep) ==> sep !in p
    decreases |s|
  {
    if sep in s {
      var p, rest := FirstPiece(s, sep);
      PiecesHoldNoSeparator(rest, sep);
    }
  }

  lemma SplitCons<T>(p: seq<T>, sep: T, s: seq<T>)
    requires sep !in p
    ensures Split(p + [sep] + s, sep) == [p] + Split(s, sep)
  {
    var t := p + [sep] + s;
    IndexIs(t, sep, |p|);
    assert t[..|p|] == p && t[|p| + 1..] == s;
  }

  /** The inverse of SplitCons: a sequence that holds a separator starts with a piece. */
  lemma FirstPiece<T>(s: seq<T>, sep: T) returns (p: seq<T>, rest: seq<T>)
    requires sep in s
    ensures sep !in p && s == p + [sep] + rest && Split(s, sep) == [p] + Split(rest, sep)
  {
    var i := IndexOf(s, sep);
    p, rest := s[..i], s[i + 1..];
    assert s == p + [sep] + rest;
  }

  /** A separator between two sequences separates their pieces, whatever the two contain. */
  lemma {:induction false} SplitAtSeparator<T>(a: seq<T>, sep: T, b: seq<T>)
    ensures Split(a + [sep] + b, sep) == Split(a, sep) + Split(b, sep)
    decreases |a|
  {
    if sep in a {
      var p, s := FirstPiece(a, sep);
      assert a + [sep] + b == p + [sep] + (s + [sep] + b);
      SplitCons(p, sep, s + [sep] + b);
      SplitAtSeparator(s, sep, b);
    } else {
      SplitWhole(a, sep);
      SplitCons(a, sep, b);
    }
  }

  lemma {:induction false} SplitJoin<T>(parts: seq<seq<T>>, sep: T)
    requires |parts| > 0 && forall p :: p in parts ==> sep !in p
    ensures Split(Join(parts, sep), sep) == parts
  {
    hide Split;
    if |parts| == 1 {
      SplitWhole(parts[0], sep);
    } else {
      SplitJoin(parts[1..], sep);
      SplitCons(parts[0], sep, Join(parts[1..], sep));
    }
  }

  lemma {:induction false} JoinSplit<T>(s: seq<T>, sep: T)
    ensures Join(Split(s, sep), sep) == s
    decreases |s|
  {
    if sep in s {
      var p, rest := FirstPiece(s, sep);
      JoinSplit(rest, sep);
      assert Split(s, sep)[1..] == Split(rest, sep);
    }
  }
}
