/**
 A walk in full (sdk/go/operations_gen.go:796-825), without following it step by step: which request
 comes when, which reply is the last, what is yielded and how it ends, for every server.
 */
module PagerLaws {
  import opened Options
  import opened Sequences
  import opened Pager

  /** What ends a walk: a fault, the last page (no cursor, or the empty one), its own cursor again, or the caller. */
  function EndingOf<T>(last: Reply<T>, cursor: Option<string>): seq<Yielded<T>> {
    match last
    case Fault(code) => [Failure(ServerError(code))]
    case Page(_, next) =>
      if next == None || next == Some("") then []
      else if next == cursor then [Failure(RepeatedCursor)]
      else [Failure(CutOff)]
  }

  /** The first reply of a walk, and the rest, which is empty unless the reply is followed. */
  lemma OneReply<T>(answer: seq<Ask> -> Reply<T>, asked: seq<Ask>, c: Option<string>, filter: string, left: nat)
    returns (r: Reply<T>, now: seq<Ask>, rest: seq<Reply<T>>)
    requires left > 0
    ensures r == answer(now) && rest == if Follows(r, c) then Replies(answer, now, r.next, filter, left - 1) else []
    ensures var replies := Replies(answer, asked, c, filter, left);
      && replies == [r] + rest
      && Asks(replies, c, filter) == [Ask(c, filter)] + (if Follows(r, c) then Asks(rest, r.next, filter) else [])
      && FlatMap(ItemsOf, replies) == ItemsOf(r) + FlatMap(ItemsOf, rest)
      && Walk(replies, c) == Items(ItemsOf(r)) + if Follows(r, c) then Walk(rest, r.next) else EndingOf(r, c)
  {
    now := asked + [Ask(c, filter)];
    r := answer(now);
    rest := if Follows(r, c) then Replies(answer, now, r.next, filter, left - 1) else [];
    var replies := Replies(answer, asked, c, filter, left);
    assert replies == [r] + rest && replies[1..] == rest;
    hide Items;
    if r.Fault? {
      NoItems<T>();
      Units(EndingOf(r, c));
    }
  }

  lemma NoItems<T>()
    ensures Items<T>([]) == []
  {}

  /** How these replies to these requests end the walk. */
  function EndOf<T>(replies: seq<Reply<T>>, asks: seq<Ask>): seq<Yielded<T>> {
    if replies == [] || asks == [] then [Failure(CutOff)]
    else EndingOf(replies[|replies| - 1], asks[|asks| - 1].cursor)
  }

  lemma EndOfRest<T>(r: Reply<T>, rest: seq<Reply<T>>, ask: Ask, askRest: seq<Ask>)
    requires |rest| == |askRest| && (rest == [] ==> EndingOf(r, ask.cursor) == [Failure(CutOff)])
    ensures EndOf([r] + rest, [ask] + askRest) == EndOf(rest, askRest)
  {
    if rest == [] {
      Units([r]);
      Units([ask]);
    }
  }

  /** What is yielded: the items of all the pages, in order, and then how the last reply ends the walk. */
  lemma {:induction false} WalkInFull<T>(
    answer: seq<Ask> -> Reply<T>, asked: seq<Ask>, c: Option<string>, filter: string, left: nat)
    ensures
      var replies := Replies(answer, asked, c, filter, left);
      var asks := Asks(replies, c, filter);
      && |asks| == |replies| && (replies == [] <==> left == 0)
      && Walk(replies, c) == Items(FlatMap(ItemsOf, replies)) + EndOf(replies, asks)
    decreases left
  {
    hide Walk, Items, FlatMap, Asks, Replies, EndOf, EndingOf;
    OneAskPerReply(answer, asked, c, filter, left);
    if left == 0 {
      NoReply(answer, asked, c, filter);
    } else {
      var r, now, rest := OneReply(answer, asked, c, filter, left);
      ItemsAppend(ItemsOf(r), FlatMap(ItemsOf, rest));
      if Follows(r, c) {
        OneAskPerReply(answer, now, r.next, filter, left - 1);
        WalkInFull(answer, now, r.next, filter, left - 1);
        var askRest := Asks(rest, r.next, filter);
        FollowedIsCutOff(r, c);
        EndOfRest(r, rest, Ask(c, filter), askRest);
        Assoc(Items(ItemsOf(r)), Items(FlatMap(ItemsOf, rest)), EndOf(rest, askRest));
      } else {
        NothingElse(ItemsOf(r));
        Units([r]);
        Units([Ask(c, filter)]);
        LastOne(r, Ask(c, filter));
      }
    }
  }

  lemma NoReply<T>(answer: seq<Ask> -> Reply<T>, asked: seq<Ask>, c: Option<string>, filter: string)
    ensures
      var replies := Replies(answer, asked, c, filter, 0);
      && replies == []
      && Walk(replies, c) == Items(FlatMap(ItemsOf, replies)) + EndOf(replies, Asks(replies, c, filter))
  {}

  /**
   A request is sent for every reply, the first with the caller's cursor, each later one with the cursor
   named before, all with the rest of the query. Another request follows exactly while the caller lets
   it and the reply is a page that names a cursor, not the empty one and not the one it was asked with.
   */
  lemma {:induction false} FollowedExactlyWhen<T>(
    answer: seq<Ask> -> Reply<T>, asked: seq<Ask>, c: Option<string>, filter: string, left: nat, i: nat)
    requires i < |Replies(answer, asked, c, filter, left)|
    ensures
      var replies := Replies(answer, asked, c, filter, left);
      var asks := Asks(replies, c, filter);
      && |asks| == |replies| <= left && asks[i].filter == filter
      && (i == 0 ==> asks[i].cursor == c)
      && (i > 0 ==> replies[i - 1].Page? && asks[i].cursor == replies[i - 1].next)
      && (i < |replies| - 1 <==>
            && i + 1 < left && replies[i].Page?
            && replies[i].next.Some? && replies[i].next.value != "" && replies[i].next != asks[i].cursor)
    decreases left
  {
    hide Replies, Asks, Walk, FlatMap, Items;
    OneAskPerReply(answer, asked, c, filter, left);
    var r, now, rest := OneReply(answer, asked, c, filter, left);
    if Follows(r, c) {
      OneAskPerReply(answer, now, r.next, filter, left - 1);
      if i > 0 {
        FollowedExactlyWhen(answer, now, r.next, filter, left - 1, i - 1);
      } else if left == 1 {
        NoReply(answer, now, r.next, filter);
      } else {
        var _, _, _ := OneReply(answer, now, r.next, filter, left - 1);
      }
    }
  }

  lemma FollowedIsCutOff<T>(r: Reply<T>, c: Option<string>)
    requires Follows(r, c)
    ensures r.Page? && EndingOf(r, c) == [Failure(CutOff)]
  {}

  lemma LastOne<T>(r: Reply<T>, ask: Ask)
    ensures EndOf([r], [ask]) == EndingOf(r, ask.cursor)
  {}

  lemma NothingElse<T>(items: seq<T>)
    ensures FlatMap(ItemsOf<T>, []) == [] && items + [] == items
  {}

  /**
   A page that names no cursor, or the empty one, is the last: its items are yielded, no error, and no
   request is sent after it, whatever the server would have answered.
   */
  lemma LastPageEndsWalk<T>(answer: seq<Ask> -> Reply<T>, asked: seq<Ask>, c: Option<string>, filter: string, left: nat,
                            items: seq<T>, next: Option<string>)
    requires left > 0 && answer(asked + [Ask(c, filter)]) == Page(items, next)
    requires next == None || next == Some("")
    ensures
      var replies := Replies(answer, asked, c, filter, left);
      && replies == [Page(items, next)] && Asks(replies, c, filter) == [Ask(c, filter)]
      && Walk(replies, c) == Items(items)
  {
    Units(Items(items));
  }
}
