/**
 The auto-pagers of sdk/go/operations_gen.go: one loop, repeated per list operation, here over any
 item type. The server answers from all it was asked, so it may change between page requests in any
 way; the caller's context lets some number of requests through and then cuts the walk off.
 */
module Pager {
  import opened Options
  import opened Sequences
  import opened Iteration

  datatype PageError = ServerError(code: int) | CutOff | RepeatedCursor

  datatype Reply<T> = Page(items: seq<T>, next: Option<string>) | Fault(code: int)

  datatype Yielded<T> = Item(value: T) | Failure(error: PageError)

  /** A request: its cursor, and whatever else the query holds. */
  datatype Ask = Ask(cursor: Option<string>, filter: string)

  function Items<T>(values: seq<T>): seq<Yielded<T>> {
    seq(|values|, i requires 0 <= i < |values| => Item(values[i]))
  }

  predicate NoNext(next: Option<string>) {
    next.None? || next.value == ""
  }

  /** A reply the walk follows: another page is named, by another cursor than it was asked with. */
  predicate Follows<T>(r: Reply<T>, cursor: Option<string>) {
    r.Page? && !NoNext(r.next) && r.next != cursor
  }

  /**
   The replies a walk from cursor c gets of a server that was asked `asked` before, if `left` requests
   are let through: each answers the requests so far, the last of them with the cursor named before.
   */
  function Replies<T>(answer: seq<Ask> -> Reply<T>, asked: seq<Ask>, c: Option<string>, filter: string, left: nat): seq<Reply<T>>
    decreases left
  {
    if left == 0 then []
    else
      var now := asked + [Ask(c, filter)];
      [answer(now)] + if Follows(answer(now), c) then Replies(answer, now, answer(now).next, filter, left - 1) else []
  }

  /** Everything a walk from cursor c yields, if these are its replies and then it is cut off. */
  function Walk<T>(replies: seq<Reply<T>>, c: Option<string>): seq<Yielded<T>>
    decreases |replies|
  {
    if replies == [] then [Failure(CutOff)]
    else
      match replies[0]
      case Fault(code) => [Failure(ServerError(code))]
      case Page(items, next) =>
        Items(items) +
        if NoNext(next) then [] else if c == next then [Failure(RepeatedCursor)] else Walk(replies[1..], next)
  }

  /** The requests such a walk sends. */
  function Asks<T>(replies: seq<Reply<T>>, c: Option<string>, filter: string): seq<Ask>
    decreases |replies|
  {
    if replies == [] then []
    else [Ask(c, filter)] + if Follows(replies[0], c) then Asks(replies[1..], replies[0].next, filter) else []
  }

  /** How many requests such a walk has sent when it yields its n-th thing. */
  function RequestsFor<T>(replies: seq<Reply<T>>, c: Option<string>, n: nat): nat
    decreases |replies|
  {
    if replies == [] then 0
    else if Follows(replies[0], c) && n > |replies[0].items| then
      1 + RequestsFor(replies[1..], replies[0].next, n - |replies[0].items|)
    else 1
  }

  class Query {
    var cursor: Option<string>
    var filter: string

    constructor (cursor: Option<string>, filter: string)
      ensures this.cursor == cursor && this.filter == filter
    {
      this.cursor, this.filter := cursor, filter;
    }
  }

  /** The caller's context: how many more requests it lets through before it ends. */
  class Patience {
    var left: nat

    constructor (left: nat)
      ensures this.left == left
    {
      this.left := left;
    }
  }

  /** A list operation of the deployment, with all it was asked. */
  class ListOperation<T> {
    const answer: seq<Ask> -> Reply<T>
    var asked: seq<Ask>

    constructor (answer: seq<Ask> -> Reply<T>)
      ensures this.answer == answer && asked == []
    {
      this.answer, asked := answer, [];
    }

    /** None if the caller's context ended first. */
    method List(ctx: Patience, page: Query) returns (r: Option<Reply<T>>)
      modifies this, ctx
      ensures old(ctx.left) == 0 ==> r == None && ctx.left == 0 && asked == old(asked)
      ensures old(ctx.left) > 0 ==>
        ctx.left == old(ctx.left) - 1 && asked == old(asked) + [Ask(page.cursor, page.filter)] && r == Some(answer(asked))
    {
      if ctx.left == 0 {
        return None;
      }
      ctx.left := ctx.left - 1;
      asked := asked + [Ask(page.cursor, page.filter)];
      r := Some(answer(asked));
    }
  }

  /** Serves one page; false if the consumer stopped. */
  method YieldItems<T>(items: seq<T>, consumer: Consumer<Yielded<T>>) returns (more: bool)
    requires consumer.Valid() && !consumer.Stopped()
    modifies consumer
    ensures consumer.Valid() && more == !consumer.Stopped()
    ensures more ==> consumer.seen == old(consumer.seen) + Items(items)
    ensures !more ==> old(consumer.seen) < consumer.seen <= old(consumer.seen) + Items(items)
    ensures |consumer.seen| <= |old(consumer.seen)| + |items|
    ensures more ==> |consumer.seen| == |old(consumer.seen)| + |items|
  {
    for i := 0 to |items|
      invariant consumer.Valid() && !consumer.Stopped()
      invariant consumer.seen == old(consumer.seen) + Items(items[..i])
    {
      assert Items(items[..i + 1]) == Items(items[..i]) + [Item(items[i])];
      assert Items(items) == Items(items[..i + 1]) + Items(items[i + 1..]);
      more := consumer.Yield(Item(items[i]));
      if !more {
        return;
      }
    }
    assert items[..|items|] == items;
    more := true;
  }

  /** A walk as it will be: its replies, from which cursor, and what its server was asked before. */
  datatype Course<T> = Course(replies: seq<Reply<T>>, c: Option<string>, filter: string, before: seq<Ask>)
  {
    function All(): seq<Yielded<T>> {
      Walk(replies, c)
    }

    function Sends(): seq<Ask> {
      before + Asks(replies, c, filter)
    }

    /** It has yielded `seen` and sent `asked`, and has `rest` to come from `cursor`. */
    ghost predicate Under(seen: seq<Yielded<T>>, asked: seq<Ask>, rest: seq<Reply<T>>, cursor: Option<string>) {
      && All() == seen + Walk(rest, cursor)
      && Sends() == asked + Asks(rest, cursor, filter)
      && before <= asked
      && Counts(|seen|, |asked| - |before|, rest, cursor)
    }

    /** Whatever it yields after the first n things, `sent` requests come before those for the rest. */
    ghost predicate Counts(n: nat, sent: int, rest: seq<Reply<T>>, cursor: Option<string>) {
      forall m :: m > 0 ==> RequestsFor(replies, c, n + m) == sent + RequestsFor(rest, cursor, m)
    }

    /** It is over: the consumer has it all, or has stopped, and then no request was sent after that. */
    ghost predicate Over(seen: seq<Yielded<T>>, asked: seq<Ask>, stopped: bool) {
      && seen <= All() && before <= asked <= Sends()
      && if stopped then |asked| - |before| == RequestsFor(replies, c, |seen|)
         else seen == All() && asked == Sends()
    }
  }

  /** One more request is sent for whatever the next reply yields. */
  lemma OneMoreCounts<T>(course: Course<T>, n: nat, sent: int, rest: seq<Reply<T>>, cursor: Option<string>)
    requires course.Counts(n, sent, rest, cursor)
    ensures rest == [] ==> forall k :: n < k ==> RequestsFor(course.replies, course.c, k) == sent
    ensures rest != [] && Follows(rest[0], cursor) ==>
      && course.Counts(n + |rest[0].items|, sent + 1, rest[1..], rest[0].next)
      && forall k :: n < k <= n + |rest[0].items| ==> RequestsFor(course.replies, course.c, k) == sent + 1
    ensures rest != [] && !Follows(rest[0], cursor) ==>
      forall k :: n < k ==> RequestsFor(course.replies, course.c, k) == sent + 1
  {
    forall k | n < k ensures RequestsFor(course.replies, course.c, k) == sent + RequestsFor(rest, cursor, k - n) {
      assert k == n + (k - n);
    }
    if rest != [] && Follows(rest[0], cursor) {
      var items := |rest[0].items|;
      forall m | m > 0
        ensures RequestsFor(course.replies, course.c, n + items + m) == sent + 1 + RequestsFor(rest[1..], rest[0].next, m)
      {
        assert n + items + m == n + (items + m);
      }
    }
  }

  /** What one more request adds to a walk under way. */
  lemma OneMoreRequest<T>(course: Course<T>, seen: seq<Yielded<T>>, asked: seq<Ask>, rest: seq<Reply<T>>, cursor: Option<string>)
    requires course.Under(seen, asked, rest, cursor)
    ensures rest == [] ==> course.All() == seen + [Failure(CutOff)] && course.Sends() == asked
    ensures rest != [] ==>
      var now := asked + [Ask(cursor, course.filter)];
      && now <= course.Sends()
      && match rest[0]
         case Fault(code) => course.All() == seen + [Failure(ServerError(code))] && course.Sends() == now
         case Page(items, next) =>
           var served := seen + Items(items);
           if Follows(rest[0], cursor) then
             served <= course.All() && course.Under(served, now, rest[1..], next)
           else
             course.Sends() == now
             && course.All() == served + if NoNext(next) then [] else [Failure(RepeatedCursor)]
  {
    OneMoreCounts(course, |seen|, |asked| - |course.before|, rest, cursor);
    hide course.Counts, Items;
    if rest != [] && rest[0].Page? {
      var items, next := Items(rest[0].items), rest[0].next;
      var others := if NoNext(next) then [] else if cursor == next then [Failure(RepeatedCursor)] else Walk(rest[1..], next);
      Assoc(seen, items, others);
      Units(seen + items);
      Assoc(asked, [Ask(cursor, course.filter)], Asks(rest[1..], next, course.filter));
    }
  }

  /** The replies still to come. */
  ghost function ToCome<T>(operation: ListOperation<T>, ctx: Patience, page: Query): seq<Reply<T>>
    reads operation, ctx, page
  {
    Replies(operation.answer, operation.asked, page.cursor, page.filter, ctx.left)
  }

  /** One turn of the loop, operations_gen.go:802-823: ask for a page and serve it. */
  method Turn<T>(operation: ListOperation<T>, ctx: Patience, page: Query, consumer: Consumer<Yielded<T>>,
                 ghost course: Course<T>)
    returns (on: bool)
    requires consumer.Valid() && !consumer.Stopped() && page.filter == course.filter
    requires course.Under(consumer.seen, operation.asked, ToCome(operation, ctx, page), page.cursor)
    modifies operation, ctx, consumer, page
    ensures consumer.Valid() && page.filter == old(page.filter)
    ensures ctx.left + |operation.asked| == old(ctx.left + |operation.asked|)
    ensures on ==> !consumer.Stopped() && ctx.left < old(ctx.left)
    ensures on ==> course.Under(consumer.seen, operation.asked, ToCome(operation, ctx, page), page.cursor)
    ensures !on ==> course.Over(consumer.seen, operation.asked, consumer.Stopped())
  {
    hide Walk, Asks, Items, RequestsFor;
    ghost var rest := ToCome(operation, ctx, page);
    OneMoreCounts(course, |consumer.seen|, |operation.asked| - |course.before|, rest, page.cursor);
    OneMoreRequest(course, consumer.seen, operation.asked, rest, page.cursor);
    var result := operation.List(ctx, page);
    if result.None? || result.value.Fault? {
      var _ := consumer.Yield(Failure(if result.None? then CutOff else ServerError(result.value.code)));
      return false;
    }
    var more := YieldItems(result.value.items, consumer);
    if !more {
      return false;
    }
    if NoNext(result.value.next) {
      return false;
    }
    if page.cursor == result.value.next {
      var _ := consumer.Yield(Failure(RepeatedCursor));
      return false;
    }
    page.cursor := result.value.next;
    return true;
  }

  /** The walk that a query begins, with this server and this much patience. */
  ghost function CourseOf<T>(operation: ListOperation<T>, ctx: Patience, query: Query?): Course<T>
    reads operation, ctx, query
  {
    var (c, filter) := if query == null then (None, "") else (query.cursor, query.filter);
    Course(Replies(operation.answer, operation.asked, c, filter, ctx.left), c, filter, operation.asked)
  }

  /**
   ...All: follows nextCursor on a copy of the caller's query, which is not written. The consumer sees
   the walk up to where it stops; the requests sent are the walk's, but none after that.
   */
  method WalkAll<T>(operation: ListOperation<T>, ctx: Patience, query: Query?, consumer: Consumer<Yielded<T>>)
    requires consumer.Valid() && consumer.seen == []
    modifies operation, ctx, consumer
    ensures consumer.Valid() && consumer.seen == Taken(old(CourseOf(operation, ctx, query)).All(), consumer.wants)
    ensures old(CourseOf(operation, ctx, query)).Over(consumer.seen, operation.asked, consumer.Stopped())
    ensures ctx.left + |operation.asked| == old(ctx.left + |operation.asked|)
  {
    hide Taken, Replies;
    ghost var course := CourseOf(operation, ctx, query);
    Units(course.All());
    var page := new Query(None, "");
    if query != null {
      page.cursor, page.filter := query.cursor, query.filter;
    }
    var on := true;
    while on
      invariant consumer.Valid() && fresh(page) && page.filter == course.filter
      invariant ctx.left + |operation.asked| == old(ctx.left + |operation.asked|)
      invariant on ==> !consumer.Stopped()
      invariant on ==> course.Under(consumer.seen, operation.asked, ToCome(operation, ctx, page), page.cursor)
      invariant !on ==> course.Over(consumer.seen, operation.asked, consumer.Stopped())
      decreases on, ctx.left
    {
      on := Turn(operation, ctx, page, consumer, course);
    }
    SeenIsTaken(consumer, course.All());
  }

  // ---- what every walk keeps ----

  predicate ItemsBeforeLast<T>(all: seq<Yielded<T>>) {
    forall i :: 0 <= i < |all| - 1 ==> all[i].Item?
  }

  /** An error is yielded once at most, and last: a partial walk is never mistaken for a complete one. */
  lemma {:induction false} OnlyLastFails<T>(replies: seq<Reply<T>>, c: Option<string>)
    ensures ItemsBeforeLast(Walk(replies, c))
    decreases |replies|
  {
    if replies != [] && Follows(replies[0], c) {
      OnlyLastFails(replies[1..], replies[0].next);
      var all, items, rest := Walk(replies, c), Items(replies[0].items), Walk(replies[1..], replies[0].next);
      forall i | 0 <= i < |all| - 1 ensures all[i].Item? {
        assert all[i] == if i < |items| then items[i] else rest[i - |items|];
      }
    }
  }

  /**
   The first request carries the caller's cursor; no later one carries none, or the cursor of the
   request before it. The rest of the query is the caller's in all of them.
   */
  lemma {:induction false} NeverTheSameCursorTwice<T>(replies: seq<Reply<T>>, c: Option<string>, filter: string)
    ensures var asks := Asks(replies, c, filter);
      && (asks != [] <==> replies != []) && (asks != [] ==> asks[0].cursor == c)
      && (forall i :: 0 < i < |asks| ==> asks[i].cursor.Some? && asks[i].cursor.value != "" && asks[i].cursor != asks[i - 1].cursor)
      && (forall ask :: ask in asks ==> ask.filter == filter)
    decreases |replies|
  {
    if replies != [] && Follows(replies[0], c) {
      NeverTheSameCursorTwice(replies[1..], replies[0].next, filter);
    }
  }

  function ItemsOf<T>(r: Reply<T>): seq<T> {
    match r case Page(items, _) => items case Fault(_) => []
  }

  /** Replies that follow one another from cursor c up to a last page, which names no cursor or the empty one. */
  predicate Complete<T>(replies: seq<Reply<T>>, c: Option<string>)
    decreases |replies|
  {
    && replies != [] && replies[0].Page?
    && var next := replies[0].next;
       if |replies| == 1 then next == None || next == Some("")
       else next.Some? && next.value != "" && next != c && Complete(replies[1..], next)
  }

  lemma ItemsAppend<T>(a: seq<T>, b: seq<T>)
    ensures Items(a + b) == Items(a) + Items(b)
  {}

  /** A complete walk yields exactly the items of all the pages, in order, and no error. */
  lemma {:induction false} CompleteWalk<T>(replies: seq<Reply<T>>, c: Option<string>, filter: string)
    requires Complete(replies, c)
    ensures Walk(replies, c) == Items(FlatMap(ItemsOf, replies))
    ensures |Asks(replies, c, filter)| == |replies|
    decreases |replies|
  {
    if |replies| == 1 {
      FlatMapOne(ItemsOf, replies[0]);
    } else {
      CompleteWalk(replies[1..], replies[0].next, filter);
      ItemsAppend(replies[0].items, FlatMap(ItemsOf, replies[1..]));
    }
  }

  // ---- what a walk asks of its server ----

  lemma RepliesStep<T>(answer: seq<Ask> -> Reply<T>, asked: seq<Ask>, c: Option<string>, filter: string, left: nat)
    ensures var now := asked + [Ask(c, filter)];
      Replies(answer, asked, c, filter, left)
        == if left == 0 then []
           else [answer(now)] + if Follows(answer(now), c) then Replies(answer, now, answer(now).next, filter, left - 1) else []
  {}

  lemma AsksStep<T>(r: Reply<T>, rest: seq<Reply<T>>, c: Option<string>, filter: string)
    ensures Asks<T>([], c, filter) == []
    ensures Asks([r] + rest, c, filter) == [Ask(c, filter)] + if Follows(r, c) then Asks(rest, r.next, filter) else []
  {
    assert ([r] + rest)[1..] == rest;
  }

  lemma {:induction false} OneAskPerReply<T>(
    answer: seq<Ask> -> Reply<T>, asked: seq<Ask>, c: Option<string>, filter: string, left: nat)
    ensures var replies := Replies(answer, asked, c, filter, left);
      |Asks(replies, c, filter)| == |replies| <= left
    decreases left
  {
    hide Replies, Asks;
    RepliesStep(answer, asked, c, filter, left);
    var now := asked + [Ask(c, filter)];
    if left > 0 && Follows(answer(now), c) {
      OneAskPerReply(answer, now, answer(now).next, filter, left - 1);
      AsksStep(answer(now), Replies(answer, now, answer(now).next, filter, left - 1), c, filter);
    } else {
      AsksStep(answer(now), [], c, filter);
    }
  }

  /** Each reply answers one request: the one sent for it, after all those before it. */
  lemma {:induction false} AnsweredInTurn<T>(
    answer: seq<Ask> -> Reply<T>, asked: seq<Ask>, c: Option<string>, filter: string, left: nat, i: nat)
    requires i < |Replies(answer, asked, c, filter, left)|
    ensures var replies := Replies(answer, asked, c, filter, left);
      var asks := Asks(replies, c, filter);
      |asks| == |replies| <= left && replies[i] == answer(asked + asks[..i + 1])
    decreases i
  {
    OneAskPerReply(answer, asked, c, filter, left);
    var ask, now := Ask(c, filter), asked + [Ask(c, filter)];
    var r := answer(now);
    var asks := Asks(Replies(answer, asked, c, filter, left), c, filter);
    if i == 0 {
      assert asks[..1] == [ask];
    } else {
      AnsweredInTurn(answer, now, r.next, filter, left - 1, i - 1);
      var rest := Asks(Replies(answer, now, r.next, filter, left - 1), r.next, filter);
      assert asks == [ask] + rest;
      hide *;
      FrontOf(asked, ask, rest, i);
    }
  }

  lemma FrontOf<T>(a: seq<T>, x: T, b: seq<T>, i: nat)
    requires i <= |b|
    ensures a + ([x] + b)[..i + 1] == a + [x] + b[..i]
  {}

  /** With less patience, a walk gets the first of the same replies. */
  lemma {:induction false} LessPatience<T>(
    answer: seq<Ask> -> Reply<T>, asked: seq<Ask>, c: Option<string>, filter: string, left: nat, n: nat)
    requires n <= |Replies(answer, asked, c, filter, left)|
    ensures Replies(answer, asked, c, filter, n) == Replies(answer, asked, c, filter, left)[..n]
    decreases n
  {
    var now := asked + [Ask(c, filter)];
    if n > 0 && Follows(answer(now), c) {
      LessPatience(answer, now, answer(now).next, filter, left - 1, n - 1);
    }
  }

  /** What is yielded depends only on the replies to the requests sent by then. */
  lemma {:induction false} YieldedOnReplies<T>(replies: seq<Reply<T>>, c: Option<string>, m: nat)
    requires 0 < m <= |Walk(replies, c)|
    ensures var n := RequestsFor(replies, c, m);
      n <= |replies| && m <= |Walk(replies[..n], c)| && Walk(replies[..n], c)[..m] == Walk(replies, c)[..m]
    decreases |replies|
  {
    if replies != [] && Follows(replies[0], c) {
      var r, rest := replies[0], replies[1..];
      var n, items := RequestsFor(replies, c, m), Items(r.items);
      if m > |items| {
        YieldedOnReplies(rest, r.next, m - |items|);
        assert replies[..n][1..] == rest[..n - 1];
      }
      assert n <= |replies| && replies[..n][0] == r;
      assert Walk(replies, c) == items + Walk(rest, r.next);
      assert Walk(replies[..n], c) == items + Walk(replies[..n][1..], r.next);
      hide *;
      FirstOfBoth(items, Walk(rest, r.next), Walk(replies[..n][1..], r.next), m);
    } else if replies != [] {
      assert replies[..1] == [replies[0]];
      hide Items;
    }
  }

  lemma FirstOfBoth<T>(a: seq<T>, b: seq<T>, d: seq<T>, m: nat)
    requires m <= |a + b| && (m > |a| ==> m - |a| <= |d| && d[..m - |a|] == b[..m - |a|])
    ensures m <= |a + d| && (a + d)[..m] == (a + b)[..m]
  {
    if m > |a| {
      assert (a + b)[..m] == a + b[..m - |a|] && (a + d)[..m] == a + d[..m - |a|];
    }
  }

  /**
   A walk that is over saw nothing but what its server answered to the requests it sent: it is as if
   the caller had let exactly those through.
   */
  lemma SeenOfSent<T>(answer: seq<Ask> -> Reply<T>, asked: seq<Ask>, c: Option<string>, filter: string, left: nat,
                      seen: seq<Yielded<T>>, stopped: bool, now: seq<Ask>)
    requires Course(Replies(answer, asked, c, filter, left), c, filter, asked).Over(seen, now, stopped)
    requires stopped ==> seen != []
    ensures |asked| <= |now| && var replies := Replies(answer, asked, c, filter, |now| - |asked|);
      && |replies| == |now| - |asked|
      && seen <= Walk(replies, c) && (!stopped ==> seen == Walk(replies, c))
  {
    var replies := Replies(answer, asked, c, filter, left);
    OneAskPerReply(answer, asked, c, filter, left);
    if stopped {
      YieldedOnReplies(replies, c, |seen|);
    }
    var n := |now| - |asked|;
    LessPatience(answer, asked, c, filter, left, n);
    hide Replies, Walk, Asks, RequestsFor;
    assert seen == Walk(replies, c)[..|seen|];
    assert n == |replies| ==> replies[..n] == replies;
  }

  /** A server whose answer depends on nothing but the request. */
  ghost predicate Static<T(!new)>(answer: seq<Ask> -> Reply<T>) {
    forall h, g, ask :: answer(h + [ask]) == answer(g + [ask])
  }

  lemma SameAnswer<T(!new)>(answer: seq<Ask> -> Reply<T>, h: seq<Ask>, g: seq<Ask>, ask: Ask)
    requires Static(answer)
    ensures answer(h + [ask]) == answer(g + [ask])
  {}

  lemma {:induction false} SameReplies<T(!new)>(
    answer: seq<Ask> -> Reply<T>, h: seq<Ask>, g: seq<Ask>, c: Option<string>, filter: string, left: nat)
    requires Static(answer)
    ensures Replies(answer, h, c, filter, left) == Replies(answer, g, c, filter, left)
    decreases left
  {
    hide Static;
    if left > 0 {
      var ask := Ask(c, filter);
      SameAnswer(answer, h, g, ask);
      if Follows(answer(h + [ask]), c) {
        SameReplies(answer, h + [ask], g + [ask], answer(h + [ask]).next, filter, left - 1);
      }
    }
  }

  /**
   Ranging again over the same iterator, against a server that does not change: the same walk from its
   beginning. Each consumer sees its part of it, and consumers that want the same see the same and
   cause the same requests.
   */
  method WalkTwice<T(!new)>(operation: ListOperation<T>, patience: nat, query: Query?,
                      wants: seq<Yielded<T>> -> bool, wantsNext: seq<Yielded<T>> -> bool)
    returns (first: seq<Yielded<T>>, second: seq<Yielded<T>>, ghost sent: seq<Ask>, ghost sentNext: seq<Ask>)
    requires Static(operation.answer)
    modifies operation
    ensures operation.asked == old(operation.asked) + sent + sentNext
    ensures var (c, filter) := if query == null then (None, "") else (query.cursor, query.filter);
      var replies := Replies(operation.answer, [], c, filter, patience);
      && first == Taken(Walk(replies, c), wants) && second == Taken(Walk(replies, c), wantsNext)
      && sent <= Asks(replies, c, filter) && sentNext <= Asks(replies, c, filter)
    ensures wants == wantsNext ==> first == second && sent == sentNext
  {
    hide Replies, Walk, Asks, Taken, RequestsFor, Static;
    first, sent := WalkOnce(operation, patience, query, wants);
    second, sentNext := WalkOnce(operation, patience, query, wantsNext);
  }

  /** One range over the iterator: against a server that does not change, what it was asked before does not matter. */
  method WalkOnce<T(!new)>(operation: ListOperation<T>, patience: nat, query: Query?, wants: seq<Yielded<T>> -> bool)
    returns (seen: seq<Yielded<T>>, ghost sent: seq<Ask>)
    requires Static(operation.answer)
    modifies operation
    ensures operation.asked == old(operation.asked) + sent
    ensures var (c, filter) := if query == null then (None, "") else (query.cursor, query.filter);
      var replies := Replies(operation.answer, [], c, filter, patience);
      && seen == Taken(Walk(replies, c), wants) && sent <= Asks(replies, c, filter)
      && if seen != [] && !wants(seen) then |sent| == RequestsFor(replies, c, |seen|) else sent == Asks(replies, c, filter)
  {
    hide Replies, Walk, Asks, Taken, RequestsFor, Static;
    var ctx := new Patience(patience);
    var consumer := new Consumer(wants);
    ghost var before := operation.asked;
    ghost var course := CourseOf(operation, ctx, query);
    SameReplies(operation.answer, [], before, course.c, course.filter, patience);
    WalkAll(operation, ctx, query, consumer);
    seen, sent := consumer.seen, operation.asked[|before|..];
  }

  // ---- when it ends ----

  /** The walk comes to its own end: it is not cut off. */
  ghost predicate Ends<T>(replies: seq<Reply<T>>, c: Option<string>) {
    Walk(replies, c) == [] || Walk(replies, c)[|Walk(replies, c)| - 1] != Failure(CutOff)
  }

  lemma EndsFromNext<T>(replies: seq<Reply<T>>, c: Option<string>)
    ensures Ends(replies, c) <==> replies != [] && (!Follows(replies[0], c) || Ends(replies[1..], replies[0].next))
  {
    if replies != [] && Follows(replies[0], c) {
      var items, rest := Items(replies[0].items), Walk(replies[1..], replies[0].next);
      assert Walk(replies, c) == items + rest;
      assert rest == [] ==> items + rest == items;
    }
  }

  /** The requests a server gets if every cursor it names is sent back to it, up to the i-th. */
  function Threaded<T>(answer: seq<Ask> -> Reply<T>, asked: seq<Ask>, c: Option<string>, filter: string, i: nat): (h: seq<Ask>)
    ensures |h| == |asked| + i + 1
  {
    if i == 0 then asked + [Ask(c, filter)]
    else
      var h := Threaded(answer, asked, c, filter, i - 1);
      h + [Ask(match answer(h) case Page(_, next) => next case Fault(_) => None, filter)]
  }

  /** The i-th of these is answered with a fault, with no further page, or with its own cursor. */
  predicate Halts<T>(answer: seq<Ask> -> Reply<T>, asked: seq<Ask>, c: Option<string>, filter: string, i: nat) {
    var h := Threaded(answer, asked, c, filter, i);
    !Follows(answer(h), h[|h| - 1].cursor)
  }

  lemma {:induction false} ThreadedOn<T>(answer: seq<Ask> -> Reply<T>, asked: seq<Ask>, c: Option<string>, filter: string, i: nat)
    requires answer(asked + [Ask(c, filter)]).Page?
    ensures var now := asked + [Ask(c, filter)];
      Threaded(answer, asked, c, filter, i + 1) == Threaded(answer, now, answer(now).next, filter, i)
  {
    if i > 0 {
      ThreadedOn(answer, asked, c, filter, i - 1);
    }
  }

  lemma HaltsAtOnce<T>(answer: seq<Ask> -> Reply<T>, asked: seq<Ask>, c: Option<string>, filter: string)
    ensures Halts(answer, asked, c, filter, 0) <==> !Follows(answer(asked + [Ask(c, filter)]), c)
  {}

  /** If the first request does not halt the walk, the later ones are those of the walk from there. */
  lemma HaltsLater<T>(answer: seq<Ask> -> Reply<T>, asked: seq<Ask>, c: Option<string>, filter: string, left: nat)
    requires left > 0 && Follows(answer(asked + [Ask(c, filter)]), c)
    ensures var now := asked + [Ask(c, filter)];
      (exists i :: 0 <= i < left && Halts(answer, asked, c, filter, i))
      <==> exists i :: 0 <= i < left - 1 && Halts(answer, now, answer(now).next, filter, i)
  {
    var now := asked + [Ask(c, filter)];
    var next := answer(now).next;
    HaltsAtOnce(answer, asked, c, filter);
    forall i: nat ensures Halts(answer, asked, c, filter, i + 1) <==> Halts(answer, now, next, filter, i) {
      ThreadedOn(answer, asked, c, filter, i);
    }
    hide Halts;
    if i: nat :| i < left && Halts(answer, asked, c, filter, i) {
      assert i > 0 && Halts(answer, now, next, filter, i - 1);
    }
    if i: nat :| i < left - 1 && Halts(answer, now, next, filter, i) {
      assert Halts(answer, asked, c, filter, i + 1);
    }
  }

  /**
   Whatever the server does, a walk comes to its own end, given `left` requests, exactly if one of the
   first `left` cursors is answered with a fault, with no further page, or with that very cursor.
   Otherwise it sends all those requests.
   */
  lemma {:induction false} EndsExactlyWhen<T>(
    answer: seq<Ask> -> Reply<T>, asked: seq<Ask>, c: Option<string>, filter: string, left: nat)
    ensures Ends(Replies(answer, asked, c, filter, left), c)
       <==> exists i :: 0 <= i < left && Halts(answer, asked, c, filter, i)
    ensures !Ends(Replies(answer, asked, c, filter, left), c) ==> |Replies(answer, asked, c, filter, left)| == left
    decreases left
  {
    hide Ends, Halts, Walk;
    EndsFromNext(Replies(answer, asked, c, filter, left), c);
    if left > 0 {
      var now := asked + [Ask(c, filter)];
      HaltsAtOnce(answer, asked, c, filter);
      if Follows(answer(now), c) {
        EndsExactlyWhen(answer, now, answer(now).next, filter, left - 1);
        HaltsLater(answer, asked, c, filter, left);
      }
    }
  }

  /** A static server with two pages, A and B, each of which names the other. */
  function TwoPages(asked: seq<Ask>): Reply<int> {
    if asked != [] && asked[|asked| - 1].cursor == Some("A") then Page([1], Some("B")) else Page([0], Some("A"))
  }

  lemma NamesTheOther(asked: seq<Ask>)
    requires asked != []
    ensures Follows(TwoPages(asked), asked[|asked| - 1].cursor)
  {
    assert "A"[0] != "B"[0];
  }

  lemma TwoPagesIsStatic()
    ensures Static(TwoPages)
  {}

  /** A cycle of two cursors is followed for as long as the caller lets it, from wherever it starts. */
  lemma LongCycleNeverEnds(asked: seq<Ask>, c: Option<string>, filter: string, left: nat)
    ensures Static(TwoPages) && !Ends(Replies(TwoPages, asked, c, filter, left), c)
    ensures |Replies(TwoPages, asked, c, filter, left)| == left
  {
    TwoPagesIsStatic();
    hide Ends, Replies, TwoPages, Static, Threaded;
    forall i: nat ensures !Halts(TwoPages, asked, c, filter, i) {
      NamesTheOther(Threaded(TwoPages, asked, c, filter, i));
    }
    EndsExactlyWhen(TwoPages, asked, c, filter, left);
  }
}
