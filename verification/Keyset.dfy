/**
 The pager against a keyset server: items have ordered keys, a page holds the next few keys past the
 cursor it is sent, and the cursor it names is the last key served. Items come and go between requests.
 */
module Keyset {
  import opened Options
  import opened Sequences
  import opened Iteration
  import opened Pager

  predicate Past(k: int, after: Option<int>) {
    after.Some? ==> k > after.value
  }

  ghost predicate Ascending(keys: seq<int>) {
    forall i, j :: 0 <= i < j < |keys| ==> keys[i] < keys[j]
  }

  function Last(keys: seq<int>): int
    requires keys != []
  {
    keys[|keys| - 1]
  }

  /** How it answers, what is present when it gets its i-th request, and how it writes a key as a cursor. */
  datatype Server = Server(answer: seq<Ask> -> Reply<int>, present: nat -> set<int>, enc: int -> string)
  {
    function CursorOf(after: Option<int>): Option<string> {
      if after.None? then None else Some(enc(after.value))
    }

    /**
     A page of what is present at request i: keys past `after`, in order, none left out up to the last
     one served; a next cursor naming that one, or none when nothing is left. The page size is free. Or
     the server fails.
     */
    ghost predicate IsPage(i: nat, after: Option<int>, r: Reply<int>) {
      r.Page? ==>
        && Ascending(r.items)
        && (forall k :: k in r.items ==> k in present(i) && Past(k, after))
        && (r.next.None? ==> forall k :: k in present(i) && Past(k, after) ==> k in r.items)
        && (r.next.Some? ==>
              && r.items != [] && r.next == CursorOf(Some(Last(r.items)))
              && forall k :: k in present(i) && Past(k, after) && k <= Last(r.items) ==> k in r.items)
    }

    /** Cursors tell keys apart, and every request is answered by the page its own cursor asks for. */
    ghost predicate Lawful() {
      && (forall k :: enc(k) != "") && (forall j, k :: enc(j) == enc(k) ==> j == k)
      && forall asked: seq<Ask>, after :: asked != [] && asked[|asked| - 1].cursor == CursorOf(after) ==>
           IsPage(|asked| - 1, after, answer(asked))
    }

    /** The pages a walk past `after` gets. */
    function Pages(asked: seq<Ask>, after: Option<int>, filter: string, left: nat): seq<Reply<int>> {
      Replies(answer, asked, CursorOf(after), filter, left)
    }
  }

  function Keys(pages: seq<Reply<int>>): seq<int> {
    FlatMap(ItemsOf, pages)
  }

  /** How a walk over these pages ends: it gets through (None), the server fails, or it is cut off. */
  function EndOf(pages: seq<Reply<int>>): Option<PageError> {
    if pages == [] then Some(CutOff)
    else
      match pages[|pages| - 1]
      case Fault(code) => Some(ServerError(code))
      case Page(_, next) => if next.None? then None else Some(CutOff)
  }

  function Tail(end: Option<PageError>): seq<Yielded<int>> {
    if end.None? then [] else [Failure(end.value)]
  }

  predicate GoesOn(r: Reply<int>) {
    r.Page? && r.next.Some?
  }

  /** The first page is the one the cursor asked for, and the rest of the walk goes on past its last key. */
  lemma OnePage(s: Server, asked: seq<Ask>, after: Option<int>, filter: string, left: nat)
    returns (r: Reply<int>, now: seq<Ask>, last: int, rest: seq<Reply<int>>)
    requires s.Lawful() && left > 0
    ensures |now| == |asked| + 1 && s.IsPage(|asked|, after, r)
    ensures GoesOn(r) ==> r.items != [] && last == Last(r.items) && last in r.items
    ensures rest == if GoesOn(r) then s.Pages(now, Some(last), filter, left - 1) else []
    ensures var pages := s.Pages(asked, after, filter, left);
      && |pages| == 1 + |rest|
      && Keys(pages) == ItemsOf(r) + Keys(rest) && (!GoesOn(r) ==> Keys(pages) == ItemsOf(r))
      && EndOf(pages) == (if GoesOn(r) then EndOf(rest) else if r.Fault? then Some(ServerError(r.code)) else None)
      && Walk(pages, s.CursorOf(after))
           == Items(ItemsOf(r)) + if GoesOn(r) then Walk(rest, s.CursorOf(Some(last))) else Tail(EndOf(pages))
  {
    now := asked + [Ask(s.CursorOf(after), filter)];
    r := s.answer(now);
    assert now[|now| - 1].cursor == s.CursorOf(after);
    assert s.IsPage(|now| - 1, after, r);
    if GoesOn(r) {
      last := Last(r.items);
      assert last in r.items;
      assert Follows(r, s.CursorOf(after));
      rest := s.Pages(now, Some(last), filter, left - 1);
    } else {
      last, rest := 0, [];
    }
    hide Items;
    assert s.Pages(asked, after, filter, left) == [r] + rest;
    assert ([r] + rest)[1..] == rest;
    if r.Fault? { NoItems(); }
  }

  lemma NoItems()
    ensures Items<int>([]) == []
  {}

  lemma NoPage(s: Server, asked: seq<Ask>, after: Option<int>, filter: string)
    ensures var pages := s.Pages(asked, after, filter, 0);
      pages == [] && Keys(pages) == [] && Walk(pages, s.CursorOf(after)) == Items([]) + [Failure(CutOff)]
  {}

  /** What the pager yields: the keys of the pages, and an error only if the server fails or it is cut off. */
  lemma {:induction false} WalkOfKeyset(s: Server, asked: seq<Ask>, after: Option<int>, filter: string, left: nat)
    requires s.Lawful()
    ensures var pages := s.Pages(asked, after, filter, left);
      && Walk(pages, s.CursorOf(after)) == Items(Keys(pages)) + Tail(EndOf(pages))
      && EndOf(pages) != Some(RepeatedCursor)
    decreases left
  {
    hide Server.Lawful, Server.Pages, Keys, Walk, Items;
    if left > 0 {
      var r, now, last, rest := OnePage(s, asked, after, filter, left);
      ItemsAppend(ItemsOf(r), Keys(rest));
      if GoesOn(r) {
        WalkOfKeyset(s, now, Some(last), filter, left - 1);
      }
      Assoc(Items(ItemsOf(r)), Items(Keys(rest)), Tail(EndOf(rest)));
    } else {
      NoPage(s, asked, after, filter);
    }
  }

  lemma AscendingAppend(a: seq<int>, b: seq<int>)
    requires a != [] && Ascending(a) && Ascending(b) && forall k :: k in b ==> k > Last(a)
    ensures Ascending(a + b)
  {
    forall i, j | 0 <= i < j < |a + b| ensures (a + b)[i] < (a + b)[j] {
      if j >= |a| {
        assert (a + b)[j] in b;
        if i < |a| { assert i == |a| - 1 || a[i] < a[|a| - 1]; }
      }
    }
  }

  /** Keys come strictly in order, so none twice, and all past the cursor the walk began at. */
  lemma {:induction false} InOrder(s: Server, asked: seq<Ask>, after: Option<int>, filter: string, left: nat)
    requires s.Lawful()
    ensures var keys := Keys(s.Pages(asked, after, filter, left));
      Ascending(keys) && forall k :: k in keys ==> Past(k, after)
    decreases left
  {
    hide Server.Lawful, Server.Pages, Keys, Walk;
    if left > 0 {
      var r, now, last, rest := OnePage(s, asked, after, filter, left);
      if GoesOn(r) {
        InOrder(s, now, Some(last), filter, left - 1);
        AscendingAppend(ItemsOf(r), Keys(rest));
      }
    } else {
      NoPage(s, asked, after, filter);
    }
  }

  /** k was there at one of the requests from the `from`-th on, up to the `to`-th. */
  ghost predicate PresentOnce(s: Server, from: nat, to: nat, k: int) {
    exists i :: from <= i < to && k in s.present(i)
  }

  ghost predicate PresentThroughout(s: Server, from: nat, to: nat, k: int) {
    forall i :: from <= i < to ==> k in s.present(i)
  }

  lemma {:induction false} OnlyWhatWasPresent(
    s: Server, asked: seq<Ask>, after: Option<int>, filter: string, left: nat, k: int)
    requires s.Lawful() && k in Keys(s.Pages(asked, after, filter, left))
    ensures PresentOnce(s, |asked|, |asked| + |s.Pages(asked, after, filter, left)|, k)
    decreases left
  {
    hide Server.Lawful, Server.Pages, Keys, Walk;
    if left == 0 { NoPage(s, asked, after, filter); }
    var r, now, last, rest := OnePage(s, asked, after, filter, left);
    if k in ItemsOf(r) {
      assert |asked| < |asked| + 1 + |rest| && k in s.present(|asked|);
    } else {
      OnlyWhatWasPresent(s, now, Some(last), filter, left - 1, k);
    }
  }

  /** The stretch of keys a walk has covered: all past its start, or up to where it ended. */
  predicate Covered(after: Option<int>, pages: seq<Reply<int>>, k: int) {
    Past(k, after) && (EndOf(pages).None? || (Keys(pages) != [] && k <= Last(Keys(pages))))
  }

  lemma {:induction false} NothingMissed(
    s: Server, asked: seq<Ask>, after: Option<int>, filter: string, left: nat, k: int)
    requires s.Lawful()
    requires var pages := s.Pages(asked, after, filter, left);
      Covered(after, pages, k) && PresentThroughout(s, |asked|, |asked| + |pages|, k)
    ensures k in Keys(s.Pages(asked, after, filter, left))
    decreases left
  {
    hide Server.Lawful, Server.Pages, Keys, Walk;
    if left == 0 { NoPage(s, asked, after, filter); }
    var r, now, last, rest := OnePage(s, asked, after, filter, left);
    assert k in s.present(|asked|);
    if GoesOn(r) && k > last {
      assert Keys(rest) != [] ==> Last(ItemsOf(r) + Keys(rest)) == Last(Keys(rest));
      NothingMissed(s, now, Some(last), filter, left - 1, k);
    }
  }

  /** The keys that ever exist past the cursor. */
  function EverPast(ever: set<int>, after: Option<int>): set<int> {
    set k | k in ever && Past(k, after)
  }

  /** No other keys than those ever exist past the cursor. */
  ghost predicate Bounds(s: Server, after: Option<int>, ever: set<int>) {
    forall i, k :: k in s.present(i) && Past(k, after) ==> k in ever
  }

  /** If only finitely many keys ever exist past the cursor, a walk of one request more is not cut off. */
  lemma {:induction false} FinishesInTime(
    s: Server, asked: seq<Ask>, after: Option<int>, filter: string, left: nat, ever: set<int>)
    requires s.Lawful() && Bounds(s, after, ever) && left > |EverPast(ever, after)|
    ensures EndOf(s.Pages(asked, after, filter, left)) != Some(CutOff)
    decreases left
  {
    hide Server.Lawful, Server.Pages, Keys, Walk;
    var r, now, last, rest := OnePage(s, asked, after, filter, left);
    if GoesOn(r) {
      assert last in s.present(|asked|);
      assert EverPast(ever, Some(last)) <= EverPast(ever, after) - {last};
      Smaller(EverPast(ever, Some(last)), EverPast(ever, after) - {last});
      FinishesInTime(s, now, Some(last), filter, left - 1, ever);
    }
  }

  lemma Smaller(a: set<int>, b: set<int>)
    requires a <= b
    ensures |a| <= |b|
  {
    assert b == a + (b - a);
  }

  /**
   What `keys` have to be if they were walked over the requests from the `from`-th up to the `to`-th:
   strictly in order, past the cursor, present at one of the requests, and up to the last of them, or
   altogether if the walk got through, no key left out that was present at all the requests.
   */
  ghost predicate Walked(s: Server, after: Option<int>, from: nat, to: nat, keys: seq<int>, through: bool) {
    && Ascending(keys)
    && (forall k :: k in keys ==> Past(k, after) && PresentOnce(s, from, to, k))
    && (forall k :: Past(k, after) && (through || (keys != [] && k <= Last(keys))) && PresentThroughout(s, from, to, k)
          ==> k in keys)
  }

  lemma KeysetWalk(s: Server, asked: seq<Ask>, after: Option<int>, filter: string, left: nat)
    requires s.Lawful()
    ensures var pages := s.Pages(asked, after, filter, left);
      Walked(s, after, |asked|, |asked| + |pages|, Keys(pages), EndOf(pages).None?)
  {
    var pages := s.Pages(asked, after, filter, left);
    hide Server.Lawful, Server.Pages, Keys, EndOf, PresentOnce, PresentThroughout, Past, Ascending;
    InOrder(s, asked, after, filter, left);
    forall k | k in Keys(pages) ensures PresentOnce(s, |asked|, |asked| + |pages|, k) {
      OnlyWhatWasPresent(s, asked, after, filter, left, k);
    }
    forall k | Covered(after, pages, k) && PresentThroughout(s, |asked|, |asked| + |pages|, k) ensures k in Keys(pages) {
      NothingMissed(s, asked, after, filter, left, k);
    }
  }

  /** What holds of a walk holds of its beginning. */
  lemma WalkedUpTo(s: Server, after: Option<int>, from: nat, to: nat, keys: seq<int>, through: bool, n: nat)
    requires Walked(s, after, from, to, keys, through) && n <= |keys|
    ensures Walked(s, after, from, to, keys[..n], false)
  {
    hide PresentOnce, PresentThroughout, Past;
    forall k | k in keys && n > 0 && k <= Last(keys[..n]) ensures k in keys[..n] {
      var i :| 0 <= i < |keys| && keys[i] == k;
      assert keys[i] <= keys[n - 1];
      assert keys[..n][i] == k;
    }
    forall k | k in keys[..n] ensures k in keys {}
    if n > 0 {
      assert Last(keys[..n]) == keys[n - 1] <= Last(keys);
    }
  }

  /**
   The pager over a keyset that changes while it is walked, whatever the consumer wants and whenever the
   caller gives up or the server fails: what was seen are keys, then perhaps how the walk ended early.
   The keys are in order, were present while it walked, and are all that were present throughout, as
   far as it got. It is not cut off if one more request is let through than keys ever exist past the
   cursor, and no cursor is ever reported as repeated.
   */
  method WalkKeyset(ghost s: Server, ghost after: Option<int>, ghost ever: set<int>,
                    operation: ListOperation<int>, ctx: Patience, query: Query?, consumer: Consumer<Yielded<int>>)
    returns (ghost keys: seq<int>, ghost end: Option<PageError>)
    requires s.Lawful() && operation.answer == s.answer
    requires (if query == null then None else query.cursor) == s.CursorOf(after)
    requires consumer.Valid() && consumer.seen == []
    modifies operation, ctx, consumer
    ensures consumer.seen == Items(keys) + Tail(end) && end != Some(RepeatedCursor)
    ensures Walked(s, after, |old(operation.asked)|, |operation.asked|, keys, !consumer.Stopped() && end.None?)
    ensures Bounds(s, after, ever) && old(ctx.left) > |EverPast(ever, after)| ==> end != Some(CutOff)
  {
    hide Walk, Replies, Keys, Walked, Server.Lawful, EverPast, EndOf, Bounds;
    ghost var asked, left := operation.asked, ctx.left;
    ghost var filter := if query == null then "" else query.filter;
    WalkAll(operation, ctx, query, consumer);
    ghost var n := |operation.asked| - |asked|;
    SeenOfSent(s.answer, asked, s.CursorOf(after), filter, left, consumer.seen, consumer.Stopped(), operation.asked);
    ghost var pages := s.Pages(asked, after, filter, n);
    WalkOfKeyset(s, asked, after, filter, n);
    KeysetWalk(s, asked, after, filter, n);
    ghost var got := |consumer.seen|;
    var whole := got > |Keys(pages)|;
    end, keys := if whole then EndOf(pages) else None, if whole then Keys(pages) else Keys(pages)[..got];
    WalkedUpTo(s, after, |asked|, |operation.asked|, Keys(pages), EndOf(pages).None?, |keys|);
    assert Keys(pages)[..|Keys(pages)|] == Keys(pages);
    assert end.Some? ==> consumer.seen[|keys|] == Failure(end.value);
    if Bounds(s, after, ever) && left > |EverPast(ever, after)| {
      FinishesInTime(s, asked, after, filter, left, ever);
      WalkOfKeyset(s, asked, after, filter, left);
      assert forall i :: 0 <= i < got ==> consumer.seen[i] != Failure(CutOff);
    }
  }

  // ---- there are such servers, whatever comes and goes ----

  /** A key as so many signs, and back. */
  function Unary(k: int): string {
    seq(if k < 0 then -k else k + 1, _ => if k < 0 then '-' else '+')
  }

  function KeyOf(cursor: string): int {
    if cursor != "" && cursor[0] == '+' then |cursor| - 1 else -|cursor|
  }

  function KeysPast(keys: seq<int>, after: Option<int>): (past: seq<int>)
    requires Ascending(keys)
    ensures Ascending(past) && forall k :: k in past <==> k in keys && Past(k, after)
  {
    if keys == [] || Past(keys[0], after) then keys else KeysPast(keys[1..], after)
  }

  /** A page of one key, the first past the cursor. */
  function OneKey(held: seq<int>, after: Option<int>): Reply<int>
    requires Ascending(held)
  {
    var past := KeysPast(held, after);
    if past == [] then Page([], None) else Page([past[0]], if |past| == 1 then None else Some(Unary(past[0])))
  }

  /** What the deployment holds at a time, in order. */
  type Holding = keys: seq<int> | Ascending(keys) witness []

  function KeySet(keys: seq<int>): set<int> {
    set k | k in keys
  }

  function OneKeyServer(held: nat -> Holding): Server {
    Server(
      (asked: seq<Ask>) =>
        if asked == [] then Page([], None)
        else
          var c := asked[|asked| - 1].cursor;
          OneKey(held(|asked| - 1), if c.None? then None else Some(KeyOf(c.value))),
      (i: nat) => KeySet(held(i)),
      Unary)
  }

  lemma UnaryBack(k: int)
    ensures Unary(k) != "" && KeyOf(Unary(k)) == k
  {}

  lemma OneKeyIsPage(held: nat -> Holding, i: nat, after: Option<int>)
    ensures OneKeyServer(held).IsPage(i, after, OneKey(held(i), after))
  {
    hide KeysPast, Unary;
    var past := KeysPast(held(i), after);
    assert forall k :: k in past && k <= past[0] ==> k == past[0];
  }

  lemma OneKeyServerIsLawful(held: nat -> Holding)
    ensures OneKeyServer(held).Lawful()
  {
    var s := OneKeyServer(held);
    forall k ensures s.enc(k) != "" && KeyOf(s.enc(k)) == k {
      UnaryBack(k);
    }
    hide Unary, KeyOf, OneKey, KeySet, Server.IsPage;
    forall asked: seq<Ask>, after | asked != [] && asked[|asked| - 1].cursor == s.CursorOf(after)
      ensures s.IsPage(|asked| - 1, after, s.answer(asked))
    {
      OneKeyIsPage(held, |asked| - 1, after);
      assert s.answer(asked) == OneKey(held(|asked| - 1), after);
    }
  }
}
