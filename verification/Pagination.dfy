/** The connector SDK's pagination: the adapter that drives any paginator, and the offset paginator
  * against any server. */
module Pagination {
  import opened Wrappers
  import Numbers

  datatype Fetched<+T> = Fetched(items: seq<T>, next: Option<string>) | FetchError(message: string)

  /** Why a stream stopped; `Pending` when the consumer stopped asking first. */
  datatype End = Finished | Failed(message: string) | CursorLoop(cursor: string) | Pending

  /** A page with the cursor it was asked for. */
  datatype Page<+T> = Page(cursor: Option<string>, items: seq<T>, next: Option<string>)

  datatype Stream<+T> = Stream(pages: seq<Page<T>>, end: End, calls: nat)

  type Fetch<!S, !T> = (S, Option<string>) -> (S, Fetched<T>)

  // ----- The adapter

  /** The stream of a paginator in state `s`, about to be asked for `cursor` after `prev`, as far as
    * `budget` fetches go. */
  function Drive<S, T>(fetch: Fetch<S, T>, s: S, cursor: Option<string>, prev: Option<string>, budget: nat): Stream<T>
    decreases budget
  {
    if prev.Some? && cursor.Some? && prev.value == cursor.value then Stream([], CursorLoop(cursor.value), 0)
    else if budget == 0 then Stream([], Pending, 0)
    else
      var (s', r) := fetch(s, cursor);
      match r
      case FetchError(m) => Stream([], Failed(m), 1)
      case Fetched(items, next) =>
        var page := Page(cursor, items, next);
        if next.None? then Stream([page], Finished, 1)
        else
          var rest := Drive(fetch, s', next, cursor, budget - 1);
          Stream([page] + rest.pages, rest.end, rest.calls + 1)
  }

  function Yielded<T>(pages: seq<Page<T>>): seq<T> {
    if pages == [] then [] else pages[0].items + Yielded(pages[1..])
  }

  lemma YieldedNothing<T>()
    ensures Yielded<T>([]) == []
  {
  }

  lemma YieldedPage<T>(page: Page<T>)
    ensures Yielded([page]) == page.items
  {
    assert page.items + [] == page.items;
  }

  lemma YieldedMore<T>(page: Page<T>, rest: seq<Page<T>>)
    ensures Yielded([page] + rest) == page.items + Yielded(rest)
  {
    assert ([page] + rest)[1..] == rest;
  }

  /** `paginate`, for a consumer that lets it fetch at most `budget` times. */
  method Paginate<S, T>(fetch: Fetch<S, T>, start: S, budget: nat) returns (items: seq<T>, end: End, calls: nat)
    ensures
      var stream := Drive(fetch, start, None, None, budget);
      items == Yielded(stream.pages) && end == stream.end && calls == stream.calls
  {
    hide Yielded;
    YieldedNothing<T>();
    var state, cursor, prevCursor := start, None, None;
    items, calls := [], 0;
    ghost var whole := Drive(fetch, start, None, None, budget);
    while true
      invariant calls <= budget
      invariant
        var rest := Drive(fetch, state, cursor, prevCursor, budget - calls);
        && whole.end == rest.end && whole.calls == calls + rest.calls
        && Yielded(whole.pages) == items + Yielded(rest.pages)
      decreases budget - calls
    {
      if prevCursor.Some? && cursor.Some? && prevCursor.value == cursor.value {
        return items, CursorLoop(cursor.value), calls;
      }
      if calls == budget {
        return items, Pending, calls;
      }
      var (state', fetched) := fetch(state, cursor);
      calls := calls + 1;
      match fetched {
        case FetchError(m) => return items, Failed(m), calls;
        case Fetched(page, next) =>
          YieldedPage(Page(cursor, page, next));
          if next.Some? {
            YieldedMore(Page(cursor, page, next), Drive(fetch, state', next, cursor, budget - calls).pages);
          }
          items := items + page;
          prevCursor := cursor;
          state := state';
          if next.None? {
            return items, Finished, calls;
          }
          cursor := next;
      }
    }
  }

  /** Every page was asked for with the cursor the page before it gave, which differs from the cursor
    * that page was asked for with. */
  predicate Chained<T>(pages: seq<Page<T>>, cursor: Option<string>, prev: Option<string>)
    decreases |pages|
  {
    pages != [] ==>
      && pages[0].cursor == cursor && (cursor.Some? ==> cursor != prev)
      && (|pages| > 1 ==> pages[0].next.Some?)
      && Chained(pages[1..], pages[0].next, cursor)
  }

  /** How a stream's end follows from its pages: it finishes on a page without a cursor, fails with the
    * fetch after the last page and fetches no more, and stops on a page that gives its own cursor back. */
  ghost predicate EndsRight<T>(stream: Stream<T>, cursor: Option<string>, prev: Option<string>, budget: nat) {
    var pages := stream.pages;
    var next := if pages == [] then cursor else pages[|pages| - 1].next;
    var last := if pages == [] then prev else pages[|pages| - 1].cursor;
    match stream.end
    case Finished => pages != [] && next == None && stream.calls == |pages|
    case Failed(_) => stream.calls == |pages| + 1
    case CursorLoop(c) => next == last == Some(c) && stream.calls == |pages|
    case Pending => stream.calls == |pages| == budget && (next.Some? ==> next != last)
  }

  lemma PrependPage<T>(page: Page<T>, rest: Stream<T>, cursor: Option<string>, prev: Option<string>, budget: nat)
    requires page.cursor == cursor && page.next.Some? && (cursor.Some? ==> cursor != prev) && budget > 0
    requires Chained(rest.pages, page.next, cursor) && EndsRight(rest, page.next, cursor, budget - 1)
    ensures
      var stream := Stream([page] + rest.pages, rest.end, rest.calls + 1);
      Chained(stream.pages, cursor, prev) && EndsRight(stream, cursor, prev, budget)
  {
    assert ([page] + rest.pages)[1..] == rest.pages;
  }

  /** Whatever the paginator answers. */
  lemma {:induction false} DriveInOrder<S, T>(fetch: Fetch<S, T>, s: S, cursor: Option<string>, prev: Option<string>,
                                              budget: nat)
    ensures
      var stream := Drive(fetch, s, cursor, prev, budget);
      && Chained(stream.pages, cursor, prev)
      && EndsRight(stream, cursor, prev, budget)
      && stream.calls <= budget
    decreases budget
  {
    hide Chained, EndsRight;
    if prev.Some? && cursor.Some? && prev.value == cursor.value {
      NoPage(Drive(fetch, s, cursor, prev, budget), cursor, prev, budget);
    } else if budget == 0 {
      NoPage(Drive(fetch, s, cursor, prev, budget), cursor, prev, budget);
    } else {
      var (s', r) := fetch(s, cursor);
      if r.Fetched? {
        var page := Page(cursor, r.items, r.next);
        if r.next.Some? {
          DriveInOrder(fetch, s', r.next, cursor, budget - 1);
          PrependPage(page, Drive(fetch, s', r.next, cursor, budget - 1), cursor, prev, budget);
        } else {
          LastPage(page, cursor, prev, budget);
        }
      } else {
        NoPage(Drive(fetch, s, cursor, prev, budget), cursor, prev, budget);
      }
    }
  }

  /** A stream that ends before its first page. */
  lemma NoPage<T>(stream: Stream<T>, cursor: Option<string>, prev: Option<string>, budget: nat)
    requires stream.pages == []
    requires match stream.end
             case Finished => false
             case Failed(_) => stream.calls == 1
             case CursorLoop(c) => cursor == prev == Some(c) && stream.calls == 0
             case Pending => budget == stream.calls == 0 && (cursor.Some? ==> cursor != prev)
    ensures Chained(stream.pages, cursor, prev) && EndsRight(stream, cursor, prev, budget)
  {
  }

  lemma LastPage<T>(page: Page<T>, cursor: Option<string>, prev: Option<string>, budget: nat)
    requires page.cursor == cursor && page.next == None && (cursor.Some? ==> cursor != prev)
    ensures Chained([page], cursor, prev) && EndsRight(Stream([page], Finished, 1), cursor, prev, budget)
  {
    assert [page][1..] == [];
  }

  // ----- The offset paginator

  /** `items` is absent when the body has no array under the key; an element is absent when it does not
    * deserialise. */
  datatype Reply<+T> = Broken(message: string) | Reply(total: Option<nat>, items: Option<seq<Option<T>>>)

  /** The answer to the `k`-th request, for `limit` items from `start`. */
  type Server<!T> = (nat, nat, nat) -> Reply<T>

  datatype Offset = Offset(nextStart: nat, total: Option<nat>, sent: nat)

  const FRESH := Offset(0, None, 0)

  function Values<T>(items: seq<Option<T>>): (r: Option<seq<T>>)
    ensures r.Some? ==> |r.value| == |items|
  {
    if items == [] then Some([])
    else
      var rest := Values(items[1..]);
      if items[0].None? || rest.None? then None else Some([items[0].value] + rest.value)
  }

  predicate Exhausted(o: Offset, returned: nat, limit: nat) {
    if o.total.Some? then o.nextStart >= o.total.value else returned < limit
  }

  /** `OffsetPaginator::fetch_page`, which ignores the cursor it is given. */
  function OffsetFetch<T>(server: Server<T>, limit: nat, o: Offset): (Offset, Fetched<T>) {
    var asked := o.(sent := o.sent + 1);
    match server(o.sent, o.nextStart, limit)
    case Broken(m) => (asked, FetchError(m))
    case Reply(total, items) =>
      var known := asked.(total := if o.total.None? then total else o.total);
      if items.None? then (known, FetchError("missing array"))
      else
        var values := Values(items.value);
        if values.None? then (known, FetchError("bad item"))
        else
          var n := |values.value|;
          var moved := known.(nextStart := o.nextStart + n);
          (moved, Fetched(values.value,
                          if Exhausted(moved, n, limit) then None else Some(Numbers.Decimal(moved.nextStart))))
  }

  function OffsetPages<T>(server: Server<T>, limit: nat): Fetch<Offset, T> {
    (o: Offset, cursor: Option<string>) => OffsetFetch(server, limit, o)
  }

  class OffsetPaginator<T> {
    const limit: nat
    const server: Server<T>
    var nextStart: nat
    var total: Option<nat>
    var sent: nat

    constructor (server: Server<T>, limit: nat)
      ensures this.server == server && this.limit == limit && View() == FRESH
    {
      this.server, this.limit := server, limit;
      nextStart, total, sent := 0, None, 0;
    }

    function View(): Offset
      reads this
    {
      Offset(nextStart, total, sent)
    }

    method FetchPage(cursor: Option<string>) returns (r: Fetched<T>)
      modifies this
      ensures (View(), r) == OffsetFetch(server, limit, old(View()))
    {
      var reply := server(sent, nextStart, limit);
      sent := sent + 1;
      match reply {
        case Broken(m) => return FetchError(m);
        case Reply(reported, items) =>
          if total.None? {
            total := reported;
          }
          if items.None? {
            return FetchError("missing array");
          }
          var values := Values(items.value);
          if values.None? {
            return FetchError("bad item");
          }
          var returned := |values.value|;
          nextStart := nextStart + returned;
          var done := if total.Some? then nextStart >= total.value else returned < limit;
          return Fetched(values.value, if done then None else Some(Numbers.Decimal(nextStart)));
      }
    }
  }

  lemma CursorsDiffer(a: nat, b: nat)
    requires a != b
    ensures Numbers.Decimal(a) != Numbers.Decimal(b)
  {
    Numbers.DecimalReads(a);
    Numbers.DecimalReads(b);
  }

  // ----- Any server

  lemma {:induction false} OffsetRestEnds<T>(server: Server<T>, limit: nat, o: Offset, prev: Option<string>, budget: nat)
    requires o.total.Some? && o.nextStart < o.total.value
    requires prev != Some(Numbers.Decimal(o.nextStart))
    requires budget >= o.total.value - o.nextStart
    ensures
      var stream := Drive(OffsetPages(server, limit), o, Some(Numbers.Decimal(o.nextStart)), prev, budget);
      stream.end != Pending && stream.calls <= o.total.value - o.nextStart
    decreases o.total.value - o.nextStart
  {
    hide Numbers.Decimal, Values;
    var (o', r) := OffsetFetch(server, limit, o);
    if r.Fetched? && r.next.Some? && o'.nextStart > o.nextStart {
      CursorsDiffer(o.nextStart, o'.nextStart);
      OffsetRestEnds(server, limit, o', Some(Numbers.Decimal(o.nextStart)), budget - 1);
    }
  }

  /** Against any server whose first response reports a total, the stream ends after at most one fetch
    * more than that total, however few items, or none, the server hands out at a time. */
  lemma OffsetEnds<T>(server: Server<T>, limit: nat, budget: nat)
    requires var first := server(0, 0, limit); first.Reply? && first.total.Some? && budget > first.total.value
    ensures
      var stream := Drive(OffsetPages(server, limit), FRESH, None, None, budget);
      stream.end != Pending && stream.calls <= server(0, 0, limit).total.value + 1
  {
    hide Numbers.Decimal, Values;
    var (o, r) := OffsetFetch(server, limit, FRESH);
    if r.Fetched? && r.next.Some? {
      OffsetRestEnds(server, limit, o, None, budget - 1);
    }
  }

  // ----- A server that slices a fixed list

  function AllPresent<T>(items: seq<T>): seq<Option<T>> {
    seq(|items|, (k: nat) requires k < |items| => Some(items[k]))
  }

  lemma {:induction false} ValuesOfPresent<T>(items: seq<T>)
    ensures Values(AllPresent(items)) == Some(items)
  {
    if items != [] {
      ValuesOfPresent(items[1..]);
      assert AllPresent(items)[1..] == AllPresent(items[1..]);
      assert items == [items[0]] + items[1..];
    }
  }

  function PageSize(limit: nat, left: nat): nat {
    if limit < left then limit else left
  }

  /** The server answers every request with the items from `start` on. With a total it may hand out fewer
    * than asked for, but something while there is something; without one, it fills its pages. */
  ghost predicate Slices<T>(server: Server<T>, list: seq<T>, limit: nat, reports: bool) {
    forall k: nat, start: nat {:trigger server(k, start, limit)} :: start <= |list| ==>
      var reply := server(k, start, limit);
      && reply.Reply? && reply.items.Some?
      && reply.total == (if reports then Some(|list|) else None)
      && |reply.items.value| <= |list| - start
      && reply.items.value == AllPresent(list[start..start + |reply.items.value|])
      && (if reports then start < |list| ==> |reply.items.value| > 0
          else |reply.items.value| == PageSize(limit, |list| - start))
  }

  lemma SliceFetched<T>(server: Server<T>, list: seq<T>, limit: nat, reports: bool, o: Offset)
    requires Slices(server, list, limit, reports) && o.nextStart <= |list|
    requires o.total == (if reports then Some(|list|) else None) || (reports && o.total == None)
    ensures
      var (o', r) := OffsetFetch(server, limit, o);
      && r.Fetched? && o'.nextStart <= |list|
      && o'.total == (if reports then Some(|list|) else None)
      && o.nextStart <= o'.nextStart && r.items == list[o.nextStart..o'.nextStart]
      && (r.next.Some? ==> r.next.value == Numbers.Decimal(o'.nextStart))
      && (r.next.None? <==> if reports then o'.nextStart == |list| else o'.nextStart - o.nextStart < limit)
      && (reports && o.nextStart < |list| ==> o'.nextStart > o.nextStart)
      && (!reports ==> o'.nextStart == o.nextStart + PageSize(limit, |list| - o.nextStart))
  {
    hide Numbers.Decimal, Values, AllPresent;
    var reply := server(o.sent, o.nextStart, limit);
    var n := |reply.items.value|;
    ValuesOfPresent(list[o.nextStart..o.nextStart + n]);
  }

  lemma {:induction false} OffsetRestExact<T>(server: Server<T>, list: seq<T>, limit: nat, reports: bool, o: Offset,
                                              cursor: Option<string>, prev: Option<string>, budget: nat)
    requires Slices(server, list, limit, reports) && (reports || limit >= 1) && o.nextStart <= |list|
    requires o.total == (if reports then Some(|list|) else None) || (reports && o.total == None)
    requires cursor == None || (cursor == Some(Numbers.Decimal(o.nextStart)) && prev != cursor)
    requires cursor == None ==> prev == None
    requires budget > |list| - o.nextStart
    ensures
      var stream := Drive(OffsetPages(server, limit), o, cursor, prev, budget);
      Yielded(stream.pages) == list[o.nextStart..] && stream.end == Finished
    decreases |list| - o.nextStart
  {
    hide Numbers.Decimal, Values, AllPresent, Slices, OffsetFetch;
    SliceFetched(server, list, limit, reports, o);
    var (o', r) := OffsetFetch(server, limit, o);
    assert Yielded([Page(cursor, r.items, r.next)]) == r.items + [];
    if r.next.Some? {
      CursorsDiffer(o.nextStart, o'.nextStart);
      OffsetRestExact(server, list, limit, reports, o', r.next, cursor, budget - 1);
      var rest := Drive(OffsetPages(server, limit), o', r.next, cursor, budget - 1);
      assert ([Page(cursor, r.items, r.next)] + rest.pages)[1..] == rest.pages;
      assert list[o.nextStart..] == list[o.nextStart..o'.nextStart] + list[o'.nextStart..];
    } else {
      assert o'.nextStart == |list|;
      assert list[o.nextStart..] == list[o.nextStart..|list|];
    }
  }

  /** Every item exactly once and in order, and the stream finishes. */
  lemma OffsetExact<T>(server: Server<T>, list: seq<T>, limit: nat, reports: bool, budget: nat)
    requires Slices(server, list, limit, reports) && (reports || limit >= 1) && budget > |list|
    ensures
      var stream := Drive(OffsetPages(server, limit), FRESH, None, None, budget);
      Yielded(stream.pages) == list && stream.end == Finished
  {
    hide Slices, Drive;
    OffsetRestExact(server, list, limit, reports, FRESH, None, None, budget);
    assert list[0..] == list;
  }
}
