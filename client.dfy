/**
 * The REST client of both generations: one logical GET retried over a
 * sequence of physical responses, and the paginated GET that concatenates
 * the results of successive pages. The network is the `Response` sequence
 * the caller supplies: one entry per physical request, in order; the sleeps
 * the client would take are returned instead of being slept.
 */
module Client {
  import opened Common

  /** How many failed statuses one logical request tolerates. */
  const MaxRetries := 5
  /** The delay after HTTP 429, in seconds. */
  const RateLimitDelay := 5
  const DefaultLimit := 25
  const DefaultStart := 0

  /** What one physical request gave: an HTTP status with its decoded body, or a transport exception. */
  datatype Response<B> = Status(code: int, body: B) | TransportError

  /**
   * How one logical request ended. `Gave`: the value returned (None when the
   * client gave up), the number of physical requests made and the sleeps
   * taken, in seconds. `Pending`: the supplied responses ran out while the
   * client was still retrying.
   */
  datatype Fetch<B> = Gave(value: Option<B>, requests: nat, sleeps: seq<int>) | Pending(requests: nat, sleeps: seq<int>)

  /** `f` preceded by `n` more requests and the sleeps `slept`. */
  function After<B>(n: nat, slept: seq<int>, f: Fetch<B>): Fetch<B>
  {
    match f
    case Gave(v, k, s) => Gave(v, n + k, slept + s)
    case Pending(k, s) => Pending(n + k, slept + s)
  }

  /** The delay after the `retry`-th failed status `code`. */
  function Delay(code: int, retry: int): int
  {
    if code == 429 then RateLimitDelay else retry * 5
  }

  /** The retry policy of `_get`, with `retry` failed statuses counted from 1. */
  function Retry<B>(rs: seq<Response<B>>, retry: int): Fetch<B>
    decreases |rs|
  {
    if rs == [] then Pending(0, [])
    else
      match rs[0]
      case TransportError => After(1, [], Retry(rs[1..], retry))
      case Status(code, body) =>
        if code == 200 then Gave(Some(body), 1, [])
        else if retry >= MaxRetries then Gave(None, 1, [])
        else
          var d := Delay(code, retry);
          After(1, if d > 0 then [d] else [], Retry(rs[1..], retry + 1))
  }

  /** Two runs of requests in a row. */
  lemma AfterAfter<B>(n: nat, slept: seq<int>, m: nat, more: seq<int>, f: Fetch<B>)
    ensures After(n, slept, After(m, more, f)) == After(n + m, slept + more, f)
  {
    AppendAssoc(slept, more, f.sleeps);
  }

  /** `_get`: request until a 200, giving up after `MaxRetries` failed statuses. */
  method Get<B>(rs: seq<Response<B>>) returns (f: Fetch<B>)
    ensures f == Retry(rs, 1)
  {
    var retry := 1;
    var i := 0;
    var sleeps: seq<int> := [];
    assert rs[0..] == rs;
    while i < |rs|
      invariant 0 <= i <= |rs| && 1 <= retry < MaxRetries + 1
      invariant Retry(rs, 1) == After(i, sleeps, Retry(rs[i..], retry))
    {
      ghost var rest := rs[i..];
      assert rest[0] == rs[i] && rest[1..] == rs[i + 1..];
      match rs[i] {
        case TransportError =>
          AfterAfter(i, sleeps, 1, [], Retry(rs[i + 1..], retry));
          assert sleeps + [] == sleeps;
          i := i + 1;
        case Status(code, body) =>
          if code == 200 {
            assert Retry(rest, retry) == Gave(Some(body), 1, []);
            assert sleeps + [] == sleeps;
            return Gave(Some(body), i + 1, sleeps);
          }
          if retry >= MaxRetries {
            assert Retry(rest, retry) == Gave(None, 1, []);
            assert sleeps + [] == sleeps;
            return Gave(None, i + 1, sleeps);
          }
          var sleepTime := if code == 429 then RateLimitDelay else retry * 5;
          ghost var slept := if sleepTime > 0 then [sleepTime] else [];
          assert Retry(rest, retry) == After(1, slept, Retry(rs[i + 1..], retry + 1));
          AfterAfter(i, sleeps, 1, slept, Retry(rs[i + 1..], retry + 1));
          retry := retry + 1;
          if sleepTime > 0 {
            sleeps := sleeps + [sleepTime];
          }
          i := i + 1;
      }
    }
    assert rs[i..] == [];
    assert sleeps + [] == sleeps;
    f := Pending(|rs|, sleeps);
  }

  /** The responses that carried a status, transport exceptions dropped. */
  function Statuses<B>(rs: seq<Response<B>>): (st: seq<Response<B>>)
    ensures |st| <= |rs|
    ensures forall i :: 0 <= i < |st| ==> st[i].Status?
  {
    if rs == [] then []
    else if rs[0].TransportError? then Statuses(rs[1..])
    else [rs[0]] + Statuses(rs[1..])
  }

  /**
   * A transport exception neither counts as a retry nor sleeps: the verdict
   * and the sleeps depend only on the statuses received.
   */
  lemma {:induction false} RetryIgnoresTransport<B>(rs: seq<Response<B>>, retry: int)
    ensures Retry(rs, retry).Gave? == Retry(Statuses(rs), retry).Gave?
    ensures Retry(rs, retry).sleeps == Retry(Statuses(rs), retry).sleeps
    ensures Retry(rs, retry).Gave? ==> Retry(rs, retry).value == Retry(Statuses(rs), retry).value
    ensures Retry(rs, retry).requests >= Retry(Statuses(rs), retry).requests
    decreases |rs|
  {
    if rs != [] {
      RetryIgnoresTransport(rs[1..], retry + 1);
      RetryIgnoresTransport(rs[1..], retry);
      if rs[0].Status? {
        assert Statuses(rs)[1..] == Statuses(rs[1..]);
      }
    }
  }

  /** No 200 among the first `n` statuses. */
  ghost predicate FailedStatuses<B>(rs: seq<Response<B>>, n: nat)
  {
    n <= |rs| && forall i :: 0 <= i < n ==> rs[i].Status? && rs[i].code != 200
  }

  /** The sleeps taken after the failed statuses `rs`, counting retries from `retry`. */
  function Backoff<B>(rs: seq<Response<B>>, retry: int): seq<int>
    requires forall i :: 0 <= i < |rs| ==> rs[i].Status?
  {
    if rs == [] then []
    else
      var d := Delay(rs[0].code, retry);
      (if d > 0 then [d] else []) + Backoff(rs[1..], retry + 1)
  }

  /**
   * Against statuses that all fail, the client sends exactly `MaxRetries`
   * requests, sleeping after every one but the last, and returns None.
   */
  lemma {:induction false} RetryGivesUp<B>(rs: seq<Response<B>>, retry: int)
    requires 1 <= retry <= MaxRetries
    requires FailedStatuses(rs, MaxRetries - retry + 1)
    ensures Retry(rs, retry) == Gave(None, MaxRetries - retry + 1, Backoff(rs[..MaxRetries - retry], retry))
    decreases MaxRetries - retry
  {
    if retry < MaxRetries {
      assert FailedStatuses(rs[1..], MaxRetries - retry);
      RetryGivesUp(rs[1..], retry + 1);
      assert rs[..MaxRetries - retry][1..] == rs[1..][..MaxRetries - retry - 1];
    }
  }

  /** The first 200 within the retry budget is what the client returns. */
  lemma {:induction false} RetrySucceeds<B>(rs: seq<Response<B>>, retry: int, j: nat)
    requires 1 <= retry && j < |rs| && retry + j <= MaxRetries
    requires FailedStatuses(rs, j) && rs[j].Status? && rs[j].code == 200
    ensures Retry(rs, retry) == Gave(Some(rs[j].body), j + 1, Backoff(rs[..j], retry))
    decreases j
  {
    if j > 0 {
      assert FailedStatuses(rs[1..], j - 1);
      RetrySucceeds(rs[1..], retry + 1, j - 1);
      assert rs[..j][1..] == rs[1..][..j - 1];
    }
  }

  /** Failed statuses other than 429 back off linearly: 5, 10, 15, ... seconds. */
  lemma {:induction false} LinearBackoff<B>(rs: seq<Response<B>>, retry: nat)
    requires retry >= 1
    requires forall i :: 0 <= i < |rs| ==> rs[i].Status? && rs[i].code != 429
    ensures Backoff(rs, retry) == seq(|rs|, i requires 0 <= i < |rs| => (retry + i) * 5)
    decreases |rs|
  {
    if rs != [] {
      LinearBackoff(rs[1..], retry + 1);
    }
  }

  /** A server that always answers 500: five requests, sleeps of 5, 10, 15 and 20 seconds, then None. */
  lemma AlwaysServerError<B>(body: B)
    ensures Retry([Status(500, body), Status(500, body), Status(500, body), Status(500, body), Status(500, body)], 1)
      == Gave(None, 5, [5, 10, 15, 20])
  {
    var rs := [Status(500, body), Status(500, body), Status(500, body), Status(500, body), Status(500, body)];
    RetryGivesUp(rs, 1);
    LinearBackoff(rs[..4], 1);
  }

  // ---------------------------------------------------------------------
  // Request parameters and pagination
  // ---------------------------------------------------------------------

  /** An `expand` parameter: a text, or a list the client joins with commas. */
  datatype Expand = ExpandText(text: string) | ExpandList(items: seq<string>)

  /** The query parameters of a request; `extra` holds every other key. */
  datatype ParamValues = ParamValues(limit: Option<int>, start: Option<int>, expand: Option<Expand>, extra: map<string, string>)

  /** One physical request of a paginated GET: its URL and its parameters (None for a follow-up link). */
  datatype Request = Request(url: string, params: Option<ParamValues>)

  datatype Links = Links(base: string, next: Option<string>)

  /** One decoded page of results. */
  datatype Page<R> = Page(results: seq<R>, links: Links)

  /** The parameters after `paginated_get` filled in its defaults. */
  function WithDefaults(p: ParamValues): ParamValues
  {
    ParamValues(
      if p.limit.None? then Some(DefaultLimit) else p.limit,
      if p.start.None? then Some(DefaultStart) else p.start,
      match p.expand
      case Some(ExpandList(xs)) => Some(ExpandText(Join(xs, ",")))
      case other => other,
      p.extra)
  }

  /**
   * Defaults fill only what is absent: a given limit or start is kept, a
   * list `expand` becomes its comma-joined text, and filling twice changes
   * nothing more.
   */
  lemma DefaultsFillAbsent(p: ParamValues)
    ensures WithDefaults(p).limit == (if p.limit.Some? then p.limit else Some(25))
    ensures WithDefaults(p).start == (if p.start.Some? then p.start else Some(0))
    ensures WithDefaults(p).expand.Some? ==> WithDefaults(p).expand.value.ExpandText?
    ensures p.expand.Some? && p.expand.value.ExpandList? ==>
      WithDefaults(p).expand == Some(ExpandText(Join(p.expand.value.items, ",")))
    ensures WithDefaults(p).extra == p.extra
    ensures WithDefaults(WithDefaults(p)) == WithDefaults(p)
  {
  }

  /** The caller's parameter dictionary, which `paginated_get` updates in place. */
  class Params {
    var limit: Option<int>
    var start: Option<int>
    var expand: Option<Expand>
    var extra: map<string, string>

    function Values(): ParamValues
      reads this
    {
      ParamValues(limit, start, expand, extra)
    }

    constructor (v: ParamValues)
      ensures Values() == v
    {
      limit, start, expand, extra := v.limit, v.start, v.expand, v.extra;
    }

    /** Fills in the defaults in place. */
    method SetDefaults()
      modifies this
      ensures Values() == WithDefaults(old(Values()))
    {
      if limit.None? {
        limit := Some(DefaultLimit);
      }
      if start.None? {
        start := Some(DefaultStart);
      }
      if expand.Some? && expand.value.ExpandList? {
        expand := Some(ExpandText(Join(expand.value.items, ",")));
      }
    }
  }

  /**
   * What a paginated GET did: the requests sent and the pages received, in
   * order, the results yielded, how many `next` links it followed, and
   * whether it stopped by itself (`settled`) rather than because the
   * supplied responses ran out.
   */
  datatype Pagination<R> = Pagination(requests: seq<Request>, pages: seq<Page<R>>, results: seq<R>, followed: nat, settled: bool)

  /** `p` preceded by one request that received `page` (if any). */
  function Then<R>(req: Request, page: Option<Page<R>>, p: Pagination<R>): Pagination<R>
  {
    match page
    case None => Pagination([req] + p.requests, p.pages, p.results, p.followed, p.settled)
    case Some(pg) => Pagination([req] + p.requests, [pg] + p.pages, pg.results + p.results, p.followed + 1, p.settled)
  }

  /**
   * Pagination by `next` link: fetch `req`; stop when the fetch gives
   * nothing or the page has no `next` link; otherwise request `base + next`
   * without parameters. `wire[i]` answers the `i`-th logical request.
   */
  function FollowLinks<R>(req: Request, wire: seq<seq<Response<Page<R>>>>): Pagination<R>
    decreases |wire|
  {
    if wire == [] then Pagination([], [], [], 0, false)
    else
      match Retry(wire[0], 1)
      case Pending(_, _) => Pagination([req], [], [], 0, false)
      case Gave(None, _, _) => Pagination([req], [], [], 0, true)
      case Gave(Some(page), _, _) =>
        match page.links.next
        case None => Pagination([req], [page], page.results, 0, true)
        case Some(n) => Then(req, Some(page), FollowLinks(Request(page.links.base + n, None), wire[1..]))
  }

  /** The results of `pages`, in order. */
  function ResultsOf<R>(pages: seq<Page<R>>): seq<seq<R>>
  {
    seq(|pages|, k requires 0 <= k < |pages| => pages[k].results)
  }

  lemma FlattenCons<T(!new)>(x: seq<T>, xs: seq<seq<T>>)
    ensures Flatten([x] + xs) == x + Flatten(xs)
    decreases |xs|
  {
    if xs != [] {
      var ys := [x] + xs;
      assert ys[..|ys| - 1] == [x] + xs[..|xs| - 1];
      FlattenCons(x, xs[..|xs| - 1]);
    }
  }

  lemma ResultsOfCons<R>(pg: Page<R>, pages: seq<Page<R>>)
    ensures ResultsOf([pg] + pages) == [pg.results] + ResultsOf(pages)
  {
  }

  /**
   * A link-following pagination yields the pages' results in order, and it
   * made one request per page plus at most one that gave nothing.
   */
  lemma {:induction false} FollowLinksResults<R(!new)>(req: Request, wire: seq<seq<Response<Page<R>>>>)
    ensures FollowLinks(req, wire).results == Flatten(ResultsOf(FollowLinks(req, wire).pages))
    ensures |FollowLinks(req, wire).requests| - |FollowLinks(req, wire).pages| in {0, 1}
    ensures |FollowLinks(req, wire).requests| <= |wire|
    decreases |wire|
  {
    if wire != [] {
      match Retry(wire[0], 1)
      case Pending(_, _) =>
      case Gave(None, _, _) =>
      case Gave(Some(page), _, _) =>
        match page.links.next
        case None =>
          FlattenCons(page.results, []);
        case Some(n) =>
          var next := Request(page.links.base + n, None);
          var rest := FollowLinks(next, wire[1..]);
          FollowLinksResults(next, wire[1..]);
          ResultsOfCons(page, rest.pages);
          FlattenCons(page.results, ResultsOf(rest.pages));
    }
  }

  /**
   * The first request is `req`; every page but the last had a `next` link,
   * and each follow-up request is that link appended to the page's base,
   * with no parameters; a pagination that stopped by itself after its last
   * page stopped because that page had no `next` link.
   */
  lemma {:induction false} FollowLinksChain<R(!new)>(req: Request, wire: seq<seq<Response<Page<R>>>>)
    ensures wire != [] ==> FollowLinks(req, wire).requests != [] && FollowLinks(req, wire).requests[0] == req
    ensures forall k :: 0 <= k < |FollowLinks(req, wire).requests| - 1 ==>
      && k < |FollowLinks(req, wire).pages| && FollowLinks(req, wire).pages[k].links.next.Some?
      && FollowLinks(req, wire).requests[k + 1] ==
           Request(FollowLinks(req, wire).pages[k].links.base + FollowLinks(req, wire).pages[k].links.next.value, None)
    ensures (&& FollowLinks(req, wire).settled
             && |FollowLinks(req, wire).requests| == |FollowLinks(req, wire).pages|
             && FollowLinks(req, wire).pages != []) ==>
      FollowLinks(req, wire).pages[|FollowLinks(req, wire).pages| - 1].links.next.None?
    decreases |wire|
  {
    var p := FollowLinks(req, wire);
    if wire != [] {
      match Retry(wire[0], 1)
      case Pending(_, _) =>
      case Gave(None, _, _) =>
      case Gave(Some(page), _, _) =>
        match page.links.next
        case None =>
        case Some(n) =>
          var next := Request(page.links.base + n, None);
          var rest := FollowLinks(next, wire[1..]);
          FollowLinksChain(next, wire[1..]);
          FollowLinksResults(next, wire[1..]);
          assert p == Then(req, Some(page), rest);
          forall k | 0 <= k < |p.requests| - 1
            ensures k < |p.pages| && p.pages[k].links.next.Some?
            ensures p.requests[k + 1] == Request(p.pages[k].links.base + p.pages[k].links.next.value, None)
          {
            if k > 0 {
              assert p.requests[k + 1] == rest.requests[k] && p.pages[k] == rest.pages[k - 1];
            }
          }
    }
  }

  /** An example: three pages of sizes 2, 2 and 1 give exactly their five results, in order. */
  lemma ThreePages(base: string, url: string, n1: string, n2: string)
    ensures var wire := [
        [Status(200, Page([1, 2], Links(base, Some(n1))))],
        [Status(200, Page([3, 4], Links(base, Some(n2))))],
        [Status(200, Page([5], Links(base, None)))]];
      var p := FollowLinks(Request(url, None), wire);
      p.results == [1, 2, 3, 4, 5] && |p.requests| == 3 && p.settled
  {
    var w3: seq<seq<Response<Page<int>>>> := [[Status(200, Page([5], Links(base, None)))]];
    var w2 := [[Status(200, Page([3, 4], Links(base, Some(n2))))]] + w3;
    var w1 := [[Status(200, Page([1, 2], Links(base, Some(n1))))]] + w2;
    assert w1[1..] == w2 && w2[1..] == w3;
    assert FollowLinks(Request(base + n2, None), w3).results == [5];
    assert FollowLinks(Request(base + n1, None), w2).results == [3, 4, 5];
  }

  /**
   * `paginated_get`, link-following generation: fills the caller's defaults
   * in place, then follows `next` links.
   */
  method PaginatedGet<R>(baseApiUrl: string, endpoint: string, params: Params, wire: seq<seq<Response<Page<R>>>>)
    returns (results: seq<R>, requests: seq<Request>)
    modifies params
    ensures params.Values() == WithDefaults(old(params.Values()))
    ensures var p := FollowLinks(Request(baseApiUrl + "/" + endpoint, Some(params.Values())), wire);
      results == p.results && requests == p.requests
  {
    params.SetDefaults();
    var req := Request(baseApiUrl + "/" + endpoint, Some(params.Values()));
    ghost var whole := FollowLinks(req, wire);
    results, requests := [], [];
    var i := 0;
    while i < |wire|
      invariant 0 <= i <= |wire|
      invariant params.Values() == WithDefaults(old(params.Values()))
      invariant whole.results == results + FollowLinks(req, wire[i..]).results
      invariant whole.requests == requests + FollowLinks(req, wire[i..]).requests
    {
      assert wire[i..][1..] == wire[i + 1..];
      var r := Get(wire[i]);
      requests := requests + [req];
      if !r.Gave? || r.value.None? {
        return;
      }
      var page := r.value.value;
      results := results + page.results;
      if page.links.next.None? {
        return;
      }
      req := Request(page.links.base + page.links.next.value, None);
      i := i + 1;
    }
  }

  /** `p` with its start moved on by `n` pages of `limit` results. */
  function Advanced(p: ParamValues, n: nat): ParamValues
    requires p.start.Some? && p.limit.Some?
  {
    p.(start := Some(p.start.value + n * p.limit.value))
  }

  /**
   * Pagination by offset (older generation): fetch with parameters `p`;
   * while the page has a `next` link, add `limit` to `start` and fetch
   * again from the same URL.
   */
  function FollowOffsets<R>(url: string, p: ParamValues, wire: seq<seq<Response<Page<R>>>>): Pagination<R>
    requires p.start.Some? && p.limit.Some?
    decreases |wire|
  {
    var req := Request(url, Some(p));
    if wire == [] then Pagination([], [], [], 0, false)
    else
      match Retry(wire[0], 1)
      case Pending(_, _) => Pagination([req], [], [], 0, false)
      case Gave(None, _, _) => Pagination([req], [], [], 0, true)
      case Gave(Some(page), _, _) =>
        match page.links.next
        case None => Pagination([req], [page], page.results, 0, true)
        case Some(_) => Then(req, Some(page), FollowOffsets(url, Advanced(p, 1), wire[1..]))
  }

  /**
   * Offset pagination asks the same URL each time, the `k`-th request with
   * `start` moved on by `k` pages; it made at most one request more than
   * the pages it received.
   */
  lemma {:induction false} FollowOffsetsRequests<R(!new)>(url: string, p: ParamValues, wire: seq<seq<Response<Page<R>>>>)
    requires p.start.Some? && p.limit.Some?
    ensures var f := FollowOffsets(url, p, wire);
      && |f.requests| <= |wire| && |f.requests| <= |f.pages| + 1
      && (forall k :: 0 <= k < |f.requests| ==> f.requests[k] == Request(url, Some(Advanced(p, k))))
    decreases |wire|
  {
    var f := FollowOffsets(url, p, wire);
    if wire != [] && Retry(wire[0], 1).Gave? && Retry(wire[0], 1).value.Some? {
      var page := Retry(wire[0], 1).value.value;
      if page.links.next.Some? {
        var q := Advanced(p, 1);
        var rest := FollowOffsets(url, q, wire[1..]);
        FollowOffsetsRequests(url, q, wire[1..]);
        assert f == Then(Request(url, Some(p)), Some(page), rest);
        forall k | 0 <= k < |f.requests|
          ensures f.requests[k] == Request(url, Some(Advanced(p, k)))
        {
          if k > 0 {
            assert f.requests[k] == rest.requests[k - 1];
            assert Advanced(q, k - 1) == Advanced(p, k);
          }
        }
      }
    }
  }

  /**
   * Offset pagination yields the pages' results in order; every page but
   * the last had a `next` link, and `start` moved on once per page with a
   * `next` link.
   */
  lemma {:induction false} FollowOffsetsPages<R(!new)>(url: string, p: ParamValues, wire: seq<seq<Response<Page<R>>>>)
    requires p.start.Some? && p.limit.Some?
    ensures var f := FollowOffsets(url, p, wire);
      && f.results == Flatten(ResultsOf(f.pages))
      && (forall k :: 0 <= k < |f.pages| - 1 ==> f.pages[k].links.next.Some?)
      && f.followed == |f.pages| - (if f.pages != [] && f.pages[|f.pages| - 1].links.next.None? then 1 else 0)
    decreases |wire|
  {
    var f := FollowOffsets(url, p, wire);
    if wire != [] && Retry(wire[0], 1).Gave? && Retry(wire[0], 1).value.Some? {
      var page := Retry(wire[0], 1).value.value;
      if page.links.next.None? {
        FlattenCons(page.results, []);
      } else {
        var q := Advanced(p, 1);
        var rest := FollowOffsets(url, q, wire[1..]);
        FollowOffsetsPages(url, q, wire[1..]);
        assert f == Then(Request(url, Some(p)), Some(page), rest);
        ResultsOfCons(page, rest.pages);
        FlattenCons(page.results, ResultsOf(rest.pages));
        forall k | 0 <= k < |f.pages| - 1
          ensures f.pages[k].links.next.Some?
        {
          if k > 0 {
            assert f.pages[k] == rest.pages[k - 1];
          }
        }
      }
    }
  }

  /** One more page moves `start` on by one more `limit`. */
  lemma AdvancedAgain(p: ParamValues, n: nat)
    requires p.start.Some? && p.limit.Some?
    ensures Advanced(Advanced(p, n), 1) == Advanced(p, n + 1)
    ensures Advanced(p, n).(start := Some(Advanced(p, n).start.value + p.limit.value)) == Advanced(p, n + 1)
  {
    assert (n + 1) * p.limit.value == n * p.limit.value + p.limit.value;
  }

  /** What offset pagination does with the first logical request's outcome. */
  lemma FollowOffsetsHead<R>(url: string, p: ParamValues, wire: seq<seq<Response<Page<R>>>>)
    requires p.start.Some? && p.limit.Some? && wire != []
    ensures !Retry(wire[0], 1).Gave? || Retry(wire[0], 1).value.None? ==>
      FollowOffsets(url, p, wire) == Pagination([Request(url, Some(p))], [], [], 0, Retry(wire[0], 1).Gave?)
    ensures Retry(wire[0], 1).Gave? && Retry(wire[0], 1).value.Some? ==>
      var page := Retry(wire[0], 1).value.value;
      FollowOffsets(url, p, wire) ==
        if page.links.next.None? then Pagination([Request(url, Some(p))], [page], page.results, 0, true)
        else Then(Request(url, Some(p)), Some(page), FollowOffsets(url, Advanced(p, 1), wire[1..]))
  {
  }

  /**
   * `paginated_get`, offset generation: fills the caller's defaults, then
   * adds `limit` to the caller's `start` in place for every `next` link.
   */
  method PaginatedGetByOffset<R>(baseApiUrl: string, endpoint: string, params: Params, wire: seq<seq<Response<Page<R>>>>)
    returns (results: seq<R>, requests: seq<Request>)
    modifies params
    ensures var p0 := WithDefaults(old(params.Values()));
      var f := FollowOffsets(baseApiUrl + "/" + endpoint, p0, wire);
      && results == f.results && requests == f.requests
      && params.Values() == Advanced(p0, f.followed)
  {
    params.SetDefaults();
    var url := baseApiUrl + "/" + endpoint;
    ghost var p0 := params.Values();
    ghost var whole := FollowOffsets(url, p0, wire);
    results, requests := [], [];
    var i := 0;
    assert wire[0..] == wire;
    while i < |wire|
      invariant 0 <= i <= |wire|
      invariant params.Values() == Advanced(p0, i)
      invariant whole.results == results + FollowOffsets(url, Advanced(p0, i), wire[i..]).results
      invariant whole.requests == requests + FollowOffsets(url, Advanced(p0, i), wire[i..]).requests
      invariant whole.followed == i + FollowOffsets(url, Advanced(p0, i), wire[i..]).followed
    {
      ghost var cur := Advanced(p0, i);
      ghost var rest := FollowOffsets(url, cur, wire[i..]);
      FollowOffsetsHead(url, cur, wire[i..]);
      assert wire[i..][0] == wire[i] && wire[i..][1..] == wire[i + 1..];
      var r := Get(wire[i]);
      ghost var results0, requests0 := results, requests;
      requests := requests + [Request(url, Some(params.Values()))];
      if !r.Gave? || r.value.None? {
        assert results + [] == results;
        return;
      }
      var page := r.value.value;
      results := results + page.results;
      if page.links.next.None? {
        assert results + [] == results;
        return;
      }
      ghost var tail := FollowOffsets(url, Advanced(cur, 1), wire[i + 1..]);
      assert rest == Then(Request(url, Some(cur)), Some(page), tail);
      AppendAssoc(results0, page.results, tail.results);
      AppendAssoc(requests0, [Request(url, Some(cur))], tail.requests);
      AdvancedAgain(p0, i);
      params.start := Some(params.start.value + params.limit.value);
      assert params.Values() == cur.(start := Some(cur.start.value + cur.limit.value));
      i := i + 1;
    }
    assert requests + [] == requests && results + [] == results;
  }
}
