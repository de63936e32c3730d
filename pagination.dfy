/** The follower-collection loop of `App::get_folower_for_user`: walk the paginated
    followers endpoint, page after page, until the cursor runs out or a request fails.
    The server is an oracle: the i-th element of `responses` is what the i-th request
    produced. Running out of responses stands for the server never answering again
    (the source has no bound of its own on the number of pages). */
module Pagination {
  import opened Wrappers
  import opened RustStr
  import opened ScDefs
  import opened Settings
  import opened Endpoint
  import opened Users

  /** Why the loop ended. */
  datatype Stop =
    | NoNextHref      // the latest page had no cursor, or an empty one
    | RequestFailed   // the HTTP request failed
    | DecodeFailed    // the JSON body could not be decoded
    | OffsetPanic     // the latest cursor could not be read (the source panics here)
    | OutOfResponses  // every answer of the oracle has been consumed

  type Page = Collection<Follower>

  /** The page size every request asks for. */
  const PageLimit: string := "200"

  function FollowersResources(user: User): seq<(string, string)>
  {
    [("users", IntToString(user.id)), ("followers", "")]
  }

  /** The URL of the first request: the page size only. */
  function FirstFollowersEndpoint(cfg: Config, user: User): string
  {
    BuildEndpoint(cfg.client_token, FollowersResources(user), [("limit", PageLimit)])
  }

  /** The URL of every later request: the page size, then the offset read from the cursor. */
  function OffsetFollowersEndpoint(cfg: Config, user: User, offset: string): string
  {
    BuildEndpoint(cfg.client_token, FollowersResources(user), [("limit", PageLimit), ("offset", offset)])
  }

  /** Whether the loop goes on from a page: `None` when it issues another request,
      otherwise the reason it ends there. */
  function PageStop(page: Page): Option<Stop>
  {
    if !HaveNextHref(page) then Some(NoNextHref)
    else if !IsFirst(page) && !OffsetReadable(page) then Some(OffsetPanic)
    else None
  }

  /** What the loop does after an answer: `None` when it goes on to another request,
      otherwise the reason it ends there. */
  function StopAfter(r: Response<Page>): Option<Stop>
  {
    match r
    case TransportFailure => Some(RequestFailed)
    case DecodeFailure => Some(DecodeFailed)
    case Decoded(page) => PageStop(page)
  }

  /** The loop went on to another request after the `j`-th answer. */
  predicate ContinuesAfter(rs: seq<Response<Page>>, j: int)
    requires 0 <= j < |rs|
  {
    StopAfter(rs[j]) == None
  }

  /** The URL requested from a page on which the loop goes on: the previous URL again
      when the page carries the first-request sentinel, the offset URL otherwise. */
  function NextEndpoint(cfg: Config, user: User, previous: string, page: Page): string
    requires PageStop(page) == None
  {
    if IsFirst(page) then previous else OffsetFollowersEndpoint(cfg, user, GetNextHrefOffset(page))
  }

  /** The items an answer contributes: those of a decoded page, none for a failure. */
  function PageItems(r: Response<Page>): seq<Follower>
  {
    match r
    case Decoded(page) => page.collection
    case _ => []
  }

  /** The items of every decoded page among `rs`, page after page, each page's items in
      their own order. */
  function Items(rs: seq<Response<Page>>): seq<Follower>
  {
    if |rs| == 0 then [] else PageItems(rs[0]) + Items(rs[1..])
  }

  /** Collecting items commutes with concatenating answers: nothing is reordered or dropped. */
  lemma {:induction false} ItemsAppend(a: seq<Response<Page>>, b: seq<Response<Page>>)
    ensures Items(a + b) == Items(a) + Items(b)
    decreases |a|
  {
    if |a| == 0 {
      assert a + b == b;
    } else {
      assert (a + b)[0] == a[0];
      assert (a + b)[1..] == a[1..] + b;
      ItemsAppend(a[1..], b);
    }
  }

  /** What a run of the loop produced: the followers returned, the URLs requested (one per
      answer consumed) and the reason the loop ended. */
  datatype Outcome = Outcome(followers: seq<Follower>, requests: seq<string>, stop: Stop)

  /** The loop, from a state in which `current` is the latest page, `endpoint` the latest
      URL, `followers` the items gathered and `requests` the URLs requested so far, answered
      by `rs`. */
  function Walk(cfg: Config, user: User, current: Page, endpoint: string,
                followers: seq<Follower>, requests: seq<string>, rs: seq<Response<Page>>): Outcome
    decreases |rs|
  {
    match PageStop(current)
    case Some(stop) => Outcome(followers, requests, stop)
    case None =>
      var e := NextEndpoint(cfg, user, endpoint, current);
      if |rs| == 0 then Outcome(followers, requests, OutOfResponses)
      else
        match rs[0]
        case TransportFailure => Outcome(followers, requests + [e], RequestFailed)
        case DecodeFailure => Outcome(followers, requests + [e], DecodeFailed)
        case Decoded(page) => Walk(cfg, user, page, e, followers + page.collection, requests + [e], rs[1..])
  }

  /** The collection a fetch starts from: no items, and the first-request sentinel. */
  const Start: Page := Collection([], Some(FirstCursor))

  /** The whole fetch: the loop from the starting collection and the first URL. */
  function FetchFollowers(cfg: Config, user: User, responses: seq<Response<Page>>): Outcome
  {
    Walk(cfg, user, Start, FirstFollowersEndpoint(cfg, user), [], [], responses)
  }

  /** `App::get_folower_for_user`. `followers` is what the source returns; `requests`
      lists the URLs requested, one per answer consumed, and `stop` says why the loop
      ended. The function itself never fails: a failed request or decode ends the loop
      and keeps everything gathered so far. */
  method GetFollowersForUser(cfg: Config, user: User, responses: seq<Response<Page>>)
    returns (followers: seq<Follower>, requests: seq<string>, stop: Stop)
    ensures Outcome(followers, requests, stop) == FetchFollowers(cfg, user, responses)
  {
    var endpoint := FirstFollowersEndpoint(cfg, user);
    var current: Page := Start;
    followers, requests := [], [];
    var i := 0;
    while HaveNextHref(current)
      invariant i <= |responses|
      invariant FetchFollowers(cfg, user, responses)
                  == Walk(cfg, user, current, endpoint, followers, requests, responses[i..])
      decreases |responses| - i
    {
      if !IsFirst(current) {
        if !OffsetReadable(current) {
          stop := OffsetPanic;
          return;
        }
        endpoint := OffsetFollowersEndpoint(cfg, user, GetNextHrefOffset(current));
      }
      if i == |responses| {
        stop := OutOfResponses;
        return;
      }
      var answer := responses[i];
      assert responses[i..][0] == answer && responses[i..][1..] == responses[i + 1..];
      requests := requests + [endpoint];
      i := i + 1;
      match answer
      case TransportFailure =>
        stop := RequestFailed;
        return;
      case DecodeFailure =>
        stop := DecodeFailed;
        return;
      case Decoded(page) =>
        current := page;
        followers := followers + page.collection;
    }
    stop := NoNextHref;
  }

  /** What a run of the loop from a state in which it goes on consumes and gathers: `n`
      answers, one request each, keeping the requests made before; the gathered items
      grow by the items of those answers, in order. */
  lemma {:induction false} WalkGathers(cfg: Config, user: User, current: Page, endpoint: string,
                                       followers: seq<Follower>, requests: seq<string>, rs: seq<Response<Page>>)
    requires PageStop(current) == None
    ensures var o := Walk(cfg, user, current, endpoint, followers, requests, rs);
            var n := |o.requests| - |requests|;
            && 0 <= n <= |rs|
            && o.requests[..|requests|] == requests
            && o.followers == followers + Items(rs[..n])
    decreases |rs|
  {
    var o := Walk(cfg, user, current, endpoint, followers, requests, rs);
    var e := NextEndpoint(cfg, user, endpoint, current);
    if |rs| == 0 {
      assert rs[..0] == [];
    } else {
      assert rs[..1] == [rs[0]] && [rs[0]][1..] == [];
      assert (requests + [e])[..|requests|] == requests;
      match rs[0]
      case TransportFailure =>
      case DecodeFailure =>
      case Decoded(page) =>
        if PageStop(page) != None {
          assert Items(rs[..1]) == page.collection;
        } else {
          var fs, rq := followers + page.collection, requests + [e];
          WalkGathers(cfg, user, page, e, fs, rq, rs[1..]);
          var n := |o.requests| - |requests|;
          assert o.requests[..|requests|] == o.requests[..|rq|][..|requests|];
          assert rs[..n][0] == rs[0] && rs[..n][1..] == rs[1..][..n - 1];
        }
    }
  }

  /** Every answer but the last one a run of the loop consumes let the loop go on. */
  lemma {:induction false} WalkContinues(cfg: Config, user: User, current: Page, endpoint: string,
                                         followers: seq<Follower>, requests: seq<string>, rs: seq<Response<Page>>)
    requires PageStop(current) == None
    ensures var o := Walk(cfg, user, current, endpoint, followers, requests, rs);
            var n := |o.requests| - |requests|;
            && 0 <= n <= |rs|
            && forall j :: 0 <= j < n - 1 ==> ContinuesAfter(rs, j)
    decreases |rs|
  {
    var o := Walk(cfg, user, current, endpoint, followers, requests, rs);
    var e := NextEndpoint(cfg, user, endpoint, current);
    WalkGathers(cfg, user, current, endpoint, followers, requests, rs);
    if |rs| > 0 && rs[0].Decoded? && PageStop(rs[0].body) == None {
      var page := rs[0].body;
      WalkContinues(cfg, user, page, e, followers + page.collection, requests + [e], rs[1..]);
      var n := |o.requests| - |requests|;
      forall j | 0 < j < n - 1
        ensures ContinuesAfter(rs, j)
      {
        assert rs[1..][j - 1] == rs[j];
        assert ContinuesAfter(rs[1..], j - 1);
      }
    } else if |rs| > 0 {
      assert |o.requests| == |requests| + 1;
    }
  }

  /** Why a run of the loop from a state in which it goes on ends: on the last answer it
      consumes, for the reason `StopAfter` gives, or because the answers ran out after one
      that let it go on. */
  lemma {:induction false} WalkEnds(cfg: Config, user: User, current: Page, endpoint: string,
                                    followers: seq<Follower>, requests: seq<string>, rs: seq<Response<Page>>)
    requires PageStop(current) == None
    ensures var o := Walk(cfg, user, current, endpoint, followers, requests, rs);
            var n := |o.requests| - |requests|;
            && 0 <= n <= |rs|
            && (o.stop == OutOfResponses ==> n == |rs| && (n == 0 || ContinuesAfter(rs, n - 1)))
            && (o.stop != OutOfResponses ==> n > 0 && StopAfter(rs[n - 1]) == Some(o.stop))
    decreases |rs|
  {
    var o := Walk(cfg, user, current, endpoint, followers, requests, rs);
    var e := NextEndpoint(cfg, user, endpoint, current);
    if |rs| > 0 && rs[0].Decoded? && PageStop(rs[0].body) == None {
      var page := rs[0].body;
      var rest := Walk(cfg, user, page, e, followers + page.collection, requests + [e], rs[1..]);
      assert o == rest;
      WalkEnds(cfg, user, page, e, followers + page.collection, requests + [e], rs[1..]);
      var n := |o.requests| - |requests|;
      assert n == |rest.requests| - |requests + [e]| + 1;
      if n > 1 {
        assert rs[1..][n - 2] == rs[n - 1];
      } else {
        assert ContinuesAfter(rs, 0);
      }
    } else if |rs| == 0 {
      assert o == Outcome(followers, requests, OutOfResponses);
    } else {
      assert |o.requests| == |requests| + 1 && StopAfter(rs[0]) == Some(o.stop);
    }
  }

  /** The URLs a run of the loop from a state in which it goes on requests: first the
      one `NextEndpoint` derives from the current page, then after each answer that lets
      the loop go on, the one derived from the page that answer carried. */
  lemma {:induction false} WalkRequests(cfg: Config, user: User, current: Page, endpoint: string,
                                        followers: seq<Follower>, requests: seq<string>, rs: seq<Response<Page>>)
    requires PageStop(current) == None
    ensures var o := Walk(cfg, user, current, endpoint, followers, requests, rs);
            && |requests| <= |o.requests| <= |requests| + |rs|
            && var made := o.requests[|requests|..];
               && (|made| > 0 ==> made[0] == NextEndpoint(cfg, user, endpoint, current))
               && (forall j :: 0 <= j < |made| - 1 && ContinuesAfter(rs, j) ==>
                     made[j + 1] == NextEndpoint(cfg, user, made[j], rs[j].body))
    decreases |rs|
  {
    var o := Walk(cfg, user, current, endpoint, followers, requests, rs);
    var e := NextEndpoint(cfg, user, endpoint, current);
    WalkGathers(cfg, user, current, endpoint, followers, requests, rs);
    var made := o.requests[|requests|..];
    if |rs| > 0 {
      var rq := requests + [e];
      if rs[0].Decoded? {
        var page := rs[0].body;
        var rest := Walk(cfg, user, page, e, followers + page.collection, rq, rs[1..]);
        assert o == rest;
        if PageStop(page) == None {
          WalkRequests(cfg, user, page, e, followers + page.collection, rq, rs[1..]);
          WalkGathers(cfg, user, page, e, followers + page.collection, rq, rs[1..]);
          assert made[0] == o.requests[..|rq|][|requests|] == e;
          assert made[1..] == o.requests[|rq|..];
          forall j | 0 < j < |made| - 1 && ContinuesAfter(rs, j)
            ensures made[j + 1] == NextEndpoint(cfg, user, made[j], rs[j].body)
          {
            assert rs[1..][j - 1] == rs[j];
            assert ContinuesAfter(rs[1..], j - 1);
            assert made[1..][j - 1] == made[j] && made[1..][j] == made[j + 1];
          }
        } else {
          assert o.requests == rq;
        }
      } else {
        assert o.requests == rq;
      }
    }
  }

  /** The fetch consumes one answer per request and returns the items of every decoded
      page it consumed, page after page, each page's items in order: nothing is reordered
      or dropped. */
  lemma FetchGathersInOrder(cfg: Config, user: User, responses: seq<Response<Page>>)
    ensures var o := FetchFollowers(cfg, user, responses);
            |o.requests| <= |responses| && o.followers == Items(responses[..|o.requests|])
  {
    WalkGathers(cfg, user, Start, FirstFollowersEndpoint(cfg, user), [], [], responses);
  }

  /** The fetch ends exactly on the first answer after which the loop cannot go on: a
      failed request, a failed decode, a page whose cursor is missing or empty, or a cursor
      the offset cannot be read from; or when the answers run out. */
  lemma FetchStops(cfg: Config, user: User, responses: seq<Response<Page>>)
    ensures var o := FetchFollowers(cfg, user, responses);
            var n := |o.requests|;
            && n <= |responses|
            && (forall j :: 0 <= j < n - 1 ==> ContinuesAfter(responses, j))
            && (o.stop == OutOfResponses <==> n == |responses| && (n == 0 || ContinuesAfter(responses, n - 1)))
            && (o.stop != OutOfResponses ==> n > 0 && StopAfter(responses[n - 1]) == Some(o.stop))
            && (o.stop == NoNextHref <==>
                  n > 0 && responses[n - 1].Decoded? && !HaveNextHref(responses[n - 1].body))
  {
    WalkContinues(cfg, user, Start, FirstFollowersEndpoint(cfg, user), [], [], responses);
    WalkEnds(cfg, user, Start, FirstFollowersEndpoint(cfg, user), [], [], responses);
  }

  /** Dropping a last answer that carries no items leaves the items unchanged. */
  lemma ItemsDropEmpty(rs: seq<Response<Page>>, n: int)
    requires 0 < n <= |rs| && PageItems(rs[n - 1]) == []
    ensures Items(rs[..n]) == Items(rs[..n - 1])
  {
    assert rs[..n] == rs[..n - 1] + [rs[n - 1]];
    ItemsAppend(rs[..n - 1], [rs[n - 1]]);
    assert Items([rs[n - 1]]) == [] + Items([rs[n - 1]][1..]);
    assert Items(rs[..n - 1]) + [] == Items(rs[..n - 1]);
  }

  /** A failed request or decode ends the fetch without an error: the followers gathered
      from the pages before it are returned. */
  lemma FailureKeepsGathered(cfg: Config, user: User, responses: seq<Response<Page>>)
    ensures var o := FetchFollowers(cfg, user, responses);
            var n := |o.requests|;
            (o.stop == RequestFailed || o.stop == DecodeFailed) ==>
              && 0 < n <= |responses|
              && responses[n - 1] == (if o.stop == RequestFailed then TransportFailure else DecodeFailure)
              && o.followers == Items(responses[..n - 1])
  {
    var o := FetchFollowers(cfg, user, responses);
    FetchGathersInOrder(cfg, user, responses);
    FetchStops(cfg, user, responses);
    if o.stop == RequestFailed || o.stop == DecodeFailed {
      ItemsDropEmpty(responses, |o.requests|);
    }
  }

  /** The first request asks for the first page with the page size only; each later one
      repeats the previous URL when the page before it still carries the sentinel, and
      otherwise is the first URL with the offset read from that page's cursor appended. */
  lemma FetchRequests(cfg: Config, user: User, responses: seq<Response<Page>>)
    ensures var o := FetchFollowers(cfg, user, responses);
            && |o.requests| <= |responses|
            && (|o.requests| > 0 ==> o.requests[0] == FirstFollowersEndpoint(cfg, user))
            && (forall j :: 0 <= j < |o.requests| - 1 ==>
                  && responses[j].Decoded?
                  && PageStop(responses[j].body) == None
                  && o.requests[j + 1]
                       == if IsFirst(responses[j].body) then o.requests[j]
                          else FirstFollowersEndpoint(cfg, user) + "&offset=" + GetNextHrefOffset(responses[j].body))
  {
    var o := FetchFollowers(cfg, user, responses);
    WalkRequests(cfg, user, Start, FirstFollowersEndpoint(cfg, user), [], [], responses);
    assert o.requests[0..] == o.requests;
    WalkContinues(cfg, user, Start, FirstFollowersEndpoint(cfg, user), [], [], responses);
    forall j | 0 <= j < |o.requests| - 1
      ensures && responses[j].Decoded?
              && PageStop(responses[j].body) == None
              && o.requests[j + 1] == NextEndpoint(cfg, user, o.requests[j], responses[j].body)
    {
      assert ContinuesAfter(responses, j);
    }
    forall j | 0 <= j < |o.requests| - 1 && !IsFirst(responses[j].body)
      ensures o.requests[j + 1] == FirstFollowersEndpoint(cfg, user) + "&offset=" + GetNextHrefOffset(responses[j].body)
    {
      LaterRequestAddsOffset(cfg, user, GetNextHrefOffset(responses[j].body));
    }
  }

  /** The resource path of the followers endpoint: `/users/<id>/followers`. */
  lemma FollowersPath(user: User)
    ensures RenderResources(FollowersResources(user)) == "/users/" + IntToString(user.id) + "/followers"
  {
    var rs := FollowersResources(user);
    var id := IntToString(user.id);
    assert RenderResources(rs) == RenderResource("users", id) + RenderResources(rs[1..]);
    assert RenderResources(rs[1..]) == RenderResource("followers", "") + RenderResources(rs[1..][1..]);
    assert rs[1..][1..] == [];
    assert RenderResource("users", id) == "/users/" + id by {
      assert "/" + "users" + "/" == "/users/";
    }
    assert RenderResource("followers", "") + "" == "/followers";
  }

  /** The first request carries the page size as its only extra argument. */
  lemma FirstRequestShape(cfg: Config, user: User)
    ensures FirstFollowersEndpoint(cfg, user)
         == SC_API_BASE + RenderResources(FollowersResources(user)) + "?client_id=" + cfg.client_token
            + "&limit=" + PageLimit
  {
    var rs := FollowersResources(user);
    var head := SC_API_BASE + RenderResources(rs) + "?client_id=" + cfg.client_token;
    var args := [("limit", PageLimit)];
    assert args[1..] == [];
    assert RenderArgs(args) == "&limit=" + PageLimit + "" by {
      assert "&" + "limit" + "=" == "&limit=";
    }
    assert FirstFollowersEndpoint(cfg, user) == head + RenderArgs(args);
  }

  /** Every later request is the first request with `&offset=<offset>` appended. */
  lemma LaterRequestAddsOffset(cfg: Config, user: User, offset: string)
    ensures OffsetFollowersEndpoint(cfg, user, offset) == FirstFollowersEndpoint(cfg, user) + "&offset=" + offset
  {
    AppendArgument(cfg.client_token, FollowersResources(user), [("limit", PageLimit)], "offset", offset);
    assert [("limit", PageLimit)] + [("offset", offset)] == [("limit", PageLimit), ("offset", offset)];
  }
}
