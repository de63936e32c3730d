/** Construction of authenticated API URLs: the API base, the resource path, the client
    token and the extra query arguments, in that order. */
module Endpoint {
  import opened Wrappers
  import opened RustStr
  import opened ScDefs

  const SC_API_BASE: string := "https://api-v2.soundcloud.com"

  /** One path resource: `/k` when its value is empty, `/k/v` otherwise. */
  function RenderResource(k: string, v: string): string
  {
    if |v| == 0 then "/" + k else "/" + k + "/" + v
  }

  /** The resources rendered one after another, with nothing between them. */
  function RenderResources(rs: seq<(string, string)>): string
  {
    if |rs| == 0 then "" else RenderResource(rs[0].0, rs[0].1) + RenderResources(rs[1..])
  }

  function RenderArg(k: string, v: string): string
  {
    "&" + k + "=" + v
  }

  /** The extra query arguments rendered one after another. */
  function RenderArgs(args: seq<(string, string)>): string
  {
    if |args| == 0 then "" else RenderArg(args[0].0, args[0].1) + RenderArgs(args[1..])
  }

  /** `App::build_endpoint` with `token` as the configured client token. */
  function BuildEndpoint(token: string, rs: seq<(string, string)>, args: seq<(string, string)>): string
  {
    SC_API_BASE + RenderResources(rs) + "?client_id=" + token + RenderArgs(args)
  }

  /** Resources render in order: the rendering of a concatenation is the concatenation
      of the renderings. */
  lemma {:induction false} RenderResourcesAppend(a: seq<(string, string)>, b: seq<(string, string)>)
    ensures RenderResources(a + b) == RenderResources(a) + RenderResources(b)
    decreases |a|
  {
    if |a| == 0 {
      assert a + b == b;
    } else {
      assert (a + b)[0] == a[0];
      assert (a + b)[1..] == a[1..] + b;
      RenderResourcesAppend(a[1..], b);
    }
  }

  /** Arguments render in order: the rendering of a concatenation is the concatenation
      of the renderings. */
  lemma {:induction false} RenderArgsAppend(a: seq<(string, string)>, b: seq<(string, string)>)
    ensures RenderArgs(a + b) == RenderArgs(a) + RenderArgs(b)
    decreases |a|
  {
    if |a| == 0 {
      assert a + b == b;
    } else {
      assert (a + b)[0] == a[0];
      assert (a + b)[1..] == a[1..] + b;
      RenderArgsAppend(a[1..], b);
    }
  }

  /** A single resource renders as `/k` or `/k/v`, depending on whether its value is empty. */
  lemma RenderOneResource(k: string, v: string)
    ensures RenderResources([(k, v)]) == if v == "" then "/" + k else "/" + k + "/" + v
  {
    assert [(k, v)][1..] == [];
  }

  /** With no resources and no arguments the URL is the base, the token key and the token. */
  lemma BareEndpoint(token: string)
    ensures BuildEndpoint(token, [], []) == SC_API_BASE + "?client_id=" + token
  {
    assert RenderResources([]) == "" && RenderArgs([]) == "";
  }

  /** Adding an argument at the end of the list appends `&k=v` to the URL and changes
      nothing before it. */
  lemma AppendArgument(token: string, rs: seq<(string, string)>, args: seq<(string, string)>, k: string, v: string)
    ensures BuildEndpoint(token, rs, args + [(k, v)]) == BuildEndpoint(token, rs, args) + "&" + k + "=" + v
  {
    RenderArgsAppend(args, [(k, v)]);
    assert [(k, v)][1..] == [];
    var head := SC_API_BASE + RenderResources(rs) + "?client_id=" + token;
    var arg := "&" + k + "=" + v;
    assert RenderArgs([(k, v)]) == arg + "";
    assert BuildEndpoint(token, rs, args + [(k, v)]) == head + (RenderArgs(args) + arg);
    assert head + (RenderArgs(args) + arg) == (head + RenderArgs(args)) + arg;
  }

  /** No `?` appears in the path part when no resource key or value holds one. */
  lemma {:induction false} ResourcesWithoutQuestion(rs: seq<(string, string)>)
    requires forall i :: 0 <= i < |rs| ==> '?' !in rs[i].0 && '?' !in rs[i].1
    ensures '?' !in RenderResources(rs)
    decreases |rs|
  {
    if |rs| > 0 {
      ResourcesWithoutQuestion(rs[1..]);
    }
  }

  /** The part of a built URL before its query has no `?` when no resource holds one. */
  lemma PathWithoutQuestion(rs: seq<(string, string)>)
    requires forall i :: 0 <= i < |rs| ==> '?' !in rs[i].0 && '?' !in rs[i].1
    ensures '?' !in SC_API_BASE + RenderResources(rs)
  {
    ResourcesWithoutQuestion(rs);
    BaseWithoutQuestion();
  }

  /** The API base has no `?`. */
  lemma BaseWithoutQuestion()
    ensures '?' !in SC_API_BASE
  {
    assert forall i :: 0 <= i < |SC_API_BASE| ==> SC_API_BASE[i] != '?';
  }

  /** A built URL is its path, a `?`, the `client_id` key, a `=`, the token and the
      extra arguments. */
  lemma RegroupQuery(token: string, rs: seq<(string, string)>, args: seq<(string, string)>)
    ensures BuildEndpoint(token, rs, args)
         == (SC_API_BASE + RenderResources(rs)) + "?" + "client_id" + "=" + token + RenderArgs(args)
  {
    var prefix := SC_API_BASE + RenderResources(rs);
    assert "?client_id=" == "?" + "client_id" + "=";
    assert prefix + "?" + "client_id" + "=" == prefix + ("?" + "client_id" + "=");
  }

  /** A built URL is its path, a `?`, and its query. */
  lemma PathThenQuery(token: string, rs: seq<(string, string)>, args: seq<(string, string)>)
    ensures BuildEndpoint(token, rs, args)
         == (SC_API_BASE + RenderResources(rs)) + ['?'] + ("client_id=" + token + RenderArgs(args))
  {
    var path := SC_API_BASE + RenderResources(rs);
    var query := "client_id=" + token + RenderArgs(args);
    assert "?client_id=" == ['?'] + "client_id=";
    assert path + "?client_id=" + token + RenderArgs(args) == path + ['?'] + query;
  }

  /** The first `?` of a built URL ends the path: before it comes the API base and the
      resources, after it the client token field and then the extra arguments. */
  lemma QueryLayout(token: string, rs: seq<(string, string)>, args: seq<(string, string)>)
    requires forall i :: 0 <= i < |rs| ==> '?' !in rs[i].0 && '?' !in rs[i].1
    ensures Upto(BuildEndpoint(token, rs, args), '?') == SC_API_BASE + RenderResources(rs)
    ensures After(BuildEndpoint(token, rs, args), '?') == "client_id=" + token + RenderArgs(args)
  {
    PathWithoutQuestion(rs);
    PathThenQuery(token, rs, args);
    ScanAt(SC_API_BASE + RenderResources(rs), "client_id=" + token + RenderArgs(args), '?');
  }

  /** The extra arguments render to nothing or to text starting with `&`. */
  lemma ArgsLeadWithAmpersand(args: seq<(string, string)>)
    ensures RenderArgs(args) == "" || RenderArgs(args)[0] == '&'
  {
  }

  /** Read as a cursor, a URL this function built yields its client token: the token
      is the first query field, whatever arguments follow. The cursor comes from the
      server, never from this function; the lemma shows what the key-blind offset read
      does on URLs of this shape: a server that echoed the request URL as its cursor would
      make the next request ask for `offset=<token>`, not for the offset it carries. */
  lemma EndpointCursorYieldsToken<T>(items: seq<T>, token: string, rs: seq<(string, string)>, args: seq<(string, string)>)
    requires '?' !in token && '&' !in token && '=' !in token
    requires forall i :: 0 <= i < |rs| ==> '?' !in rs[i].0 && '?' !in rs[i].1
    ensures var c := Collection(items, Some(BuildEndpoint(token, rs, args)));
            OffsetReadable(c) && GetNextHrefOffset(c) == token
  {
    var c := Collection(items, Some(BuildEndpoint(token, rs, args)));
    PathWithoutQuestion(rs);
    RegroupQuery(token, rs, args);
    ArgsLeadWithAmpersand(args);
    OffsetOfCursor(c, SC_API_BASE + RenderResources(rs), "client_id", token, RenderArgs(args));
  }
}
