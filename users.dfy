/** Looking an account up, by id or by its permalink through a search. The HTTP request
    and the JSON decoding are an oracle: a function from the requested URL to what came
    back. */
module Users {
  import opened Wrappers
  import opened RustStr
  import opened ScDefs
  import opened Settings
  import opened Endpoint

  /** What one HTTP request followed by a JSON decode produced. */
  datatype Response<T> = TransportFailure | DecodeFailure | Decoded(body: T)

  function UserEndpoint(cfg: Config, fromId: string): string
  {
    BuildEndpoint(cfg.client_token, [("users", fromId)], [])
  }

  function SearchEndpoint(cfg: Config, name: string): string
  {
    BuildEndpoint(cfg.client_token, [("search", "")], [("q", name)])
  }

  /** `App::get_user`: the user decoded from the answer to `/users/<id>`, or the error
      that names the step that failed. */
  function GetUser(cfg: Config, fromId: string, fetch: string -> Response<User>): (r: Result<User, string>)
    ensures r.Ok? <==> fetch(UserEndpoint(cfg, fromId)).Decoded?
    ensures r.Ok? ==> r.value == fetch(UserEndpoint(cfg, fromId)).body
    ensures fetch(UserEndpoint(cfg, fromId)).TransportFailure? ==> r == Err("failed to request data")
    ensures fetch(UserEndpoint(cfg, fromId)).DecodeFailure? ==> r == Err("failed to parse user")
  {
    match fetch(UserEndpoint(cfg, fromId))
    case TransportFailure => Err("failed to request data")
    case DecodeFailure => Err("failed to parse user")
    case Decoded(u) => Ok(u)
  }

  /** A search entry names the wanted account: it is a user and its permalink is `name`. */
  predicate Matches(s: SearchResult, name: string)
  {
    IsAnUser(s) && s.permalink == name
  }

  /** The search entries that name the account, in their original order. */
  function MatchingResults(rs: seq<SearchResult>, name: string): (m: seq<SearchResult>)
    ensures forall x :: x in m <==> x in rs && Matches(x, name)
    ensures |m| > 0 ==> exists i :: 0 <= i < |rs| && rs[i] == m[0] && forall j :: 0 <= j < i ==> !Matches(rs[j], name)
    decreases |rs|
  {
    if |rs| == 0 then []
    else
      var rest := MatchingResults(rs[1..], name);
      if Matches(rs[0], name) then
        assert forall x :: x in rs <==> x == rs[0] || x in rs[1..];
        [rs[0]] + rest
      else
        assert forall x :: x in rs <==> x == rs[0] || x in rs[1..];
        if |rest| > 0 then
          var i :| 0 <= i < |rs[1..]| && rs[1..][i] == rest[0] && forall j :: 0 <= j < i ==> !Matches(rs[1..][j], name);
          assert rs[i + 1] == rest[0];
          assert forall j :: 0 <= j < i + 1 ==> !Matches(rs[j], name) by {
            forall j | 0 <= j < i + 1 ensures !Matches(rs[j], name) {
              if j > 0 { assert rs[j] == rs[1..][j - 1]; }
            }
          }
          rest
        else rest
  }

  /** The filter-then-first step of `get_user_by_name`: an error exactly when no entry
      names the account, otherwise the id of the first entry that does. */
  function SelectUser(rs: seq<SearchResult>, name: string): (r: Result<int, string>)
    ensures r.Err? <==> forall i :: 0 <= i < |rs| ==> !Matches(rs[i], name)
    ensures r.Err? ==> r.error == "could not found any user with name: " + name
    ensures r.Ok? ==> exists i :: 0 <= i < |rs| && Matches(rs[i], name) && rs[i].id == r.value
                                  && forall j :: 0 <= j < i ==> !Matches(rs[j], name)
  {
    var filtered := MatchingResults(rs, name);
    if |filtered| == 0 then
      assert forall i :: 0 <= i < |rs| ==> !Matches(rs[i], name) by {
        forall i | 0 <= i < |rs| ensures !Matches(rs[i], name) {
          assert rs[i] in rs;
        }
      }
      Err("could not found any user with name: " + name)
    else
      assert filtered[0] in filtered;
      Ok(filtered[0].id)
  }

  /** `App::get_user_by_name`: search for `name`, keep the first user entry whose permalink
      is `name`, then fetch that user by id. Every failing step is an error, and a
      selected id is fetched through `get_user`. */
  function GetUserByName(cfg: Config, name: string, search: string -> Response<Collection<SearchResult>>,
                         fetch: string -> Response<User>): (r: Result<User, string>)
    ensures search(SearchEndpoint(cfg, name)).TransportFailure? ==> r == Err("failed to request data")
    ensures search(SearchEndpoint(cfg, name)).DecodeFailure? ==> r == Err("failed to parse search result")
    ensures search(SearchEndpoint(cfg, name)).Decoded? ==>
              var results := search(SearchEndpoint(cfg, name)).body.collection;
              (forall i :: 0 <= i < |results| ==> !Matches(results[i], name)) ==>
                r == Err("could not found any user with name: " + name)
    ensures search(SearchEndpoint(cfg, name)).Decoded? ==>
              var selected := SelectUser(search(SearchEndpoint(cfg, name)).body.collection, name);
              selected.Ok? ==> r == GetUser(cfg, IntToString(selected.value), fetch)
    ensures r.Ok? ==> exists id :: fetch(UserEndpoint(cfg, IntToString(id))) == Decoded(r.value)
                       && SelectUser(search(SearchEndpoint(cfg, name)).body.collection, name) == Ok(id)
  {
    match search(SearchEndpoint(cfg, name))
    case TransportFailure => Err("failed to request data")
    case DecodeFailure => Err("failed to parse search result")
    case Decoded(col) =>
      match SelectUser(col.collection, name)
      case Err(e) => Err(e)
      case Ok(id) => GetUser(cfg, IntToString(id), fetch)
  }
}
