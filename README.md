# auralion core, modelled in Dafny

auralion downloads the profile pictures of the followers of one SoundCloud account. It
looks the account up through SoundCloud's v2 API and pages through its followers 200 at a
time, following the `next_href` cursor of each page. It then cuts the follower list into
chunks of `len / threads` followers and gives the first `threads` chunks to one worker
thread each. Each worker downloads every avatar in its chunk that is not SoundCloud's
default picture.

This project models that core and proves properties of the model:

- `ScDefs` (`src/sc_defs.rs`): the page cursor and its three queries (`have_next_href`,
  `is_first`, `get_next_href_offset`), the default-avatar test, and the user test on a
  search result.
- `RustStr`: the parts of Rust's `str` that the core relies on. These are
  `split(..).collect()`, `contains`, and the decimal rendering of an integer id.
- `Endpoint`: `App::build_endpoint`, which turns resources and arguments into a URL.
- `Users`: `App::get_user`, plus `App::get_user_by_name` with its filter-then-first choice.
- `Pagination`: the paging loop of `App::get_folower_for_user`.
  - The method `GetFollowersForUser` keeps the loop of the source.
  - It is proved equal to the function `FetchFollowers`, and the properties are proved
    about that function.
- `Dispatch`: the partition of the followers in `main` and the worker loop.
  - Each worker is a method proved against a function describing its log.
  - The partition is modelled as written, and a corrected one is proved beside it (see
    "## Findings").

### The network as an oracle

The network is not modelled; each part receives the answers it would get as a parameter:

- Looking a user up: a function from the requested URL to `TransportFailure`,
  `DecodeFailure` or `Decoded(value)`.
- Paging: one answer per request, in order (`responses`). When they run out, the walk
  stops with `OutOfResponses`. This bounds a loop the source does not bound.
- Downloading an avatar: a function from the follower to `Ok(filename)` or `Err(message)`.

### Rust panics

Rust panics are explicit:

- `get_next_href_offset` indexes piece 1 of two splits. It is modelled with the
  precondition `OffsetReadable`.
- The paging loop checks that precondition and stops with `OffsetPanic` where the program
  would panic.
- `len / threads` with zero threads is `Err(DivideByZero)`.
- `chunks(0)` is `Err(ZeroChunkSize)`.

### How the code reads the cursor, and other choices

The model follows the code:

- The offset cursor:
  - The code returns the value of the first query field of the cursor, whatever its key.
    `ScDefs.OffsetIgnoresKeyName` shows this on `...?limit=200&offset=400`, which yields
    `200`.
  - On a cursor without a `?`, or whose first query field has no `=`, the code panics.
- `main` looks the account up by the id from the configuration (`get_user`), not by name.
  `get_user_by_name` is modelled on its own.
- The partition:
  - The code cuts chunks of `len / T` and hands out only the first T chunks.
  - The followers past `T·(len / T)` are never handed to a worker (see "## Findings").

## Model

| member | source | states |
|---|---|---|
| RustStr.Split | src/sc_defs.rs:93-97 | `split` always yields at least one piece |
| RustStr.SplitJoin | src/sc_defs.rs:93-97 | joining the pieces of a split with the separator gives back the string, and no piece contains the separator |
| RustStr.SplitCount | src/sc_defs.rs:93-97 | a split has one piece more than the separator has occurrences |
| RustStr.SplitPieces | src/sc_defs.rs:93-97 | there is a piece 1 exactly when the separator occurs; piece 0 is the text before the first separator and piece 1 the text between the first and second |
| RustStr.SplitPiecesWithin | src/sc_defs.rs:93-97 | every character of every piece comes from the split string |
| RustStr.SplitHead | src/sc_defs.rs:93-97 | a separator-free prefix is glued onto the first piece of the rest |
| RustStr.SplitNoSep | src/sc_defs.rs:93-97 | a string without the separator splits into itself alone |
| RustStr.SplitAtFirst | src/sc_defs.rs:93-97 | a string `a` + separator + `b`, with no separator in `a`, splits into `a` followed by the pieces of `b` |
| RustStr.SplitHeadIsPrefix | src/sc_defs.rs:93-97 | piece 0 is a prefix of the string |
| RustStr.Upto | src/sc_defs.rs:93-97 | the text before the first separator contains no separator |
| RustStr.UptoWithin | src/sc_defs.rs:93-97 | the text before the separator is made of characters of the string |
| RustStr.AfterWithin | src/sc_defs.rs:93-97 | the text after the separator is made of characters of the string |
| RustStr.ScanPast | src/sc_defs.rs:93-97 | a separator-free prefix is kept before the first separator and skipped after it |
| RustStr.ScanAt | src/sc_defs.rs:93-97 | on `a` + separator + `b`, with no separator in `a`, the text before the first separator is `a` and the text after it is `b` |
| RustStr.Contains | src/sc_defs.rs:21 | `contains` holds exactly when the pattern occurs at some index |
| RustStr.NatToString | src/main.rs:121 | a natural number renders as decimal digits whose value is that number |
| RustStr.IntToString | src/main.rs:121 | an id renders as at least one digit, with a leading `-` exactly for negative ids, and the rendering denotes the id |
| RustStr.IntToStringInjective | src/main.rs:121 | two ids with the same rendering are equal, so `/users/<id>` names one account |
| ScDefs.HaveDefaultAvatar | src/sc_defs.rs:20-22 | a follower has the default avatar exactly when its avatar URL contains `default_avatar` |
| ScDefs.HaveNextHref | src/sc_defs.rs:77-82 | a page has a next cursor exactly when `next_href` is present and non-empty |
| ScDefs.IsFirst | src/sc_defs.rs:84-89 | a page is the starting marker exactly when `next_href` is `"st"`, and such a page has a next cursor |
| ScDefs.QueryField | src/sc_defs.rs:93-95 | the definition of the first query field that the offset lemmas are about: the text after the first `?`, up to the next `?` and then up to the first `&` |
| ScDefs.OffsetReadable | src/sc_defs.rs:93-97 | the definition the offset lemmas are about: there is no cursor, or it has a `?` and its first query field has a `=`, so both `[1]` indexings stay in bounds |
| ScDefs.OffsetReadableInBounds | src/sc_defs.rs:93-97 | when the cursor is readable, the two `[1]` indexings and the `[0]` indexing are within bounds |
| ScDefs.GetNextHrefOffset | src/sc_defs.rs:91-101 | no cursor gives `"no more"`; otherwise the value of the first query field, which holds no `?`, `&` or `=` |
| ScDefs.QueryFieldOf | src/sc_defs.rs:93-95 | for a URL `prefix?field` + tail, where the prefix has no `?`, the field has no `?` or `&`, and the tail is empty or starts with `&`, the first query field is `field` |
| ScDefs.ValueOfField | src/sc_defs.rs:96-97 | when neither the key nor the value holds a `=`, the value read from the field `key=value` is `value` |
| ScDefs.OffsetOfCursor | src/sc_defs.rs:91-101 | on a cursor `path?key=value` + tail, where the path has no `?`, the key and the value hold no `?`, `&` or `=`, and the tail is empty or starts with `&`, the cursor is readable and the offset read back is `value`, whatever the key |
| ScDefs.OffsetIgnoresKeyName | src/sc_defs.rs:93-95 | on a cursor `prefix?limit=200&offset=X` whose prefix has no `?`, the offset read back is `200`, not `X` |
| Endpoint.RenderResource | src/main.rs:34-39 | the definition of one rendered resource that `RenderOneResource` is about: `/k` for an empty value, `/k/v` otherwise |
| Endpoint.RenderArg | src/main.rs:48-50 | the definition of one rendered argument: `&k=v` |
| Endpoint.RenderResources | src/main.rs:32-41 | the definition the resource lemmas are about: each resource rendered in turn and joined with nothing between |
| Endpoint.RenderArgs | src/main.rs:46-52 | the definition the argument lemmas are about: each argument rendered as `&k=v` and joined with nothing between |
| Endpoint.BuildEndpoint | src/main.rs:24-56 | the definition the endpoint lemmas are about: API base, resources, `?client_id=<token>`, then the arguments |
| Endpoint.RenderOneResource | src/main.rs:34-39 | a resource with an empty value renders as `/k`, otherwise as `/k/v` |
| Endpoint.RenderResourcesAppend | src/main.rs:32-41 | rendering the resources distributes over concatenation |
| Endpoint.RenderArgsAppend | src/main.rs:46-52 | rendering the arguments distributes over concatenation |
| Endpoint.BareEndpoint | src/main.rs:29-44 | with no resources and no arguments the endpoint is the API base followed by `?client_id=<token>` |
| Endpoint.AppendArgument | src/main.rs:46-53 | adding one argument appends exactly `&k=v` to the endpoint |
| Endpoint.ResourcesWithoutQuestion | src/main.rs:32-42 | resources free of `?` render to a path free of `?` |
| Endpoint.PathWithoutQuestion | src/main.rs:29-42 | when no resource key or value holds a `?`, the base URL followed by the rendered resources contains no `?` |
| Endpoint.QueryLayout | src/main.rs:24-56 | when no resource holds a `?`, the first `?` of an endpoint separates exactly the base and resources from `client_id=<token>` followed by the arguments |
| Endpoint.EndpointCursorYieldsToken | src/main.rs:24-56 | when the token holds no `?`, `&` or `=` and no resource holds a `?`, an endpoint read back as a page cursor is readable and yields the client token as its offset |
| Users.UserEndpoint | src/main.rs:97 | the definition of the user URL: `build_endpoint` with the resource `users/<id>` and no arguments |
| Users.SearchEndpoint | src/main.rs:59-62 | the definition of the search URL: `build_endpoint` with the resource `search` and the argument `q=<name>` |
| Users.GetUser | src/main.rs:96-116 | `Ok` exactly when the answer to `/users/<id>` decoded, with that user; a transport failure gives "failed to request data" and a decode failure "failed to parse user" |
| Users.Matches | src/main.rs:84-86 | the definition of the filter test that the selection lemmas are about: the entry is a user and its permalink is the searched name |
| Users.MatchingResults | src/main.rs:81-87 | the filter keeps exactly the entries that are users with the searched permalink, and its head is the first such entry |
| Users.SelectUser | src/main.rs:81-93 | an error with the "could not found any user" message exactly when no entry matches; otherwise the id of the first matching entry |
| Users.GetUserByName | src/main.rs:58-94 | request and parse failures of the search give their messages, no match gives the not-found error, and a match gives exactly `get_user`'s result on the rendered id of the first matching entry |
| Pagination.FirstFollowersEndpoint | src/main.rs:119-125 | the definition of the first URL that `FirstRequestShape` is about: the followers resource with the argument `limit=200` |
| Pagination.OffsetFollowersEndpoint | src/main.rs:136-145 | the definition of a later URL that `LaterRequestAddsOffset` is about: the followers resource with `limit=200` and then `offset=<offset>` |
| Pagination.PageStop | src/main.rs:132-146 | the definition of when the loop ends at a page: no usable cursor, or a cursor that is not the start marker and cannot be read (the source panics there) |
| Pagination.StopAfter | src/main.rs:149-165 | the definition of the stop decision that `WalkEnds` and `FetchStops` are about: a request failure or a decode failure ends the loop, a decoded page ends it as `PageStop` says |
| Pagination.NextEndpoint | src/main.rs:135-146 | the definition of the next URL: the previous URL after the start marker, otherwise the offset URL |
| Pagination.Walk | src/main.rs:132-168 | the definition of the loop from a given state that the walk lemmas are about: one request per round, items appended, ending on a failure, a stopping page or the end of the answers |
| Pagination.FetchFollowers | src/main.rs:118-171 | the definition of the whole fetch that the fetch lemmas are about: the loop from the start marker and the first URL |
| Pagination.GetFollowersForUser | src/main.rs:118-171 | the loop's followers, requests sent and reason to stop are those of `FetchFollowers` on the same answers |
| Pagination.Items | src/main.rs:167 | the definition of the followers a run of answers contributes that the gathering lemmas are about: each decoded page's collection, page after page |
| Pagination.ItemsAppend | src/main.rs:167 | the followers of consecutive pages concatenate |
| Pagination.WalkGathers | src/main.rs:132-168 | a walk adds to what was gathered exactly the followers of the pages it consumed, in order, and only appends requests |
| Pagination.WalkContinues | src/main.rs:132-168 | every answer before the last one consumed let the loop go on |
| Pagination.WalkEnds | src/main.rs:132-168 | a walk ends on the answer that stopped it, or only once the answers run out |
| Pagination.WalkRequests | src/main.rs:132-146 | each request a walk sends follows from the previous request and the page before it |
| Pagination.FetchGathersInOrder | src/main.rs:126-170 | the followers returned are the followers of the answered pages, concatenated in request order, one answer per request |
| Pagination.FetchStops | src/main.rs:132-165 | the loop stops on the first answer that is a failure, a page without a cursor, or an unreadable cursor; it stops for want of a cursor exactly when the last page had none |
| Pagination.FailureKeepsGathered | src/main.rs:149-165 | after a request or decode failure, the followers gathered so far are still returned |
| Pagination.FetchRequests | src/main.rs:119-146 | the first request is the `limit=200` endpoint; each later one repeats it after a starting-marker page or adds `&offset=<offset>` to it |
| Pagination.FollowersPath | src/main.rs:119-123 | the followers resource renders as `/users/<id>/followers` |
| Pagination.FirstRequestShape | src/main.rs:119-125 | the first request is the API base + `/users/<id>/followers?client_id=<token>&limit=200` |
| Pagination.LaterRequestAddsOffset | src/main.rs:136-145 | a later request is the first request followed by `&offset=<offset>` |
| Dispatch.Chunks | src/main.rs:239 | the definition of `chunks(k)` that the chunk lemmas are about: consecutive pieces of k, the last one possibly shorter |
| Dispatch.ChunksCover | src/main.rs:238-241 | `chunks(k)` concatenates back to the list, is empty only for an empty list, and has every chunk of length k except a last one of 1 to k |
| Dispatch.ChunksTake | src/main.rs:238-241 | when `m·k` does not exceed the length, there are at least m chunks, the first m have length k and cover the first m·k followers, there are exactly m chunks iff nothing is left, and a rest of at most k forms chunk m |
| Dispatch.Tasks | src/main.rs:238-241 | zero threads divide by zero, fewer followers than threads give a zero chunk size, and otherwise there are at least as many tasks as threads |
| Dispatch.TasksAssignPrefix | src/main.rs:238-247 | the tasks given to the workers have length `len / threads` and cover exactly the first `threads·(len / threads)` followers; `len % threads` are left over, and the tasks number exactly `threads` only when the division is exact |
| Dispatch.TasksDropTenthFollower | src/main.rs:238-247 | with 10 followers and 3 threads there are 4 tasks, the workers get the first 9 followers, and the 10th is in the fourth task, which no worker takes |
| Dispatch.BalancedTasks | src/main.rs:238-247 | the corrected partition, defined as full chunks of `len / threads` followed by one last slice with the rest, with the same panics as the source |
| Dispatch.BalancedTasksCover | src/main.rs:238-247 | the corrected partition gives exactly `threads` tasks, covering all followers in order, the last taking the remainder |
| Dispatch.BalancedTenOverThree | src/main.rs:238-247 | the corrected partition of 10 followers over 3 threads has sizes 3, 3 and 4 |
| Dispatch.NonDefault | src/main.rs:250-253 | the definition the skip lemmas are about: the followers of a chunk whose avatar is not the default, in order |
| Dispatch.NonDefaultMembers | src/main.rs:250-253 | a worker attempts exactly the followers of its task without the default avatar |
| Dispatch.NonDefaultAppend | src/main.rs:250-253 | skipping default avatars distributes over concatenation |
| Dispatch.Reports | src/main.rs:250-268 | the definition the log lemmas are about: one line per follower tried, in order |
| Dispatch.ReportOf | src/main.rs:255-267 | the definition of one log line that `ReportsShape` is about: `Downloaded` with the file name on success, `DownloadFailed` with the error otherwise |
| Dispatch.ReportsShape | src/main.rs:255-267 | one log line per attempted follower, naming the task and the follower, a download line with the file name exactly when the download succeeded, otherwise its error |
| Dispatch.Worker | src/main.rs:249-270 | the loop's log is the reports of the non-default followers of its task, in order |
| Dispatch.DispatchWorkers | src/main.rs:245-273 | worker t runs on task t, for t below the thread count, and the logs name exactly the followers the workers attempt |
| Dispatch.ReportsName | src/main.rs:255-267 | a worker's log names the followers it tried, in order |
| Dispatch.NamesAppend | src/main.rs:250-267 | the usernames of a concatenation are the usernames of its parts, in order |
| Dispatch.AllLogs | src/main.rs:246-271 | the definition of the logs of workers `0 .. n - 1` that `AllLogsShape` is about: worker t runs on task t |
| Dispatch.Attempted | src/main.rs:246-253 | the definition of the followers workers `0 .. n - 1` try that `AttemptedIsNonDefault` is about: the non-default followers of each task, task after task |
| Dispatch.LogsNameAttempted | src/main.rs:245-273 | the logs of the first n workers name, in order, exactly the followers `Attempted` says they try |
| Dispatch.AllLogsShape | src/main.rs:245-273 | there is one log per worker, and log t is that worker's log on task t |
| Dispatch.AttemptedIsNonDefault | src/main.rs:245-273 | the workers together attempt the non-default followers of the tasks they were given, in order |
| Dispatch.MainTriesPrefixOnly | src/main.rs:238-273 | as written, the followers attempted are the non-default ones among the first `threads·(len / threads)` followers only |
| Dispatch.BalancedTriesAll | src/main.rs:238-273 | with the corrected partition every worker has a task and every non-default follower is attempted |

## Left out

- Loading the configuration (`src/config.rs`), the `--debug` flag, logging, and creating the output folder. These are I/O. The configuration is a plain value (`Settings.Config`).
- HTTP requests and JSON decoding (reqwest and serde): they are oracles, as described above. The `rsp.text().unwrap()` panic on an unreadable body is not modelled: every answer is a transport failure, a decode failure or a decoded value.
- `Follower::download_avatar`: file creation, the random seven-letter file name, and copying the body are I/O and randomness. The download is a function of the follower returning `Ok(filename)` or `Err(message)`.
- Threads: spawning, running concurrently and `join` are not modelled. The workers' logs are kept per worker, so how their lines interleave is not captured.
- `main`'s sequencing and exit: `get_user` on the configured id, then the follower fetch, then dispatch, and `exit(1)` when the user lookup fails. Each step is modelled on its own.
- Pagination.GetFollowersForUser: the source loop can run forever against a server that never stops sending cursors. The model consumes a finite list of answers and stops with `OutOfResponses` when it runs out.
- Pagination.GetFollowersForUser: only the pages of a `Follower` collection are modelled. The walk keeps the requests it sent as an extra output, which the source does not return.
- ScDefs.IsAnUser: it has no contract of its own. It is used through `Users.Matches`.
- RustStr.IntToString: ids are unbounded integers, not `i32`. This makes no difference, since ids are only rendered.
- Dispatch.DispatchWorkers: it takes the partition as an input and requires at least `threads` tasks. `Dispatch.Tasks` proves that the partition as written meets this. Indexing `tasks[tsk]` past the end is therefore not modelled as a panic.

## Findings

| source | as written | input that shows it | evidently intended | confidence | as-written member | corrected member |
|---|---|---|---|---|---|---|
| src/main.rs:238-247 | the followers are cut into chunks of `len / threads`, and only the first `threads` chunks are handed to workers, so the last `len % threads` followers are never processed | 10 followers and 3 threads: chunks of 3, 3, 3 and 1; the 10th follower is in the fourth chunk, which no worker takes | `threads` slices covering every follower, the last one taking the remainder (3, 3 and 4); `Dispatch.BalancedTasksCover` and `Dispatch.BalancedTriesAll` prove this of the corrected partition | not executed | Dispatch.TasksDropTenthFollower | Dispatch.BalancedTasks |
