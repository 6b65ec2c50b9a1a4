# RoutineHttp: a verified model

A model of the hard core of the RoutineHttp library in Dafny, with proofs. It covers four parts that
meet in the server.

- **The router** (`Routing`, `RouteTree`, `RoutingLaws`). `RouteTree.RouteHandler` is the trie of
  `ResourceHandler` nodes in the heap. It is proved to compute exactly what a flat table of accepted
  patterns says, including calls that throw. Everything else about routing is proved of the table.
- **The thread pool** (`Placement`, `ThreadPools`, `PoolRuns`, `PoolLaws`, `PoolOrder`,
  `PoolRefines`).
  `ThreadPools.ThreadPool` is the class, one call at a time. `PoolRuns` is a step system in which a push is an unlocked scan, one
  read at a time, and then a locked enqueue, while workers take, run and finish tasks and `stop` joins
  them one after the other and pushes their leftovers, each with such a scan of its own.
- **The message codec and its framing** (`Text`, `Numerals`, `HeaderFields`, `Requests`, `RequestLaws`,
  `Framing`, `Responses`, and `RequestRouting` where it meets the router). Hash tables are printed in an
  arbitrary order, so every round trip holds for every order, and for every split of the bytes between
  the first and the second read.
- **Keep-alive sessions over the pool** (`Sessions`, `ServerRuns`, `ServerLaws`).
  `Sessions.HttpSession` is the class with its completion handlers. `ServerRuns` composes any number of
  sessions with the pool: network events, timers that may fire late, pool steps and task steps interleave
  in any way.

One `char` stands for one byte. Handlers are opaque numbers. The outside world is a parameter or a
nondeterministic choice: the date, error codes, how many bytes a read delivers, which element of a hash
table comes next, and when a timer handler runs.

## What the proofs found out about the code

Each item names the theorem behind it. Where the code does what one would expect on some inputs only, the
theorem is the exact condition; an input where it does not is named beside it where it helps.

- A target with a query never reaches a static handler, because its path keeps the leading slash that
  static keys do not have (`RequestRouting.StaticRoute`; an input: `RequestRouting.QueryHidesStaticRoute`).
- Path parameters are printed with a slash missing for every earlier segment that equals the last one, and
  then the server sees other segments (`Requests.SubstitutedPath`, `Requests.SubstitutedPathSegments`).
- A request segment that is spelled like the stored parameter matches it without binding it, and a
  repeated parameter name keeps its first value only. Binding and substituting restores a request exactly
  when every parameter met the segment that the first binding of its name met
  (`RoutingLaws.BindThenSubstitute`); without such spellings that is when parameters of one name met one
  segment (`RoutingLaws.RepeatedNames`; an input: `RoutingLaws.DuplicateNameLosesValue`), and with distinct
  names it is when there are no such spellings (`RoutingLaws.DistinctNames`).
- Lookup does not backtrack: it finds a pattern exactly when no literal sibling of a parameter on the way
  is spelled like the segment there (`Routing.FollowSelects`; an input: `RoutingLaws.NoBacktracking`).
- A `content-length` that the caller put into a request wins over the one that is printed for the body,
  so the body arrives exactly when the two agree (`Framing.FramedRoundTrip`). Responses do not have this
  problem (`Responses.ResponseFramed`).
- When the first read takes more than the body along, the unsigned difference wraps around and the second
  read waits for bytes that never come (`Framing.BodyReadExactly`). Behind a request without a body such
  bytes are dropped. So a request arrives and leaves what was sent behind it exactly when the first read
  stopped no later than the request (`Framing.FramedRoundTrip`).
- A response that is prepared twice keeps its first date (`Responses.PreparedTwice`).
- The worker that a push picks may be out of date when the push enqueues, but by no more tasks than
  other pushes enqueued meanwhile (`PoolLaws.StaleScan`).

## Model

| member | source | states |
|---|---|---|
| RouteTree.RouteHandler.AddHandler | include/http/route_handler.hpp:32-75 | The heap trie stays a trie; the call succeeds or throws exactly as the flat table says and then has the table's new contents; a call that throws leaves every node, child list and resource as it was |
| RouteTree.RouteHandler.Route | include/http/route_handler.hpp:77-103 | The handler and the request's path parameters are those of the flat table, whichever parameter child the search meets first; a static handler answers first and stores nothing; the trie does not change |
| RouteTree.RouteHandler.Level | include/http/route_handler.hpp:53-70 | One round of the registration loop stops exactly when an accepted pattern clashes on this level, and then no node has been made yet |
| RouteTree.ConflictOnOldNode | include/http/route_handler.hpp:55-68 | A conflict can be met only at a node that existed before the call |
| RouteTree.OneParam | include/http/route_handler.hpp:55-66 | A node has at most one parameter child, so the order in which the children are searched is immaterial |
| RouteTree.StoredTree | include/http/route_handler.hpp:68-73 | After a successful registration the nodes are exactly the prefixes of the accepted patterns, and the table has gained just this pattern |
| Routing.FollowSelects | include/http/route_handler.hpp:83-102 | Narrowing level by level finds a pattern if and only if it is accepted, has the right length and fits at every position (equal, or a parameter that no literal sibling shadows), and then stores that pattern's bindings |
| RoutingLaws.AcceptedIffCompatible | include/http/route_handler.hpp:53-66 | A sequence of registrations passes without a throw if and only if its dynamic patterns are pairwise without a clash |
| RoutingLaws.Confluence | include/http/route_handler.hpp:42-73 | Compatible registrations that do not compete for a slot are all accepted in every order, with any repetitions, and give the same router |
| RoutingLaws.ReachableCoherent | include/http/route_handler.hpp:55-66 | Whatever is registered, with calls that throw among it, accepted patterns never clash |
| RoutingLaws.LastWins | include/http/route_handler.hpp:42-73 | After any calls, repeated slots and throws included, a slot holds the handler of the last entry that was accepted for it, and nothing if there is none |
| RoutingLaws.EntriesStored | include/http/route_handler.hpp:45-73 | When no slot is competed for and no patterns clash, every entry is in its slot and there are no others |
| RoutingLaws.ClashAtParting | include/http/route_handler.hpp:55-66 | Two patterns that part at some level clash if and only if both have a parameter there |
| RoutingLaws.RouteAfter | include/http/route_handler.hpp:77-103 | The answer after any registrations: the last entry accepted for the static path, binding nothing; else the last one for the selected pattern, with its bindings; else none |
| RoutingLaws.StoredOnTheWay | include/http/route_handler.hpp:86-100 | A lookup stores the bindings of the pattern it followed as far as it got, even when it finds no handler |
| RoutingLaws.RouteTwice | source/net/http_session.cpp:224-224 | Routing the same request again, as the session does before and after the body, gives the same handler and the same parameters |
| RoutingLaws.BindThenSubstitute | include/http/route_handler.hpp:86-100 | For any pattern, substituting what routing bound restores the request's segments if and only if every parameter met the segment that the first binding of its name met |
| RoutingLaws.RepeatedNames | include/http/route_handler.hpp:97-97 | When no segment is spelled like its parameter, that is if and only if parameters of one name met one segment |
| RoutingLaws.DistinctNames | include/http/route_handler.hpp:86-100 | When names are distinct, that is if and only if no segment is spelled like its parameter |
| RoutingLaws.WrittenName | include/http/route_handler.hpp:97-97 | The name of the segment {name} is name, and of other keys what is left without the first and last character |
| RoutingLaws.WrittenNameBinds | include/http/route_handler.hpp:86-100 | A pattern segment {name} that meets s binds name to s |
| RoutingLaws.WrittenNameIsSubstituted | source/http/request.cpp:75-78 | With name bound to v, {name} becomes v; segments without a brace stay |
| RoutingLaws.SubstituteThenBind | source/http/request.cpp:72-81 | Filling in any pattern, repeated names included, leads the lookup back to it if and only if no value is captured by a literal sibling, and then exactly the parameters are bound unless one was spelled like its key |
| Placement.LeastLoaded | source/thread_pool.cpp:22-34 | The smallest index among the least loaded workers |
| Placement.EarlyBreakIsHarmless | source/thread_pool.cpp:24-28 | Breaking off at the first idle worker never changes the choice |
| Placement.PlaceAllSends | source/thread_pool.cpp:73-79 | Redistribution keeps every survivor's queue as a prefix and adds exactly the tasks sent there, in push order |
| Placement.PlaceAllConserves | source/thread_pool.cpp:73-79 | It neither loses nor duplicates a task |
| Placement.PlaceAllBalances | source/thread_pool.cpp:22-39 | However many tasks are pushed, the gap between two loads never exceeds the larger of the old gap and one |
| Placement.RoundRobin | source/thread_pool.cpp:22-39 | Pushed to w idle workers, worker i gets exactly the tasks i, i + w, i + 2w, ... |
| Placement.TotalCounts | source/thread_pool.cpp:87-90 | The count is the number of all queued tasks |
| ThreadPools.ThreadPool.LeastLoadedWorker | source/thread_pool.cpp:22-34 | The scan loop finds the least loaded worker of smallest index |
| ThreadPools.ThreadPool.Push | source/thread_pool.cpp:15-42 | A task goes to the end of a least loaded queue, or runs at once when there is no worker |
| ThreadPools.ThreadPool.Run | source/thread_pool.cpp:44-47 | n new idle workers behind the old ones, whose queues stay |
| ThreadPools.ThreadPool.Stop | source/thread_pool.cpp:49-80 | The first workers retire and their leftovers are placed, worker by worker and oldest first, on the survivors; with none, their number is reported as lost |
| ThreadPools.ThreadPool.TasksCount | source/thread_pool.cpp:87-90 | The sum of all queue lengths |
| ThreadPools.CpuThreadWorker.Next | source/thread_pool.cpp:116-123 | A stopped worker leaves its queue, an idle one waits, any other takes the oldest task |
| PoolRuns.StepEffect | source/thread_pool.cpp:15-80 | Every step of every interleaving keeps the number of copies of every task; only a push adds one and only a task's own step changes its kind (lost tasks count as waiting; `PoolLaws.OnlyLastStopLoses` tells them apart) |
| PoolLaws.TaskConservation | source/thread_pool.cpp:15-80 | In every run the pushes of a task are exactly its copies being placed, queued, running, done and lost |
| PoolLaws.OnlyLastStopLoses | source/thread_pool.cpp:65-72 | A step loses exactly the tasks queued at retired workers when stop returns with no worker left, and no other step loses any |
| PoolLaws.NothingLostWithoutStop | source/thread_pool.cpp:15-42 | Nothing is lost in a run without a stop, be there workers or none |
| PoolLaws.InlinePush | source/thread_pool.cpp:16-20 | A push without a worker has its task running at once on the pushing thread, and nowhere else |
| PoolLaws.NothingLostWhileStaffed | source/thread_pool.cpp:65-72 | Nothing is lost in a run in which there is always a worker |
| PoolLaws.PushIsNeverStuck | source/thread_pool.cpp:22-39 | A push under way always has a load to read or a queue to append to |
| PoolLaws.StopIsNeverStuck | source/thread_pool.cpp:57-80 | A stop under way always has a step of its own, its scan included, or waits for a task that can still move |
| PoolLaws.WorkerIsNeverStuck | source/thread_pool.cpp:111-124 | In every reachable state a worker can take its oldest task or go on with the running one |
| PoolLaws.CallsMayBegin | source/thread_pool.cpp:15-80 | Pushes, runs and stops of any size may come in any state in which they do not exclude each other |
| PoolLaws.MoveShrinks | source/thread_pool.cpp:75-78 | Each move leaves one leftover task less |
| PoolLaws.UndisturbedPush | source/thread_pool.cpp:22-39 | With nothing in between, the steps of a push do what the sequential Push does |
| PoolLaws.StaleScan | source/thread_pool.cpp:22-39 | Under every interleaving the chosen queue is, at the enqueue, longer than any queue was at the start by at most the number of tasks that other pushes enqueued meanwhile |
| PoolOrder.FirstInFirstOut | source/thread_pool.cpp:36-39 | In every interleaving without a new stop, what a worker took and still has queued is its old queue followed by all that was sent to it, in order of arrival |
| PoolOrder.RedistributionInOrder | source/thread_pool.cpp:73-79 | While survivors go on taking tasks, leftovers are pushed worker by worker and oldest first, and each survivor has those sent to it behind its old queue, in that order |
| PoolRefines.UndisturbedRun | source/thread_pool.cpp:44-47 | The step run(n) leaves the old workers alone and puts n idle ones behind them |
| PoolRefines.UndisturbedStop | source/thread_pool.cpp:49-80 | Any run of the steps of stop(n) alone, once it has returned, has retired the first min(n, size) workers and left the queues, or the lost tasks, that the sequential Stop leaves |
| Text.SplitString | include/utils/utils.hpp:19-30 | The loop returns the non-empty tokens in order |
| Text.SplitStringLimit | include/utils/utils.hpp:35-46 | The same of the first tokens only, where empty ones count towards the limit |
| Text.LimitCountsEmptyTokens | include/utils/utils.hpp:41-44 | An empty token is dropped but uses up its place |
| Text.FormatPath | include/utils/utils.hpp:48-53 | The fold joins the segments with single slashes |
| Text.CanonicalForm | include/utils/utils.hpp:48-53 | format_path is idempotent, and two paths have the same result if and only if their segments are equal |
| Text.CanonicalKeepsSegments | include/utils/utils.hpp:19-53 | Splitting the result is splitting the original |
| Text.SplitJoin | include/utils/utils.hpp:19-53 | Segments joined by the delimiter split into the same segments |
| Text.SplitConcat | include/utils/utils.hpp:19-30 | Splitting distributes over a delimiter |
| Text.InputStream.GetLine | include/utils/utils.hpp:25-25 | std::getline takes the first token and its delimiter off, and fails only at the end |
| Numerals.DecimalRoundTrip | source/net/http_session.cpp:254-254 | Any number up to 2^64 - 1 printed in decimal is read back by std::stoull, and a larger one is out of range |
| Numerals.NumeralRead | source/net/http_session.cpp:254-254 | What std::stoull reads: spaces, a sign, digits and anything behind them, up to 2^64 - 1, negated modulo 2^64 after a minus |
| Numerals.NoLeadingZero | source/http/request.cpp:104-104 | Numbers are printed without leading zeros |
| Numerals.NoNumeral | source/net/http_session.cpp:254-254 | Without a digit behind the spaces and the sign it throws |
| HeaderFields.Headers.InitFromStream | source/http/headers.cpp:19-35 | The loop reads the lines up to the blank one; the first field of a name wins |
| HeaderFields.Headers.Insert | source/http/headers.cpp:88-100 | A field that is there already stays, and no other field changes |
| HeaderFields.Headers.At | source/http/headers.cpp:55-60 | Looking a missing field up makes an empty one |
| HeaderFields.LineParsesIff | source/http/headers.cpp:22-33 | A printed field line gives key and value back if and only if the key is in lower case, has two characters, no colon from the third on and no CR in front |
| HeaderFields.LineRead | source/http/headers.cpp:22-33 | What any line gives, printed or not: the end of the block, nothing, a throw, or the key in lower case and the value |
| HeaderFields.LinesGoOn | source/http/headers.cpp:22-25 | A line without a colon is skipped and the block goes on; behind the blank line nothing is read |
| HeaderFields.LowerLetters | source/http/headers.cpp:31-31 | Each of the 26 capitals becomes its small letter, and no other character changes |
| HeaderFields.AnyOrder | source/http/request.cpp:100-101 | The orders in which a hash table may be printed are all arrangements of its keys |
| HeaderFields.BlockTokens | source/http/headers.cpp:20-21 | A printed block is read back line by line |
| HeaderFields.BlockRoundTrip | include/http/headers.hpp:65-65 | Printed in any order and parsed, a header map is restored exactly, empty values and values with colons included |
| Requests.Request.Parse | source/http/request.cpp:7-29 | The constructor's steps compute the message that the text stands for, or fail where it fails |
| Requests.Request.ParseQueryParameters | source/http/request.cpp:31-53 | The position of the query and the parameters in it, of which the first of a name wins |
| Requests.Request.PrepareRequest | source/http/request.cpp:68-110 | The text is that of the specification for some order of the hash tables; path parameters that were asked for in vain are now stored empty |
| Requests.Request.PrintPath | source/http/request.cpp:72-87 | The path part of it, with parameters substituted |
| Requests.PairParses | source/http/request.cpp:35-42 | A printed pair is read back if and only if its name has no equals sign |
| Requests.TokenSplits | source/http/request.cpp:35-42 | Any token is cut at its first equals sign; one without is a name with an empty value |
| Requests.FirstValueStays | source/http/request.cpp:45-51 | The query has the names of its tokens, each with the value of the first token of that name |
| Requests.QueryRoundTrip | source/http/request.cpp:31-53 | Printed in any order and reparsed, a query map is restored, with empty names and values and values with equals signs |
| Requests.SubstitutedPath | source/http/request.cpp:73-81 | All slashes are printed if and only if no earlier segment equals the last |
| Requests.SubstitutedPathSegments | source/http/request.cpp:72-81 | With segments for values, the server sees the pattern with the values in place if and only if no earlier segment of the pattern equals its last |
| Requests.WrittenNamePrints | source/http/request.cpp:75-78 | A part {name} prints as the value of name, or as nothing without one; other parts as they are |
| Requests.PlainPathText | source/http/request.cpp:83-86 | A path with a slash at its end loses that slash only; others become canonical |
| Requests.PlainPathSegments | source/http/request.cpp:82-87 | Without parameters the server sees the segments of the path |
| RequestLaws.MethodRoundTrip | include/utils/utils.hpp:127-145 | Every method, None included, is read back from its name |
| RequestLaws.MethodNames | include/utils/utils.hpp:127-137 | The nine names of methods, and that any other text is none |
| RequestLaws.VersionNames | include/utils/utils.hpp:102-113 | The four beginnings by which a version is recognised, and that any other text has none |
| RequestLaws.FewParts | source/http/request.cpp:14-15 | A request line of two parts, or with two spaces together, lacks a part |
| RequestLaws.TargetIsCut | source/http/request.cpp:17-22 | A target is cut at its first question mark and its path kept as spelled; without one the path becomes canonical |
| RequestLaws.BareNamesOfTarget | source/http/request.cpp:31-53 | A query of bare names stores each name with an empty value |
| RequestLaws.SentFieldByField | source/http/request.cpp:100-104 | The fields that arrive are those sent and, if missing, the default agent and the length of the body |
| RequestLaws.WireText | source/http/request.cpp:68-110 | The text on the wire of a request with and without a query and a body |
| RequestLaws.TargetParses | source/http/request.cpp:14-25 | The printed target parses to the same segments and query |
| RequestLaws.HeadRoundTrip | source/http/request.cpp:68-107 | The printed head parses to the same method, version, segments, query and fields, with the two default fields |
| Framing.BlankLineComesFirst | source/net/http_session.cpp:181-194 | The first CRLFCRLF is the blank line before the body, whatever the body holds, and the cut gives exactly the complete lines |
| Framing.BodyReadExactly | source/net/http_session.cpp:254-272 | The body read succeeds if and only if the buffer holds no more than the announced length and the connection delivers the rest, and then gives exactly that many bytes and leaves the others |
| Framing.CutDoesNotMatter | source/net/http_session.cpp:180-212 | Where the first read stopped makes no difference, in success and in failure, unless it took more than the announced body along, and then the request is not received |
| Framing.FramedRoundTrip | source/net/http_session.cpp:173-272 | A printed request, in any order, however cut and whatever follows it, is received with the same method, segments, query and fields, and with the same body and all that follows left if and only if the caller's own fields announce no other body and the first read stopped no later than the request |
| Framing.RefusedRequests | source/net/http_session.cpp:197-210 | Chunked requests without a length, lengths that are no number, and lengths beyond what arrives are refused, each with its error |
| Framing.NoRequest | source/net/http_session.cpp:181-188 | Without CRLFCRLF there is no request |
| Framing.KeepAliveRoundTrip | source/net/http_session.cpp:173-272 | Requests sent one after the other on one connection all arrive as they were sent, however each is cut |
| Framing.Reader.ReadUntilBlank | source/net/http_session.cpp:180-184 | The read ends at the first CRLFCRLF and may take any number of bytes behind it along |
| Framing.Reader.ReadRequest | source/net/http_session.cpp:173-236 | The request received and the bytes left on the connection are exactly what the specification of framing says for the cut that happened |
| Framing.Reader.ReadBodyOf | source/net/http_session.cpp:251-273 | The body gets the buffered and the missing bytes, in order, and the rest stays on the connection |
| RequestRouting.StaticRoute | source/http/request.cpp:17-22 | When a target is found among the static handlers: never behind a slash and with a query |
| RequestRouting.StaticWins | include/http/route_handler.hpp:78-80 | A target without a query that was registered as a static path, in any spelling of its slashes, gets the last such handler and no parameters, whatever dynamic patterns there are |
| RequestRouting.StaticsStayCanonical | include/http/route_handler.hpp:45-45 | Static keys are canonical whatever is registered |
| RequestRouting.ParametersArrive | source/http/request.cpp:72-81 | A request for any registered pattern with values filled in reaches the pattern's handler with exactly those parameters, through printing, any cut, parsing and lookup |
| Responses.Response.PrepareResponse | source/http/response.cpp:40-64 | The fields are completed and the text is that of the specification for some order |
| Responses.PreparedTwice | source/http/response.cpp:41-51 | A second preparation changes no field |
| Responses.LengthIsThatOfBody | source/http/response.cpp:50-50 | The length is that of the body whatever was there, and no other field is replaced |
| Responses.DefaultsAreThere | source/http/response.cpp:41-50 | Server, date and content-type are there with the handler's value or the default, and nothing else is added but the length |
| Responses.WireText | source/http/response.cpp:53-63 | The text on the wire of a response |
| Responses.ResponseFramed | source/http/response.cpp:40-64 | A prepared response delimits itself for any fields the handler set: its blank line comes first, its first line is the status, its other lines give all fields back, and the announced bytes are the body, however cut |
| Sessions.HttpSession.IsErrors | source/net/http_session.cpp:107-116 | True exactly for a code other than 0 and 125 or a closed socket, and then the socket is closed; the timer is cancelled |
| Sessions.HttpSession.OnRequest | source/net/http_session.cpp:45-48 | A null request comes only with a fatal code or a closed socket and is never dispatched |
| Sessions.HttpSession.OnHeaders | source/net/http_session.cpp:183-213 | Waits for the body with the timer armed when bytes of it are missing, dispatches the request when none are, closes on a chunked one, or throws |
| Sessions.HttpSession.OnBody | source/net/http_session.cpp:263-272 | Dispatches the request unless the read failed or the socket was closed meanwhile |
| ServerRuns.EventKeeps | source/net/http_session.cpp:42-72 | Every event keeps the invariant that ties sessions to the tasks in the pool |
| ServerLaws.ResponsesInOrder | source/net/http_session.cpp:42-72 | In every run the responses on a connection answer a prefix of its requests, in order, each at most once, with at most the last one open; nothing follows a request that asked to close, and no chunked request is dispatched |
| ServerLaws.OneTaskInFlight | source/net/http_session.cpp:48-70 | In every run a session has at most one task in flight, that of its last request |
| ServerLaws.RespondsInTurn | source/net/http_session.cpp:49-63 | A task that responds belongs to the first request without a response |
| ServerLaws.HeadersOutcome | source/net/http_session.cpp:183-213 | The whole new session when a header read ends, case by case |
| ServerLaws.BodyOutcome | source/net/http_session.cpp:263-272 | The whole new session when a body read ends |
| ServerLaws.TaskOutcome | source/net/http_session.cpp:48-70 | A task writes one response if the session is open, and then closes it or has it read again with the timer armed; no other session changes |
| ServerLaws.TimersFireAnyTime | source/net/http_session.cpp:100-105 | A timer handler may run in any state |
| ServerLaws.AnythingMayHappen | source/net/http_session.cpp:183-213 | Connections come, and reads end, with any code and any message, in any state in which they are waited for |
| ServerLaws.DispatchedWhenComplete | source/net/http_session.cpp:208-212 | A request is dispatched only when its head was read and nothing of its body is missing, or when the read of its own body ends, and then exactly its task is pushed |
| ServerLaws.BodyFollowsItsHead | source/net/http_session.cpp:254-272 | In every run a session that waits for a body has read the head of that very request with bytes missing, and has read nothing since |
| ServerLaws.PushedOnce | source/net/http_session.cpp:48-48 | Every dispatched request is pushed exactly once, and nothing else is |
| ServerLaws.PoolSeesLegalRun | source/thread_pool.cpp:15-80 | A run of the server is a run of the pool, so the laws of the pool hold in it |
| ServerLaws.OpenSessionGoesOn | source/net/http_session.cpp:42-72 | An open session reads with its timer armed and every request answered, or its last request is in flight and, with a worker always there, not lost |
| ServerLaws.OnlyStopDelays | source/net/http_session.cpp:48-48 | Only a stop under way can hold a dispatch up |
| ServerLaws.HistoriesGrow | source/net/http_session.cpp:42-72 | Requests and responses are only ever appended |
| ServerLaws.ClosedIsFinal | source/net/http_session.cpp:82-123 | After a close, by whatever cause and at any moment, nothing is dispatched or written |

## Left out

- Sockets, Asio, buffer lifetimes and partial writes: a read or a write is one step that delivers bytes or an error.
- The C++ memory model: the unlocked reads of a scan are atomic, `run` and `stop` exclude pushes since `threads_` has no lock, and the 100 ms wait is a step that may happen at any time.
- `JsonBody`, `FileBody`, JSON, logging, the benchmark helper, the acceptor and the scheduler's plumbing; a body is a byte sequence.
- What a handler computes, and the hook that prepares a request for its body: a handler is a number, and every request gets one response, be it its own, 404 or 500.
- Parsing responses, which the source does not implement, and chunked bodies, which it refuses: a refusal is the error `NotSupported`.
- The text of the date and of the status codes: arbitrary strings without a newline.
- A HEAD request with a `content-length`, whose body storage would be null.
- The client side of a session (`send_request`, `read_response`) beyond the text that it sends.
- The link from bytes to events: `Framing` says which message the bytes stand for, and in `ServerRuns` a read ends with an arbitrary message or error code.
- Pipelining in `ServerRuns`: a session's next read starts with an empty buffer. `Framing.FramedRoundTrip` says what becomes of bytes that were sent too early.
- Undefined behaviour on malformed input: fewer than three parts in the request line is the error `MissingPart`; `path_.back()` on an empty path is excluded by a precondition.
- An exception inside a completion handler: nobody catches it, so the program ends. Members that may throw answer an error, and runs of `ServerRuns` end before such a handler.
- Reading a queue's size up to three times in a round of a scan, and that of the first queue once more before it: a step reads each load once.
- The order of stores in `RouteHandler::route`: the model collects the bindings in a local variable and assigns them once.
- Sizes other than the body length: `reserve` arguments and iterator arithmetic do not wrap.
- Text.InputStream.GetLine: does not distinguish the states of a stream that has ended.
- RouteTree.RouteHandler.Route: gives the registered creator, not the handler object that it makes.
- ThreadPools.ThreadPool.Push: does not run a lambda that is pushed without a worker, but records it.
- ThreadPools.ThreadPool.Stop: is one step, with no worker taking tasks meanwhile; `PoolOrder.RedistributionInOrder` is about the interleavings.
- Sessions.HttpSession.OnBody: the blocking read happens in the environment; the method starts when it ends.
- PoolLaws.StopIsNeverStuck: is about the existence of a step; that the step is taken is fairness, which the model does not have.
