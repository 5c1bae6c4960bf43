# KumoStack cores, modelled and proved

KumoStack emulates AWS services in one Python process. This project models nine of its
cores in Dafny and proves what they are for: not that a branch returns a code, but what holds
over every input, every run and every interleaving. Each module follows one component:

| file | component | what is proved |
|---|---|---|
| `Shards.dfy` | test-shard scheduler | Graham's 4/3 - 1/(3n) bound against every other split, and that it is attained for every n; partition, balance and stable order |
| `WebSocket.dfy` | WebSocket sessions and the @connections API | frame order, message order and shutdown under every interleaving of tasks and API calls |
| `RouteTemplate.dfy` | `{param}` / `{proxy+}` route templates | the backtracking match is sound, complete and leftmost-longest; substitution undoes extraction |
| `ScopedDict.dfy` | account- and region-scoped dictionaries | one flat map behaves as independent dictionaries; migration loses nothing |
| `Persistence.dfy` | the JSON codec and the version gate | a saved value loads as itself exactly when it is restorable |
| `Arn.dfy`, `Text.dfy` | ARN parsing | parsing and printing undo each other, with the exact condition |
| `IamSimulator.dfy` | IAM policy simulator | the early-exit loops compute the order-free rule "deny beats allow beats nothing" |
| `AwsChunked.dfy` | aws-chunked decoder | when the loop ends; truncation monotone; decoding undoes chunking |
| `WarmWorker.dfy` | Lambda warm workers | every reply belongs to its own request; cold starts, exactly; pool keys isolate |
| `QueryParams.dfy`, `Alb.dfy` | load balancer control plane and dispatch | parsing undoes indexed encoding; one default rule per listener; dispatch always executes |
| `AppConfig.dfy` | AppConfig deployments and polling | gap-free numbering, rollback to the next lower deployment, one-use tokens |

`Prelude.dfy` has the insertion-ordered dictionary (a sequence of entries with unique keys)
that the stores are made of, and `PyValue.dfy` the values they hold.

Code that only computes is written as functions. Code that changes state in place is written
as methods with loops and as classes; every such method is proved against a function of the old
state (`Step`, `Decode`, `Placed`, `Invoked`, ...), and the properties are proved about that
function. Protocols with several tasks (WebSocket sessions) are step relations whose events are
the stretches of code between two awaits.

Library calls and outside events are parameters: `repr` and `ast.literal_eval`, base64
(section 4 of RFC 4648) and float text in the codec; `fnmatch`, `str.upper` and `int` on
priorities in the load balancer; pattern matching in the simulator; a subprocess's behaviour in
the worker, from the lines its import prints to the way it dies; random ids and tokens in the stores.

## What the proofs found

* A worker start that raises leaves its process in place. One JSON line printed while the module
  is imported is enough, even if the worker then serves (`WarmWorker.LoggingStart`). If the
  process is still there, the next request reports a warm start although nothing has been
  served (`WarmWorker.RaisedStartReportsWarm`), and may be answered with the init error of that
  start (`WarmWorker.MispairedReply`). `WarmWorker.ColdStartExact` and
  `WarmWorker.RepliesArePaired` say exactly when both are right; an ok reply always belongs to
  its request.
* A chunk header with a negative size can make the decoder loop forever
  (`AwsChunked.NegativeSizeLoops`); `AwsChunked.DecodeEndsExactly` says exactly which bodies it ends on.
* After a hosted configuration version has been deleted, the next creation can overwrite another
  one (`AppConfig.DeletionLetsCreationOverwrite`); `AppConfig.CreateVersionKeeps` says exactly when.
* A template that repeats a parameter name forgets the first capture (`RouteTemplate.RepeatedNameForgets`);
  substitution undoes extraction exactly for the other templates (`RouteTemplate.SubstitutionExact`).
* The template tokenizer takes any text between groups that begins and ends with braces, such as
  `{}`, for a parameter (`RouteTemplate.EmptyBracesAreAParam`, `RouteTemplate.ParamsAreGroupsExactly`).
* 200 lines that a worker prints after a reply make the next request fail although its handler
  replies (`WarmWorker.FloodedRequestFails`, `WarmWorker.AnsweredExactly`).
* Listener conditions of field `http-header` made by the parser carry no header name and are blind
  to every named header (`Alb.HttpHeaderConditionBlind`).
* Deleting a load balancer leaves its listeners, for which creating a rule then raises KeyError
  (`Alb.OrphanedListener`; exactly when: `Alb.CreateRuleFailsExactly`). The model replies `ServerError`.
* `DeleteConnection` and `reset` stop a connection's drain task but leave its socket open until the
  client disconnects, a route's Lambda raises or a reply cannot be sent (`WebSocket.LoopEndsExactly`,
  `WebSocket.DeleteStopsOnlyTheDrain`, `WebSocket.ResetStopsAllDrains`). A message posted after the
  drain task has exited is acknowledged and lost (`WebSocket.PostsAfterExitAreLost`).

## Model

| member | source | states |
|---|---|---|
| ShardScheduler.BuildShards | scripts/select_test_shard.py:31-37 | for n >= 1 the shards are a partition of the count table, equal to the plan of the greedy specification, and 3n times the fullest shard is at most 4n - 1 times the fullest shard of every other partition; for n <= 0 it fails exactly when the table is not empty |
| ShardScheduler.GrahamBound | scripts/select_test_shard.py:33-36 | jobs in descending order, each to the first least-loaded machine: no load exceeds 4/3 - 1/(3n) times the makespan of any assignment |
| ShardScheduler.GrahamBoundIsTight | scripts/select_test_shard.py:33-36 | for every n there is a descending job list on which the bound holds with equality |
| ShardScheduler.GreedyWithinTwo | scripts/select_test_shard.py:34-36 | even without sorting no load exceeds 2 - 1/n times the makespan of any assignment |
| ShardScheduler.LongJobsFit | scripts/select_test_shard.py:33-36 | when the shortest job is longer than a third of some schedule's makespan, greedy places it within that makespan |
| ShardScheduler.BelowAverage | scripts/select_test_shard.py:34-36 | the machine chosen for a job was at most at the average load of any schedule of the same jobs |
| ShardScheduler.GreedySpread | scripts/select_test_shard.py:34-36 | after any number of jobs, in any order, two loads differ by at most the largest job |
| ShardScheduler.LeastLoaded | scripts/select_test_shard.py:34 | `min` over the range with the totals as key: the first index of a least total |
| ShardScheduler.SortIsDescendingPermutation | scripts/select_test_shard.py:33 | the sorted table is in descending order of counts and a permutation of the table |
| ShardScheduler.SortIsStable | scripts/select_test_shard.py:33 | files with equal counts keep their order in the table |
| ShardScheduler.PlacedPartition | scripts/select_test_shard.py:33-36 | after any number of files, each file placed so far is in exactly one shard |
| ShardScheduler.TotalsStep | scripts/select_test_shard.py:34-36 | one iteration: the running totals choose the shard, only that shard grows, and each total stays the sum of its shard's counts |
| ShardScheduler.PartitionAsAssignment | scripts/select_test_shard.py:31-37 | every partition into shards is an assignment of the sorted files with the same loads, so the bound is against all partitions |
| ShardScheduler.ShardsNearOptimal | scripts/select_test_shard.py:31-37 | Graham's bound for the shards themselves, against any other partition of the table |
| ShardScheduler.ShardsBalanced | scripts/select_test_shard.py:33-36 | after any number of files no two shards' totals differ by more than the largest count |
| Arn.PrintParsed | kumostack/core/arn.py:29-57 | printing what a string parsed to gives the string back |
| Arn.ParsePrinted | kumostack/core/arn.py:29-57 | parsing a printed record gives the record back exactly when its first four fields contain no colon |
| Arn.IsArnExactlyWhenParsed | kumostack/core/arn.py:33-62 | `is_arn` holds exactly for the strings that parse |
| ScopedDict.ViewPut | kumostack/core/responses.py:200-215 | storing under one scope is storing in that scope's dictionary and changes no other scope's |
| ScopedDict.ViewRemove | kumostack/core/responses.py:220-221 | removing under one scope is removing from that scope's dictionary and changes no other scope's |
| ScopedDict.ScopeIsolation | kumostack/core/responses.py:200-265 | every ordinary operation answers as the scope's own dictionary would, acts on it alone, and keeps all other scopes' dictionaries, order included |
| ScopedDict.RunsAreIndependent | kumostack/core/responses.py:200-265 | for any interleaving of requests, each scope's contents and answers are those of running its own operations on its own dictionary |
| ScopedDict.RegionInExact | kumostack/core/responses.py:320-348 | the recursive search finds a region exactly when some nested string is an ARN with a non-empty region, and returns such an ARN's region |
| ScopedDict.MigrationLossless | kumostack/core/responses.py:289-299 | migrating into an empty store loses, merges and reorders nothing; each entry keeps account, key and value |
| ScopedDict.MigratedRegions | kumostack/core/responses.py:282-299 | the region of each migrated entry is that of an ARN in its key; if there is none, of an ARN in its value; if there is none either, the request's |
| ScopedDict.ArnRegionExactly | kumostack/core/responses.py:320-330 | a string has region r exactly if it is the printed form of an ARN whose region is r and not empty |
| ScopedDict.NamedEntryFirst | kumostack/core/responses.py:332-343 | in a dictionary the ARN under the first key that ends in "arn" decides, whatever else the dictionary holds |
| ScopedDict.NamedArnDecides | kumostack/core/responses.py:282-343 | so it is the region of the migrated entry when the entry's key holds none |
| ScopedDict.AccountRegionScopedDict.Perform | kumostack/core/responses.py:214-265 | each operation changes the flat map and answers as the specification step does |
| ScopedDict.AccountRegionScopedDict.Length | kumostack/core/responses.py:226-227 | the counting loop yields the number of entries in the scope's view |
| ScopedDict.AccountRegionScopedDict.ItemsOf | kumostack/core/responses.py:264-265 | the listing is the scope's view, in insertion order |
| ScopedDict.AccountRegionScopedDict.UpdateFromRegionScoped | kumostack/core/responses.py:289-291 | merging keeps every entry's own scope |
| ScopedDict.AccountRegionScopedDict.UpdateFromAccountScoped | kumostack/core/responses.py:292-295 | all accounts' entries are stored, migrated entry by entry |
| ScopedDict.AccountRegionScopedDict.UpdateFromDict | kumostack/core/responses.py:296-299 | a plain dictionary is migrated under the request's account |
| ScopedDict.AccountRegionScopedDict.Clear | kumostack/core/responses.py:301-303 | afterwards no scope sees any entry |
| Persistence.RoundTrip | kumostack/core/persistence.py:55-111 | encoding and decoding give a value back exactly when it has no tuple or set, its plain dictionaries have string keys and no active marker, and its scoped keys' accounts and regions contain no NUL |
| Persistence.AccountKeyExact | kumostack/core/persistence.py:71-77 | the text form of an account-scoped key parses back exactly when the account contains no NUL |
| Persistence.RegionKeyExact | kumostack/core/persistence.py:64-70 | the text form of a region-scoped key parses back exactly when account and region contain no NUL |
| Persistence.KeyedForth | kumostack/core/persistence.py:64-107 | a scoped store whose keys parse back comes back entry for entry, in order, exactly when every value does |
| Persistence.BackKeys | kumostack/core/persistence.py:84-107 | a store holding a key that no text parses to never comes back |
| Persistence.RoundTripDict | kumostack/core/persistence.py:84-111 | a plain dictionary comes back exactly when its keys are strings, none is an active marker, and its values come back |
| Persistence.OtherKeysBecomeText | kumostack/core/persistence.py:55-111 | a dictionary with null, boolean or number keys comes back with those keys as text, the rest as it was |
| Persistence.TaggedBack | kumostack/core/persistence.py:64-107 | the inner "data" object is never itself taken for a marker; the hook rebuilds the store from the members that come back |
| Persistence.BytesBack | kumostack/core/persistence.py:78-110 | the bytes marker decodes to what base64 decoding yields, and to an error where it fails |
| Persistence.FalseExactly | kumostack/core/persistence.py:84-108 | which values a marker is inactive for: the false ones, listed; a scoped store is false exactly if the current scope has no entry in it |
| Persistence.LoadSaved | kumostack/core/persistence.py:114-168 | restorable state loads as saved, except that a file is refused exactly when its version is newer than supported |
| Persistence.SavedForService | kumostack/core/persistence.py:31-52 | state saved for a service loads in every program that knows version 3, and in one that knows version 2 exactly unless the service moved to version 3; older ones refuse it |
| Persistence.LoadLegacy | kumostack/core/persistence.py:140-168 | an unwrapped legacy file loads as the state it holds |
| RouteTemplate.TokenizeLossless | kumostack/services/apigateway.py:949-962 | the tokens spell out the whole template, nothing lost between groups |
| RouteTemplate.SplitAlternates | kumostack/services/apigateway.py:949 | the split alternates text that contains no parameter group with single parameter groups |
| RouteTemplate.ParamsAreGroupsExactly | kumostack/services/apigateway.py:952-962 | a template has one parameter for each of its groups exactly if no text between the groups begins and ends with braces |
| RouteTemplate.EmptyBracesAreAParam | kumostack/services/apigateway.py:949-960 | counterexample: the template `{}` has no group and one parameter |
| RouteTemplate.MatchSound | kumostack/services/apigateway.py:963-966 | captured values are non-empty, of allowed characters, and rebuild the request path |
| RouteTemplate.MatchCompleteGreedy | kumostack/services/apigateway.py:949-966 | whenever some values rebuild the path a match is found, and its captures are leftmost-longest among all such values |
| RouteTemplate.MatchesExactly | kumostack/services/apigateway.py:940-971 | a path matches a template exactly when some assignment of allowed values rebuilds it |
| RouteTemplate.CapturedCharacters | kumostack/services/apigateway.py:949-966 | every captured value is non-empty; one for `{p}` contains no slash, one for `{p+}` no newline |
| RouteTemplate.SegmentExactly | kumostack/services/apigateway.py:940-966 | a template with one `{name}` between literals extracts `v` from a path exactly if the path is the literals around `v`, and `v` is non-empty without slash |
| RouteTemplate.GreedyExactly | kumostack/services/apigateway.py:940-966 | the same for `{name+}`: `v` is any non-empty text without newline, slashes included |
| RouteTemplate.ExtractThenSubstitute | kumostack/services/apigateway.py:940-966 | with distinct names, putting the extracted values back into the template gives the path |
| RouteTemplate.SubstitutionExact | kumostack/services/apigateway.py:940-966 | substitution undoes extraction on every matching path exactly when the template repeats no name |
| RouteTemplate.RepeatedNameBreaks | kumostack/services/apigateway.py:940-966 | for every template that repeats a name there is a matching path that substitution does not give back |
| RouteTemplate.RepeatedNameForgets | kumostack/services/apigateway.py:940-966 | counterexample: `{a}/{a}` on the path `x/y` extracts only `a` = `y`, which gives `y/y` |
| RouteTemplate.RouteKeyExactly | kumostack/services/apigateway.py:925-934 | a route key matches exactly if its method is ANY or the request's and its template matches the path |
| RouteTemplate.MatchRoute | kumostack/services/apigateway.py:920-937 | the first route in creation order that names the method and matches the path wins; the first `$default` route is chosen exactly when none does |
| IamSimulator.PolicyOrderIrrelevant | kumostack/app.py:2808-2866 | the decision does not change when the policies are permuted |
| IamSimulator.StatementOrderIrrelevant | kumostack/app.py:2821-2859 | the decision does not change when one policy's statements are permuted |
| IamSimulator.PendingStep | kumostack/app.py:2832-2853 | one more statement: a deny is the first deny, the first allow is kept, anything else changes nothing |
| IamSimulator.FirstDenyStays | kumostack/app.py:2837-2865 | nothing evaluated after a deny can change the decision or the statement reported |
| IamSimulator.SideExactly | kumostack/app.py:2768-2794 | by the members a side has: positive patterns alone hold if some matches, negative ones alone if none does, with both the positive ones are inverted, and a side without usable member never holds; a null and an empty member behave as the table says |
| IamSimulator.TestsMean | kumostack/app.py:2757-2762 | action patterns are tested against the action of the query, resource patterns against its resource |
| IamSimulator.RuleExactly | kumostack/app.py:2764-2866 | the decision of the loops, stated on the policies and the shapes of their statements: some statement that holds on both sides denies, else some allows, else neither |
| IamSimulator.SimulatePolicy | kumostack/app.py:2821-2859 | the loop over one policy's statements stops at the first deny and otherwise leaves the first allow so far; the steps name the policy, its source and the statements in order, and a step denies exactly if it is the last of a denied simulation |
| IamSimulator.SidExactly | kumostack/app.py:2823 | a statement is reported under its Sid, else as "Statement" and its position from 1 |
| IamSimulator.SimulatePolicies | kumostack/app.py:2808-2866 | the loop over the policies reports the first deny, or failing that the first allow; its steps follow the policies and their statements in order, an unresolvable policy giving one skipped step |
| IamSimulator.Simulate | kumostack/app.py:2799-2866 | the decision is the one the shapes of the statements give: explicitDeny exactly if some statement of some resolvable policy holds on both sides and denies, else allow if one allows, else implicitDeny; steps and reported statement as the loop leaves them |
| IamSimulator.SimulateAll | kumostack/app.py:2798-2884 | each action is decided by the shapes of the statements; overall: explicit deny iff some action is explicitly denied, allow iff every action is allowed |
| AwsChunked.DecodeLoop | kumostack/app.py:444-462 | the loop returns what the specification decodes, and fails to end exactly where that says so |
| AwsChunked.PassProgress | kumostack/app.py:446-460 | a pass leaves the buffer unchanged exactly when the index behind the chunk is 0 or reaches back to its start; with a positive size the buffer shrinks |
| AwsChunked.DecodeEndsExactly | kumostack/app.py:444-462 | the loop ends exactly when, on every pass along the body, the index behind the chunk is neither 0 nor before the start |
| AwsChunked.NegativeSizeLoops | kumostack/app.py:446-460 | counterexample: the body "-6" and CRLF makes the loop run forever |
| AwsChunked.DecodeMonotone | kumostack/app.py:444-462 | with unsigned sizes the loop ends, and decoding any truncation gives a prefix of decoding the whole |
| AwsChunked.OneChunk | kumostack/app.py:447-460 | a framed chunk is taken off whole, even if its data contains CRLF |
| AwsChunked.DecodeEncoded | kumostack/app.py:444-462 | decoding encoded chunks, a zero chunk and any trailer gives the concatenated data |
| AwsChunked.ParseSizeHex | kumostack/app.py:451-453 | hexadecimal text of any size is read back as that size |
| AwsChunked.HexValueExactly | kumostack/app.py:451-453 | the value of each hexadecimal digit, in both cases |
| AwsChunked.PrefixedSizeRead | kumostack/app.py:451-453 | a sign, or an 0x in either case with or without an underscore behind it, is read as Python's int does |
| AwsChunked.PaddedSizeRead | kumostack/app.py:451-453 | white space around the size is stripped |
| AwsChunked.NormalizedCodings | kumostack/app.py:463-468 | the rewritten header lists the same codings in the same order, without aws-chunked |
| AwsChunked.NormalizedExactly | kumostack/app.py:463-468 | only content-encoding changes: it stays if it does not mention aws-chunked, goes if no other coding is left, and else lists the others |
| AwsChunked.BlankExactly | kumostack/app.py:464-466 | the characters that stripping a coding takes off |
| AwsChunked.ChunkedIf | kumostack/app.py:435-442 | a request with a STREAMING- hash, an aws-chunked coding or a decoded length is chunked |
| AwsChunked.ChunkedOnlyIf | kumostack/app.py:435-442 | a chunked request has one of the three |
| AwsChunked.Request.DecodeBody | kumostack/app.py:433-469 | a body that is not chunked is untouched, headers included; otherwise it is decoded and the content-encoding normalised |
| WarmWorker.Worker.Spawn | kumostack/core/lambda_runtime.py:1003-1056 | the init reader loop: the process it leaves in place, with the lines it did not read, whether it returns, raises or blocks |
| WarmWorker.StartsExactly | kumostack/core/lambda_runtime.py:1031-1056 | a start returns normally exactly when the import prints less than 200 lines, no JSON object among them, and enters the worker loop; it blocks exactly when such an import never returns; otherwise it raises |
| WarmWorker.LeftUnread | kumostack/core/lambda_runtime.py:1003-1053 | whatever a start leaves behind has served nothing and holds no reply to an event, and an init error only if it never serves |
| WarmWorker.Worker.ReadResponse | kumostack/core/lambda_runtime.py:1123-1145 | the reader returns the first reply among the next 200 lines and leaves the lines behind it |
| WarmWorker.Worker.Invoke | kumostack/core/lambda_runtime.py:1108-1177 | process and outcome after one invocation, for every start and every behaviour of the subprocess |
| WarmWorker.Worker.Kill | kumostack/core/lambda_runtime.py:1179-1184 | afterwards no live process is kept |
| WarmWorker.ServeAndRead | kumostack/core/lambda_runtime.py:126-158 | a serving process without unread replies yields the reply to this very event and is read dry, exactly if it writes one behind less than 200 other lines; otherwise which of no JSON, end of file and timeout it is |
| WarmWorker.IdleYieldsInitError | kumostack/core/lambda_runtime.py:1123-1145 | a process that never serves yields no reply, or the init error it left unread |
| WarmWorker.AlwaysQuiet | kumostack/core/lambda_runtime.py:1108-1184 | in every run of invocations, output between them, errors, timeouts, kills and deaths, a live process that is kept has no pending event, no unread reply to an event, and no unread reply at all unless it never serves |
| WarmWorker.RepliesArePaired | kumostack/core/lambda_runtime.py:1108-1177 | after any run, a reply was produced from the very event sent exactly unless the process had an unread init error, which is then the reply; an ok reply always belongs to its request, and the process is kept exactly after one |
| WarmWorker.AnsweredExactly | kumostack/core/lambda_runtime.py:1123-1145 | after any run, a serving process yields its reply exactly if it writes one and the lines unread before the request and those printed before the reply are less than 200 in all; otherwise which failure it is |
| WarmWorker.FloodedRequestFails | kumostack/core/lambda_runtime.py:1127-1143 | counterexample: 200 lines printed after a reply make the next request fail although its handler replies |
| WarmWorker.ColdStartExact | kumostack/core/lambda_runtime.py:1110-1117 | `cold_start` tells whether the process had served nothing before, exactly when its start returned normally or it has served an event |
| WarmWorker.RaisedStartReportsWarm | kumostack/core/lambda_runtime.py:1003-1117 | whenever a start raises and its process is still there, the next request reports a warm start on a process that served nothing |
| WarmWorker.LoggingStart | kumostack/core/lambda_runtime.py:1033-1053 | counterexample: one JSON line printed during import makes the start raise, and the next request is answered as if warm |
| WarmWorker.MispairedReply | kumostack/core/lambda_runtime.py:1123-1145 | counterexample: the init error left unread by a raised start is returned as the reply to the next request |
| WarmWorker.EndedStartsAnew | kumostack/core/lambda_runtime.py:1108-1184 | after a kill or the death of the process the next invocation goes as on a new worker |
| WarmWorker.SelectedByParts | kumostack/core/lambda_runtime.py:1193-1232 | for parts without colons, invalidation selects a key exactly when name, qualifier, account and region agree where given |
| WarmWorker.SelectedByOldParts | kumostack/core/lambda_runtime.py:1210-1232 | keys without region are selected by name, qualifier and account, whatever region is given |
| WarmWorker.PoolKeysIsolate | kumostack/core/lambda_runtime.py:1192-1193 | two functions share a worker only if account, region, name and qualifier all agree |
| WarmWorker.Pool.GetOrCreate | kumostack/core/lambda_runtime.py:1187-1200 | the existing worker of the key, or a new idle one registered under it; no other entry changes |
| WarmWorker.Pool.KillAll | kumostack/core/lambda_runtime.py:1236-1247 | exactly the given workers are removed and none keeps a live process; the others' processes are untouched |
| WarmWorker.Pool.Invalidate | kumostack/core/lambda_runtime.py:1203-1239 | exactly the selected workers go, each without a live process; all others stay as they were |
| WarmWorker.Pool.Reset | kumostack/core/lambda_runtime.py:1242-1247 | the pool is empty and no former worker keeps a live process |
| WebSocket.FramesAreWellFormed | kumostack/services/apigateway.py:2016-2201 | in every run a socket's frames are a prefix of one refusing close, or of accept, data and one close; a session that finished without a fault sent one of the two whole |
| WebSocket.FaultsExactly | kumostack/services/apigateway.py:2053-2201 | a session has faulted exactly if a send of its opening or final close raised, its $connect hook raised, or its first message to a WebSocket API was no connect |
| WebSocket.OpeningDecided | kumostack/services/apigateway.py:2053-2099 | on the events of any run: a session has sent accept exactly if its API is a WebSocket one and, while it was awaiting, a connect message came without $connect route or the hook granted it, and close 1008 exactly if the API is another one or the hook denied; each with its send succeeding |
| WebSocket.HandlingExactly | kumostack/services/apigateway.py:2140-2165 | a message is being handled exactly since one with a route was received and its Lambda has not returned or raised |
| WebSocket.RepliesAreReturned | kumostack/services/apigateway.py:2160-2178 | in every run the replies sent are exactly the non-empty bodies the routes' Lambdas returned and whose send succeeded, in order |
| WebSocket.RegisteredIsOpen | kumostack/services/apigateway.py:2099-2117 | a registered connection has been accepted and not closed |
| WebSocket.RegisteredExactly | kumostack/services/apigateway.py:2099-2186 | a connection is registered exactly if its loop has been entered, no reset came since, and it has not been taken off at teardown |
| WebSocket.HookRunsOnce | kumostack/services/apigateway.py:2179-2197 | the disconnect hook runs at most once: in a finished accepted session exactly if its route existed at teardown, in one never accepted not at all |
| WebSocket.RouteLookedUp | kumostack/services/apigateway.py:2179-2197 | the disconnect route used at teardown is the one found when the drain task was joined |
| WebSocket.RoutesExactly | kumostack/services/apigateway.py:1664-1683 | an API has a disconnect route exactly from the time one was put until it is removed or a reset comes |
| WebSocket.PushedIsPrefixOfPosted | kumostack/services/apigateway.py:2123-2243 | under every interleaving the outbox messages sent are a prefix of those posted to that connection, in order; while the drain task lives the rest waits in the outbox |
| WebSocket.DrainEndsOnlyIf | kumostack/services/apigateway.py:2123-2134 | in every run a push that could not be sent ends the drain task, which otherwise ends only once its close event is set; a sentinel is queued only with that event |
| WebSocket.StopsExactly | kumostack/services/apigateway.py:1664-2265 | the close event is set exactly if a DELETE found the connection, a reset came while it was registered, or its receive loop ended |
| WebSocket.ClosedDrainStops | kumostack/services/apigateway.py:2123-2134 | once the close event is set the drain task sends at most one more message and takes at most two more steps, whatever else happens |
| WebSocket.ClosedDrainCanStep | kumostack/services/apigateway.py:2123-2134 | a drain task told to stop is never stuck before its exit |
| WebSocket.LoopEndsExactly | kumostack/services/apigateway.py:2140-2180 | whatever is posted, deleted or reset, a receive loop still runs exactly if its client has not disconnected, no route's Lambda raised and no reply failed to be sent; while it runs no close has been sent |
| WebSocket.DeleteStopsOnlyTheDrain | kumostack/services/apigateway.py:2253-2265 | after DeleteConnection, in every continuation, at most one more message is pushed, but the socket stays open until an event of its own ends the receive loop |
| WebSocket.ResetStopsAllDrains | kumostack/services/apigateway.py:1676-1683 | after reset, in every continuation, an open connection gets at most one more message and is never found by a call again, but its socket stays open until an event of its own ends the receive loop |
| WebSocket.PostsAfterExitAreLost | kumostack/services/apigateway.py:2123-2243 | once the drain task has exited nothing is ever pushed again, although posts are acknowledged with 200 exactly as long as the connection is registered |
| WebSocket.Gateway.HandleConnectionsApi | kumostack/services/apigateway.py:2214-2269 | status and effect of each verb, for known and unknown connections; what every step keeps of every session is kept |
| WebSocket.Gateway.Reset | kumostack/services/apigateway.py:1664-1683 | the loop sets every registered session's close event, no other session changes, and the registry is empty; what every step keeps is kept |
| QueryParams.KeysDistinct | kumostack/services/alb.py:222-227 | different indices and different kinds give different parameter names |
| QueryParams.FirstValueCounts | kumostack/services/alb.py:97-99 | of a repeated parameter the first value counts, and an empty list counts as missing |
| QueryParams.RunIsBounded | kumostack/services/alb.py:102-110 | a gap-free run of n members needs n parameters, so the unbounded loops end |
| QueryParams.ParseMemberList | kumostack/services/alb.py:102-110 | the longest gap-free run of non-empty members from 1 |
| QueryParams.MemberRunUnique | kumostack/services/alb.py:102-110 | that run is unique |
| QueryParams.ParseConditions | kumostack/services/alb.py:219-234 | the longest run of fields, each with the longest run of its own values |
| QueryParams.ParseEncoded | kumostack/services/alb.py:219-234 | parsing the indexed encoding of any conditions with non-empty fields and values recovers them |
| Alb.SoundStep | kumostack/services/alb.py:637-822 | each request keeps: every rule belongs to an existing listener, and each listener has exactly one default rule |
| Alb.RunsAreSound | kumostack/services/alb.py:637-822 | that holds after every run in which drawn ids are fresh |
| Alb.SortedPositions | kumostack/services/alb.py:1099-1106 | all positions, in ascending key order, positions with equal keys in store order |
| Alb.ListenerChosen | kumostack/services/alb.py:1324-1331 | the first listener of the load balancer on the port, else its first listener on any port |
| Alb.ConditionMeans | kumostack/services/alb.py:1060-1096 | path, host (without its port, empty when missing) and method conditions, each in terms of the library's matching; source-ip and unknown conditions hold |
| Alb.QueryConditionMeans | kumostack/services/alb.py:1072-1086 | "key=value" asks for that value of that key, a bare key for its presence |
| Alb.QueryConditionsTogether | kumostack/services/alb.py:1072-1086 | all values of a query-string condition must hold |
| Alb.WinnerExecutes | kumostack/services/alb.py:1334-1353 | dispatch executes the first action of the eligible rule that outranks all others: a rule of priority "default" comes last, else the smaller number (9999 when unreadable), else the earlier place in the store |
| Alb.DefaultComesLast | kumostack/services/alb.py:1099-1106 | a rule of priority "default" decides exactly if no other rule is eligible |
| Alb.DispatchExecutes | kumostack/services/alb.py:1321-1353 | in a sound state dispatch executes an action exactly when the listener has default actions or some matching rule has its own |
| Alb.CreatedActionsRemain | kumostack/services/alb.py:637-702 | a listener created with actions has default actions for as long as it exists |
| Alb.LoadBalancerCreated | kumostack/services/alb.py:417-447 | a load balancer is stored exactly if it has a name that no other one has |
| Alb.ListenerCreated | kumostack/services/alb.py:637-673 | listener and default rule are stored as requested, and nothing else changes |
| Alb.ListenerModified | kumostack/services/alb.py:688-702 | a given port and given actions replace the listener's own, which otherwise stay; the rules keep theirs |
| Alb.RuleCreated | kumostack/services/alb.py:752-773 | the rule is stored as requested, never as a default rule |
| Alb.RuleModified | kumostack/services/alb.py:787-799 | given conditions and actions replace the rule's own, which otherwise stay |
| Alb.PrioritiesSet | kumostack/services/alb.py:810-822 | every rule named gets the last priority given for it, and nothing else changes |
| Alb.AlwaysExecutes | kumostack/services/alb.py:1321-1353 | after any run, dispatch on a listener created with actions executes an action, whatever the request and whatever was done to its rules |
| Alb.CreateRuleFailsExactly | kumostack/services/alb.py:752-773 | in fresh runs, creating a rule on a listener of the run raises KeyError exactly if its load balancer was deleted after the listener was created and its ARN not drawn again |
| Alb.OrphanedListener | kumostack/services/alb.py:752-758 | counterexample, from the empty stores: load balancer and listener created, load balancer deleted; creating a rule raises KeyError |
| Alb.HttpHeaderConditionBlind | kumostack/services/alb.py:1087-1092 | an http-header condition made by the parser cannot tell requests apart by any named header: it holds exactly if some pattern matches the empty text |
| Alb.ModifyAttributes | kumostack/services/alb.py:482-501 | editing the attribute list through its index equals storing each pair in an ordered dictionary, and keys stay unique |
| Alb.Service.CreateListener | kumostack/services/alb.py:637-673 | listener and default rule are stored as the specification step says; with fresh ids the one-default-rule invariant is kept |
| Alb.Service.DeleteListener | kumostack/services/alb.py:705-714 | the listener's rules go with it; the one-default-rule invariant is kept |
| Alb.Service.CreateRule | kumostack/services/alb.py:752-773 | stores and reply, also for a missing listener and a deleted load balancer; with a fresh id the one-default-rule invariant is kept |
| Alb.Service.DeleteRule | kumostack/services/alb.py:801-807 | a default rule is refused, so the one-default-rule invariant is kept |
| Alb.Service.SetRulePriorities | kumostack/services/alb.py:810-822 | the loop applies the priorities in order and skips unknown rules; the one-default-rule invariant is kept |
| Alb.Service.Dispatch | kumostack/services/alb.py:1321-1353 | executes the first action of the eligible rule that precedes all other eligible rules in stable priority order; 503 without a listener, 502 without an eligible rule |
| AppConfig.SoundStep | kumostack/services/appconfig.py:211-580 | each request keeps: an environment's deployment numbers are exactly 1..n, records carry their number, and their application exists |
| AppConfig.RunsAreSound | kumostack/services/appconfig.py:211-580 | that holds after every run, whatever ids are drawn |
| AppConfig.RunsAreOwned | kumostack/services/appconfig.py:171-434 | after every run each environment and profile belongs to an existing application, and each version to an existing profile |
| AppConfig.ApplicationsAfter | kumostack/services/appconfig.py:171-228 | an application is there from its creation under a name until its deletion |
| AppConfig.EnvironmentsAfter | kumostack/services/appconfig.py:211-291 | an environment is there from its creation, under a name in an existing application, until its own deletion or that of the application |
| AppConfig.ProfilesAfter | kumostack/services/appconfig.py:211-358 | the same for profiles |
| AppConfig.VersionsAfter | kumostack/services/appconfig.py:211-434 | a version is there from its creation in an existing profile until its own deletion, or that of the profile or the application |
| AppConfig.RefusedExactly | kumostack/services/appconfig.py:171-769 | a request is refused exactly if something it names is missing, or else a name is empty or its token is not live; it then changes nothing |
| AppConfig.LatestExact | kumostack/services/appconfig.py:741-748 | a poll serves the highest-numbered COMPLETE deployment for its profile, and none exactly when there is none |
| AppConfig.PollServesStarted | kumostack/services/appconfig.py:500-769 | a poll after a start of the same profile serves the version that was started |
| AppConfig.ApplicationResolved | kumostack/services/appconfig.py:133-141 | an application is found by id, else as the first of that name |
| AppConfig.PartResolved | kumostack/services/appconfig.py:144-163 | environments and profiles likewise, within their application |
| AppConfig.StopReverts | kumostack/services/appconfig.py:575-580 | stopping the served deployment makes polls serve the next lower one |
| AppConfig.SpentStaysSpent | kumostack/services/appconfig.py:697-769 | a token that is no longer live never becomes live again |
| AppConfig.TokenWorksOnce | kumostack/services/appconfig.py:729-769 | once a poll with a token has succeeded every later poll with it is refused |
| AppConfig.OneLiveTokenPerSession | kumostack/services/appconfig.py:697-769 | there are always exactly as many live tokens as sessions were started |
| AppConfig.CreateVersionKeeps | kumostack/services/appconfig.py:365-383 | creating a version keeps all stored records exactly when the key made from the count is unused or already holds the same content and content type |
| AppConfig.CreateVersionExtends | kumostack/services/appconfig.py:365-383 | while the versions are exactly 1..n, creation uses a new key and keeps them 1..n + 1 |
| AppConfig.VersionsAre1ToN | kumostack/services/appconfig.py:211-434 | in every run that deletes no version, whatever else it creates and deletes, the versions of each profile are exactly 1..n |
| AppConfig.DeletionLetsCreationOverwrite | kumostack/services/appconfig.py:365-434 | counterexample, from the empty stores: after two creations and the deletion of version 1, the next creation overwrites version 2 |
| AppConfig.Service.DeleteApplication | kumostack/services/appconfig.py:211-228 | everything that belongs to the application goes, as the specification step says; the numbering invariant is kept |
| AppConfig.Service.StartDeployment | kumostack/services/appconfig.py:500-542 | the counting loop yields one more than the environment's deployments; the numbering invariant is kept |
| AppConfig.Service.StopDeployment | kumostack/services/appconfig.py:575-580 | only the state of that record changes; the numbering invariant is kept |
| AppConfig.Service.CreateVersion | kumostack/services/appconfig.py:365-392 | the counting loop yields the key of the specification step; the numbering invariant is kept |
| AppConfig.Service.StartSession | kumostack/services/appconfig.py:697-726 | identifiers are resolved by id, then by name, and a session is stored under the token; the numbering invariant is kept |
| AppConfig.Service.Poll | kumostack/services/appconfig.py:729-769 | the token is replaced, and the loop serves the latest deployment's record as the specification does; the numbering invariant is kept |

## Left out

- ShardScheduler: collecting the counts from pytest, argument parsing and output formats.
- WebSocket: cancellation, JWT validation inside the authorizer, stage and header parsing, and a send that transmits its frame and then raises; the 0.5 s timeout is an event that can happen at any time.
- WebSocket.PushedIsPrefixOfPosted: an item that `asyncio.wait_for` drops when its timeout races with the queue is not modelled, and a message is text whether it was posted as bytes or text.
- RouteTemplate: CORS, authorizers, integrations and the parameter-mapping function of HTTP APIs.
- ScopedDict: `AccountScopedDict` has the same operations with a shorter key and only appears as the source of a migration; the `*_scoped` variants are the same operations with the scope given explicitly; Python's equality across types (`1 == True`) is not modelled.
- Persistence: JSON text, files and temporary files; floats are finite, without negative zero, NaN and infinities; `set`, `datetime` and other values that json.dump refuses are one error; `bytearray` is not told from `bytes`.
- Persistence.RoundTrip: a value that is itself a scoped store stored under a marker's "data" key is an error in the model, although the code would iterate it.
- IamSimulator: finding the principal's policies, reading documents, and the matching of action and resource patterns itself.
- AwsChunked.NormalizedCodings: a header value from which no coding remains is removed, which DecodeBody states.
- AwsChunked: header bytes outside ASCII are treated as bytes that are no digit.
- WarmWorker: the Node.js worker (it can write two replies for one event), user output that is itself a line with a protocol status, a kill during an invocation, stderr and log collection, temporary directories, layers and environment variables; a reader that timed out is taken to stay blocked on the killed process's own pipe.
- Alb: target groups, target registration and health, tags, listings, protocol fields, and the execution of forward, redirect, fixed-response and Lambda actions; one account and region.
- Alb.RunsAreSound: random ids are assumed fresh.
- AppConfig: tags, deployment strategies, listings and updates of names; keys the source joins with slashes are tuples, since generated ids contain none; one account and region.
- AppConfig.TokenWorksOnce: random tokens are assumed not to repeat.
- The rest of the emulator (HTTP serving, Docker, TLS, the service registry, the other services, dashboards and seeders) is not modelled.
