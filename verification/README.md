# Verified model of the access-control contract, its performance log and its load

The repository holds an ink! smart contract that registers users and permissions,
an HTTP server that submits transactions to it, the middleware that logs every
request, a load generator and the program that reads the logs back. This project
models those parts in Dafny and proves what they keep over every run.

| files | what they model |
|---|---|
| `AccessModel.dfy`, `AccessControl.dfy` | the contract: a state machine on values, and the class whose methods update the storage mappings |
| `Permissions.dfy`, `Registry.dfy` | what every run of the contract keeps |
| `Text.dfy`, `LogReader.dfy`, `TxtLog.dfy` | the text log: the server's printer and the graph maker's reader, and that they undo each other |
| `JsonText.dfy`, `JsonGrammar.dfy` | JSON.stringify, a parser for JSON texts that undoes it, and the grammar that both are measured by |
| `JsonPatch.dfy`, `JsonLog.dfy` | the JSON log: a textual patch of an array, written by interleaving handlers |
| `Server.dfy` | nonces, tips and the transaction counter under every interleaving of the handlers |
| `StressTest.dfy` | the numbering and batching of the load generator |
| `Averages.dfy`, `Grouping.dfy` | the figures and the grouping loops of the graph maker |
| `Common.dfy` | lists, options and ranges |

Code that changes state step by step is a class or a method with loops. The
contract, the JSON logger and the server are classes with a ghost history of
calls; `Valid` says that their fields are those of a run of that history, so the
theorems about all runs hold of every object at every time. Concurrent handlers are
state machines whose steps are the stretches of code between two awaits.

Conventions of the model:

- Strings of the contract are sequences of UTF-8 bytes, since Rust measures them in
  bytes. Text of the logs is a sequence of Unicode scalar values.
- Roles are bytes of any value. The comment at `smart_contract/lib.rs:56` speaks of 0
  and 1 only; the code accepts every role, and the model follows the code.
- Revoking stores `false` in `permissions` instead of removing the key, although the
  comment at `smart_contract/lib.rs:199` says removal. Undoing is therefore stated
  for what the queries answer.
- The unit tests at `smart_contract/lib.rs:266-307` call `add_user` without a role and
  do not match the message; the message is what is modelled.
- A file opened in text mode is read with `\r\n` and `\r` turned into `\n`, so a value
  with a carriage return does not survive either.
- The end of a promise, a timer or a callback is a label of the state machine; its
  outcome, the clock and the random number drawn are parameters of the label.
- A log file that is legal before the server starts is missing, blank, or a JSON array
  with any whitespace. One such file is handled wrongly: an empty array with space
  between its brackets. Every result on the JSON log says when this matters.

## Model

| member | source | states |
|---|---|---|
| AccessContract.AccessControl.AddUser | smart_contract/lib.rs:81-136 | From any reachable storage the answer is the one decided by the queries alone: name or last name not of 1 to 12 bytes, DNI not of 8, email without '@' (each with its own error, the first that applies), number of accounts of the DNI, roles in use. If accepted, user and role are stored and the two events emitted, otherwise nothing changes; storage and events are again those of a run with this call added |
| AccessContract.AccessControl.AssignRole | smart_contract/lib.rs:140-148 | The role is overwritten without any check, and storage and events stay those of the run extended by the call |
| AccessContract.AccessControl.RequestAccess | smart_contract/lib.rs:151-156 | The target is appended to the requester's list and the event names both in that order; storage and events stay those of the run extended by the call |
| AccessContract.AccessControl.GrantPermission | smart_contract/lib.rs:159-185 | Refused exactly when the last event of the pair granted it; otherwise granted, and the run is extended by the call |
| AccessContract.AccessControl.RevokePermission | smart_contract/lib.rs:189-215 | Accepted exactly when the last event of the pair granted it; the run is extended by the call |
| AccessContract.AccessControl.GetAccounts | smart_contract/lib.rs:221-227 | The accounts of the successful registrations for the DNI, in call order, at most two |
| AccessContract.AccessControl.GetUserInfo | smart_contract/lib.rs:231-233 | The information of the account's last successful registration; the account is among the registrations of that DNI |
| AccessContract.AccessControl.GetAccessRequests | smart_contract/lib.rs:237-239 | The targets of the requester's own calls, in order, which are those of its events |
| AccessContract.AccessControl.GetGrantedPermissions | smart_contract/lib.rs:243-245 | Exactly the accounts whose last event is a grant, ordered by that event |
| AccessContract.AccessControl.HasPermission | smart_contract/lib.rs:249-251 | The state of the pair's last PermissionGranted event, false if there is none |
| AccessContract.AccessControl.GetRole | smart_contract/lib.rs:255-257 | The role of the account's last RoleAssigned event |
| AccessContract.AccessControl.UserExists | smart_contract/lib.rs:261-263 | True exactly for the accounts of successful registrations |
| AccessModel.RunPrefix | smart_contract/lib.rs:131-133 | Events and replies of a run are never rewritten: those of any prefix are a prefix |
| AccessModel.RejectedCallsVanish | smart_contract/lib.rs:81-215 | A run with its rejected calls left out ends in the same storage, with the same events and the same other replies |
| Permissions.StepKeepsIndex | smart_contract/lib.rs:159-215 | Every message keeps each grantee list free of repetitions and equal, as a set, to the accounts with permission true |
| Permissions.ReachableIndexAgrees | smart_contract/lib.rs:159-215 | The index of grantees agrees with the permission map in every reachable state |
| Permissions.EventsOfPair | smart_contract/lib.rs:169-185 | A message emits an event of a pair exactly when it changes the pair's permission, and the event carries the new value |
| Permissions.PermissionIsLastEvent | smart_contract/lib.rs:159-215 | After any run a permission is the state of the pair's last event, and the pair's events alternate, starting with a grant |
| Permissions.GrantOrderUnique | smart_contract/lib.rs:173-179 | The event log determines the order: two lists in grant order are equal |
| Permissions.GrantedInGrantOrder | smart_contract/lib.rs:173-179 | After any run the list of a granter holds exactly its current grantees in the order of their latest grant |
| Permissions.StepDependsOnOwnGranter | smart_contract/lib.rs:159-215 | Two storages alike for a granter stay alike, with the same reply, under its own calls; calls of others do not affect it |
| Permissions.GranterIndependence | smart_contract/lib.rs:159-251 | What a granter sees after any run, and the replies it got, are those of the run of its own grant and revoke calls alone |
| Permissions.InterleavingsAgree | smart_contract/lib.rs:159-251 | Any two interleavings with the same calls of a granter are indistinguishable for that granter |
| Permissions.GrantsAreConserved | smart_contract/lib.rs:169-185 | In every reachable state all grantee lists together are as long as there are grant events minus revoke events |
| Permissions.RevokeUndoesGrant | smart_contract/lib.rs:159-215 | From any reachable state a successful grant can be revoked, and then every list and every permission answer is as before |
| Permissions.GrantAfterRevoke | smart_contract/lib.rs:159-215 | From any reachable state a successful revoke followed by a grant restores every answer and moves the grantee to the end of its list |
| Registry.StepOnSlots | smart_contract/lib.rs:117-124 | A message keeps slots filled in order, keeps filled slots, and appends to the accounts of a DNI exactly on a successful registration |
| Registry.AccountsAreRegistrations | smart_contract/lib.rs:103-124 | After any run the accounts of a DNI are its successful registrations in call order, at most two, the first slot filled before the second |
| Registry.FilledSlotsNeverChange | smart_contract/lib.rs:117-124 | A slot filled at some point of a run holds the same account at its end |
| Registry.ReachableLinked | smart_contract/lib.rs:117-130 | In every reachable state accounts in slots have a user and a role, and every stored user is in the slots of its DNI |
| Registry.RegistrationDecision | smart_contract/lib.rs:88-115 | In every reachable state the reply is decided by the four form checks, each with its own error, then free slots and roles in use; an account in a slot always has a role, so the default role 2 is never what decides |
| Registry.StoredUsersHaveGoodForm | smart_contract/lib.rs:88-127 | Every user stored in any reachable state has a name and a last name of 1 to 12 bytes, a DNI of 8 bytes and an email with an at sign |
| Registry.LogIsComplete | smart_contract/lib.rs:127-155 | After any run roles, registered users and access requests can be read off the event log |
| Registry.RequestsAreCalls | smart_contract/lib.rs:151-156 | After any run the stored requests of an account are the targets it named in its calls, in order, and so are those in the log |
| Registry.StoredInfoIsLast | smart_contract/lib.rs:127 | After any run the stored information of an account is that of its last successful registration |
| Registry.UsersAreRegistered | smart_contract/lib.rs:127 | An account has stored information exactly if some registration of it succeeded |
| Registry.StepKeepsRolesApart | smart_contract/lib.rs:109-148 | From a reachable state where the accounts of every DNI have different roles, a call keeps them so if and only if it does not register an account next to itself and does not give an account the role of another account that shares a DNI with it |
| Registry.RunKeepsRolesApart | smart_contract/lib.rs:109-148 | The roles of every DNI differ after every prefix of a run if and only if each of its calls met that condition |
| Registry.StepSeparation | smart_contract/lib.rs:109-148 | From a reachable state where, besides, every account is in the slots of exactly the DNI stored with it, a call keeps both properties if and only if it does not register a known account again and does not give an account the role of the other account of its DNI |
| Registry.RunSeparation | smart_contract/lib.rs:109-148 | Both properties hold after every prefix of a run if and only if each of its calls met the second condition |
| Registry.SeparationOfCleanRuns | smart_contract/lib.rs:109-130 | Without assign_role calls and repeated registrations of an account, the two accounts of each DNI differ and have different roles, and slots match stored users |
| Registry.ReassigningCanMix | smart_contract/lib.rs:140-148 | A run after which both accounts of a DNI have role 0, through assign_role |
| Registry.RegisteringTwiceCanMix | smart_contract/lib.rs:109-124 | A run after which one account fills both slots of its DNI |
| Registry.RegisteringElsewhere | smart_contract/lib.rs:117-127 | A run that separates the two: one account registered with two DNIs, where roles still differ in every DNI but the account is in the slots of both |
| Text.SplitIsExact | API/graphs/graph_maker.py:24 | Splitting loses no text and no part contains the separator |
| Text.SplitAtSeparator | API/graphs/graph_maker.py:24 | Text on both sides of a separator that nothing straddles is split independently |
| Text.SpaceCodes | API/graphs/graph_maker.py:23-34 | The whitespace that strip removes, code by code; trim on the server's side differs in five separators and the byte order mark |
| LogReader.ReadRaw | API/graphs/graph_maker.py:27-37 | The line loop builds the key and value dictionary of a part, from which the entry is taken |
| LogReader.ReadData | API/graphs/graph_maker.py:22-61 | The reader's loops compute the parse that the theorems below are about |
| TxtLog.PerformanceLog.Append | API/logging_middleware.js:69-93 | The text of the template, its 17 labels written out, is appended; if the file ended in an entry, a reader sees besides what it saw before what the printed entry is read as alone, which is that entry exactly when it is well-formed; the file again ends in an entry |
| TxtLog.FieldLine | API/graphs/graph_maker.py:29-37 | A printed field line is read as its label and its value, even if the value contains colons or is empty |
| TxtLog.ReadPrinted | API/graphs/graph_maker.py:27-57 | The 17 printed fields, after any whitespace, are read as the entry they were printed from |
| TxtLog.AppendSplits | API/graphs/graph_maker.py:22-59 | Whatever is appended to a file that is empty or ends in an entry is read as if it stood alone, and so is what was there before |
| TxtLog.AppendExact | API/graphs/graph_maker.py:22-59 | For a file that is empty or ends in an entry, whatever precedes it: appending a printed entry adds exactly that entry to the parse if and only if it is well-formed |
| TxtLog.LogIsReadEach | API/graphs/graph_maker.py:22-59 | A log of any entries, with whatever values, is read entry by entry: a malformed one does no harm to the others |
| TxtLog.SeparatorCutsValue | API/graphs/graph_maker.py:24-37 | What a malformed entry is read as, for the separator inside the last value: the entry with that value cut at the separator |
| TxtLog.ParseWellFormed | API/graphs/graph_maker.py:22-59 | Whatever a file holds, every entry read has some non-empty value, and its values are trimmed and free of line breaks and separators |
| TxtLog.RoundTrip | API/logging_middleware.js:69-93 | Reading the printed texts of any list of entries gives that list back, in order, if and only if every entry is well-formed |
| JsonText.JsonRoundTrip | API/logging_middleware.js:137 | Parsing the text written for any value, with the grammar of RFC 8259, gives the value back, whatever its strings contain |
| JsonText.ParseStringify | API/logging_middleware.js:137 | A written value is parsed as that value wherever it stands in a text, up to its last character, unless a literal runs on after it |
| JsonGrammar.ParseExact | API/graphs/graph_maker.py:18-20 | A text is parsed as a value if and only if the grammar of RFC 8259, stated by the existence of cuts and without the parser, makes it a text of that value |
| JsonGrammar.NumberExact | API/graphs/graph_maker.py:18-20 | A text is taken for a number if and only if it is an optional minus, 0 or digits without a leading 0, an optional fraction and an optional exponent |
| JsonGrammar.LiteralsAreWritable | API/logging_middleware.js:132 | The decimal notation of every natural number can be written and is read, and so are true, false and null |
| JsonGrammar.StringifyIsShortestText | API/logging_middleware.js:137 | What is written for a value is one of its texts by that grammar, and none is shorter |
| JsonPatch.PatchExact | API/logging_middleware.js:152-159 | Patching any JSON array gives the JSON array with the entry appended if and only if it has an element or is written `[]`; otherwise the result is no JSON |
| JsonPatch.PatchedFile | API/logging_middleware.js:152-159 | After any number of patches a legal file is the JSON array of its values and then the entries, in order, if the first patch met no spaced empty array, and otherwise no JSON at all |
| JsonPatch.StringifiedFile | API/logging_middleware.js:141-159 | A missing or blank file, or one written by JSON.stringify, is patched into exactly the text JSON.stringify writes for the longer array |
| JsonPatch.SpacedEmptyArray | API/logging_middleware.js:154-159 | `[ ]` is a legal log that one patch turns into text that is no JSON |
| JsonPatch.UntouchedReads | API/graphs/graph_maker.py:18-20 | A legal file is itself read as its values if and only if it is not blank and what JavaScript would trim around its array is whitespace of JSON |
| JsonLog.BookStepOk | API/logging_middleware.js:139-163 | Every step keeps the logged requests distinct and finished, and every pending write a list that ends in its own request and was the file's when read, or has been overtaken |
| JsonLog.RunCorresponds | API/logging_middleware.js:139-163 | In every interleaving, from any file, the text protocol refines the protocol on lists of requests: file and pending texts are the initial file with the entries of those lists patched in |
| JsonLog.InterleavingsAreSafe | API/logging_middleware.js:108-169 | In every interleaving from a legal file, once some request is logged, the file parses to the initial values and then the entries of distinct finished requests, the last writer's last, except that a spaced empty array has become text that is no JSON; a stringified file stays one |
| JsonLog.StringifiedStays | API/logging_middleware.js:139-163 | From a missing or blank file, or one written by JSON.stringify, every interleaving that logs a request leaves exactly what JSON.stringify writes for the initial values and the logged entries |
| JsonLog.CurrentExactly | API/logging_middleware.js:149-163 | What a handler is about to write extends the file as it is now if and only if no handler has written since it read |
| JsonLog.WriteLosesNothing | API/logging_middleware.js:149-163 | A write keeps every logged request if and only if no other handler has written between its handler's read and now; then it adds its request at the end |
| JsonLog.NothingLostExactly | API/logging_middleware.js:139-163 | A run leaves all of its successful writers logged, in order, if and only if no write falls between the read and the write of any of them |
| JsonLog.OverwritingIsForGood | API/logging_middleware.js:149-163 | At the end of every run in which some handler wrote although another had written since its read, there are two successful writers that no list, in the file or pending, holds together |
| JsonLog.OneAtATimeAppends | API/logging_middleware.js:139-163 | Handlers that run one at a time patch the entries of all requests into the file, in order, also when the first has to create it; from a legal file other than a spaced empty array the result parses to the initial values and then those entries |
| JsonLog.OverlapLosesUpdate | API/logging_middleware.js:149-163 | From a legal file other than a spaced empty array, two handlers that both read before either writes leave the initial values and the later writer's entry only |
| JsonLog.JsonLogger.OnFinish | API/logging_middleware.js:137-149 | The finish handler creates the file with the one-element array, or starts a read if the flag says that there is a file; if creating fails it gives up and the flag stays down |
| JsonLog.JsonLogger.OnRead | API/logging_middleware.js:149-159 | The read callback leaves the file and keeps the patched text for writing, or gives up on an error, as the next step of the protocol |
| JsonLog.JsonLogger.OnWrite | API/logging_middleware.js:161-163 | The write puts the prepared text into the file, or leaves it on an error, as the next step of the protocol, and a successful one makes its handler the last writer |
| JsonLog.JsonLogger.ReadBack | API/graphs/graph_maker.py:18-20 | Once a request is logged the file parses to the initial values and then the logged entries of the history, or not at all if the first patch met a spaced empty array; until then it parses to the initial values, or not at all if it is blank or other whitespace than that of JSON stands around its array |
| Server.ApiServer.GetDecrementalTip | API/tip_manager.js:26-31 | The tip counts down to 0 and stays there |
| Server.ApiServer.GetTip | API/tip_manager.js:37-43 | A random tip leaves the counter alone and lies between 1 and the total; otherwise the counter's next value is the tip |
| Server.RandomTipExact | API/tip_manager.js:18-20 | The random tips that some draw gives are exactly 1 to the total |
| Server.ApiServer.TransferFunds | API/server.js:160-166 | Tip and nonce of a transfer are taken in one step |
| Server.ApiServer.BeginAddUserTx | API/server.js:187-192 | Count, tip and nonce of an addUser transaction are taken in one step |
| Server.ApiServer.OnStart | API/server.js:326-384 | A create_user request waits for its timer; any other submits a transfer with the current nonce and the next tip and waits for it |
| Server.ApiServer.OnReady | API/server.js:345-395 | The handler submits addUser with the current nonce and the next tip, at the given time; its number is the length of the longest burst of such times, with gaps of at most 5000 ms, ending in this one |
| Server.ApiServer.OnEnd | API/server.js:354-417 | A handler that is refused, fails or is done submits nothing more |
| Server.CountIsLongestBurst | API/server.js:123-139 | The counter is the length of the longest run of calls, ending in the last, with gaps of at most 5000 ms, for any clock |
| Server.CounterOfRun | API/server.js:128-139 | In every interleaving the server's counter is the length of the longest burst, with gaps of at most 5000 ms, that ends in the last of the times of the labels at which a handler adds its user |
| Server.NoncesAndTips | API/server.js:105-110 | In every interleaving the nonces are n0, n0+1, ... without gap or repetition; the k-th decremental tip is max(T-1-k, 0), or T if T is not positive; every random tip is between 1 and T |
| Server.AllocationsAreSubmissions | API/server.js:105-110 | In every interleaving the transactions are exactly those the labels submit, in order, the k-th with nonce n0+k and, if random, with the tip of its own draw |
| Server.NoncePlusTip | API/tip_manager.js:26-31 | In decremental mode nonce plus tip stays n0+T-1 until the tip has reached 0 |
| Server.HandlersFollowPlan | API/server.js:160-192 | In every interleaving a handler has submitted a beginning of its plan: its transfer, if its endpoint has one, then addUser, each at most once |
| Server.TransferBeforeAddUser | API/server.js:160-192 | Of two transactions of one handler the transfer comes first and has the smaller nonce |
| StressTest.GeneratePermissionTestData | API/stress_testing.js:131-147 | Two different accounts of the file, nothing exactly if the file has fewer than two |
| StressTest.PermissionsOneByOne | API/stress_testing.js:172-181 | Requests 1..N, each awaited before the next, without pauses |
| StressTest.PermissionsAtOnce | API/stress_testing.js:182-193 | Requests 1..N, awaited together once, without pauses |
| StressTest.PermissionsInBatches | API/stress_testing.js:194-209 | Requests 1..N in batches of ten, each batch awaited before the next, never more than ten outstanding, and a pause after every batch and nowhere else |
| StressTest.RunHasPermissionTest | API/stress_testing.js:150-214 | Every valid mode sends the same numbers 1..N between different accounts and leaves none outstanding; with fewer than two accounts, no requests or another mode nothing is sent |
| StressTest.RunSequentialTest | API/stress_testing.js:217-241 | Requests 1..N one at a time for the endpoints it knows, nothing for the others |
| StressTest.RunConcurrentTest | API/stress_testing.js:244-286 | Requests 1..N at once if the file has the accounts the endpoint needs, otherwise none |
| StressTest.RunBatchTest | API/stress_testing.js:289-321 | Requests 1..N in batches of the given size, at most one batch outstanding, and a pause after every batch; without requests nothing happens, whatever the size |
| StressTest.ModesSendTheSame | API/stress_testing.js:172-209 | The groups of every valid mode together are 1..N, each once and in order |
| StressTest.BatchShape | API/stress_testing.js:295-315 | Batch k of size b holds kb+1 .. min(kb+b, N), and there are as few batches as hold N requests |
| StressTest.BatchesOfTen | API/stress_testing.js:196-209 | There are ceil(N/10) batches and batch k holds 10k+1 .. min(10k+10, N) |
| Grouping.TestGroups | API/graphs/graph_maker.py:282-288 | Each group is the data filtered by its key, in order; keys stand in order of first occurrence; the groups together are a permutation of the data |
| Grouping.GroupsArePartition | API/graphs/graph_maker.py:207-213 | Grouping by keys without repetition that cover the data neither loses nor repeats an entry |
| Grouping.KeysInOrderExact | API/graphs/graph_maker.py:283-287 | Every key occurs once, every entry's key is there, and no group is empty |
| Averages.MedianExact | API/graphs/graph_maker.py:373 | The median is half way between the values of the two middle ranks, which are the same rank for an odd number of values |
| Averages.RankUnique | API/graphs/graph_maker.py:373 | Only one number is the value of a given rank: at most k values are less than it and more than k are not greater |
| Averages.ModeExact | API/graphs/graph_maker.py:374 | No value occurs more often than the mode, and every value standing before its first occurrence occurs less often |
| Averages.FiguresUnique | API/graphs/graph_maker.py:370-380 | Only one record has the mean, the median and the mode of given values in their fields, or is missing if there are no values |
| Grouping.ValuesExact | API/graphs/graph_maker.py:369 | The values of a metric are those of all entries that have one, in the order of the entries |
| Grouping.ValuesCount | API/graphs/graph_maker.py:369 | Every value occurs as often among them as there are entries with it |
| Grouping.WeightedMeansAreTotals | API/graphs/graph_maker.py:364-381 | The means of a metric, each weighted by the number of its values, add up to the metric's total over the entries of the rows |
| Grouping.GenerateStatisticsTable | API/graphs/graph_maker.py:362-381 | One row for each occurring pair of route and test type with exactly its entries; for every metric no figures if no entry has a value, and otherwise mean, median and mode of the values in their fields; sizes and weighted means add up to those of all entries |

## Left out

- Non-atomic file writes: reads, appends and writes of the logs are single steps. `API/performance_log.json` as kept in the repository has text after its array, so it is no JSON; by JsonLog.StringifiedStays, atomic steps from a missing file or a stringified array do not lead there.
- Removal of the log file while the server runs.
- JSON texts: a number stays the text it is written with, a lone surrogate is neither written nor read, an object keeps repeated keys, and the literals NaN and Infinity, which Python accepts, are not read.
- Newline translation of the JSON log in text mode, which can only touch whitespace between tokens.
- Limits of the chain: weight, storage deposit and the encoding buffer, any of which can stop a message without effect.
- The wording of the contract's error and success messages; each is a constructor.
- How the middleware computes the 17 values of an entry; they are given to the printer and to JSON.stringify.
- Encoding and decoding of files.
- parse_data, plots and CSV files: dates, conversions and library code.
- Rounding of floating point in random tips and in means and medians; both are over the reals.
- StressTest.RunHasPermissionTest: where a pair has to be drawn from two or more accounts, two of them must differ, because otherwise the draw of a second account never ends.
- StressTest.RunBatchTest: with requests to send, needs a positive batch size, because with another the loop of the source never ends, and two different accounts to draw from as above.
- StressTest.RunConcurrentTest: takes the account file as it is at the start; the source reads it again for every request. For has_permission it needs two different accounts to draw from as above.
- StressTest.GeneratePermissionTestData: needs two different lines in a file of at least two, because otherwise its loop never ends.
- executeContractAndGetGas, assignRole and syncNonce of the server, which no endpoint calls, and the endpoints that submit no transaction.
- Signing, keyrings, the chain connection and finalization; a submitted transaction is its purpose, nonce and tip.
- runGetRoleTest, prompts and the choice of tests, which add only a plain loop.
- The node, runtime and parachain-runtime crates, which configure libraries.
