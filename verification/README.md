# A verified model of the M365 gateway's algorithms

The gateway turns requests of the OpenAI, Responses and Anthropic APIs into ChatHub turns, and the
frames of a turn back into responses. This project models the parts of it that are algorithms
rather than plumbing, and proves what they keep over every input and every run:

- `Conversation`, `ConversationRuns`: the validator of the tool protocol, as a state machine and as a
  declarative statement about calls, results and turns.
- `ResponsesRequest`, `AnthropicRequest`: the two translations of foreign histories, and exactly which
  histories come out as conversations the validator accepts.
- `Chaining`: the histories kept for `previous_response_id`, and exactly how they can go on.
- `Bytes`, `Ledger`, `LedgerEvidence`, `TurnGate`: the evidence ledger, the compaction of results, the
  gate before another turn, and the filter of calls already completed.
- `ChatHubClient`, `ChatStream`, `FencedTools`: how frames become text events, and how text is held back
  until it cannot open a code fence.
- `ToolResponse`, `ResponsesAdapter`, `ResponsesStream`: how chat chunks become Responses events, and how
  that path agrees with the one that does not stream.
- `Pipeline`: one streamed Responses turn from the first frame to the last event.
- `LoginLimiter`: the limiter on administrator logins, over timed runs.
- `ProxyPool`, `ProxyFairness`, `ProxyHistory`: the proxy scheduler.
- `Schema`, `ToolDecision`: the JSON schema check, and the filter of routed tool calls.
- `ToolEvents`: the walk that finds native tool calls in a stream.
- `Catalog`: model mappings, the published catalog, and routing.
- `Json`, `Runes`, `Sequences`, `Tools`, `Modulo`: what these share.

What the program updates in place is a class with the same fields (the limiter's table, the pool and
its entries, the hold-back buffer, the adapter's call states, the client's turn, the walk's memory, the
kept histories) or an array (the call filter); each method is proved against a function on values, and
the theorems are about those functions and about whole runs of them.

`dafny verify dfyconfig.toml` checks the project.

Two views of Go strings are used. In `Bytes` and in the modules of the tool protocol a `char` is one
byte, because results are cut by bytes. In `Runes`, `Catalog` and the streaming modules it is one rune, because
text is held back by runes. The statements about fenced calls in `Chaining`, which meet both, only
compare ids, names and arguments for equality, on which the two views agree.

## What the proofs found

Each of these is what the code does; where its comments or its evident aim say otherwise, the
model follows the code. The lemmas named give the exact condition, or an input at which the property
fails, or both.

- A turn that fails half way is meant never to become a success (`internal/chathub/client.go:231-233`). The client
  reports a failed read. But the streaming chat handler then returns without a word
  (`internal/web/server.go:917-919`), and the Responses adapter completes the response with the text shown
  so far, unless that is blank (`Pipeline.Serve`, with the input in `Pipeline.InterruptedShows`).
- A completion whose error is not a JSON object completes the turn as if it had none
  (`internal/chathub/client.go:337`), for instance an error that is text (`ChatHubClient.TextErrorCompletes`);
  the repository's probe reports any error that is not empty (`chathub_probe.py:256`). The two agree exactly on
  objects that are not empty and on empty values that are no objects (`ChatHubClient.ErrorHeededIff`).
- When calls end a streamed turn, the text still held back is never sent
  (`internal/web/server.go:927-935`): the client has the whole text only if there was none
  (`ChatStream.TailNeverFlushed`).
- The completion lists the calls at indices `0` to `len(calls)-1` (`internal/web/protocol_handlers.go:170-174`),
  so it drops calls when the indices leave a gap, and only then (`ResponsesStream.AllListedIffNoGap`, with a gap in
  `ResponsesStream.GapIsLost`). The inner handler that writes the chunks numbers them from 0 and so never
  leaves one (`ResponsesStream.StreamedCallsListed`).
- A streamed function call is announced twice, the second time under a new id
  (`internal/web/protocol_handlers.go:184-186`); the first announcement never gets a `done`
  (`ResponsesStream.AnnouncedNeverDone`). What holds is that every `done` follows an `added` of its id
  (`ResponsesStream.EveryStreamIsLegal`). The branch that would announce a message at the end (lines 194-197)
  is never taken (`ResponsesStream.StartedUnlessBlank`).
- An increment that repeats the whole stream is taken for a snapshot and lost
  (`ChatHubClient.RepeatedIncrementIsCut`), and a snapshot older than the stream is sent again
  (`ChatHubClient.OlderSnapshotRepeats`); otherwise, and only otherwise, the stream follows the answer
  (`ChatHubClient.StreamFollowsAnswer`).
- The text of a result without a final message is the joined pieces, not the stream
  (`internal/chathub/client.go:342-345`); they are equal exactly when no piece was cut
  (`ChatHubClient.JoinedIsStreamed`), which `ChatHubClient.RepeatedIncrementIsCut` shows not to be so.
- A tool call carried by a message is handed on twice: the walk over the frame and the classifier of
  messages do not share their memory (`ToolEvents.OnceIffNoMessageCarriesACall`, with one such message in
  `ToolEvents.CarriedCallIsForwardedTwice`).
- Each `function_call` item of a Responses history becomes an assistant message of its own, so two calls
  in a row before their outputs are rejected (`ResponsesRequest.TwoCallsInARowRejected`; the exact condition is
  `ResponsesRequest.AcceptedIff`).
- The id of a fenced call is made of its place, name and arguments only
  (`internal/web/toolloop.go:61-64`). In a chain of responses, making the same call again in the same place ends the
  chain: nothing that follows is accepted (`Chaining.RepeatedFencedCallEndsChain`, with a history in
  `Chaining.RepeatedFencedCallHappens`). The id of a native call of an answer that is not streamed has not
  even a place (`internal/web/native_tools.go:62-63`), so there two equal calls in one reply are enough
  (`Chaining.RepeatedNativeCallEndsChain`, `Chaining.RepeatedNativeCallHappens`). The exact condition for both is
  `Chaining.ResumableIff`. And a streamed response is never kept (`internal/web/protocol_handlers.go:251-254`),
  so its id cannot be continued at all (`Chaining.Responses.Respond`).
- A result that is blank leaves its call pending and closes the gate (`TurnGate.PendingIffBlank`,
  `TurnGate.GateOpensIff`).
- The backoff multiplies before it caps, so it wraps at 4 611 686 019 consecutive failures
  (`ProxyHistory.BackoffWraps`, with the exact condition in `ProxyHistory.BackoffExact`).
- The schema check ignores `required`, `properties` and `items` where no explicit type stands beside them,
  which JSON Schema does not (`Schema.UnguardedDiffers`). For every schema it is validity of the part that it
  heeds (`Schema.CheckIsEffectiveValidity`), and it differs from the standard on a value exactly when the rest
  makes a difference (`Schema.DiffersIff`).

## Model

| member | source | states |
|---|---|---|
| LoginLimiter.Server.LoginAllowed | internal/web/admin_security.go:89-100 | allows exactly the addresses that are not locked, tells the others the wait by a second reading of the clock, and forgets the entry only of an allowed address whose window is over |
| LoginLimiter.Server.RecordLoginFailure | internal/web/admin_security.go:104-126 | counts the failure in the current window or a new one and locks at the fifth, after sweeping a full table in any order; records nothing if it stays full |
| LoginLimiter.Server.ClearLoginFailures | internal/web/admin_security.go:127-131 | forgets this address and no other |
| LoginLimiter.Server.AdminLogin | internal/web/server.go:174-194 | one attempt: denied with the seconds to wait and nothing changed, rejected (recorded or not), or logged in exactly if the password is correct and the address not locked, and then exactly its entry is gone |
| LoginLimiter.RetryAfterSuffices | internal/web/server.go:175-177 | whoever waits the seconds told is no longer locked, and they are at most a second more than needed |
| LoginLimiter.AtMostEightFailures | internal/web/admin_security.go:89-126 | however an address guesses and whatever others do, no half-open 15 minutes hold more than 8 recorded failures of it |
| LoginLimiter.EightFailuresReached | internal/web/admin_security.go:89-126 | the bound of 8 is met by a run |
| LoginLimiter.EightLater | internal/web/admin_security.go:104-126 | any eight failures on, a full window has passed |
| LoginLimiter.FailuresChained | internal/web/admin_security.go:89-126 | over any run, each recorded failure waits for the lock of the one before it and counts on in its window or opens a later one; the table holds the last one unless it is spent |
| LoginLimiter.LockHolds | internal/web/admin_security.go:89-95 | until its lock ends an address is denied, whatever the passwords and the other addresses |
| LoginLimiter.DeniedIff | internal/web/admin_security.go:89-126 | in any run, an address is denied exactly from the fifth failure of a window, or a later one, until fifteen minutes after the last of them |
| LoginLimiter.FourNeverLock | internal/web/admin_security.go:117-125 | no address is denied before its fifth wrong password, whatever the others do |
| LoginLimiter.LoginForgives | internal/web/server.go:194-194 | after a login the count starts again: none of the next attempts is denied before the fifth, whatever came before the login |
| LoginLimiter.UnrecordedIff | internal/web/admin_security.go:107-116 | a wrong password goes unrecorded exactly if its address is new and the table is full of entries whose window or lock lasts |
| LoginLimiter.TableBounded | internal/web/admin_security.go:102-116 | no run makes the table larger than 4096 entries |
| LoginLimiter.StaleUnseen | internal/web/admin_security.go:107-116 | tables that differ only in stale entries give the same answer, even when only one of them is full, and go on differing only so |
| LoginLimiter.SweepUnseen | internal/web/admin_security.go:107-116 | a sweep changes no answer of any later run |
| ProxyPool.Pool.Pick | internal/outbound/pool.go:46-64 | returns the first entry from the cursor on that is not cooling, or the one at the cursor, and moves the cursor past it |
| ProxyPool.Pool.Mark | internal/outbound/pool.go:65-84 | changes the entry of that address only: cleared on success, one more failure and its cooldown otherwise |
| ProxyPool.Pool.Remove | internal/outbound/pool.go:133-142 | takes that entry out, keeps the others in order, and leaves the cursor |
| ProxyPool.Dialer.Choose | internal/outbound/pool.go:96-103 | the proxy in use, with the pool unchanged, or else the one picked, which is then in use |
| ProxyPool.Dialer.Settle | internal/outbound/pool.go:111-119 | marks what was dialled, and gives it up after a failure only if it is still the one in use, whatever other dials did since |
| ProxyPool.Dialer.Dial | internal/outbound/pool.go:91-123 | by itself, a dialer keeps its proxy until it fails, picks only when it has none, and marks what it dialled |
| ProxyPool.NewPool | internal/outbound/pool.go:30-45 | fails exactly when some non-empty address is unusable; otherwise holds the distinct non-empty addresses, fresh |
| ProxyPool.FirstOccurrenceOrder | internal/outbound/pool.go:33-43 | the addresses of a new pool keep the order of their first occurrences |
| ProxyFairness.PickClosedForm | internal/outbound/pool.go:46-64 | with k proxies available, the j-th pick is the one j places on in index order, modulo k |
| ProxyFairness.EachOncePerRound | internal/outbound/pool.go:46-64 | any k picks in a row pick each of the k available proxies exactly once |
| ProxyFairness.RoundRobinFair | internal/outbound/pool.go:46-64 | after m picks each available proxy has had m / k of them, or one more, and no other has had any |
| ProxyFairness.NoneAvailableCycles | internal/outbound/pool.go:61-63 | with none available, picks go through all entries in order |
| ProxyFairness.RunIsPicks | internal/outbound/pool.go:46-64 | picks of the pool at any times at which the same entries are available are the picks the fairness results are about |
| ProxyFairness.CursorWraps | internal/outbound/pool.go:52-63 | a cursor that removals left beyond the end acts as its remainder |
| Modulo.ModDivOperators | internal/outbound/pool.go:53-62 | the remainder the model reasons with is the program's `%` on naturals |
| ProxyHistory.PoolTellsHistory | internal/outbound/pool.go:30-84 | after any picks, marks and removals the entries are the addresses never removed, in order, each with its failures since its last success and the cooldown of the last of them |
| ProxyHistory.CursorMovesByPicks | internal/outbound/pool.go:65-142 | only a pick moves the cursor; marks and removals leave it where it is |
| ProxyHistory.PickAvoidsCooling | internal/outbound/pool.go:46-64 | whatever came before, a pick is not cooling if any entry is not |
| ProxyHistory.BackoffExact | internal/outbound/pool.go:74-79 | the f-th failure in a row cools for min(2f, 120) seconds exactly when the product fits 64 bits or wraps to two minutes or more |
| ProxyHistory.BackoffWraps | internal/outbound/pool.go:75-79 | the first count at which it does not, where the cooldown is negative |
| Tools.AllowedNames | internal/web/toolloop.go:30-40 | exactly the non-empty names that some tool declares |
| Tools.LimitCalls | internal/web/settings.go:262-270 | all calls, or as many of the first as the limit lets through, and at least one |
| Tools.ChoiceAllowsExactly | internal/web/toolloop.go:42-59 | what each form of tool choice allows |
| Tools.ToolFunctionIsFirst | internal/web/tooldecision.go:9-17 | the function of the first tool that goes by the name |
| Tools.NoToolFunction | internal/web/tooldecision.go:9-17 | none if no tool does |
| Tools.ToolTypeIsFirst | internal/web/toolloop.go:18-28 | the first type that a tool of the name declares |
| Tools.NoToolType | internal/web/toolloop.go:27-27 | a function if none does |
| ToolResponse.WriteToolChunks | internal/web/tool_response.go:88-105 | the preamble unless sent, one chunk per call with its index, and the finish |
| ToolResponse.ToolCallMaps | internal/web/xml_tools.go:15-25 | the calls in order, with the missing types filled in and nothing else changed |
| ToolResponse.ChunksSay | internal/web/tool_response.go:94-105 | a client reads the plan from the chunks, unless it was sent before, and nothing else |
| FencedTools.FencedToolCalls | internal/web/fenced_tools.go:11-28 | the loop over matches computes the calls that the next row describes |
| FencedTools.FencedCallsExactly | internal/web/fenced_tools.go:14-26 | exactly the matches of an allowed name with JSON arguments become calls, in order, numbered by their place among the accepted |
| FencedTools.AcceptedMatchSays | internal/web/fenced_tools.go:15-25 | a match is accepted exactly if its name is declared and allowed and its body is JSON, and its call carries name, declared type, body and an id of its place |
| ChatStream.Stream.EmitText | internal/web/server.go:871-883 | appends the part to what the client receives; the first chunk, and no other, names the role |
| ChatStream.Stream.HoldBack | internal/web/server.go:892-914 | keeps shown plus pending equal to the text, and shown equal to the text up to its first fence, or else without its last 8 runes |
| ChatStream.CutPending | internal/web/server.go:894-914 | the rule applied to the pending text alone shows what it would show of the whole text, even when a fence straddles pieces |
| ChatStream.FenceInPending | internal/web/server.go:894-895 | a first fence that straddles the pieces lies wholly in the pending text |
| ChatStream.Stream.OnEvent | internal/web/server.go:884-916 | a native call is kept, text goes through the hold-back, anything else is ignored |
| ChatStream.Stream.Finish | internal/web/server.go:920-938 | native calls win over fenced ones; with calls their chunks follow what was shown, without any the client has received exactly the final text |
| ChatStream.StreamTurn | internal/web/server.go:867-938 | over any events, what the client receives depends only on the total text, the calls and the result, never on the chunking |
| ChatStream.FinalExactly | internal/web/server.go:923-926 | the result stands in exactly if nothing was streamed and it is not white space |
| ChatStream.VisibleExactly | internal/web/server.go:894-914 | what may be shown is the text up to its first fence, or without one all but its last 8 runes |
| ChatStream.BlockNeverShown | internal/web/server.go:895-900 | no rune of a block that begins with a fence is shown before a call |
| ChatStream.ShownBeforeMatches | internal/web/fenced_tools.go:9-14 | what is shown of a text lies before every match in it |
| ChatStream.StreamFencedTurn | internal/web/server.go:928-935 | a turn that ends with fenced calls has shown nothing of any matched block, accepted or not |
| ChatStream.TailNeverFlushed | internal/web/server.go:927-935 | when calls end the turn, the client has the whole text exactly when there was none |
| ChatHubClient.Turn.EmitDelta | internal/chathub/client.go:193-205 | the streamed text is always the concatenation of the text events sent |
| ChatHubClient.Turn.EmitSnapshot | internal/chathub/client.go:206-214 | sends what follows the stream if the snapshot begins with it, and the whole snapshot otherwise |
| ChatHubClient.ClassifyUpdateMessages | internal/chathub/stream_events.go:7-31 | one event for each message that has text, progress or a call |
| ChatHubClient.ClassifiedExactly | internal/chathub/stream_events.go:14-28 | kind, text, name and arguments of that event |
| ChatHubClient.Turn.Hear | internal/chathub/client.go:262-276 | the events of one argument are those of its walk, in some order of its objects, and then those of its messages that are not text |
| ChatHubClient.Turn.Forward | internal/chathub/client.go:262-276 | and they are sent, all of them and nothing else |
| ChatHubClient.CallsAreForwarded | internal/chathub/client.go:262-276 | so the calls that the handler sees are, in order, those that the walks and the messages carry |
| ChatHubClient.Turn.OnArgument | internal/chathub/client.go:256-311 | of an object, forwards the events and takes the cursor text unless the frame is a tool frame, and then the bot's answer texts; anything else is passed over |
| ChatHubClient.AnswersTaken | internal/chathub/client.go:292-311 | the texts taken from messages are those of the bot's answers, in order |
| ChatHubClient.CursorTaken | internal/chathub/client.go:278-291 | the text at the cursor comes first, unless a tool is at work in the same argument |
| ChatHubClient.Turn.OnUpdate | internal/chathub/client.go:254-315 | does so for all arguments in order |
| ChatHubClient.Turn.Run | internal/chathub/client.go:222-358 | reads up to the first completion, having sent exactly the text and the events of the arguments read; a result exists exactly if that comes and its error is no object, and its text is the last final message or else the joined texts |
| ChatHubClient.ResultExactly | internal/chathub/client.go:336-358 | the result of a turn that completes: the final message if it says anything, or else the texts joined |
| ChatHubClient.FinalMessageIsLast | internal/chathub/client.go:318-334 | the final message is that of the last item frame that has one |
| ChatHubClient.NoResult | internal/chathub/client.go:229-234 | without a completion there is none |
| ChatHubClient.ErrorHeededIff | internal/chathub/client.go:336-339 | a completion fails the turn just when it reports an error exactly if its error is an object that is not empty, or an empty value that is no object |
| ChatHubClient.TextErrorCompletes | internal/chathub/client.go:336-358 | an error that is text completes the turn |
| ChatHubClient.JoinAll | internal/chathub/client.go:343-345 | the joined texts |
| ChatHubClient.StreamFollowsAnswer | internal/chathub/client.go:206-214 | for any mix of snapshots and increments of an answer, the stream is at every moment exactly the part told so far if and only if no increment begins with the whole stream and no snapshot is older than it |
| ChatHubClient.JoinedIsStreamed | internal/chathub/client.go:342-345 | the joined texts are the streamed text exactly when no text was cut |
| ChatHubClient.RepeatedIncrementIsCut | internal/chathub/client.go:206-214 | the increments "ha" and "ha" of an answer stream as "ha" and join as "haha" |
| ChatHubClient.OlderSnapshotRepeats | internal/chathub/client.go:206-214 | the snapshots "hell" and "he" stream as "hellhe" |
| ResponsesAdapter.Adapter.OnRawCall | internal/web/protocol_handlers.go:104-137 | announces a new index once, replaces the id, appends name and arguments, and streams the arguments of function calls |
| ResponsesAdapter.Adapter.OnChunk | internal/web/protocol_handlers.go:95-138 | text first, announced before its first delta, then the calls in order |
| ResponsesAdapter.Adapter.Finish | internal/web/protocol_handlers.go:140-209 | fails on an inner error or an empty answer; otherwise lists the calls, or the text, and completes |
| ResponsesAdapter.StreamResponses | internal/web/protocol_handlers.go:65-209 | the whole scan loop and its end, as the function of the chunks that the rows below are about |
| ResponsesStream.EveryStreamIsLegal | internal/web/protocol_handlers.go:65-209 | whatever the chunks: created first and once, no id added twice, nothing said of an item not added before, and one terminal event |
| ResponsesStream.LegalEndsOnce | internal/web/protocol_handlers.go:141-209 | a legal ended stream begins with its only `created` and ends with its only terminal event |
| ResponsesStream.EndsAs | internal/web/protocol_handlers.go:140-209 | which end a stream comes to: the failed request exactly if the inner handler failed, the empty failure exactly if it did not and there is neither a call nor text, a completion otherwise |
| ResponsesStream.FailedNeverCompletes | internal/web/protocol_handlers.go:141-154 | a failed request is never completed |
| ResponsesStream.StartedUnlessBlank | internal/web/protocol_handlers.go:194-197 | the branch that announces a message at the end is unreachable |
| ResponsesStream.TextDelivered | internal/web/protocol_handlers.go:95-102 | a stream without calls completes with exactly the text received, and its deltas add up to it |
| ResponsesStream.ArgumentsAddUp | internal/web/protocol_handlers.go:127-190 | for every function item, announced or listed, the argument deltas add up to its arguments |
| ResponsesStream.CallIsItsDeltas | internal/web/protocol_handlers.go:104-137 | a call is what the deltas of its index amount to: the kind of the first, the last id, all parts of name and arguments in order |
| ResponsesStream.EventsAtIndex | internal/web/protocol_handlers.go:114-134 | what is said of a call on the way is said at its index, under its id and as its kind |
| ResponsesStream.CompletionTellsTrue | internal/web/protocol_handlers.go:168-202 | the items that are done are the output, in order; items are announced empty; and without a gap every event at the end tells of the output item at its index |
| ResponsesStream.AllListedIffNoGap | internal/web/protocol_handlers.go:170-174 | a stream with calls lists every one exactly when their indices run from 0 without a gap |
| ResponsesStream.GapIsLost | internal/web/protocol_handlers.go:170-174 | a lone call at index 1 is missing from the completion |
| ResponsesStream.AnnouncedNeverDone | internal/web/protocol_handlers.go:114-189 | no item that is done carries the id under which a function call was announced on the way |
| ResponsesStream.StreamedCallsListed | internal/web/tool_response.go:97-104 | for every list of calls, after any text, the streamed chunks end in a completion that lists exactly those calls in order |
| ResponsesStream.WriteResult | internal/web/codex_responses.go:14-35 | the output that is not streamed: the plan message and one item per call, or the text |
| ResponsesStream.BothPathsAgree | internal/web/codex_responses.go:18-30 | the streamed completion and the path that does not stream list the same calls, with the same call id, name, kind and payload |
| Pipeline.Serve | internal/web/server.go:884-938 | frames to events: a completed turn ends with exactly its calls, which are the calls its frames tell or else the fenced ones, or with exactly its text; an interrupted one with the text shown so far, or a failure if that is blank |
| Pipeline.ToldCallsWin | internal/chathub/client.go:262-276 | if the frames read tell calls, the turn ends with those, each as often as it is told, up to the limit |
| Pipeline.NoneToldMeansFenced | internal/web/server.go:927-931 | if they tell none, it ends with the fenced calls of its text |
| Pipeline.InterruptedShows | internal/web/server.go:917-919 | frames that stop after some text have no result, and show all but its last eight runes |
| Pipeline.Deliver | internal/chathub/client.go:193-358 | an answer that arrives in plain pieces, with no call at any node of the arguments read and none fenced in it, reaches the Responses client unchanged |
| Conversation.ValidateToolConversation | internal/web/tool_state.go:8-44 | returns no error exactly when the machine accepts, and a true reason at the first offending message otherwise |
| Conversation.TakeCalls | internal/web/tool_state.go:18-27 | the calls of one assistant message are all taken, or the first one without an id or with a used one is reported, all before it having been taken |
| Conversation.AcceptsIffWellFormed | internal/web/tool_state.go:5-44 | accepted exactly when call ids are non-empty and distinct, calls and results are in bijection with each result after its call, and no assistant message lies between |
| Conversation.MachineFollowsProtocol | internal/web/tool_state.go:9-36 | the machine is open exactly while that holds so far, and then holds the unanswered calls and the answered ones |
| Conversation.AcceptsConcatenation | internal/web/protocol_handlers.go:241-250 | after an accepted history, a continuation is accepted exactly when it is accepted alone and reuses no id |
| Conversation.OtherRolesIgnored | internal/web/tool_state.go:12-36 | messages of other roles change nothing, wherever they stand |
| ConversationRuns.RunResults | internal/web/tool_state.go:28-36 | a stretch of results is taken exactly when each answers a pending call of its own |
| ConversationRuns.RunTurn | internal/web/tool_state.go:13-27 | a new turn and its calls are taken exactly when the ids are named, distinct and new |
| Chaining.Responses.Respond | internal/web/protocol_handlers.go:241-304 | which outcome a request has, and what is kept of it: the whole conversation, and then the calls or the text of the reply; every kept history stays an accepted one followed by a reply |
| Chaining.NextRequestResumes | internal/web/protocol_handlers.go:241-250 | a request that names an answer goes on with all that was kept of it |
| Chaining.FollowUpAcceptedIff | internal/web/protocol_handlers.go:241-250 | a kept history and what follows are accepted exactly when the reply's calls are new, the messages before the next assistant message answer each once and nothing else, and the rest is accepted alone with new ids |
| Chaining.ResumableIff | internal/web/protocol_handlers.go:279-304 | a kept history can be continued at all exactly when the calls of its reply are named, distinct and new |
| Chaining.RepeatedFencedCallEndsChain | internal/web/fenced_tools.go:25-25 | a fenced call made again in the same place of a chain ends it: no continuation is accepted |
| Chaining.RepeatedFencedCallHappens | internal/web/fenced_tools.go:25-25 | one call, answered as it should be, and the same block again |
| Chaining.RepeatedNativeCallEndsChain | internal/web/native_tools.go:62-63 | a reply of native calls that repeats a call, of its own or of an earlier such reply, in any place, cannot be continued |
| Chaining.RepeatedNativeCallHappens | internal/web/native_tools.go:62-63 | two equal calls in a first reply |
| Bytes.CompactFits | internal/web/agent_ledger.go:34-48 | a compacted result is no longer than max(limit, 200) bytes, marker and byte count included |
| Bytes.CompactKeepsEnds | internal/web/agent_ledger.go:43-48 | it keeps the head and the tail of the trimmed input, and says between them how much is left out |
| Bytes.SizesExactly | internal/web/agent_ledger.go:36-48 | the limit, the sizes of head and tail, and the wording of the marker |
| Bytes.DecimalTells | internal/web/agent_ledger.go:47-47 | the byte count of the marker is the number left out, in decimal |
| Bytes.TrimTakesSpaces | internal/web/agent_ledger.go:35-35 | trimming takes white space runes off both ends, and nothing else, until neither end is white space |
| Bytes.CompactIdempotent | internal/web/agent_ledger.go:34-48 | compacting again with the same limit changes nothing |
| Bytes.CompactBlank | internal/web/agent_ledger.go:35-41 | it is empty exactly when the input is white space |
| Ledger.BuildAgentLedger | internal/web/agent_ledger.go:53-104 | the two loops compute the ledger that the rows below are about |
| Ledger.GatherEvidence | internal/web/agent_ledger.go:54-75 | the evidence map and the order of the calls, message by message |
| Ledger.TallyEvidence | internal/web/agent_ledger.go:76-104 | the counting maps decide repetition as "seen before" does |
| Ledger.TallyPartitions | internal/web/agent_ledger.go:79-94 | completed and pending partition the evidence in order, and their sizes add up to the rounds |
| Ledger.RepeatedCallIffTwoAlike | internal/web/agent_ledger.go:82-87 | for names without NUL, a repeated call is reported exactly when two calls share name and arguments |
| Ledger.RepeatedFailureIffTwoFailAlike | internal/web/agent_ledger.go:92-99 | without NUL, a repeated failure is reported exactly if two results of one call fail alike |
| Ledger.SignatureIffRepetition | internal/web/agent_ledger.go:84-98 | a signature is given exactly if a repetition is reported |
| Ledger.ContentIsItsBlocks | internal/web/server.go:670-689 | the text of a content is that of its text blocks one after the other |
| Ledger.EvidenceSays | internal/web/agent_ledger.go:69-74 | the evidence of an answered call holds the answer compacted to 4000 bytes, and whether that tells of a failure |
| Ledger.RepeatedFailureIsRepeatedCall | internal/web/agent_ledger.go:92-99 | without NUL in names and arguments, a repeated failure is a repeated call |
| Ledger.RoundsAreNamedCalls | internal/web/agent_ledger.go:57-81 | of any conversation, accepted or not, the rounds are the calls that have an id |
| LedgerEvidence.GatherTells | internal/web/agent_ledger.go:54-75 | of any stretch of a legal conversation, the map holds exactly what the stretch says of each of its calls |
| LedgerEvidence.LedgerTells | internal/web/agent_ledger.go:53-104 | and the ledger of the stretch is the tally of that, in call order |
| TurnGate.LedgerPartitionsCalls | internal/web/agent_ledger.go:53-104 | on an accepted conversation, completed and pending partition its calls in call order |
| TurnGate.PendingIffBlank | internal/web/agent_ledger.go:70-90 | every call of an accepted conversation is answered, and is pending exactly when its result is blank |
| TurnGate.RepetitionIsReal | internal/web/agent_ledger.go:82-99 | on an accepted conversation, a repeated call is reported exactly if two of its calls are alike, and a repeated failure exactly if two results of one call fail alike |
| TurnGate.AnswerIsContent | internal/web/agent_ledger.go:69-74 | the answer to a call of an accepted conversation is the content of the one tool message that names it |
| TurnGate.ActiveMessages | internal/web/agent_ledger.go:178-189 | the messages from the last user message on, or all if none but the first is a user's |
| TurnGate.ActiveLedger | internal/web/server.go:737-739 | the ledger of the active turn counts exactly the calls from the position of the last user message on, and says of them what the whole conversation says |
| TurnGate.GateOpensIff | internal/web/agent_ledger.go:154-165 | a turn may be made exactly if fewer calls than the limit follow the last user message and none of them has a blank result; below the limit a blank result is the reason given |
| TurnGate.FilterCompletedCalls | internal/web/agent_ledger.go:145-153 | filters in place: the calls not yet completed, in order |
| TurnGate.NotCompletedInOrder | internal/web/agent_ledger.go:145-153 | they keep their order, and each stays as often as it was there |
| TurnGate.FilteredIff | internal/web/agent_ledger.go:136-153 | of an accepted conversation, exactly those calls are filtered out whose name and canonical arguments a call of it had that was answered with text |
| ResponsesRequest.OpenAI | internal/web/protocol_compat.go:29-132 | the whole translation, with its three errors |
| ResponsesRequest.ReadInput | internal/web/protocol_compat.go:44-96 | the items become messages in order, unless a progress item does not parse |
| ResponsesRequest.SelectTools | internal/web/protocol_compat.go:100-127 | a custom exec tool shuts out all others; without one the function tools are passed on |
| ResponsesRequest.ToolsDelivered | internal/web/protocol_compat.go:109-127 | the tools passed on keep type, name, description and parameters, but for those of a custom exec tool, and their order |
| ResponsesRequest.ItemsDelivered | internal/web/protocol_compat.go:44-96 | of an input that is read, each item but progress becomes one message, in order, that carries its ids, name, arguments, output, role and content |
| ResponsesRequest.AnswersDelivered | internal/web/protocol_compat.go:60-80 | the answer to a call is the output of the last output item that names it, and the calls are those of the call items |
| ResponsesRequest.Delivered | internal/web/protocol_compat.go:29-132 | so does a whole request, after the policy if there is a custom exec tool and the instructions if they are not blank |
| ResponsesRequest.ProgressIsErased | internal/web/protocol_compat.go:52-59 | inserting or deleting a progress item that parses, anywhere, never changes the messages |
| ResponsesRequest.ReadIffProgressParses | internal/web/tool_progress.go:19-33 | an input array is read exactly when every progress item in it names its call and a message |
| ResponsesRequest.AcceptedIff | internal/web/protocol_compat.go:44-96 | accepted exactly when call ids are non-empty and distinct, every output directly follows its call, and every call is answered before the next call or assistant item and by the end |
| ResponsesRequest.TwoCallsInARowRejected | internal/web/protocol_compat.go:66-76 | two calls in a row, both answered afterwards, are read and rejected |
| ResponsesRequest.TextAccepted | internal/web/protocol_compat.go:39-43 | a text input always becomes an accepted conversation |
| AnthropicRequest.OpenAI | internal/web/protocol_compat.go:153-206 | the messages of the translation, or the error for a content that is neither text nor blocks |
| AnthropicRequest.TakeBlocks | internal/web/protocol_compat.go:167-205 | of one message, its results first, then the message with its text and calls if any is left |
| AnthropicRequest.BlocksDelivered | internal/web/protocol_compat.go:167-205 | the messages of one message with blocks carry the ids and contents of its results, and its text, images and uses, each in order |
| AnthropicRequest.AnswerDelivered | internal/web/protocol_compat.go:198-200 | the answer to a use is the content of the last result block that names it |
| AnthropicRequest.MessagesInOrder | internal/web/protocol_compat.go:158-206 | messages are translated one after the other, each by itself |
| AnthropicRequest.OneMessageDelivered | internal/web/protocol_compat.go:159-166 | a message with text stays as it is, and any other content is an error |
| AnthropicRequest.SystemFirst | internal/web/protocol_compat.go:155-157 | the system prompt comes first, as it is |
| AnthropicRequest.TranslatedSteps | internal/web/protocol_compat.go:158-206 | what the protocol sees of the translation is what the blocks say, message by message |
| AnthropicRequest.AcceptedIffStepsWellFormed | internal/web/protocol_compat.go:153-206 | a translated history is accepted exactly when those steps are well formed |
| AnthropicRequest.ApiHistoryAccepted | internal/web/protocol_compat.go:153-206 | fresh named tool uses, each answered exactly once in the next message, always translate to an accepted conversation, whatever the order of the blocks |
| Schema.ValidateJSONSchema | internal/web/tooldecision.go:27-107 | terminates and reports no problem exactly when the value satisfies the schema, in any map order; a problem reported is a true one |
| Schema.CheckEnum | internal/web/tooldecision.go:28-41 | an enum allows exactly its members |
| Schema.EnumRefuses | internal/web/tooldecision.go:28-41 | a value that an enum does not list is refused, whatever else the schema says |
| Schema.CheckRequired | internal/web/tooldecision.go:49-56 | names a required field that is missing, if any is |
| Schema.CheckClosed | internal/web/tooldecision.go:58-64 | names a field that a closed object does not declare, if there is one |
| Schema.CheckIsEffectiveValidity | internal/web/tooldecision.go:27-107 | for every schema, the check is validity after JSON Schema Validation 2020-12 (sections 6.1.1, 6.1.2 and 6.5.3) of the keywords that it heeds |
| Schema.DiffersIff | internal/web/tooldecision.go:27-107 | it differs from the standard on a value exactly when the keywords it does not heed make a difference there |
| Schema.AgreesWithStandard | internal/web/tooldecision.go:27-107 | on schemas all of whose keywords are heeded, which may lack a type, it is the standard's validity |
| Schema.UnguardedDiffers | internal/web/tooldecision.go:42-56 | without the type, it is not |
| Schema.TighteningIsSound | internal/web/tooldecision.go:27-107 | tightening a schema never enlarges what it accepts |
| ToolDecision.FilterDecision | internal/web/model_tool_router.go:40-49 | exactly the kept calls, in order, each with the id of its own position |
| ToolDecision.KeptPositions | internal/web/model_tool_router.go:41-45 | ascending, and exactly those whose tool is declared and allowed and whose arguments are given and valid |
| ToolDecision.DroppedExactly | internal/web/model_tool_router.go:42-45 | what is dropped: undeclared, without arguments, not allowed, or refused by the declared parameters |
| ToolDecision.KeptCallSays | internal/web/model_tool_router.go:46-47 | what a kept call carries |
| ToolDecision.SchemaValid | internal/web/tooldecision.go:19-25 | without parameters anything is valid; with them, what satisfies them |
| ToolDecision.FunctionFound | internal/web/tooldecision.go:9-17 | a function is found exactly when the first tool of that name has one |
| ToolEvents.Walker.Walk | internal/chathub/stream_events.go:60-83 | visits every node of the tree in any order; what was seen is what was emitted, once each |
| ToolEvents.FieldsExactly | internal/chathub/stream_events.go:33-53 | a node is a call exactly if one of the name keys holds text and one of the argument keys is there; the first of each counts |
| ToolEvents.Walker.ExtractToolEvents | internal/chathub/stream_events.go:60-85 | emits exactly the calls of the frame that no earlier frame had, once each |
| ToolEvents.ExtractFromStream | internal/chathub/client.go:262-267 | over a stream, each call at some node of some frame is emitted exactly once, and no other |
| ToolEvents.SameCallsEmitted | internal/chathub/stream_events.go:79-81 | two visits of the same frames emit the same calls, each as often, whatever the order in which maps are visited |
| ToolEvents.MessageCallsFound | internal/chathub/stream_events.go:7-31 | the walk finds whatever a message carries |
| ToolEvents.ForwardedCounts | internal/chathub/client.go:262-276 | whatever the order of the walks, the handler is given each call once for the walk and once more for every message that carries it |
| ToolEvents.OnceIffNoMessageCarriesACall | internal/chathub/client.go:262-276 | so each call exactly once if and only if no message carries any |
| ToolEvents.CarriedCallIsForwardedTwice | internal/chathub/client.go:262-276 | one message that carries a call is enough for that call to come twice |
| Catalog.CheckMappings | internal/web/settings.go:155-175 | accepts exactly valid mappings whose ids differ beyond case |
| Catalog.ValidMappingExactly | internal/web/settings.go:156-172 | what a valid mapping must have |
| Catalog.CheckedAreUnique | internal/web/settings.go:155-165 | mappings that pass the check are distinct however they are asked for, the Kelvin sign and the long s included |
| Catalog.ConfiguredModelMapping | internal/web/codex_catalog.go:81-89 | the first mapping of that name, lowered and then folded |
| Catalog.ConfiguredModelSpecs | internal/web/codex_catalog.go:99-119 | the loop computes the catalog that the rows below are about |
| Catalog.Override | internal/web/codex_catalog.go:106-117 | overwrites the first model of that id in place, or appends |
| Catalog.PublishedExactly | internal/web/codex_catalog.go:99-119 | the catalog holds the specs of all mappings and the built-in ones that none overrides, each id once |
| Catalog.CatalogComplete | internal/web/codex_catalog.go:55-119 | no id twice, every built-in id and every mapping there |
| Catalog.MappingPublished | internal/web/codex_catalog.go:101-105 | each mapping is published under its id, with its name, level and owner |
| Catalog.ToneOfMapping | internal/web/codex_catalog.go:91-97 | whoever asks for the id of a checked mapping gets its tone |
| Catalog.RoutesByKey | internal/web/codex_catalog.go:81-97 | routing finds exactly the mapping whose folded id is what is asked for, wherever it stands |
| Catalog.RoutesAsPublished | internal/web/codex_catalog.go:81-119 | asking for a published id routes to the mapping that published it |
| Catalog.OrderDoesNotMatter | internal/web/codex_catalog.go:81-119 | the order of the mappings changes neither routing nor what is published |

## Left out

- LoginLimiter.Server.AdminLogin: an attempt is one step, because overlapping attempts of one address are outside the bound; `clientIP`, the comparison of passwords and the session that follows are not modelled.
- LoginLimiter.AtMostEightFailures: instants are nanoseconds without the saturation of Go's time subtraction, which takes 292 years to set in.
- ProxyPool.Pool.Mark: counts failures without a 64-bit bound; only the product of the backoff wraps.
- Latency, health and last error of a proxy entry, `List`, the round tripper and TLS: bookkeeping and I/O.
- ChatHubClient.Turn.Run: does not model deadlines, pings, throttling, images, the splitting of websocket messages into frames or the decoding of a frame into its type and parts; running out of frames stands for every failed read.
- ChatHubClient.Turn.Hear: the order in which a walk visits the keys of an object is left open, as it is in the program.
- ChatStream.Stream.Finish: the adaptive limit on calls is a parameter.
- FencedTools.FencedToolCalls: the regular expression is not modelled; its matches are given, and each begins with a fence.
- ToolResponse.WriteToolChunks: the wording of the plan is a parameter, and the finish chunk carries no reason.
- ResponsesAdapter.StreamResponses: assumes that every chunk line arrives and every call chunk has an index; the 2 MiB limit of the scanner is part of `failed`. Usage, model name and time are left out.
- ResponsesStream.WriteResult: states the output list only; the events it may write from that list are never reached with a stream.
- Conversation.ValidateToolConversation: errors carry the index or the id, not the sentence.
- Chaining.Responses.Respond: everything that stops the chat handler after the validator, the gate and the upstream included, is a missing reply; a streamed request is not followed into the adapter here.
- Chaining.RepeatedNativeCallEndsChain: models how the ids of native calls are made, and not the walk that finds them.
- Ledger.BuildAgentLedger: the pattern of failure words, the normal form of a failure and Go's printing of other values are parameters.
- TurnGate.NotCompleted: the canonical form of JSON arguments is a parameter.
- TurnGate.RepetitionIsReal: needs names (and, for failures, arguments) without NUL, because the program joins them with it.
- ResponsesRequest.OpenAI: model, account, tool choice and reasoning settings are copied and not modelled; reading and writing JSON text are parameters.
- AnthropicRequest.OpenAI: tools and tool choice are not modelled, because they do not touch the messages.
- Schema.ValidateJSONSchema: the sentence with the path is not modelled; numbers are reals, and enum members are compared as values instead of as encoded text, which differs for a negative zero.
- ToolEvents.Walker.Walk: the key `name|arguments` is modelled as the pair of its parts, and that no two pairs share a key is not proved.
- Catalog.ConfiguredModelMapping: runes that neither fold nor lower to ASCII are compared as they are, which is enough for ids that pass the check.
- Catalog.CheckMappings: the settings that are not about mappings are left out, and so are the sentences of the errors.
- `completionEvidenceAllows`, `RouterContext`, prompts and policies: wording, with nothing to prove over runs.
- HTTP, SSE and websocket formats, JSON text, hashes, fresh ids, persistence, accounts, sessions, API keys, the MCP client and the web pages: I/O or plumbing.
