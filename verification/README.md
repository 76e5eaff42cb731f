# OpenTendril: verified models of the Stem's protocols and decoders

This project models the parts of OpenTendril whose correctness rests on more than one line: protocols between
processes and goroutines, stateful stream decoders, admission control, and edits of user-owned files. The models
follow the Go code branch by branch, and their properties are proved for all inputs, all runs and all
interleavings. `dafny verify dfyconfig.toml` checks everything.

| file | models |
|---|---|
| `LocalSocket.dfy`, `LocalSocketHandle.dfy` | several Stem processes competing for one socket pathname: advisory lock, probe, stale removal, bind, identity, guarded unlink, crashes at any step; and `openLocalSocket` and `Close` as one process performs them while the others act in between |
| `MintLimiter.dfy` | the token bucket for public token mints, over exact reals |
| `IngressSlots.dfy`, `ConnectionLimit.dfy`, `PublicIngress.dfy` | slot pools with once-only release, the connection-limited listener, and nested admission of any number of interleaving requests and connections |
| `BodySpool.dfy` | staging of unknown-length bodies from an adversarial reader |
| `ToolCalls.dfy`, `OpenAIDecoding.dfy`, `AnthropicDecoding.dfy` | reassembly of tool calls from stream fragments |
| `Attempts.dfy`, `ProviderCall.dfy`, `Failover.dfy` | one provider call, streaming and not, and failover over endpoint candidates |
| `CacheMarkers.dfy` | placement of ephemeral cache markers in an Anthropic request |
| `StableSorting.dfy`, `ModelSelection.dfy` | choosing a model, and giving constraints up in order |
| `ChatLoop.dfy`, `ChatSession.dfy` | the direct-chat event loop with its watch goroutine, one-slot channel, idempotency keys and a server that keeps one Seed for a key |
| `TreeWalk.dfy`, `WorkspacePath.dfy`, `PathCleaning.dfy`, `ExecutionLocation.dfy` | the bounded directory listing and lexical path resolution of the Go sprout, what cleaning does to the path, and which spellings resolve to the location that is refused by name |
| `RegistryEntries.dfy`, `RegistryMerge.dfy` | the upsert of a connection into the YAML registry tree |
| `EventStream.dfy` | decoding of Server-Sent Events (WHATWG HTML Living Standard, sections 9.2.5 and 9.2.6) |
| `EnvFile.dfy`, `EnvFileRewrite.dfy` | the upsert of keys into a `.env` file, and running it a second time |
| `Forwarding.dfy` | the retrying MCP forwarder and its token cache |
| `Text.dfy`, `Sequences.dfy`, `Options.dfy` | the operations of Go's `strings` package that the models use; facts about sequences; optional values |

Concurrency is modelled as steps that interleave freely: a system call, a channel operation or a section under a
mutex is one step, and a theorem about runs holds for every order of the steps. What cannot be seen from the
modelled files is a parameter: clock readings, replies of servers, failures of system calls, keys from the random
generator, the JSON meaning of a payload.

Each algorithm that the source runs in place has a method with the source's loop, proved against a function or a
predicate; what the source promises is then proved about that function or predicate.

## What the proofs found

- **Local socket.** The protocol is safe on every run if and only if no Stem closes one socket twice. `Close`
  gives up the lock but keeps the recorded identity, so a second `Close` runs its checks without the lock, and a
  successor can bind between its last check and its unlink. From a reachable state some run with a second `Close`
  breaks the promise exactly when the pathname is absent or a socket of this principal; so after every first
  `Close`, even one without an error, since the inode number that is compared may have been reused.
- **Bounded listing.** `truncated` is true exactly when the full listing has at least as many entries as may be
  returned, and so also when it has exactly that many and nothing is missing.
- **Anthropic decoding.** Unlike the OpenAI-style decoder, this one can lose argument bytes. All bytes are
  accounted for exactly when every delta with bytes at an index comes after a tool start there with no stop or
  start of that index in between, and no tool start comes between such a start and its stop once bytes arrived.
- **OpenAI-style decoding.** A tool call that a chunk cuts off with the finish reason "length" is reported as
  truncated, unless a later chunk has another finish reason: then it is returned, cut as it is, as part of a success.
- **Failover.** Tokens of an abandoned attempt stay on the caller's channel; a follower sees just the deciding
  attempt's tokens exactly when no earlier attempt had streamed any.
- **Chat.** A dispatch that was sent and not answered, a definite refusal included, binds the session to its goal:
  until the same goal is typed again, no other can be dispatched.
- **Cache markers.** The 50th new block is the first that puts the last marked block out of reach.
- **Registry merge.** An entry appended to a mapping whose content list has a node without a partner is not found
  by a later lookup. A YAML parser never makes such a mapping.
- **Server-Sent Events.** The decoder trims all outer white space of a data line, while the standard removes one
  leading space. On the text of the stream, events survive exactly when no name and no line of data is padded and
  no name holds a newline.
- **`.env` upsert.** The source says that running it again never makes duplicate keys. For keys and values on one
  line, a second run writes the same bytes exactly when every listed key is trimmed, has no `=` and does not start
  with `#`; any other key is appended again on every run, or appended beside the line of the key that it reads as.
  A value with a newline is read back as several lines, so it is written again, unless the newlines are at its end
  and its line is the last. Among such plain keys one that is listed twice and assigned nowhere is appended twice.
- **Execution locations.** The check of a path argument judges the text that is given, and not what it resolves to.
  Of the paths that are spelled clean, exactly one resolves to `.tendril/run-workspaces` below the workspace root or to
  something below that: its own absolute path, provided that the root's path has no such pair of names inside.
  Relative ones are all refused. Other spellings are not: every path at or below the location is what some spelling
  with `.` components resolves to.

## Model

| member | source | states |
|---|---|---|
| LocalSocket.StepKeepsInv | cmd/stem/cmdservesocket.go:83-277 | one system call of any process, crash included, keeps the lock exclusive, every phase's knowledge of the pathname true, inodes apart, and is itself safe |
| LocalSocket.RunKeepsInv | cmd/stem/cmdservesocket.go:83-277 | every run that closes each socket at most once is safe at every step: one listener at most, reachable by the name; no unlink of a name that is another's socket; the name gone after a clean Close |
| LocalSocket.SafeExactlyWhenClosedOnce | cmd/stem/cmdservesocket.go:159-186 | all runs are safe if and only if no socket is closed twice |
| LocalSocket.DoomedExactlyWhenUnblocked | cmd/stem/cmdservesocket.go:159-186 | from every reachable state, and for every Stem, a run in which it alone closes a socket twice breaks the promise exactly when the name is absent or a socket of this principal; so whenever that Stem has closed a socket once |
| LocalSocket.OpenSucceedsExactlyWhenOpenable | cmd/stem/cmdservesocket.go:83-154 | in every reachable world an undisturbed open succeeds exactly when the lock is free and the name is absent or a dead socket of this principal |
| LocalSocket.CrashesNeverBlockSuccessor | cmd/stem/cmdservesocket.go:83-154 | after any crashes, once the kernel dropped lock and listeners, the next opener serves |
| LocalSocket.CloseRemovesOnlyItsOwn | cmd/stem/cmdservesocket.go:159-277 | in any world at all Close removes the name exactly when it is still this Stem's dead socket, and gives up the lock |
| LocalSocket.FailedProbeUnlinks | cmd/stem/cmdservesocket.go:254-277 | a probe that fails before the removal does not keep the name: it is unlinked and the removal counts as clean |
| LocalSocketHandle.OpenLocalSocket | cmd/stem/cmdservesocket.go:83-154 | open returns a socket exactly when the process serves, and otherwise has given up lock and listener; without faults, and if nobody closes twice, it fails only when it saw the lock taken or the name occupied; when nobody else acts, exactly then, and a success has bound and serves at the name |
| LocalSocketHandle.LocalSocketFile.Close | cmd/stem/cmdservesocket.go:159-186 | Close clears the listener and the lock file and leaves the process released; without faults, and if nobody closes twice, the name is absent when the lock is given up; when nobody else acts, the kernel is left as `CloseAlone` or, on a later call, `CloseAgainAlone` says |
| LocalSocketHandle.RemoveIfStillOwned | cmd/stem/cmdservesocket.go:254-277 | identity, liveness and unlink as three calls with others in between; without faults, and if nobody closes twice, it ends clean, and when nobody else acts it is `RemoveAlone` |
| LocalSocketHandle.Lifetime | cmd/stem/cmdservesocket.go:83-186 | a process that opens and closes once, with any failures, takes part in a run that is safe at every step if the others close once too |
| MintLimiter.GrantedExactlyWhenEveryWindowFits | cmd/stem/publicingress.go:302-322 | a call is granted exactly when granting keeps every window of calls ending at it within burst plus rate times the clock's advance, for any clock readings |
| MintLimiter.TokensFitWindow | cmd/stem/publicingress.go:302-322 | the tokens found never exceed the room in any window |
| MintLimiter.TightestWindow | cmd/stem/publicingress.go:302-322 | the tokens found equal the room of some window |
| MintLimiter.NoWindowIsOverdrawn | cmd/stem/publicingress.go:302-322 | grants in any window stay within its allowance |
| MintLimiter.NeverOverdrawnExactlyWhenNonNegative | cmd/stem/publicingress.go:288-322 | the window bound holds for all call sequences if and only if rate and burst are not negative |
| MintLimiter.MintRateLimiter.Allow | cmd/stem/publicingress.go:302-322 | the method in place decides as the windows do and keeps the bucket of the call history |
| IngressSlots.Slots.TryAcquire | cmd/stem/publicingress.go:267-277 | fails exactly when every slot has a holder, and otherwise adds one holder |
| IngressSlots.Lease.Release | cmd/stem/publicingress.go:267-277 | the first release frees exactly this slot, later ones change nothing |
| ConnectionLimit.ConnectionLimitedListener.Accept | cmd/stem/remotetls.go:116-133 | while connections arrive and accepted ones are closed, the first arrival that finds a free slot is accepted and takes it, and every arrival before it found all slots held and is closed |
| ConnectionLimit.LimitedConn.Close | cmd/stem/remotetls.go:140-144 | closes the connection and frees its slot once |
| PublicIngress.StepKeepsInv | cmd/stem/publicingress.go:77-159 | every step of a request or connection keeps tokens equal to holders, within limits, in nesting order |
| PublicIngress.SlotsAreConserved | cmd/stem/publicingress.go:77-159 | the same over every interleaving, early return and panic |
| PublicIngress.HoldersNest | cmd/stem/publicingress.go:77-159 | observation holders are admission holders, and those and mint holders are request holders |
| PublicIngress.TurnedAwayExactlyWhenAllSlotsAreHeld | cmd/stem/publicingress.go:267-277 | a request is turned away exactly when requests in flight hold all slots of the pool |
| PublicIngress.ServedOnlyAsAdmitted | cmd/stem/publicingress.go:77-159 | on every run: a governed request that is staged or served had its token proven and has an admission slot, and an observation slot exactly when it is a watch; no other has either; a mint past the rate check was allowed and has a mint slot; nothing is served whose body was refused |
| PublicIngress.ServedWhenAllPass | cmd/stem/publicingress.go:77-159 | a request that finds a free slot in every pool it needs, and whose checks pass, reaches its handler with exactly those slots |
| PublicIngress.UnwindingEnds | cmd/stem/publicingress.go:77-159 | a request that turns back, at any stage, ends after its deferred releases |
| PublicIngress.AllSlotsReturn | cmd/stem/publicingress.go:77-159 | when every request ended and every connection was closed, all pools are empty |
| PublicIngress.DisconnectKeepsInv | cmd/stem/remotetls.go:116-144 | closing a connection any number of times frees one slot |
| BodySpool.Spool | cmd/stem/publicingress.go:167-222 | for every bounded reader staging ends at the first ending read; 0, 400, 413 or 503 exactly as that read, its write and the rewind went; on success the file holds exactly the bytes read, on failure the store is as before |
| BodySpool.ReadAll | cmd/stem/publicingress.go:235-254 | the replacement body replays the staged bytes for any buffer size |
| BodySpool.StageAndHandle | cmd/stem/publicingress.go:131-159 | whether creating, writing, reading or seeking fails, and however often the body is closed, no file stays behind; the status is that of the first ending read; a handler that runs sees exactly the bytes read |
| BodySpool.TemporaryBody.Close | cmd/stem/publicingress.go:246-254 | the first close removes the file, later ones do nothing |
| ToolCalls.ListingIsUnique | roots/llm/clientadapter.go:454-471 | there is one ascending listing of the open indexes, and so emission order does not depend on map iteration |
| ToolCalls.Sort | roots/llm/clientadapter.go:454-471 | lists a map's keys in ascending order, whatever order the map gives |
| ToolCalls.InOrderMovesArguments | roots/llm/clientadapter.go:454-471 | emitting all open calls moves every argument byte |
| ToolCalls.InOrderListsCalls | roots/llm/clientadapter.go:454-471 | what is emitted are the open calls, whole, by ascending index |
| OpenAIDecoding.StepConserves | roots/llm/clientadapter.go:379-478 | one chunk, of any content, adds exactly its bytes to what the decoder accounts for |
| OpenAIDecoding.BytesAreConserved | roots/llm/clientadapter.go:379-478 | for every chunk sequence and index, emitted arguments then open arguments are all bytes received |
| OpenAIDecoding.AccumulateAllSpells | roots/llm/clientadapter.go:431-452 | accumulating fragments yields the calls that they spell: first fragment names, bytes in order |
| OpenAIDecoding.SpellingIsUnique | roots/llm/clientadapter.go:431-452 | fragments spell one set of calls only |
| OpenAIDecoding.FragmentationDoesNotMatter | roots/llm/clientadapter.go:379-485 | however calls are cut and interleaved, the same complete calls come out in index order and nothing stays open |
| OpenAIDecoding.OpenExactlyWhenUnfinished | roots/llm/clientadapter.go:454-485 | by the chunks alone: a call is open exactly when some fragment has no chunk at or after it with a finish reason other than "length"; some was emitted exactly when one has |
| AnthropicDecoding.BytesConservedExactlyWhenWellFormed | roots/llm/clientadapter.go:191-263 | all bytes of every index are accounted for if and only if, by the events alone, every delta with bytes falls into a started call and no start cuts off a call that has received bytes |
| AnthropicDecoding.OpenExactlyWhenStarted | roots/llm/clientadapter.go:191-263 | a call is open at an index exactly when some start there is followed by no stop and no other start of it |
| AnthropicDecoding.NothingOpenExactlyWhenStopped | roots/llm/clientadapter.go:191-270 | by the events alone, when nothing stays open and when some call was emitted |
| AnthropicDecoding.RestartLosesBytes | roots/llm/clientadapter.go:243-253 | a start at an open index drops the bytes received there |
| AnthropicDecoding.OthersDoNotMatter | roots/llm/clientadapter.go:191-263 | what is open at an index depends on that index's events alone |
| AnthropicDecoding.FragmentationDoesNotMatter | roots/llm/clientadapter.go:191-270 | however blocks are cut and interleaved, the same calls come out in the order of their stops |
| ProviderCall.StreamDecoder.ParseEvent | roots/llm/clientadapter.go:191-263 | the decoder in place makes the modelled step and reports that step's text, fragment and calls |
| ProviderCall.StreamDecoder.ParseOpenAIish | roots/llm/clientadapter.go:379-478 | the same for the OpenAI-style decoder, with its sorted emission and its length cut |
| ProviderCall.StreamDecoder.Append | roots/llm/clientadapter.go:431-452 | the accumulation loop over a chunk's fragments |
| ProviderCall.ReadStream | roots/llm/client.go:1257-1317 | the scanner loop returns the text and calls of all payloads before the end mark, an error for a broken, truncated or empty stream, and has passed on every token |
| ProviderCall.SuccessReturnsEveryByte | roots/llm/client.go:1257-1317 | a stream with an open call is never a success, and a success has all bytes of every index in its calls |
| ProviderCall.StreamSucceedsExactlyWhen | roots/llm/client.go:1257-1317 | by the chunks alone: an OpenAI-style stream succeeds exactly when it is not broken, nothing in it is unfinished, and it has text or a fragment; and its text |
| ProviderCall.CutSucceedsOnlyIfEnded | roots/llm/clientadapter.go:454-485 | a stream with a call cut off by "length" succeeds only if a later chunk ends the calls |
| ProviderCall.CutSucceedsWhenEnded | roots/llm/clientadapter.go:454-485 | and a stream of a cut fragment and an ending chunk does succeed |
| ProviderCall.AnthropicStreamSucceedsExactlyWhen | roots/llm/client.go:1257-1317 | the same by the events alone: not broken, no start without its stop, and text or a stopped call |
| ProviderCall.TokensSpellTheStream | roots/llm/client.go:1257-1290 | the tokens put together are the texts and argument bytes of all payloads in order |
| ProviderCall.EndMarkEndsTheStream | roots/llm/client.go:1265-1277 | nothing after the end mark counts, and no line that is not data |
| ProviderCall.StreamReturnsSameCalls | roots/llm/clientadapter.go:379-529 | a stream that spells some calls succeeds with the calls of the non-streaming answer that lists them |
| ProviderCall.StreamReturnsCallsInOrder | roots/llm/clientadapter.go:379-485 | the calls that a stream returns are those that it spells, whole, by ascending index |
| ProviderCall.AnthropicStreamReturnsSameCalls | roots/llm/clientadapter.go:191-322 | an Anthropic stream succeeds with the carried calls in the order of their stops, which are those of the non-streaming answer that lists the same tool uses |
| ProviderCall.ParseAnswer | roots/llm/clientadapter.go:272-529 | both non-streaming parsers on a decoded body, with the loop over content blocks |
| ProviderCall.AnthropicAnswerSucceedsExactlyWhen | roots/llm/clientadapter.go:272-322 | an Anthropic answer succeeds exactly when it has a text block that is not blank or a tool use; and its text |
| ProviderCall.TextBlocksAreTexts | roots/llm/clientadapter.go:272-322 | the text is that of the text blocks, trimmed, in order |
| ProviderCall.OtherBlocksAddNoText | roots/llm/clientadapter.go:272-322 | blank texts and blocks of other kinds add nothing |
| ProviderCall.DoCall | roots/llm/client.go:1209-1330 | the outcome of one attempt for every response, streaming or not, and the tokens that it streams |
| Failover.TryCandidates | roots/llm/client.go:497-519 | over the responses of all candidates, each contacted by the modelled call: the first stopping attempt decides and is the last contacted; otherwise all are contacted and the best error is reported |
| Failover.PreferKeepsBest | roots/llm/endpoint.go:416-427 | folding errors keeps the first failure that is not a transport failure, else the first |
| Failover.CallInternal | roots/llm/client.go:463-522 | the candidate loop behind the configuration checks, with or without a token channel; the channel is closed once on every path and has the tokens of everyone contacted |
| Failover.FollowerSeesDeciderOnly | roots/llm/client.go:497-519 | a follower sees just the deciding attempt's tokens exactly when earlier attempts streamed none |
| Failover.StopsExactlyWhen | roots/llm/client.go:497-519 | by the response alone, which ones end the failover |
| Failover.FailureNamesTheCause | roots/llm/client.go:497-519 | when none does, the caller is told of a transport failure exactly when no endpoint was reached |
| Failover.CallReturnsEveryByte | roots/llm/client.go:463-522 | a successful streamed call, whatever the other endpoints answered, returns the text of the stream that decided and all its argument bytes for every index, and its tokens end the channel |
| Failover.AnthropicCallReturnsEveryByteExactlyWhenWellFormed | roots/llm/client.go:463-522 | over an Anthropic stream it returns all argument bytes if and only if that stream's events are well formed |
| CacheMarkers.PayloadBlocks | roots/llm/client.go:1352-1388 | a message becomes its text block and tool blocks, or one tool result, unmarked |
| CacheMarkers.Annotate | roots/llm/clientadapter.go:145-163 | the loop marks in place exactly the last block and those 15 and 30 before it |
| CacheMarkers.BuildRequest | roots/llm/clientadapter.go:80-163 | the blocks of the request are those of the messages in order, marked at those places only, and a system block is marked when there is one |
| CacheMarkers.MessageContributes | roots/llm/client.go:1352-1388 | what a message adds between the blocks of those before and after it |
| CacheMarkers.SystemContributes | roots/llm/clientadapter.go:80-117 | a system message adds its trimmed text to the system block unless it is blank |
| CacheMarkers.MarkerCount | roots/llm/clientadapter.go:118-163 | the exact number of message markers, at most four in all, the last block always marked |
| CacheMarkers.GrowthReachesLastMarker | roots/llm/clientadapter.go:118-163 | after any growth the last marked block is within 20 blocks of a new marker if and only if at most 49 blocks came |
| StableSorting.SortStable | roots/llm/registry.go:228-231 | the in-place sort computes the stable sort |
| StableSorting.SortIsStable | roots/llm/registry.go:228-231 | ranks fall, and within each rank elements and order are kept |
| StableSorting.SortedHeadLeads | roots/llm/registry.go:228-232 | the head of the sorted sequence is the earliest of the highest rank |
| StableSorting.LeaderOfFilter | roots/llm/registry.go:169-232 | what leads the filtered sequence is the best of the whole |
| ModelSelection.SelectBestModelFromRegistry | roots/llm/registry.go:169-232 | availability map, filter loop and sort compute the selection |
| ModelSelection.SelectionIsBest | roots/llm/registry.go:169-232 | the selection is the earliest serving model of the dearest tier, by the names of the tiers, and fails, with the right reason, exactly when none serves |
| ModelSelection.SelectionMeetsDemands | roots/llm/registry.go:169-232 | demand by demand: the selected model meets each, and one that meets all is never passed over for a failure |
| ModelSelection.ResolveForProviderChoice | roots/llm/client.go:604-666 | a pin is returned as it is; without one the constraints are given up in order |
| ModelSelection.OrderedRelaxation | roots/llm/client.go:604-666 | under the ceiling, else at any price with tools, else under the ceiling without tools, each the declared best |
| ModelSelection.TierDecides | roots/llm/registry.go:208-281 | by the names of the tiers: without a relaxation the model is at the asked tier or under it, and of the dearest tier there is among those; every other name counts as premium |
| ModelSelection.RelaxationDecides | roots/llm/client.go:617-656 | with one, tools go before cost, and without any tool model the tier holds |
| ModelSelection.OtherTiersArePremium | roots/llm/client.go:1113-1120 | any other name asks for what "premium" asks for |
| ModelSelection.ToolsOutlastCost | roots/llm/client.go:617-656 | where tools are required, a model that drives tools is taken exactly when any reachable one exists at any price |
| ModelSelection.CeilingGivesWayOnlyToTools | roots/llm/client.go:617-656 | a dearer model is taken exactly when only dearer ones drive the required tools |
| ModelSelection.NeverLeavesTheProvider | roots/llm/client.go:604-666 | a selected model is registered, reachable and of the explicit provider, for any case folding |
| ModelSelection.FailsExactlyWhenNothingFits | roots/llm/client.go:604-666 | resolution fails if and only if nothing fits without tools and, when required, nothing drives tools |
| ChatLoop.StepKeepsInv | cmd/stem/cmdchat.go:213-244 | every step of loop, reader and watch keeps keys, Seeds and phase in agreement |
| ChatLoop.StepIsSafe | cmd/stem/cmdchat.go:422-568 | a Seed is asked for only when all accepted ones are settled; a lost observation is final; a watch finds room on the channel; intent goes to the unsettled Phytomer |
| ChatLoop.EveryRunIsSafe | cmd/stem/cmdchat.go:388-568 | the same for every step of every run |
| ChatLoop.ActiveExactlyWhenWatching | cmd/stem/cmdchat.go:388-472 | while the loop runs, Active holds exactly when one watch is outstanding, and there is never a second |
| ChatLoop.OneSeedPerAcceptedGoal | cmd/stem/cmdchat.go:213-244 | with lost replies and retries, the server keeps one Seed for each accepted goal and at most one unresolved |
| ChatLoop.OnlyItsOwnGoalResolves | cmd/stem/cmdchat.go:213-244 | a goal that was sent stays unresolved exactly when no acceptance was seen; then, on any run that does not type it again, nothing else is dispatched; and typed again it carries the same key and takes the Seed that the server already keeps |
| ChatLoop.InputDoesAsTyped | cmd/stem/cmdchat.go:422-568 | in every reachable world: a goal is dispatched, continued intent is posted for the Seed accepted last, "exit" stops the loop, a lost session lets nothing through; a report settles or loses that Seed; the end of the input stops the loop just when the outstanding report was received |
| ChatSession.DirectChatSession.DispatchSeed | cmd/stem/cmdchat.go:213-244 | the session's fields and the server after a dispatch, for every reply |
| ChatSession.DirectChatSession.HandleLoopInput | cmd/stem/cmdchat.go:474-514 | one line in each state is the modelled step; in the Active state it is posted as continued intent |
| ChatSession.DirectChatSession.HandleObsEvent | cmd/stem/cmdchat.go:518-543 | a terminal report leads to Idle, any other to Lost |
| ChatSession.RunChatLoop | cmd/stem/cmdchat.go:388-472 | the event loop ends where the modelled run ends, for every order of events |
| TreeWalk.WalkDirectory | sprouts/go/main.go:569-608 | a list with room gets the first entries of the unbounded listing that fit, and the result says whether it is full |
| TreeWalk.ListFiles | sprouts/go/main.go:302-342 | defaults, the first entries of the listing, and truncated exactly when the listing has at least that many |
| TreeWalk.ListedExactlyWhenReached | sprouts/go/main.go:569-608 | the listing holds exactly what a chain of children leads to, no longer than the depth limit, through readable directories and past no skipped name and no entry without information |
| TreeWalk.ListingInOrder | sprouts/go/main.go:569-608 | the k-th entry is led to by the k-th chain of child positions, in the order in which a directory comes before its contents and those before its later siblings; each chain that leads anywhere occurs |
| TreeWalk.PathNamesTheChain | sprouts/go/main.go:587-595 | a listed path has the root's components followed by the names on the way to it |
| WorkspacePath.ResolvesExactlyWithinTheRoot | sprouts/go/main.go:522-551 | apart from the named rejections, resolution succeeds if and only if the root's components begin the cleaned path's, and what it returns |
| WorkspacePath.RelLeavesExactlyOutside | sprouts/go/main.go:542-548 | the text test for a leading ".." sees exactly the targets outside the root |
| WorkspacePath.RelativePathLeadsBack | sprouts/go/main.go:522-551 | the relative path has no ".." and leads back to the absolute one |
| PathCleaning.ParentUndoesName | sprouts/go/main.go:535-548 | a name and the ".." after it cancel out in the path that is resolved |
| PathCleaning.DotChangesNothing | sprouts/go/main.go:535-548 | "." and empty components change nothing |
| PathCleaning.ParentLeavesTheRoot | sprouts/go/main.go:535-548 | a path that begins with ".." escapes from a root other than "/" exactly when it does not come back by the root's own name |
| PathCleaning.ParentOfRootIsRoot | sprouts/go/main.go:535-548 | from "/" it is resolved as without the ".." |
| PathCleaning.ParentOfRootStays | sprouts/go/main.go:535-548 | ".." from "/" is "/" |
| PathCleaning.BlankIsTheRoot | sprouts/go/main.go:522-525 | a blank path is the workspace root |
| PathCleaning.RootIsTakenFromHere | sprouts/go/main.go:530-533 | a relative workspace root is taken from where the process stands |
| WorkspacePath.RejectExecutionLocationPath | sprouts/go/main.go:553-567 | the loop ends, and the check sees the path with every run of slashes shortened to one |
| WorkspacePath.RefusedExactlyWhenNamed | sprouts/go/main.go:553-567 | the check refuses exactly a first component "~" and the two named components in a row, by components |
| ExecutionLocation.CleanSpellingReachesExactlyWhen | sprouts/go/main.go:522-567 | a raw path that is spelled clean, relative or absolute, resolves to the location or below it if and only if it is the absolute path of the location and the root has no such pair of components inside |
| ExecutionLocation.AbsoluteSpellingPasses | sprouts/go/main.go:522-567 | the absolute path of the location resolves, with the relative path that is refused when given itself |
| ExecutionLocation.ReachesExactlyWhenPassed | sprouts/go/main.go:522-567 | for every raw path, what is resolved lies at or below the location exactly when the target does and the check passed |
| ExecutionLocation.CheckedParts | sprouts/go/main.go:553-557 | of a path without empty components inside the check sees those components, but for white space at the end of the last |
| ExecutionLocation.DottedSpellingReaches | sprouts/go/main.go:522-567 | for every path at or below the location some raw path, with a "." after each component, resolves to it |
| RegistryEntries.MergeKeepsEveryOtherKey | cmd/stem/cmdgitsetupmerge.go:115-143 | on every outcome all other keys keep value and order, at the root and in both sections; without force nothing that was there is replaced |
| RegistryEntries.MergedEntriesAreFound | cmd/stem/cmdgitsetupmerge.go:115-143 | the merge succeeds exactly when root and sections are mappings and, without force, no entry is there yet; then both entries are found by lookup |
| RegistryEntries.FailedMergeStopsThere | cmd/stem/cmdgitsetupmerge.go:115-143 | what a merge that fails has done: nothing, or the credentials' entry |
| RegistryEntries.ForcedMergeIsIdempotent | cmd/stem/cmdgitsetupmerge.go:81-143 | repeating a forced merge succeeds and equals the second run alone |
| RegistryMerge.MapValue | cmd/stem/cmdgitsetupmerge.go:49-56 | finds the first pair with the key and its place |
| RegistryMerge.GetOrCreateMapping | cmd/stem/cmdgitsetupmerge.go:64-77 | the mapping under the key, made and appended when missing; what was there stays, and no other section changes |
| RegistryMerge.SetMapEntry | cmd/stem/cmdgitsetupmerge.go:81-91 | replaces the first pair by force or appends, in place |
| RegistryMerge.AppendedIsFoundExactlyWhenPaired | cmd/stem/cmdgitsetupmerge.go:49-91 | an appended entry is found if and only if the content list was paired |
| RegistryMerge.MergeConnectionNode | cmd/stem/cmdgitsetupmerge.go:115-143 | the tree in place becomes what the merge function says; the old root pairs stay, and every node under the root but the two sections keeps its content |
| EventStream.DecodeSSEObservations | cmd/stem/localclient.go:266-294 | from the text, scanned into lines, the loop delivers what the complete frames deliver, in order, and ends as they say or as the reading does |
| EventStream.Observer.HandleSSEEvent | cmd/stem/localclient.go:300-313 | one event: an observation, an error, or nothing |
| EventStream.DeliverConcat | cmd/stem/localclient.go:266-294 | delivery stops at the first event that ends the stream |
| EventStream.DeliversUpToTheFirstEnd | cmd/stem/localclient.go:266-313 | the callback gets the observations up to the first event that ends the stream, and the ending is that event's: an error, an unreadable observation, or a callback that fails |
| EventStream.EventsSplitAtBlank | cmd/stem/localclient.go:273-289 | decoding splits at every blank line |
| EventStream.LastEventLineNames | cmd/stem/localclient.go:273-280 | the last event line of a frame names the event |
| EventStream.DataLinesAreKept | cmd/stem/localclient.go:273-280 | every data line counts, in order |
| EventStream.CarriageReturnsAreDropped | cmd/stem/localclient.go:266-272 | lines that end in a carriage return and a newline read as those that end in a newline |
| EventStream.UnfinishedFrameIsDropped | cmd/stem/localclient.go:273-289 | lines that no blank line completes deliver nothing |
| EventStream.ReceivedExactlyWhenTrimmed | cmd/stem/localclient.go:273-280 | line by line an event arrives unchanged exactly when its name and the lines of its data are trimmed |
| EventStream.DecodingInvertsEncoding | cmd/stem/localclient.go:266-294 | scanning and decoding the text that was written gives the events back exactly when no name or line of data is padded and no name holds a newline |
| EnvFile.ReadsBackExactlyWhenPlain | cmd/stem/cmdinit.go:303-317 | a written assignment reads back as one of its key exactly when the key is plain |
| EnvFile.ReplaceInPlace | cmd/stem/cmdinit.go:298-317 | the first loop replaces the first assignment of each key |
| EnvFile.AppendRemaining | cmd/stem/cmdinit.go:319-329 | the second loop appends what is still to be set, under one header |
| EnvFile.UpsertEnvFile | cmd/stem/cmdinit.go:287-332 | from the bytes read to the bytes written |
| EnvFile.FirstAssignmentIsSetExactlyWhen | cmd/stem/cmdinit.go:287-332 | for every list of keys, a listed key is set by its first assignment exactly when it is plain and, unless it was assigned before, the first listed key that reads as it writes the same line; where no other listed key reads as it, exactly when it is plain |
| EnvFile.AssignmentsAfterUpsert | cmd/stem/cmdinit.go:287-332 | for every list of keys, plain or not: every line that is not the first to assign a listed key stays as and where it is, and the exact number of assignments of every key |
| EnvFile.DuplicatesExactlyWhen | cmd/stem/cmdinit.go:284-332 | for every list of keys, when a key gains a duplicate; where all are plain, exactly when it is listed twice and assigned nowhere |
| EnvFileRewrite.RunsRepeatExactlyWhen | cmd/stem/cmdinit.go:284-332 | for every file, keys and values, a second run writes the same bytes exactly when all listed keys are plain and on one line and so are their values, but for newlines at the end of a value that only the last line sets |
| EnvFileRewrite.SecondRunWritesTheSame | cmd/stem/cmdinit.go:284-332 | for keys and values on one line, exactly when all listed keys are plain |
| EnvFileRewrite.ReadCount | cmd/stem/cmdinit.go:294-296 | reading back what was written gives as many lines as were written exactly when only the last holds newlines, at its end |
| EnvFileRewrite.ValueOfTwoLinesIsWrittenAgain | cmd/stem/cmdinit.go:287-332 | a value of two lines is read back as two lines, and the second run adds its second line again |
| Forwarding.StepKeepsInv | internal/mcpclient/forward.go:96-194 | every step of every call keeps cache and histories in agreement |
| Forwarding.EveryCallIsBounded | internal/mcpclient/forward.go:126-161 | at most two sends and two mints; a second send only after a 401 and under a newer token; a reused token had more than a minute left |
| Forwarding.ExecutedAtMostOnce | internal/mcpclient/forward.go:126-161 | a frame is executed twice only if the Stem executed one that it refused |
| Forwarding.ResultIsFinal | internal/mcpclient/forward.go:126-161 | a call has exactly one result |
| Forwarding.AtMostFiveSteps | internal/mcpclient/forward.go:126-161 | a call ends after at most five steps of its own: it has its result or can take a step, whatever clock and Stem do, and only its own steps bring it nearer |
| Forwarding.TokenIsReusedExactlyWhen | internal/mcpclient/forward.go:96-115 | a cached token with more than a minute left is used and none minted; otherwise one is minted, cached and used |
| Forwarding.AloneDoesAsAnswered | internal/mcpclient/forward.go:126-161 | by the answers alone, what an uninterrupted call sends, mints, caches and gives |
| Forwarding.Forwarder.EnsureToken | internal/mcpclient/forward.go:96-115 | reuse, mint or failure, and the cache afterwards |
| Forwarding.Forwarder.Forward | internal/mcpclient/forward.go:126-161 | an uninterrupted call's result and cache |
| Forwarding.AloneHasItsOutcome | internal/mcpclient/forward.go:126-161 | that outcome is the one of the interleaved machine when no other call acts |
| Text.TrimSpaceFixes | cmd/stem/localclient.go:273-280 | trimming leaves exactly the trimmed strings as they are |
| Text.SplitJoin | cmd/stem/cmdinit.go:287-332 | splitting inverts joining |
| Text.JoinSplit | cmd/stem/cmdinit.go:287-332 | joining inverts splitting |

## Left out

- LocalSocketHandle.LocalSocketFile.Close: the HTTP server and the listener are one field, since `Close` clears both before it touches the name; the drain of open requests is not modelled.
- LocalSocketHandle.OpenLocalSocket: a process that opens again gives up its earlier handle; calls on the earlier handle while the later socket serves are not modelled.
- Processes that replace the socket path without taking the lock: the safety theorems are about Stems. `LocalSocket.CloseRemovesOnlyItsOwn` holds in any world, but only for an uninterrupted Close.
- MintLimiter.MintRateLimiter.Allow: exact reals instead of float64, so rounding is not modelled; the nil limiter, which always refuses, is left out.
- ConnectionLimit.ConnectionLimitedListener.Accept: what other goroutines do while it waits is limited to closing accepted connections; a concurrent Accept is the subject of `PublicIngress`. An error of the inner listener ends the call before a slot is asked for and is not modelled.
- PublicIngress: routing, TLS, headers and the bodies of responses; a handler may return or panic at every point.
- BodySpool.Spool: a write to the temporary file succeeds or fails as a whole, and removing a file always succeeds.
- ProviderCall: JSON decoding (models start from decoded payloads), HTTP, headers, context cancellation, and token usage, which is copied field by field. In streaming mode the text is returned untrimmed, in the other mode trimmed, and `StreamReturnsSameCalls` is therefore about calls only; an Anthropic answer's tool input is taken as the text that Go renders from it.
- Failover.CallInternal: the configuration checks before the first contact are one parameter; the wording of errors is not modelled.
- CacheMarkers.BuildRequest: tools, temperature and the JSON encoding of the payload; the grouping of blocks into messages is kept but only the flattened order is stated.
- ModelSelection: lower-casing and case-insensitive comparison of provider names are parameters, as Go folds by its Unicode tables; discovery and caching of the registry; building a provider's endpoint from the chosen model.
- ChatLoop: rendering, the flags of the command, time, and the random source, whose keys are taken to be fresh or a failure. The server's one Seed for a key is a contract on code that is not part of this model.
- ChatSession.RunChatLoop: the order of events is a parameter, as Go's select chooses freely.
- TreeWalk.WalkDirectory: the children come sorted; names that differ in case only are in no order that the source fixes. Symbolic links are entries of their own kind.
- WorkspacePath: symbolic links and races in the file system, since the code makes a claim about text only; path separators other than the slash; failures of `filepath.Abs`.
- RegistryMerge: YAML parsing and rendering, comments other than the root's, and the atomic replacement of the file, which are not part of this model; a nil mapping node.
- EventStream.DecodeSSEObservations: the scanner's line-length limit.
- EnvFile.UpsertEnvFile: errors of reading and writing the file.
- Forwarding.Forwarder.Forward: the frame's id, headers and JSON form of the error frame.
- Cost assessment, authorization routing, the hardiness report, connection profiles, command-line flags, the setup wizards and the user interfaces: decisions of one branch each, or code that lives outside the modelled files.
