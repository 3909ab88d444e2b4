# Euxis, verified core

A Dafny model of the parts of Euxis that carry its guarantees: the MCP tool-call path between
client and gateway, the credential store with its rotation, cooldowns and persistence, the chat
engine's background workers, the attestation chain (Base64, DSSE, signing, bundles), the
diff-rendering terminal screen, the certification verdict, and four smaller components with
exact contracts (the server-sent-event line parser, the prefix index behind ghost text, the
binary agent card, the benchmark matrix).

How the model is built:

- A C++ class whose methods update its fields is a Dafny class with the same fields. Each method
  is proved equal to a function on values (`View() == F(old(View()))`), and the theorems are about
  those functions, over every input, every run or every interleaving.
- A `std::string` is a Dafny string with one character per byte. Fixed-width arithmetic
  (`size_t`, `uint32_t`, `int64_t`, `uint8_t`) is written out where it can wrap or overflow; where the
  language leaves the result undefined the model says so with a value of its own.
- The JSON library is a parameter: a `Codec` with `dump` and `parse`, `Faithful` when parsing
  undoes dumping and a dump is not empty. The signature scheme is a parameter too, and so are the
  clock, the spawned process and the results of provider calls.

| file | component |
|---|---|
| Text.dfy, JsonValue.dfy | numbers in decimal, `std::stoull`, `find`; JSON values |
| McpFraming.dfy, McpHost.dfy, McpClient.dfy | framed messages, the gateway's dispatcher and loop, the client |
| AuthStore.dfy, AuthRuns.dfy, AuthSecrets.dfy, AuthRotation.dfy, AuthPersistence.dfy | credential resolution, cooldowns over runs, the secrets handed out, rotation, save and reload |
| ChatWorker.dfy, ChatOutcome.dfy | workers and shutdown as a step protocol, and what one task leaves behind |
| Base64.dfy, Dsse.dfy, Bundle.dfy | encoding, envelopes and signatures, transport |
| Utf8.dfy, Terminal.dfy, Screen.dfy, ScreenText.dfy | code points, the receiving terminal, the screen buffers, where written text lands |
| Certification.dfy, CertificationVerdict.dfy, CertificationRun.dfy, CertificationSample.dfy | domain evaluation and verdict, the verdict's limits and points, evidence collected from a directory, one directory followed through |
| SseStream.dfy, GhostText.dfy, AgentCard.dfy, ResultMatrix.dfy | the four smaller components |

Properties one would expect of the code and which it does not have are stated as lemmas with a
concrete input, next to the condition under which the property does hold:

- The client's scan of the replies never ends on `Content-Length: -23`, because the sum of offset
  and length wraps (`ScanMayLoopForever`); without wrapping it always ends (`ScanTerminates`), and
  `ScanIsDecided` settles every output.
- The cooldown product leaves `int64_t` after 21 rate-limit or 39 billing failures in a row
  (`FitsExactly`); a rate limit reported after a billing error shortens the cooldown
  (`RateLimitShortensBilling`), and `FailureShortensExactly` says which reports do.
- Two profiles may share an id, and then rotation starves one (`SharedIdsStarve`); rotation is fair
  exactly while every profile is the first of its id (`FairExactly`).
- A key added under the label of an earlier sign-in is stored and never handed out
  (`KeyOverSignInIsIgnored`); otherwise an added key is what its profile hands out
  (`AddedKeyIsHandedOut`).
- A restart loses environment keys (`ReloadNoticed`) and keeps every other pick of an unpinned store
  (`ReloadKeepsWinner`); a bundle loses a version without a kind and a proof that is not an object
  (`BundleLoses`), and nothing else (`BundleSurvives`).
- An exception in a task leaves `shutdown` waiting for ever: from a provider call (`OneThrowHangs`),
  from the lookup of a fallback chain that lists names instead of objects (`LookupHangs`), or from
  reading the prompt files (`PreparationHangs`). The wait ends exactly when there was none
  (`ShutdownEndsExactly`).
- Adding a change log may turn READY into READY WITH GAPS (`EvidenceMayCostReady`,
  `ReadyKeptExactly`), though adding files never fails a run (`MoreFilesNeverFail`). No directory
  ever has its Governance domain verified (`GovernanceNeverVerified`).
- A negative percentage can yield a value below the column's minimum (`NegativePercentage`,
  `PercentileBetween`).
- An agent card with more than 10000 capabilities (`CrowdedCardRefused`), or one so large that a
  32-bit bounds check fails, is not read back (`CardRoundTrip`); a strict prefix of an encoding may
  be accepted where a size is cut to 32 bits (`HugeCardPrefixAccepted`), and nowhere else
  (`EncodingPrefixesRejected`).

## Model

| member | source | states |
|---|---|---|
| McpFraming.WriteFrame | apps/gateway/src/mcp_stdio.cpp:25-29 | appends exactly one frame of the dumped message to the output |
| McpFraming.ReadFrameFrom | apps/gateway/src/mcp_stdio.cpp:31-68 | the header loop over a mutable stream gives the message and leaves the stream that the stream function `ReadFrame` says, end-of-file and failure flags included |
| McpFraming.LengthLine | apps/gateway/src/mcp_stdio.cpp:43-50 | a length header sets the length exactly when the number is below 2^64 and ends the reading otherwise |
| McpFraming.ReadFrameOfFrame | apps/gateway/src/mcp_stdio.cpp:25-68 | reading undoes framing for every non-empty body whatever follows; an empty body reads as no message |
| McpFraming.OtherHeaderIgnored | apps/gateway/src/mcp_stdio.cpp:36-51 | any other header line is passed over, with or without a carriage return |
| McpFraming.CutFrameIsNone | apps/gateway/src/mcp_stdio.cpp:53-61 | a frame that ends before its body does is no message and drains the stream |
| McpFraming.KnownFrame | apps/gateway/src/mcp_stdio.cpp:25-29 | the frame of an empty object, byte for byte |
| McpFraming.ReadFrameAtEnd | apps/gateway/src/mcp_stdio.cpp:36-53 | a drained stream yields no message |
| McpFraming.ReadAllOfFrames | apps/gateway/src/mcp_stdio.cpp:10-68 | any sequence of messages sent as frames arrives complete and in order |
| McpHost.McpServer.RegisterTool | apps/gateway/src/mcp.cpp:29-37 | lists the tool once more and lets its handler take over the name |
| McpHost.McpServer.RegisterResource | apps/gateway/src/mcp.cpp:39-51 | lists the resource once more and lets its handler take over the URI |
| McpHost.McpServer.HandleRequest | apps/gateway/src/mcp.cpp:53-95 | the branches in the source's order give the dispatcher's answer, or an escaping exception; only initialize changes the host |
| McpHost.McpServer.HandleToolsList | apps/gateway/src/mcp.cpp:116-127 | the loop lists every registration in order |
| McpHost.McpServer.HandleToolsCall | apps/gateway/src/mcp.cpp:129-149 | the dumped result as text, the tool error, the unknown-tool error, or an escaping exception |
| McpHost.McpServer.ProcessOne | apps/gateway/src/mcp_stdio.cpp:14-23 | one turn leaves exactly the rest of the server's run to do and consumes input |
| McpHost.McpServer.RunLoop | apps/gateway/src/mcp_stdio.cpp:10-12 | the loop over the streams writes what `Serve` gives for that input, and ends |
| McpHost.OneExchange | apps/gateway/src/mcp_stdio.cpp:14-23 | a frame at the head of the input is one turn of the dispatcher |
| McpHost.ServerRefinesDispatcher | apps/gateway/src/mcp_stdio.cpp:10-68 | for every sequence of framed requests the server writes exactly the frames of the dispatcher's replies and ends in its state |
| McpHost.GateOverRuns | apps/gateway/src/mcp.cpp:53-95 | over whole conversations a reply is "not initialized" if and only if its request is a well-formed gated call with no initialize before it |
| McpHost.RepliesMatchRequests | apps/gateway/src/mcp.cpp:53-95 | over whole conversations each request gets one response, in order, with its id and either a result or an error, until an exception ends the loop |
| McpHost.RefusedOutright | apps/gateway/src/mcp.cpp:53-95 | code -32600 if and only if version or method is missing, "Server not initialized" for gated methods before initialize, and "Method not found" after it for every method that is none of the seven |
| McpHost.PlainMethods | apps/gateway/src/mcp.cpp:72-92 | a ping is answered with an empty object, the list methods with the lists |
| McpHost.ListsReadBack | apps/gateway/src/mcp.cpp:116-164 | a reader of the lists finds every registration at its place with all that was registered |
| McpClient.ScriptIsThreeFrames | apps/cli/src/mcp_provider.cpp:61-89 | what the client sends is the frames of initialize, initialized and tools/call in this order |
| McpClient.ScanReplies | apps/cli/src/mcp_provider.cpp:121-143 | the scan loop, wrapped sums included, gives the last body that parses, or finds that it never ends |
| McpClient.ScanIsDecided | apps/cli/src/mcp_provider.cpp:121-143 | for every output: the scan is endless if and only if the source's loop goes on after any number of turns, and otherwise its result is that of any number of turns that suffices |
| McpClient.StepWraps | apps/cli/src/mcp_provider.cpp:133-142 | a turn ends behind the header it read if and only if offset plus length does not reach 2^64 |
| McpClient.ScanTerminates | apps/cli/src/mcp_provider.cpp:125-143 | when no length written after a header label makes the sum wrap, the loop ends within one turn per byte plus one |
| McpClient.SaneScanFinishes | apps/cli/src/mcp_provider.cpp:125-143 | under the same condition the scan has a result |
| McpClient.ScanMayLoopForever | apps/cli/src/mcp_provider.cpp:133-142 | on one concrete output the loop is back at position 0 after any number of turns |
| McpClient.StepOverFrame | apps/cli/src/mcp_provider.cpp:125-143 | a turn at a frame takes exactly its body and moves just past it |
| McpClient.ScanOfFrames | apps/cli/src/mcp_provider.cpp:121-143 | on any sequence of frames the scan returns the last body that parses |
| McpClient.McpProviderBridge.Execute | apps/cli/src/mcp_provider.cpp:47-167 | the response for an unknown server, a server without command, a failed process and every output whose scan ends; the lemmas below say what that is for each kind of output |
| McpClient.JoinContent | apps/cli/src/mcp_provider.cpp:156-159 | the loop over a content array gives the texts one after the other, or throws |
| McpClient.ContentAppends | apps/cli/src/mcp_provider.cpp:156-159 | the content of two arrays in a row is the content of the first followed by that of the second |
| McpClient.LastMessageCounts | apps/cli/src/mcp_provider.cpp:121-166 | whatever a server framed before it, the response is that to the last framed message |
| McpClient.TextsArriveInOrder | apps/cli/src/mcp_provider.cpp:153-163 | any texts any server sends as one result come back joined in their order, items without text passed over |
| McpClient.OddTextThrows | apps/cli/src/mcp_provider.cpp:157-159 | a text that is no string, anywhere in the array, ends the call with an exception |
| McpClient.OtherMessages | apps/cli/src/mcp_provider.cpp:145-166 | a last message with an error, with a result without content array, with neither, or null |
| McpClient.UnparsedOutputReported | apps/cli/src/mcp_provider.cpp:137-147 | frames none of which parses are reported as a failure together with the whole output |
| McpClient.ResponseOfCall | apps/cli/src/mcp_provider.cpp:145-166 | the response read from a tools/call reply is the direct call in the client's terms |
| McpClient.ToolCallEndToEnd | apps/cli/src/mcp_provider.cpp:61-166 | whatever state the host is in, running the script through it and scanning the replies is exactly calling the handler: its dumped result, its error, or the unknown-tool error, never "not initialized", and the message it comes from carries the call's id |
| McpClient.CallStandsOut | apps/cli/src/mcp_provider.cpp:61-89 | no response to the call answers another message of the script, and client and gateway name the same protocol version |
| McpClient.ResourceReadEndToEnd | apps/gateway/src/mcp.cpp:166-188 | whatever state the host is in, an initialize and a framed resources/read bring back, through dump and parse, the very value the URI's handler returns, its error, or the unknown-URI error |
| AuthStore.PrecedesIsTotalOrder | apps/cli/src/auth_profile_store.cpp:423-440 | comparator and position together are a strict total order |
| AuthStore.SuppressionLeavesOne | apps/cli/src/auth_profile_store.cpp:399-442 | dropping environment keys never empties the candidates, so taking the front is safe |
| AuthStore.ChosenIsUnique | apps/cli/src/auth_profile_store.cpp:377-449 | the declarative specification of the choice names at most one profile |
| AuthStore.PickMeetsSpec | apps/cli/src/auth_profile_store.cpp:377-449 | a profile is picked if and only if one is eligible, and it is the one the specification names: the pinned candidate, else the first in order |
| AuthStore.AuthProfileStore.PickBest | apps/cli/src/auth_profile_store.cpp:377-449 | gathering, suppressing, pin search and stable sort compute that choice, and the answer carries the chosen profile's id, provider, kind and secret |
| AuthStore.GatherEligible | apps/cli/src/auth_profile_store.cpp:380-397 | the candidates are exactly the eligible profiles in list order, with the flag for a CLI sign-in |
| AuthStore.StableSort | apps/cli/src/auth_profile_store.cpp:429-440 | the result is ordered by comparator, then original position, and has the same members |
| AuthStore.FallbackMeetsSpec | apps/cli/src/auth_profile_store.cpp:123-139 | the answer comes from the first provider of the chain with an eligible profile and is missing if and only if none has one |
| AuthStore.AuthProfileStore.ResolveOne | apps/cli/src/auth_profile_store.cpp:118-121 | resolves as specified, with the secret of the chosen profile |
| AuthStore.AuthProfileStore.ResolveAny | apps/cli/src/auth_profile_store.cpp:123-139 | the fallback loop resolves as specified |
| AuthStore.AuthProfileStore.PinSession | apps/cli/src/auth_profile_store.cpp:143-151 | sets the pin and nothing else |
| AuthStore.AuthProfileStore.AddKey | apps/cli/src/auth_profile_store.cpp:37-61 | rewrites the first profile of the id or appends a new key profile |
| AuthStore.AuthProfileStore.AddSignIn | apps/cli/src/auth_profile_store.cpp:63-93 | rewrites the first profile of the id or appends a new sign-in |
| AuthStore.AuthProfileStore.ImportProfile | apps/cli/src/auth_profile_store.cpp:207-224 | appends an import with a secret unless its source already has one for the provider |
| AuthStore.AuthProfileStore.RemoveProfile | apps/cli/src/auth_profile_store.cpp:95-100 | drops every profile of that id, its cooldown and a pin on it |
| AuthStore.AuthProfileStore.ReportFailure | apps/cli/src/auth_profile_store.cpp:155-166 | counts the failure and sets reason and deadline, or overflows in exactly the stated cases |
| AuthStore.AuthProfileStore.ReportSuccess | apps/cli/src/auth_profile_store.cpp:168-179 | clears the cooldown and stamps the first profile of that id only |
| AuthStore.ComputeCooldown | apps/cli/src/auth_profile_store.cpp:462-484 | the multiplying loop gives the capped power, or overflows |
| AuthStore.FitsExactly | apps/cli/src/auth_profile_store.cpp:466-483 | the product fits 64 bits if and only if the count is at most 39 (billing) or 21 (rate limit, authentication) |
| AuthStore.DelayGrows | apps/cli/src/auth_profile_store.cpp:462-484 | more failures in a row never mean a shorter delay, and no delay exceeds its cap |
| AuthSecrets.CooldownLadder | apps/cli/src/auth_profile_store.cpp:462-484 | the delays for every count: 1, 5, 25, 60 minutes, 5, 10, 20, 24 hours, always 24 hours, and where they overflow |
| AuthSecrets.SecretOfChosen | apps/cli/src/auth_profile_store.cpp:409-449 | a resolution hands out the access token of the chosen profile if it is a sign-in and its key otherwise |
| AuthSecrets.AnswersExactly | apps/cli/src/auth_profile_store.cpp:377-397 | there is an answer if and only if some profile of the provider is neither cooling nor expired |
| AuthSecrets.ChosenServes | apps/cli/src/auth_profile_store.cpp:384-407 | the chosen profile is neither cooling nor expired, and no environment key while an imported sign-in serves |
| AuthSecrets.ChosenIsPreferred | apps/cli/src/auth_profile_store.cpp:399-442 | without a pin: imports, then sign-ins, then keys, then longest unused, then first listed |
| AuthSecrets.PinIsFollowed | apps/cli/src/auth_profile_store.cpp:409-421 | a pin on a profile that serves is followed unless an import hides it |
| AuthSecrets.AddedKeyIsHandedOut | apps/cli/src/auth_profile_store.cpp:37-61 | an added key is the token its profile hands out, unless the profile of that id is a sign-in, which keeps its own |
| AuthSecrets.AddedSignInIsHandedOut | apps/cli/src/auth_profile_store.cpp:63-93 | the same for a sign-in, unless the profile of that id is a key |
| AuthSecrets.NewProfiles | apps/cli/src/auth_profile_store.cpp:53-93 | a profile added for the first time is appended, never used, of its provider and no import |
| AuthSecrets.KeyOverSignInIsIgnored | apps/cli/src/auth_profile_store.cpp:45-51 | on one store, a key added under the label of a sign-in is not handed out |
| AuthSecrets.ImportedProfiles | apps/cli/src/auth_profile_store.cpp:207-313 | what each program's sign-in and an environment variable bring in: provider, source, kind and secret |
| AuthSecrets.ImportsExactly | apps/cli/src/auth_profile_store.cpp:207-313 | an import is appended if and only if it has a secret and its source none yet for the provider |
| AuthSecrets.ImportedOnce | apps/cli/src/auth_profile_store.cpp:37-313 | over every run there is at most one import per source and provider |
| AuthSecrets.ImportedSignInWins | apps/cli/src/auth_profile_store.cpp:183-449 | a fresh sign-in imported into an unpinned store that has none is what resolution hands out, whatever keys there are |
| AuthSecrets.HandedOutWasSupplied | apps/cli/src/auth_profile_store.cpp:37-313 | over every run, each token handed out was supplied for that id by an addition or import and the id not removed since |
| AuthSecrets.RemovedIsGone | apps/cli/src/auth_profile_store.cpp:95-100 | removal takes out exactly the profiles of that id |
| AuthSecrets.RemovalKeepsOrder | apps/cli/src/auth_profile_store.cpp:95-100 | and leaves the others in their order |
| AuthSecrets.RemovedNeverResolves | apps/cli/src/auth_profile_store.cpp:95-139 | a removed id resolves nowhere, its cooldown and a pin on it are gone, and nothing else is |
| AuthRuns.TableMatchesLog | apps/cli/src/auth_profile_store.cpp:95-179 | after any log of events the table holds the failures since the last success or removal and the deadline of the last failure |
| AuthRuns.CooldownSafety | apps/cli/src/auth_profile_store.cpp:118-179 | over every run no resolution, with or without fallback, hands out a profile before the deadline of its last counting failure, pinned or not |
| AuthRuns.DeadlineOfLast | apps/cli/src/auth_profile_store.cpp:155-166 | the deadline is the last failure's time plus the delay for the whole streak under that failure's reason |
| AuthRuns.ShortensExactly | apps/cli/src/auth_profile_store.cpp:462-484 | for every pair of reasons and every streak, whether the next failure means a shorter delay than the last |
| AuthRuns.FailureShortensExactly | apps/cli/src/auth_profile_store.cpp:155-166 | over any log, a further failure lets the profile back earlier if and only if its reason shortens the delay and it comes sooner than it shortens it by |
| AuthRuns.RateLimitShortensBilling | apps/cli/src/auth_profile_store.cpp:155-166 | a rate limit after a billing error moves the deadline from five hours to five minutes |
| AuthRotation.PickLeadsTop | apps/cli/src/auth_profile_store.cpp:423-442 | without a pin the pick is the one member of the top class that precedes all its others, so a least recently used one |
| AuthRotation.SuccessKeepsCandidates | apps/cli/src/auth_profile_store.cpp:168-179 | reporting success stamps the first profile of the id and changes no profile's candidacy |
| AuthRotation.WindowUsesTheWaiting | apps/cli/src/auth_profile_store.cpp:168-449 | the rounds of a window use exactly the profiles that are still waiting, each once |
| AuthRotation.RotationIsFair | apps/cli/src/auth_profile_store.cpp:168-449 | over unbounded runs any k consecutive rounds use each of the k profiles of the top class exactly once, when each is the first profile of its id |
| AuthRotation.PickedAgain | apps/cli/src/auth_profile_store.cpp:168-179 | a picked profile with an earlier namesake is picked again in the next round |
| AuthRotation.FairExactly | apps/cli/src/auth_profile_store.cpp:168-449 | in every run of more rounds than profiles, every window is fair if and only if each profile of the class is the first of its id |
| AuthRotation.SharedIdsHappen | apps/cli/src/auth_profile_store.cpp:37-61 | a key labelled "env" and the imported environment key get the same id |
| AuthRotation.SharedIdsStartStarving | apps/cli/src/auth_profile_store.cpp:168-179 | one round from the store with the shared id picks its first profile and leaves it starving |
| AuthRotation.SharedIdsStarve | apps/cli/src/auth_profile_store.cpp:168-179 | in every run from that store only the first round uses the first profile |
| AuthPersistence.ToJson | apps/cli/src/auth_profile_store.cpp:527-571 | the written document is the function of the store that the round trips are about |
| AuthPersistence.LoadFromJson | apps/cli/src/auth_profile_store.cpp:486-525 | loading replaces the profiles and updates both maps entry by entry, takes arrays and objects alike, and where a member has an unexpected type stops with what was read so far |
| AuthPersistence.ProfileRoundTrip | apps/cli/src/auth_profile_store.cpp:489-549 | every profile comes back but for non-positive expiry times, which become 0 |
| AuthPersistence.SaveLoad | apps/cli/src/auth_profile_store.cpp:486-571 | saving and loading into a new store keeps every cooldown, every chain and every profile that is no environment key, and restores default chains |
| AuthPersistence.ChainsSurvive | apps/cli/src/auth_profile_store.cpp:12-33 | the chains come back unchanged if and only if the saved store still has the default ones |
| AuthPersistence.RunsSurviveReload | apps/cli/src/auth_profile_store.cpp:12-33 | so after any run from a new store, reloading gives chains and cooldowns back unchanged |
| AuthPersistence.ReloadResolvesWithoutEnv | apps/cli/src/auth_profile_store.cpp:377-571 | at every time the reloaded store resolves as the saved one without environment keys and pin |
| AuthPersistence.ReloadKeepsWinner | apps/cli/src/auth_profile_store.cpp:377-571 | at every time a reload keeps the pick of an unpinned store if and only if it is no environment key |
| AuthPersistence.ReloadUnnoticed | apps/cli/src/auth_profile_store.cpp:118-121 | in that case resolution is the same before and after a restart |
| AuthPersistence.FallbackUnnoticed | apps/cli/src/auth_profile_store.cpp:123-139 | and so is resolution with fallback when it holds along the chain |
| AuthPersistence.SignInIsUnaffected | apps/cli/src/auth_profile_store.cpp:401-407 | an eligible CLI sign-in is such a case |
| AuthPersistence.DefaultFallbacks | apps/cli/src/auth_profile_store.cpp:17-23 | a new store falls back from each provider to the other three in a fixed order, and from Anthropic as from Claude |
| AuthPersistence.SparseMembers | apps/cli/src/auth_profile_store.cpp:486-525 | members a document leaves out are empty, an entry without a reason is a rate limit, and an empty document changes nothing |
| AuthPersistence.ReloadNoticed | apps/cli/src/auth_profile_store.cpp:532-534 | an environment key resolves before a restart and not after it |
| ChatWorker.StepKeepsSound | apps/etx/src/chat_engine.cpp:123-290 | every step keeps a worker's record: calls within their bound, at most one outcome, an outcome that tells whether the last call succeeded |
| ChatWorker.RunsAreBalanced | apps/etx/src/chat_engine.cpp:85-291 | in every interleaving the counter equals the number of workers that have not decremented, and each makes at most 2 + chain length calls |
| ChatWorker.ShutdownWaitsForAll | apps/etx/src/chat_engine.cpp:294-300 | the wait loop's condition fails if and only if every worker is done, and then each has posted exactly one outcome that its calls explain |
| ChatWorker.WorkersEnd | apps/etx/src/chat_engine.cpp:123-290 | every step a worker takes brings it nearer to its end |
| ChatWorker.EnoughTurnsEnd | apps/etx/src/chat_engine.cpp:123-290 | whatever the others do, a worker is over after 2 * chain length + 11 turns of its own |
| ChatWorker.ThrowHangsShutdown | apps/etx/src/chat_engine.cpp:119-123 | once a task's preparation, call or chain lookup has thrown, the counter stays positive in every continuation |
| ChatWorker.OneThrowHangs | apps/etx/src/chat_engine.cpp:119-141 | one prompt whose only call throws is enough, whatever the store |
| ChatWorker.NamesOnlyThrows | apps/cli/src/provider_router.cpp:698-709 | looking up a configured chain that lists model names throws |
| ChatWorker.LookupHangs | apps/etx/src/chat_engine.cpp:225-228 | with that chain, one rate limit on the only credential keeps the counter positive for ever, though no call threw |
| ChatWorker.PreparationHangs | apps/etx/src/chat_engine.cpp:85-110 | and so does an exception from reading the prompt files, which comes after the counter is raised |
| ChatWorker.ShutdownEndsExactly | apps/etx/src/chat_engine.cpp:294-300 | after any run, once each worker has had its turns the wait is over if and only if no preparation, no call and no chain lookup has thrown |
| ChatWorker.RotationMovesOn | apps/etx/src/chat_engine.cpp:176-193 | resolving after a failure report never gives the reported profile before its deadline |
| ChatOutcome.AloneIsARun | apps/etx/src/chat_engine.cpp:123-290 | a task on its own is a run of the engine with one worker |
| ChatOutcome.FirstTrySucceeds | apps/etx/src/chat_engine.cpp:143-177 | a first call that succeeds credits and pins its profile, leaves the store alone without one, and is posted |
| ChatOutcome.UnclassifiedFailure | apps/etx/src/chat_engine.cpp:178-290 | a failure without a known reason or without a profile is posted as an error, with nothing reported or tried |
| ChatOutcome.Rotates | apps/etx/src/chat_engine.cpp:178-196 | a failure for a known reason is reported and another profile looked for |
| ChatOutcome.SecondTrySucceeds | apps/etx/src/chat_engine.cpp:196-222 | the other profile is credited and pinned while the first keeps its report |
| ChatOutcome.SecondTryFails | apps/etx/src/chat_engine.cpp:201-227 | its failure is not reported and the chain is looked up |
| ChatOutcome.ModelPassedOver | apps/etx/src/chat_engine.cpp:227-232 | a model without a profile of its own provider, or whose call fails, changes nothing |
| ChatOutcome.ModelAnswers | apps/etx/src/chat_engine.cpp:227-268 | the first model that answers is credited and the pin stays |
| ChatOutcome.ChainExhausted | apps/etx/src/chat_engine.cpp:227-290 | a chain without an answer is posted as an error |
| ChatOutcome.ConfiguredChain | apps/cli/src/provider_router.cpp:698-712 | a configured chain throws if and only if an entry is no object with strings under provider and model, and otherwise names its providers in order |
| ChatOutcome.BuiltInChain | apps/cli/src/provider_router.cpp:714-743 | the built-in chains end with the local models, never fall back to Gemini, nor to the provider the model's own name gives away |
| Base64.LowBits | libs/attest/src/dsse.cpp:106-107 | wrapping the accumulator at 32 bits leaves its pending bits alone |
| Base64.TrackByte | libs/attest/src/dsse.cpp:106-111 | the accumulator emits exactly the next byte of the unbounded bit stream |
| Base64.Base64Decode | libs/attest/src/dsse.cpp:91-114 | equals the unbounded bit-stream decoder on every input, including which inputs are rejected |
| Base64.Base64Encode | libs/attest/src/dsse.cpp:52-84 | the loop over groups of three gives the alphabet's symbols for the data and its padding |
| Base64.EncodedBits | libs/attest/src/dsse.cpp:52-84 | the symbols carry the bits of the data followed by fewer than six zero bits |
| Base64.Base64RoundTrip | libs/attest/src/dsse.cpp:52-114 | decoding an encoding gives the data back, for every byte sequence |
| Base64.SymbolIsInTable | libs/attest/src/dsse.cpp:52-84 | the symbols are those of the table of section 4 of RFC 4648, in its order |
| Base64.RejectsExactly | libs/attest/src/dsse.cpp:99-105 | a text is rejected if and only if something outside the alphabet comes before the first padding or white space |
| Base64.RestIgnored | libs/attest/src/dsse.cpp:100-100 | what follows padding or white space is ignored |
| Base64.EncodedLength | libs/attest/src/dsse.cpp:52-84 | an encoding has four characters for every three bytes begun |
| Base64.KnownAnswers | libs/attest/tests/test_dsse.cpp:31-36 | the encodings of M, Ma and Man |
| Dsse.ComputePae | libs/attest/src/dsse.cpp:30-50 | builds the pre-authentication encoding |
| Dsse.PaeInjective | libs/attest/src/dsse.cpp:30-45 | the encoding determines the payload type and the payload |
| Dsse.PaeKnownAnswers | libs/attest/tests/test_dsse.cpp:9-19 | the encodings of two short payloads |
| Dsse.StatementReadsBack | libs/attest/src/statement.cpp:8-27 | what is written for a statement is read back, by a reader of the in-toto Statement v1 layout, as that statement: every subject, digest and predicate |
| Dsse.SerialiseInjective | libs/attest/src/statement.cpp:29-37 | the bytes that are signed determine the statement |
| Dsse.SignsExactly | libs/attest/src/statement.cpp:39-88 | a statement is signed if and only if it has subjects, each with name and hexadecimal digests, and a predicate type with a colon; one signature with the given key id |
| Dsse.SignStatement | libs/attest/src/signing.cpp:18-47 | signs the encoding of the serialised statement, or refuses it |
| Dsse.VerifyEnvelope | libs/attest/src/signing.cpp:49-93 | the loop over signatures accepts if and only if some well-formed one verifies, with the errors in their order |
| Dsse.RefusedFor | libs/attest/src/signing.cpp:52-86 | which complaint comes first: no signatures, then an unreadable payload, then no match |
| Dsse.SignVerify | libs/attest/src/signing.cpp:18-93 | a signed statement verifies under the matching key among any other signatures and is returned unchanged |
| Dsse.MalformedIgnored | libs/attest/src/signing.cpp:66-82 | a malformed signature added anywhere among others never changes the result |
| Dsse.Authentic | libs/attest/src/signing.cpp:49-93 | if only signed messages verify, a verified payload was signed under the very type the envelope names |
| Dsse.OnlySignedStatements | libs/attest/src/signing.cpp:18-93 | with a signer of statements, what verifies is one of the statements signed, unchanged, and any statement it serialises was itself signed |
| Dsse.ReadersSeeSignedStatements | libs/attest/src/signing.cpp:18-93 | whoever reads a verified payload as a statement reads one that was signed |
| Bundle.BundleFromJson | libs/attest/src/bundle.cpp:66-111 | the reader with its early returns equals the reading function, every error included |
| Bundle.EnvelopeRoundTrip | libs/attest/src/dsse.cpp:116-163 | every envelope survives its JSON form |
| Bundle.TlogRoundTrip | libs/attest/src/bundle.cpp:7-39 | a log entry comes back but for a version without a kind and a proof that is not an object |
| Bundle.BundleRoundTrip | libs/attest/src/bundle.cpp:43-111 | every bundle comes back with envelope, key and media type untouched and its log entries so normalised |
| Bundle.BundleSurvives | libs/attest/src/bundle.cpp:7-111 | a bundle comes back unchanged if and only if no entry has a version without a kind or a proof that is not an object |
| Bundle.BundleLoses | libs/attest/src/bundle.cpp:7-39 | in any bundle one concrete entry comes back without its version and its proof |
| Bundle.MembersMissing | libs/attest/src/bundle.cpp:66-98 | any bundle without its media type is read with the default one; without verification material or envelope it is refused, the material first |
| Bundle.EnvelopeReplaced | libs/attest/src/bundle.cpp:92-110 | any bundle with another envelope in its place is read with that envelope or refused with its complaint |
| Bundle.EnvelopeDamaged | libs/attest/src/dsse.cpp:131-163 | an envelope that is no object, or whose payload type or payload is no string, is refused in this order; signatures of another type count as none |
| Bundle.MaterialDamaged | libs/attest/src/bundle.cpp:23-90 | a log entry that is no object ends the reading, and what an entry or key leaves out is empty |
| Bundle.SignTransportVerify | libs/attest/src/signing.cpp:18-93 | signing, bundling beside any other signatures, printing, parsing and verifying gives back exactly the signed bytes, and they read as the statement |
| Utf8.DecodeEncoded | apps/cli/src/terminal.cpp:186-216 | the decoder of write_text undoes the encoder of render for every code point below 0x200000, wherever it stands in a text |
| Utf8.KnownEncodings | apps/cli/src/terminal.cpp:213-216 | the bytes of one code point of each length |
| Utf8.LeadBytesDecide | apps/cli/src/terminal.cpp:186-190 | how many bytes each lead byte takes, a stray or unfinished one being a space |
| Terminal.FeedCsi | apps/cli/src/terminal.cpp:207-210 | a terminal obeys a control sequence with the numbers that were formatted into it, whatever follows |
| Terminal.FeedGlyph | apps/cli/src/terminal.cpp:213-216 | a terminal draws the code point that was encoded |
| Screen.TerminalScreen.ResizeTo | apps/cli/src/terminal.cpp:155-160 | same size changes nothing; a new size forgets both buffers |
| Screen.TerminalScreen.ClearBack | apps/cli/src/terminal.cpp:162-162 | blanks the back buffer only |
| Screen.TerminalScreen.Set | apps/cli/src/terminal.cpp:164-167 | writes one cell, or nothing outside the screen |
| Screen.TerminalScreen.Write | apps/cli/src/terminal.cpp:169-200 | the loop over escapes, code points, newlines and wrapping equals its recursive meaning |
| Screen.TerminalScreen.Render | apps/cli/src/terminal.cpp:202-221 | the nested loops emit exactly the differences and make the front buffer equal the back buffer |
| Screen.CellBytesObeyed | apps/cli/src/terminal.cpp:206-217 | the bytes of one cell move the terminal there, set its colours if needed and draw it |
| Screen.DiffPaints | apps/cli/src/terminal.cpp:202-221 | the emitted bytes change exactly the differing printable cells of the terminal |
| Screen.RenderIsExact | apps/cli/src/terminal.cpp:202-221 | after a render the terminal shows every printable cell of the back buffer with its glyph and colours |
| Screen.DiffRefinesRepaint | apps/cli/src/terminal.cpp:202-221 | sending the differences leaves every cell as sending the whole screen would |
| Screen.StepKeepsInStep | apps/cli/src/terminal.cpp:155-221 | resize, clear, set, write and render each keep front buffer and terminal in step |
| Screen.RunsEndExact | apps/cli/src/terminal.cpp:147-221 | over every run that ends with a render, front equals back and the terminal shows it |
| ScreenText.TextLands | apps/cli/src/terminal.cpp:169-200 | for any text of characters, line breaks, colour changes, resets and other sequences written left of the right edge: the n-th character of a line is n columns on, wrapped as often as the line is full, in the colour last set; what is outside the screen is lost and no other cell changes |
| ScreenText.ReadingOrder | apps/cli/src/terminal.cpp:191-196 | no two characters of a text go to the same place, and later ones come later in reading order |
| ScreenText.TwoLinesLand | apps/cli/src/terminal.cpp:191-196 | two lines that fit cover two rows, both from the column the text was written at |
| ScreenText.BeyondTheEdge | apps/cli/src/terminal.cpp:193-196 | text written at or beyond the right edge does not show |
| ScreenText.ScanThree | apps/cli/src/terminal.cpp:178-182 | whatever three numbers a colour sequence holds, negative ones included, each is cut to a byte |
| ScreenText.KnownSequences | apps/cli/src/terminal.cpp:207-210 | the bytes that move the cursor to the top left and that reset |
| ScreenText.ClearedScreenIsBlank | apps/cli/src/terminal.cpp:162-221 | clearing and rendering, after any run, leaves white-on-black spaces everywhere |
| Certification.FindSignal | apps/cli/src/certification.cpp:696-724 | the strict search followed by the loose one finds a signal if and only if counting evidence names it |
| Certification.EvaluateDomains | apps/cli/src/certification.cpp:678-755 | the loops give the coverage, findings, gaps and status of every domain |
| Certification.ApplyFrameworkOverlay | apps/cli/src/certification.cpp:960-1009 | adds criticality by name and changes nothing else |
| Certification.TallyGates | apps/cli/src/certification.cpp:762-779 | counts passed, skipped and remaining gates and detects a blocking failure |
| Certification.TallyDomains | apps/cli/src/certification.cpp:781-804 | sums coverage, counts gaps and inconclusive domains and detects a blocked critical one |
| Certification.FinalizeResult | apps/cli/src/certification.cpp:761-839 | computes status, exit code and confidence |
| CertificationVerdict.LettersLowered | apps/cli/src/certification.cpp:713-717 | exactly the twenty-six capital letters change, each to its small one |
| CertificationVerdict.FoundExactly | apps/cli/src/certification.cpp:696-724 | a signal is met by passing evidence of the domain that contains it in summary or id, or in the summary whatever the case |
| CertificationVerdict.MissingExactly | apps/cli/src/certification.cpp:725-731 | the missing controls are exactly the required signals not met, the findings the others |
| CertificationVerdict.StandingExactly | apps/cli/src/certification.cpp:733-749 | a domain is verified when all its signals are met, has gaps from half of them on, is blocked when critical with none, and needs any evidence where it asks for nothing |
| CertificationVerdict.VerdictExactly | apps/cli/src/certification.cpp:817-831 | the four outcomes for every input, in numbers of gates, items, domains and controls; READY takes four times the coverage to exceed three times the domains |
| CertificationVerdict.LimitsMet | apps/cli/src/certification.cpp:817-831 | both sides of each limit: skipped gates, evidence, unclear domains, coverage and open controls |
| CertificationVerdict.GateAdds | apps/cli/src/certification.cpp:833-838 | a failing gate that comes to pass adds forty points shared among the gates that ran |
| CertificationVerdict.BackingAdds | apps/cli/src/certification.cpp:833-838 | evidence backed by execution adds twenty shared among all evidence |
| CertificationVerdict.CoverageAdds | apps/cli/src/certification.cpp:833-838 | coverage gained adds thirty times its share of the domains, a critical domain's ten times its share of the critical ones on top |
| CertificationVerdict.NothingScored | apps/cli/src/certification.cpp:833-838 | a run with nothing to show has no points, or ten where no domain is critical |
| Certification.CoverageGrows | apps/cli/src/certification.cpp:687-738 | more evidence never lowers any domain's coverage |
| Certification.EvidenceNeverFails | apps/cli/src/certification.cpp:678-831 | with gates fixed, more evidence never turns exit code 0 into 1 |
| Certification.ReadyKeptExactly | apps/cli/src/certification.cpp:817-831 | a READY run given more evidence stays READY if and only if its major gaps number at most three, and is READY WITH GAPS otherwise |
| Certification.CoverageDecides | apps/cli/src/certification.cpp:740-831 | with gates fixed and five items of evidence, as much coverage in every domain never turns exit code 0 into 1, whatever the evidence |
| CertificationRun.MoreFilesCover | apps/cli/src/certification.cpp:532-738 | with gates fixed, adding files to a directory lowers the coverage of no built-in domain, whatever becomes of the number of complex files |
| CertificationRun.EvidenceToSpare | apps/cli/src/certification.cpp:806-831 | a directory whose run has exit code 0 yields at least nine items of evidence after files are added |
| CertificationRun.MoreFilesNeverFail | apps/cli/src/certification.cpp:1011-1075 | under every framework, adding files to a directory with gates fixed, whatever becomes of the number of complex files, never turns exit code 0 into 1 |
| CertificationSample.EvidenceMayCostReady | apps/cli/src/certification.cpp:740-958 | on the built-in domains and five gates, a directory that is READY becomes READY WITH GAPS by gaining CHANGELOG.md |
| Certification.FrameworksAgreeUnlessBlocked | apps/cli/src/certification.cpp:740-1009 | what blocks General blocks every framework, and a framework that does not block has General's status and exit code |
| CertificationRun.CriticalDomains | apps/cli/src/certification.cpp:960-1009 | which of the eighteen built-in domains each framework holds to be critical |
| CertificationRun.GovernanceNeverVerified | apps/cli/src/certification.cpp:532-555 | in every run Governance is at most half covered, because nothing collected mentions code review |
| Certification.ConfidenceInRange | apps/cli/src/certification.cpp:833-839 | confidence lies in 0..100 in every run, so the clamp never acts |
| SseStream.SseParser.Feed | apps/cli/src/provider_executor.cpp:246-268 | appending, taking whole lines and trimming equals one step of the line reader |
| SseStream.LeftoverIsSuffix | apps/cli/src/provider_executor.cpp:250-267 | the buffer keeps exactly what follows the last newline |
| SseStream.ChunkingIsInvisible | apps/cli/src/provider_executor.cpp:246-268 | however a stream is cut into chunks, the texts passed on are those of the whole stream in order |
| SseStream.CutsAgree | apps/cli/src/provider_executor.cpp:246-268 | two ways of cutting the same stream give the same texts and the same buffer |
| SseStream.DeltaSpeaks | apps/cli/src/provider_executor.cpp:254-263 | the line of a content delta passes its text on if it has any |
| SseStream.OnlyDeltasSpeak | apps/cli/src/provider_executor.cpp:254-264 | a line that passes a text on is a content delta with that text, and none passes on two |
| SseStream.LinesAreHeard | apps/cli/src/provider_executor.cpp:246-268 | a stream of whole lines passes on what each says, in order, and leaves nothing over |
| SseStream.LinesAreHeardInChunks | apps/cli/src/provider_executor.cpp:246-268 | however it is cut on the way |
| GhostText.ExtensionsContiguous | apps/etx/src/ghost_text.cpp:13-23 | in string order nothing that is not an extension lies between a prefix and its extensions |
| GhostText.GhostTextEngine.LowerBound | apps/etx/src/ghost_text.cpp:13-14 | splits the table into keys below the prefix and the others |
| GhostText.GhostTextEngine.Suggest | apps/etx/src/ghost_text.cpp:10-37 | the bounded scan finds the most frequent proper extension among all keys, the least one among equals, and none if and only if there is none |
| GhostText.BestIsUnique | apps/etx/src/ghost_text.cpp:29-33 | the suggestion is determined by the table |
| GhostText.GhostTextEngine.Record | apps/etx/src/ghost_text.cpp:5-8 | counts one more use of the text, changes no other count and keeps the table sorted |
| GhostText.Learn | apps/etx/src/ghost_text.cpp:5-8 | an engine that recorded a history counts each of its texts as often as it occurs |
| GhostText.SuggestionOfHistory | apps/etx/src/ghost_text.cpp:10-37 | the suggestion is the proper extension of the prefix recorded most often in the whole history, the least one among equals, and none if and only if no text recorded extends it |
| AgentCard.WriteStr | libs/a2a/src/agent_card.cpp:100-105 | writes the 32-bit length and the data behind the cursor and leaves the bytes before it alone |
| AgentCard.ToMsgpack | libs/a2a/src/agent_card.cpp:126-146 | the cursor ends exactly at the precomputed size and the buffer is the encoding |
| AgentCard.KnownEncoding | libs/a2a/src/agent_card.cpp:126-146 | the bytes of a card with one-byte fields, in their order |
| AgentCard.FromMsgpack | libs/a2a/src/agent_card.cpp:148-173 | the reading loop equals the decoder on every input, every error included; no index leaves the buffer |
| AgentCard.CardRoundTrip | libs/a2a/src/agent_card.cpp:98-173 | decoding an encoding followed by anything restores all encoded fields if and only if every string passes the 32-bit bounds check and there are at most 10000 capabilities |
| AgentCard.SmallCardRoundTrip | libs/a2a/src/agent_card.cpp:98-173 | below 2^32 bytes the count alone decides, and its excess is the error reported |
| AgentCard.TrailingBytesIgnored | libs/a2a/src/agent_card.cpp:113-173 | what a prefix of the data decodes to, the data decodes to; data of 4 GiB or more may be refused instead |
| AgentCard.ShortDataRefused | libs/a2a/src/agent_card.cpp:114-158 | the complaint about data too short for a length, for the string it announces, or for the count |
| AgentCard.CrowdedCardRefused | libs/a2a/src/agent_card.cpp:163-164 | a card of 10001 empty capabilities is encoded and refused on reading |
| AgentCard.EncodingPrefixesRejected | libs/a2a/src/agent_card.cpp:98-173 | every strict prefix of an encoding is rejected, whatever its total size, when no string and no count reaches 2^32 |
| AgentCard.HugeCardPrefixAccepted | libs/a2a/src/agent_card.cpp:100-123 | where one does a prefix may be accepted: twenty bytes of the encoding of a name of 2^32 zero bytes are an empty card |
| ResultMatrix.BenchmarkResultMatrix.Record | libs/bench/src/result_matrix.cpp:17-21 | changes its own cell of the flattened array and no other, or nothing out of range |
| ResultMatrix.BenchmarkResultMatrix.ColumnMean | libs/bench/src/result_matrix.cpp:31-41 | the loop gives the mean of the column, or the range error |
| ResultMatrix.MeanBetween | libs/bench/src/result_matrix.cpp:31-41 | the mean lies between any bounds on the samples |
| ResultMatrix.SumOfUpdate | libs/bench/src/result_matrix.cpp:17-41 | recording one sample moves the sum by the change of that sample |
| ResultMatrix.SortInPlace | libs/bench/src/result_matrix.cpp:68-68 | the array becomes the one sorted rearrangement of its samples |
| ResultMatrix.BenchmarkResultMatrix.ColumnPercentile | libs/bench/src/result_matrix.cpp:58-74 | copying, sorting and interpolating give the percentile of the column, the range error, or an undefined cast |
| ResultMatrix.DefinedExactly | libs/bench/src/result_matrix.cpp:31-74 | an empty column has mean and percentiles 0; otherwise the cast is undefined if and only if the rank is -1 or less, or reaches 2^64 |
| ResultMatrix.PercentileGrows | libs/bench/src/result_matrix.cpp:58-74 | percentiles never decrease as the percentage grows |
| ResultMatrix.PercentileEnds | libs/bench/src/result_matrix.cpp:69-73 | the 0th percentile is the minimum, the 100th and all above the maximum |
| ResultMatrix.PercentileBetween | libs/bench/src/result_matrix.cpp:69-73 | the result lies within the column if and only if the percentage is not negative, there is one sample, or the two smallest are equal |
| ResultMatrix.NegativePercentage | libs/bench/src/result_matrix.cpp:69-73 | the samples 0 and 1 at -10 percent give -0.1 |
| ResultMatrix.PercentileHits | libs/bench/src/result_matrix.cpp:69-73 | where the rank is whole the percentile is that order statistic |
| ResultMatrix.ReorderingIgnored | libs/bench/src/result_matrix.cpp:58-74 | the order of the iterations does not matter |
| ResultMatrix.PercentileMonotoneInSamples | libs/bench/src/result_matrix.cpp:58-74 | raising samples never lowers a percentile |

## Left out

- Process spawning, the environment allow-list of `execute`, timeouts and the shape of the server configuration file (apps/cli/src/mcp_provider.cpp:12-45, 91-115): the child is a function from its input to its output.
- The tools the gateway registers by itself, and fleet tools (apps/gateway/src/mcp.cpp:207-238): handlers are arbitrary functions of their arguments.
- Allocation failure for a huge `Content-Length`: the body buffer is taken to fit.
- JSON numbers that are not integers, and the text format of JSON itself: the library is the parameter `Codec`.
- McpClient.ToolCallEndToEnd: assumes that script and output are shorter than 2^64 bytes, as any memory is.
- McpClient.ScanTerminates: gives a condition that is enough for the loop to end; an output with a wrapping length may still end, and `ScanIsDecided` settles each one.
- AuthStore.AuthProfileStore.PickBest: takes one clock reading per call, where the source reads the clock for each profile.
- The mutex of the credential store, and the memory order of the chat engine's counter: every store call and every counter update is one atomic step.
- AuthStore.AuthProfileStore.ReportFailure: does not model overflow of the failure counter itself, an `int`, or of the clock plus the delay.
- Reading credentials of other command-line programs (apps/cli/src/auth_profile_store.cpp:183-291): the profiles they would add are modelled, the files are not.
- ChatWorker.ShutdownEndsExactly: failing allocations, locks and event posts, which throw as well, are not modelled; the exception that stops a preparation is taken not to end the program.
- ChatWorker.ShutdownWaitsForAll: event delivery after posting, chat history, and the cooldown and fallback notifications are not modelled.
- Ed25519 and key derivation: the scheme is a parameter with 64-byte signatures and matching keys; unforgeability is a premise of `Authentic`.
- Dsse.SignStatement: an invalid statement is refused without modelling which of the validation messages is given.
- Screen.RunsEndExact: control characters in a cell are not shown and are excepted; double-width and combining glyphs, line wrap at the right margin and the terminal's own limits are not modelled.
- ScreenText.TextLands: text is made of whole code points and of sequences that end with m; unfinished sequences and broken encodings are only covered by `Write`.
- Screen.TerminalScreen.Write: `sscanf` results beyond `int` and negative or overflowing screen sizes are not modelled.
- Prompts, raw mode, key input and gradients of the terminal module (apps/cli/src/terminal.cpp:1-145, 223-252).
- ChatOutcome.FirstTrySucceeds: says what a task does while no other task touches the store; what holds in every interleaving is in ChatWorker.
- Certification.FinalizeResult: the lists of blocking issues, skipped gates, recommended actions and the summary are not part of the verdict modelled; doubles are reals.
- Certification gates and the file-system probing behind them (apps/cli/src/certification.cpp:25-530): gate results, the set of paths that exist, whether .gitignore names secrets and the number of complex files are inputs.
- GhostText.GhostTextEngine.Record: overflow of a count in the ghost-text table, an `int`, is not modelled.
- AgentCard.FromMsgpack: a big-endian machine and failing allocations are not modelled; JSON form and validation of a card would only add easy members.
- AgentCard.EncodingPrefixesRejected: goes one way; where a string or the count is cut to 32 bits it depends on the data whether a prefix is accepted, as in `HugeCardPrefixAccepted`.
- McpClient.ResourceReadEndToEnd: assumes that requests and replies are shorter than 2^64 bytes, as any memory is.
- ResultMatrix.BenchmarkResultMatrix.ColumnPercentile: rounding of doubles, infinities and NaN are not modelled; `column_stddev` needs a square root and is left out.
- HTTP, WebSocket, chat-channel adapters, routing, registry, telemetry and user interface code.
