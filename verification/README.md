# Verified models of the streaming, routing, scene and policy cores

This project states and proves, in Dafny, what a dozen pieces of the repository promise. Each is
modelled in the form its source has: code that updates fields or loops over buffers is a class or
a method with loop invariants, proved against a specification function; the promises are then
lemmas about that function, for all inputs, all runs or all interleavings.

| files | what they model |
|---|---|
| `Common.dfy`, `Utf8.dfy`, `Decimal.dfy` | JSON values, trimming, lines, sorting, deterministic machines, UTF-8 byte offsets (section 3 of RFC 3629), decimal numerals |
| `TextBatch.dfy` | the event bus, and the coalescing of text deltas into pieces of at most 8192 bytes |
| `ToolCalls.dfy`, `ToolBracketing.dfy`, `RelayContents.dfy`, `RelayBracketing.dfy` | completion chunks turned into events; the text, usage and bracketed tool calls that the relay publishes for them |
| `SseStream.dfy`, `SseTheorems.dfy` | the streaming relay: reads, lines, `data:` payloads (a subset of sections 9.2.5 and 9.2.6 of WHATWG HTML), terminal events |
| `StreamReconcile.dfy`, `ProxyRouting.dfy`, `ProxyLoop.dfy`, `ProxyTheorems.dfy` | the CLI proxy: principal and session binding, demultiplexing, exactly-once rendering, removal of dead connections |
| `Scene.dfy`, `PatchOps.dfy`, `RecipeStore.dfy`, `Reconciler.dfy` | scene validation, in-place edits, the compare-and-swap recipe store, keyed reconciliation with focus |
| `HostHooks.dfy` | host-hook ingress checks, and token registration over a shared key-value store, with handlers interleaved at every store operation |
| `RequiredPolicies.dfy` | the registration log of required policies and the fail-closed collection of their replies |
| `Compaction.dfy` | context compaction with saturating token arithmetic |
| `GrepWalk.dfy` | the capped recursive text search |
| `ChannelPublication.dfy` | the channel publication planner |
| `Layout.dfy` | the responsive layout resolver in 32-bit arithmetic |

JSON decoding, hashing and serialised sizes are function parameters of which nothing is assumed.
The environment (what is read, polled, accepted, refused, or done by other handlers) is an input
or an arbitrary choice. A publisher that is refused is described by `Bus.Tried`: it published a
prefix of what an accepting bus would have seen.

Five properties one might expect hold only under a condition, and the project says which:

- Compaction reaches its target, or removes all it may, exactly when the 64-bit cap on the token sum does no harm
  (`Compaction.FitsIffHarmless`); it is idempotent exactly then or when the target is at least the cap
  (`Compaction.IdempotentIff`); counterexample `Compaction.SaturatedSumStopsShort`.
- A reply whose streamed text is a prefix of it is rendered exactly once if and only if none of its turn's text came
  in a response that was not final or was held at an eviction; if the streamed text is no prefix, if and only if what
  was sent before is the reply (`StreamReconcile.ExactlyOnceIff`; counterexample
  `StreamReconcile.NonFinalTextRendersTwice`). The comment at `capsules/capsule-cli/src/lib.rs:229-231` promises it always.
- A retirement removes the token whose route it checked exactly when no other retirement came in between or the same
  token was registered again after the last one (`HookTokens.RetiresCheckedIff`); it removes another token exactly when
  that one was registered in between, after a retirement (`HookTokens.RetiresOtherIff`; such a run:
  `HookTokens.SecondRetirementRemovesNewToken`).
- The slots of a layout lie inside the viewport exactly from certain sizes up (`Layout.SlotsInsideIff`).
- The two scene validators accept the same trees but differ in the name they give one violation (`Scene.RawAgrees`).

Specification functions follow the code; what they mean is stated apart from them, on the inputs, with the constants
written out. `SseLines.Carries` says on characters what a data line is; `ProxyDecisions.Addressed` says on the polled
message whom it is for; `Recipes.PatchOk`, `HookIngress.RequestReachesIff`, `PolicyLog.ParsedIff`,
`ChannelPublication.PlannedIff`, `Scene.LocalErrorExactly` and the like say what is accepted.

`dafny verify dfyconfig.toml` checks everything.

## Model

| member | source | states |
|---|---|---|
| Utf8.BoundaryIffWholeChars | capsules/capsule-openai-compat/src/text_batch.rs:31-33 | the byte test for a character boundary holds exactly at the end of a whole number of characters |
| Utf8.CharBytesRead | capsules/capsule-openai-compat/src/text_batch.rs:31-33 | the lead byte of a character tells its length, the payload bits give it back, and no shorter form would hold it |
| StreamEvents.Bus.Publish | capsules/capsule-openai-compat/src/lib.rs:534-539 | an accepted event is appended to the log; a refused one leaves the log as it was |
| StreamEvents.SameMergedIffSameAtoms | capsules/capsule-openai-compat/src/text_batch.rs:1-5 | two event lists are equal once adjacent text is merged exactly when they carry the same characters and other events in the same order |
| TextBatching.TextBatch.Flush | capsules/capsule-openai-compat/src/text_batch.rs:47-55 | emits the buffered text as one delta, nothing when empty, and leaves the buffer empty even when refused |
| TextBatching.TextBatch.Push | capsules/capsule-openai-compat/src/text_batch.rs:18-45 | emits what feeding the event one character at a time emits, or a prefix of it up to a refusal; the buffer stays below the bound |
| TextBatching.TextBatch.PushText | capsules/capsule-openai-compat/src/text_batch.rs:28-44 | the slicing loop terminates, by remaining then buffered bytes, and equals the character-wise specification |
| TextBatching.FloorBoundary | capsules/capsule-openai-compat/src/text_batch.rs:30-33 | the largest character boundary at or below the limit |
| TextBatching.FirstCharDoesNotFit | capsules/capsule-openai-compat/src/text_batch.rs:34-37 | when no boundary fits, the buffer is non-empty, and flushing it first is what the specification does |
| TextBatching.FeedSlice | capsules/capsule-openai-compat/src/text_batch.rs:38-42 | buffering a whole slice that fits, and flushing when full, equals feeding its characters |
| TextBatching.FeedLossless | capsules/capsule-openai-compat/src/text_batch.rs:18-45 | what was emitted, then the buffer, is exactly what went in, in order |
| TextBatching.BatchingIsSound | capsules/capsule-openai-compat/src/text_batch.rs:1-10 | every emitted delta is non-empty and at most 8192 bytes, no two in a row could have had one more character in the first, and merging the deltas restores the input events |
| ToolCalls.ProcessChunk | capsules/capsule-openai-compat/src/lib.rs:461-531 | pushes the events of a chunk in order, stopping at the first refusal, and updates the tracked calls; which events those are is `RelayContents.ChunkInOrder` |
| ToolCalls.TrackCall | capsules/capsule-openai-compat/src/lib.rs:487-515 | records id and name in the slot of the delta's index, growing the vector, and raises start and argument events |
| ToolCalls.GrowTo | capsules/capsule-openai-compat/src/lib.rs:489-491 | keeps the tracked calls and fills up to the index with empty slots |
| ToolCalls.EndCalls | capsules/capsule-openai-compat/src/lib.rs:519-528 | ends each tracked call that has an id, in index order |
| ToolBracketing.TrackedSoFar | capsules/capsule-openai-compat/src/lib.rs:486-516 | after well-formed deltas the vector holds exactly the introduced calls, gaps are empty, and each call's events are its start and its arguments in arrival order |
| ToolBracketing.AnyDeltas | capsules/capsule-openai-compat/src/lib.rs:486-516 | any deltas, well formed or not, raise a start per name and a delta per non-empty piece of arguments, in arrival order, each under the last id given to its index; the vector keeps those ids |
| ToolBracketing.EndsOnce | capsules/capsule-openai-compat/src/lib.rs:519-528 | the final sweep ends a tracked id once and an untracked one never |
| ToolBracketing.EndsInOrder | capsules/capsule-openai-compat/src/lib.rs:519-528 | the sweep ends the slots that have an id in index order |
| ToolBracketing.TurnIsBracketed | capsules/capsule-openai-compat/src/lib.rs:461-531 | in a turn closed by tool_calls every call's events are start, arguments in order, one end; no other call id occurs; nothing is tracked afterwards, even with gaps in indices, and later chunks without calls add nothing |
| RelayBracketing.RelayIsBracketed | capsules/capsule-openai-compat/src/lib.rs:378-531 | the same of everything the relay publishes for a stream whose data lines are such a turn, wherever its reads were cut |
| RelayContents.ChunkInOrder | capsules/capsule-openai-compat/src/lib.rs:461-531 | the events of a chunk are its usage, the content of its first choice if not empty, the calls its deltas raise, and ends only with a tool_calls finish, in this order |
| RelayContents.RelaySays | capsules/capsule-openai-compat/src/lib.rs:378-483 | over a whole stream, wherever its reads were cut, the text characters and usage events published are those of the chunks taken in, in their order |
| RelayContents.RelayShows | capsules/capsule-openai-compat/src/lib.rs:378-483 | the text published is the contents of the first choices put together, and the usage events are the usage reports, prompt tokens in and completion tokens out |
| RelayContents.ChunksAreData | capsules/capsule-openai-compat/src/lib.rs:395-425 | the chunks taken in are what the decoder made of each data line up to the first line that ends the stream |
| TextLines.LinesRebuild | capsules/capsule-openai-compat/src/lib.rs:395-399 | the complete lines, each with its newline, and the tail are the text; none holds a newline |
| TextLines.OnlyLines | capsules/capsule-openai-compat/src/lib.rs:395-399 | there is one way only to cut a text at its newlines |
| SseLines.ClassifyExactly | capsules/capsule-openai-compat/src/lib.rs:395-460 | on the characters of the raw line: it is [DONE] exactly when it is "data:", whitespace, "[DONE]", whitespace; nothing exactly when it does not start with "data:" or has only whitespace after it; otherwise the decoder decides on the one text in between that has no whitespace at its ends |
| SseStream.ConsumeLines | capsules/capsule-openai-compat/src/lib.rs:395-429 | consuming the complete lines of a buffer publishes their batched events, keeps the unfinished tail, and stops where `SseTheorems.LinesDecide` says: at the first line that carries [DONE] or a text the decoder refuses |
| SseStream.ParseSseStream | capsules/capsule-openai-compat/src/lib.rs:378-439 | publishes what the relay specification says, or a prefix up to a refusal, and returns its outcome, which `SseTheorems.OutcomeExactly` states on the lines |
| SseStream.HandleRequest | capsules/capsule-openai-compat/src/lib.rs:53-73 | what a whole request leaves on the bus, error event included |
| SseTheorems.RunLinesConcat | capsules/capsule-openai-compat/src/lib.rs:395-399 | lines cut from text that arrives in two parts are the lines of the whole |
| SseTheorems.RelayRefinesSpec | capsules/capsule-openai-compat/src/lib.rs:378-439 | unless the line buffer overflows, the batched, chunked relay publishes the events of a simple line-by-line reading of the whole text, merged text compared, with the same outcome |
| SseTheorems.ChunkBoundariesDoNotMatter | capsules/capsule-openai-compat/src/lib.rs:384-430 | two ways of cutting one text into reads that fit the buffer publish the same events and end the same way |
| SseTheorems.FitsNeverOverflows | capsules/capsule-openai-compat/src/lib.rs:388-392 | reads that fit the buffer, carried tail included, never end in an overflow |
| SseTheorems.SucceedsIffDoneFirst | capsules/capsule-openai-compat/src/lib.rs:409-420 | the stream succeeds exactly when one of its lines carries [DONE] and no line before it carries a text the decoder refuses |
| SseTheorems.OutcomeExactly | capsules/capsule-openai-compat/src/lib.rs:384-460 | the first line that carries [DONE] or a refused text decides the outcome, with the decoder's complaint; without one the stream ended too early, with a partial line exactly when more than whitespace follows the last newline |
| SseTheorems.OverflowIff | capsules/capsule-openai-compat/src/lib.rs:384-392 | the relay gives up for length exactly when it reaches a read that, added to the unfinished line, makes more than 1048576 bytes |
| SseTheorems.BrokenRead | capsules/capsule-openai-compat/src/lib.rs:384-386 | a read that fails ends an unfinished stream at once; what was published before it stays |
| SseTheorems.NothingHeldBack | capsules/capsule-openai-compat/src/lib.rs:428-429 | what some reads publish is there before any more arrive |
| SseTheorems.RelayTerminal | capsules/capsule-openai-compat/src/lib.rs:416-420 | Done is published exactly when the stream succeeds, once and last |
| SseTheorems.OneTerminalPerRequest | capsules/capsule-openai-compat/src/lib.rs:53-73 | what a request leaves, whatever the bus refuses: on an accepting bus the relay's events and, if it failed, an Error with the reason; otherwise what was accepted and, if the bus takes it, an Error; so at most one terminal event, last, and on an accepting bus exactly one, Done if and only if the stream succeeded |
| StreamReconcile.StreamAccumulator.Reconcile | capsules/capsule-cli/src/lib.rs:250-301 | one message through the accumulator: the payload it is forwarded with and the map afterwards, for whichever entry was evicted |
| StreamReconcile.ForwardedExactly | capsules/capsule-cli/src/lib.rs:250-301 | a message is forwarded as it is, unless it is a final response whose beginning was streamed: then its text alone is replaced, by the part beyond the streamed text, and every other field is kept |
| StreamReconcile.StreamedGrows | capsules/capsule-cli/src/lib.rs:259-287 | a delta adds its text to that of its session; a final response ends that text, as does an eviction; other messages leave it |
| StreamReconcile.AccumIsStreamed | capsules/capsule-cli/src/lib.rs:259-287 | over any interleaving the map holds, per session, the concatenation of its deltas since its last final response or eviction, and never more than 64 entries |
| StreamReconcile.FewSessionsNeverEvict | capsules/capsule-cli/src/lib.rs:270-275 | with at most 64 streaming sessions nothing is evicted |
| StreamReconcile.EvictionIsLocal | capsules/capsule-cli/src/lib.rs:264-300 | for a session that was not evicted, the entry in the map and the body its next message is forwarded with are those of a map without a cap |
| StreamReconcile.TerminalBody | capsules/capsule-cli/src/lib.rs:281-300 | a final response is forwarded with the part not yet streamed, nothing if the streamed text is no prefix, and in full if nothing was streamed |
| StreamReconcile.RenderedOnce | capsules/capsule-cli/src/lib.rs:229-243 | a turn none of whose text came in a non-final response or was evicted shows the full reply if the streamed text is a prefix of it, and otherwise the streamed text |
| StreamReconcile.ExactlyOnceIff | capsules/capsule-cli/src/lib.rs:229-243 | in any turn, where the streamed text is a prefix of the reply, it is shown exactly once if and only if no text of the turn was lost to the accumulator; elsewhere if and only if what was sent is the reply |
| StreamReconcile.NonFinalTextRendersTwice | capsules/capsule-cli/src/lib.rs:281-287 | a response with text that is not final is shown and not accumulated, so the final one shows it again |
| ProxyDecisions.IngressExactly | capsules/capsule-cli/src/lib.rs:544-623 | a message binds exactly when the connection is unbound and its claim is none or a valid name; it is forwarded, unchanged and under the bound, claimed or default principal, exactly when the claim is acceptable and it has a payload on an allowed topic; only a forwarded prompt that names a session moves the connection to it |
| ProxyDecisions.ForwardIs | capsules/capsule-cli/src/lib.rs:727-761 | the allowed topics, written out: never an admin response |
| ProxyDecisions.GatesAre | capsules/capsule-cli/src/lib.rs:146-163 | the two gates let a polled message through exactly to a connection of the principal it is attributed to, if any, and, for the two chat topics with a session id, on that session |
| ProxyLoop.Proxy.Accept | capsules/capsule-cli/src/lib.rs:420-431 | a new connection starts unbound and without a session |
| ProxyLoop.Proxy.Ingress | capsules/capsule-cli/src/lib.rs:544-623 | one client message binds, forwards and retargets exactly as decided, and touches no other connection |
| ProxyLoop.Proxy.ReadAll | capsules/capsule-cli/src/lib.rs:436-475 | each connection is read once, in order; exactly those that closed are removed, everything else stays in order |
| ProxyLoop.Proxy.RemoveAll | capsules/capsule-cli/src/lib.rs:473-475 | removing indices from the highest down removes exactly the listed connections |
| ProxyRouting.KeepLast | capsules/capsule-cli/src/lib.rs:473-475 | removing the largest listed index first leaves the smaller ones pointing where they did |
| ProxyLoop.Proxy.DeliverTo | capsules/capsule-cli/src/lib.rs:694-715 | a connection gets, in order, every message addressed to its principal and session, up to its first failed send |
| ProxyLoop.Proxy.Prepare | capsules/capsule-cli/src/lib.rs:659-687 | each polled message passes the accumulator once, in order, and goes out as itself: its topic, its target and the session scope of its polled payload |
| ProxyLoop.Proxy.Broadcast | capsules/capsule-cli/src/lib.rs:643-717 | connections already dead get nothing; whoever is not dead afterwards got everything addressed to it |
| ProxyLoop.Proxy.DrainPolls | capsules/capsule-cli/src/lib.rs:479-497 | up to the first failed subscription the polled messages pass the accumulator once, in order, and go out in rounds; whoever is not dead in the end was offered everything of every round |
| ProxyLoop.Proxy.OneTurn | capsules/capsule-cli/src/lib.rs:400-511 | one turn from state to state: connections join, each is read once, closed ones go, the polls are drained, dead ones go; every binding and session stays what the record says |
| ProxyLoop.Proxy.RunLoop | capsules/capsule-cli/src/lib.rs:392-517 | over any number of turns, each as above and only the last one failing: bound once and validly, forwarded only under the bound principal on allowed topics, and received only what is addressed to that principal and to the session of the latest prompt |
| ProxyTheorems.FullTurnDelivers | capsules/capsule-cli/src/lib.rs:479-511 | in a turn without failure every connection still open afterwards received, in order, exactly the reconciled polled messages meant for it, and nobody received anything that was not polled |
| ProxyRouting.PrincipalNeverChanges | capsules/capsule-cli/src/lib.rs:105-131 | once bound, a connection's principal is valid and stays the same |
| ProxyRouting.NoCrossTalk | capsules/capsule-cli/src/lib.rs:146-163 | no two messages one connection receives are in the names of different principals, and the one is also that under which its own traffic was forwarded |
| ProxyRouting.DeliveredOnOwnSession | capsules/capsule-cli/src/lib.rs:207-227 | every delivered "agent.v1.response" or "agent.v1.stream.delta" whose polled payload names a session goes to a connection whose latest forwarded "user.v1.prompt" with a session id named that session |
| ProxyTheorems.SessionNeverKeepsOthers | capsules/capsule-cli/src/lib.rs:217-227 | a polled message on any other topic reaches every open connection its principal does not exclude, whatever its session |
| ProxyTheorems.ReadExactly | capsules/capsule-cli/src/lib.rs:544-623 | what one read records: a bind for the first acceptable claim, then the message under its principal if it may be forwarded, and nothing else |
| ProxyTheorems.TurnReads | capsules/capsule-cli/src/lib.rs:436-475 | in a turn the record of every connection's read is in the log, new connections included |
| ProxyTheorems.GoneAreClosed | capsules/capsule-cli/src/lib.rs:453-475 | a connection whose read says it is gone is closed on record and no longer served; any other stays as its read left it |
| ProxyLoop.ReconcileKeepsScope | capsules/capsule-cli/src/lib.rs:669-674 | computing the session scope after rewriting the payload gives the same scope as before |
| Scene.Validator.Check | apps/adaptive-shell/src/components.rs:746-787 | the recursive validator over a shared set of identities returns the specified count or first violation, and the set it leaves |
| Scene.ValidateExact | apps/adaptive-shell/src/components.rs:741-787 | validation succeeds exactly on scenes at most 32 deep and 512 nodes large whose nodes each meet their kind's contract and carry distinct identities, and returns the node count |
| Scene.LocalErrorExactly | apps/adaptive-shell/src/components.rs:753-770 | what one node is refused for, first to last: more children than its kind has room for, a state its kind does not allow, a missing property its kind needs, a property no kind knows |
| Scene.ContractExactly | apps/adaptive-shell/src/components.rs:798-838 | room and allowed states of every kind, by group |
| Scene.NeedsExactly | apps/adaptive-shell/src/components.rs:798-838 | the properties needed, key by key: which kinds need it |
| Scene.ShallowIff | apps/adaptive-shell/src/components.rs:746-750 | the depth limit means that no node is more than 32 steps below the root |
| Scene.WalkVisits | apps/adaptive-shell/src/components.rs:790-796 | the walk visits every node of the tree and nothing else |
| Scene.RawAgrees | apps/adaptive-shell/src/components.rs:637-699 | the deserialiser accepts exactly the trees whose expansion validates, with the same count and the same violation, save that it calls a self-parent what validation calls a duplicate |
| PatchOps.NewProps | apps/adaptive-shell/src/components.rs:382-394 | a property set is accepted exactly within the count and byte bounds, and says which it breaks |
| PatchOps.SumOne | apps/adaptive-shell/src/components.rs:386-389 | the byte total starts from 0 and does not depend on the order of summation |
| PatchOps.PropWeights | apps/adaptive-shell/src/components.rs:367-390 | a property weighs its key and its text in bytes, a number or flag its key alone |
| PatchOps.FindIffOccurs | apps/adaptive-shell/src/activity.rs:793-803 | node search succeeds exactly when the identity occurs |
| PatchOps.ReplaceEdits | apps/adaptive-shell/src/activity.rs:696-719 | editing the node found changes one position of the reading order and nothing else |
| Recipes.OpsEditOnlyTargets | apps/adaptive-shell/src/activity.rs:694-721 | a successful operation list keeps shape, identities, kinds and accessibility, gives each node the edits aimed at it, and keeps property sets within bounds |
| Recipes.EditItemsFacts | apps/adaptive-shell/src/activity.rs:694-721 | a node no operation targets is unchanged |
| Recipes.LastStateWins | apps/adaptive-shell/src/activity.rs:696-701 | the last state set on a node is the one it ends with |
| Recipes.LastPropertyWins | apps/adaptive-shell/src/activity.rs:703-715 | the last value set for a property is the one it has afterwards |
| Recipes.ApplyOpFails | apps/adaptive-shell/src/activity.rs:696-719 | an operation fails exactly when its node is absent or its property set would overflow |
| RecipeStores.CheckRecipe | apps/adaptive-shell/src/activity.rs:265-292 | the recipe checks, in their order, with the metadata total computed by a loop |
| RecipeStores.RecipeStore.Insert | apps/adaptive-shell/src/activity.rs:645-654 | a valid recipe is stored under its id with a fresh digest, overwriting; an invalid one changes nothing |
| RecipeStores.RecipeStore.ApplyPatch | apps/adaptive-shell/src/activity.rs:662-736 | the whole verdict and the whole new store |
| RecipeStores.ApplyOperations | apps/adaptive-shell/src/activity.rs:692-721 | the operations in order, each on the result of those before it, failing at the first that fails |
| RecipeStores.AppliedPatchEdits | apps/adaptive-shell/src/activity.rs:692-736 | the accepted recipe keeps schema and id and has the next revision; its tree is the old one with each node given exactly the operations aimed at it; its theme and each metadata entry are the last ones set; and what is seen changed exactly if a state or property was set |
| Recipes.ValidPatchIff | apps/adaptive-shell/src/activity.rs:551-601 | a patch is valid exactly with its schema, two different well-sized principals, identifiers of 1 to 256 bytes, 1 to 64 well-formed operations and at most 4096 bytes of text |
| Recipes.PatchComplaint | apps/adaptive-shell/src/activity.rs:551-601 | which complaint comes first: schema, principals, self-approval, then the rest |
| Recipes.MetadataWeights | apps/adaptive-shell/src/activity.rs:88-95 | a metadata entry weighs its key and its text, 8 for a number, 1 for a flag |
| Recipes.ValidRecipeIff | apps/adaptive-shell/src/activity.rs:265-292 | a recipe is valid exactly with its schema, a positive revision, well-sized identifiers, at most 16 metadata entries of 2048 bytes and a valid scene |
| RecipeStores.VerdictExactly | apps/adaptive-shell/src/activity.rs:662-736 | the verdict on a valid patch: is its id used, and for this very intent; is there such a recipe, of this owner, at this revision and digest; do the operations apply, short of the last revision; is the result valid |
| RecipeStores.InvalidRefused | apps/adaptive-shell/src/activity.rs:662-663 | an invalid patch is refused whatever the store holds |
| RecipeStores.ReusedIdIsRefused | apps/adaptive-shell/src/activity.rs:664-670 | once a patch id was accepted, another intent under it is refused for good |
| RecipeStores.PatchKeepsStoreOk | apps/adaptive-shell/src/activity.rs:662-736 | every stored recipe stays valid, under its own id, with a current digest; a patch that is not applied changes nothing |
| RecipeStores.RunKeepsStoreOk | apps/adaptive-shell/src/activity.rs:662-736 | the same over any run of patches, with no recipe appearing or disappearing |
| RecipeStores.ReplayChangesNothing | apps/adaptive-shell/src/activity.rs:664-677 | replaying an accepted patch after any others reports it as already applied and changes nothing |
| RecipeStores.RevisionCounts | apps/adaptive-shell/src/activity.rs:722-725 | a recipe's revision is its starting revision plus the number of patches applied to it |
| RecipeStores.OneWinnerPerRevision | apps/adaptive-shell/src/activity.rs:684-690 | of the patches on one base revision of a recipe at most one is applied |
| Reconciliation.Reconciler.Reconcile | apps/adaptive-shell/src/reconcile.rs:47-84 | the root is retained without a parent and every child below the node it is a child of, each under its own id and kind; reused, created and removed are exactly those sets, reused and created counting all nodes; generations count consecutive scenes up to 2^64 - 1; focus is kept if present and otherwise goes to the smallest identity; a refused scene changes nothing |
| Reconciliation.Reconciler.Focus | apps/adaptive-shell/src/reconcile.rs:87-94 | focus moves only to a retained identity |
| Reconciliation.Reconciler.ClearFocus | apps/adaptive-shell/src/reconcile.rs:102-104 | focus becomes absent and everything else stays |
| Reconciliation.Collect | apps/adaptive-shell/src/reconcile.rs:117-138 | the recursive collection inserts the subtree's nodes in reading order |
| Reconciliation.CollectAgrees | apps/adaptive-shell/src/reconcile.rs:117-138 | with distinct identities the map holds exactly the tree's nodes, each with its kind, the parent it has in the tree, and the next generation |
| Reconciliation.GenerationsCount | apps/adaptive-shell/src/reconcile.rs:123-125 | adding one to the previous generation counts the scenes an identity was present in without a gap |
| Reconciliation.Describe | apps/adaptive-shell/src/reconcile.rs:51-83 | the three report lists, ascending and without repetition, and the next focus |
| HookShapes.KeysNeverCollide | capsules/capsule-mcp/src/host_hooks.rs:226-228 | the keys of distinct host and session pairs differ, for any session |
| HookShapes.DeliveryAcceptedIff | capsules/capsule-mcp/src/host_hooks.rs:325-341 | a delivery is accepted exactly when session, correlation and route are well formed and the id is theirs; its own segment check adds nothing |
| HookShapes.DeliveryDetermines | capsules/capsule-mcp/src/host_hooks.rs:325-341 | an accepted delivery id determines route and correlation, and is 97 characters long |
| HookTokens.HookKv.AuthenticateToken | capsules/capsule-mcp/src/host_hooks.rs:193-207 | whatever other handlers do in between, it takes exactly the steps of the interleaved handler, accepts exactly when its last one found or registered this token, and writes only on a registering event it then accepts |
| HookTokens.HookKv.CasAbsent | capsules/capsule-mcp/src/host_hooks.rs:197-198 | wins exactly on an absent key, and then holds the token |
| HookTokens.TokensMatch | capsules/capsule-mcp/src/host_hooks.rs:358-367 | the comparison without early exit is equality |
| HookTokens.RunConsistent | capsules/capsule-mcp/src/host_hooks.rs:163-207 | over every schedule of handlers the store is what the log of operations says, and each operation reports the holder truthfully |
| HookTokens.RunAccounted | capsules/capsule-mcp/src/host_hooks.rs:163-207 | over every schedule each logged step was taken by a handler that had got there, and found what its key held |
| HookTokens.AnswersCheckRoutes | capsules/capsule-mcp/src/host_hooks.rs:163-175 | over every schedule an answer passes the route check exactly when its route is the one derived from the token held at that moment, and is refused exactly when it is another's |
| HookTokens.DeletionsWereChecked | capsules/capsule-mcp/src/host_hooks.rs:172-190 | a deletion is logged only for an answer that ends its session and had passed that check |
| HookTokens.CheckedEndsRetire | capsules/capsule-mcp/src/host_hooks.rs:182-184 | and such an answer, if it acts again, deletes |
| HookTokens.RegistrationsMayRegister | capsules/capsule-mcp/src/host_hooks.rs:193-211 | a token is registered only by a session_start or user_prompt_submit hook that had found its session unknown |
| HookTokens.OneTokenPerEpoch | capsules/capsule-mcp/src/host_hooks.rs:193-207 | all successful authentications of a key between two retirements used one token |
| HookTokens.OneWinnerPerEpoch | capsules/capsule-mcp/src/host_hooks.rs:194-206 | of the registrations racing for a key between two retirements only the first can win, and does exactly if the key was free |
| HookTokens.RetiresCheckedIff | capsules/capsule-mcp/src/host_hooks.rs:163-190 | a retirement removes the token whose route was checked exactly when no other retirement came in between or that token was registered again after the last one |
| HookTokens.RetiresOtherIff | capsules/capsule-mcp/src/host_hooks.rs:163-190 | it removes some other token exactly when that one was registered in between, which takes another retirement |
| HookTokens.SecondRetirementRemovesNewToken | capsules/capsule-mcp/src/host_hooks.rs:182-184 | a schedule in which the second of two retirements removes a registration made after the first |
| HookIngress.SessionsAreApart | capsules/capsule-mcp/src/host_hooks.rs:99-163 | a request and a response share a key only if they are of one host and one session |
| HookIngress.RequestReachesIff | capsules/capsule-mcp/src/host_hooks.rs:68-120 | a request reaches the store exactly when it is well formed, for the expected and known host, on the route its token derives and from the principal it claims; and under which key, token and event |
| HookIngress.ResponseReachesIff | capsules/capsule-mcp/src/host_hooks.rs:123-166 | a response does exactly when it is well formed, from the principal it claims and, with a policy decision, from the adapter; and it can retire its session only by an explicit end of it |
| HookIngress.RequestRefusal | capsules/capsule-mcp/src/host_hooks.rs:230-273 | why a request is refused, in the order of the checks |
| HookIngress.ResponseRefusal | capsules/capsule-mcp/src/host_hooks.rs:275-310 | the same for a response |
| HookIngress.AnswerIsAccepted | capsules/capsule-mcp/src/host_hooks.rs:163-175 | once a request has authenticated, and until its session is retired, an answer of that session passes the route check if and only if it comes on the request's route, in every interleaving |
| PolicyLog.Parse | capsules/capsule-hook-adapter-oracle/src/decision.rs:65-118 | the required sources of a configuration text, empty or JSON, by a loop over the log |
| PolicyLog.ParsedIsLastWriterWins | capsules/capsule-hook-adapter-oracle/src/decision.rs:66-111 | parsing gives exactly the last-writer-wins map and fails exactly on an entry without a usable name or a name left with a malformed source |
| PolicyLog.AttributedExactly | capsules/capsule-hook-adapter-oracle/src/decision.rs:72-84 | an entry is attributed exactly when it is a name of 1 to 128 lower-case letters, digits, _ and -, then =, then a source |
| PolicyLog.SourceParts | capsules/capsule-hook-adapter-oracle/src/decision.rs:98-110 | a source is 8-4-4-4-12 lower-case hexadecimal digits |
| PolicyLog.ParsedIff | capsules/capsule-hook-adapter-oracle/src/decision.rs:66-111 | a log is refused exactly when some entry is not of that form, or the last entry of some name gives neither a source nor "-" |
| PolicyLog.RegisteredExactly | capsules/capsule-hook-adapter-oracle/src/decision.rs:72-93 | a name is left with a source exactly when its last entry gives it and is no tombstone |
| PolicyLog.BlankConfig | capsules/capsule-hook-adapter-oracle/src/decision.rs:66-71 | a blank configuration requires nobody and is not decoded |
| PolicyLog.AppendIsLocal | capsules/capsule-hook-adapter-oracle/src/decision.rs:72-93 | appending an entry changes what is registered under its own name only |
| PolicyLog.SupersededCanGo | capsules/capsule-hook-adapter-oracle/src/decision.rs:95-97 | dropping an entry that a later one of its name supersedes changes nothing, malformed source or not |
| PolicyLog.RegistrationsForHook | capsules/capsule-hook-adapter-oracle/src/decision.rs:22-43 | the log for a hook: scoped entries, all scopes checked, then the legacy list for prompt and pre-tool hooks |
| PolicyLog.SelectedExactly | capsules/capsule-hook-adapter-oracle/src/decision.rs:22-43 | scoped entries for every hook, and the legacy list after them on before_tool_call and message_received and there only |
| PolicyLog.LegacyPrevails | capsules/capsule-hook-adapter-oracle/src/decision.rs:35-41 | on those hooks parsing succeeds exactly when the legacy list parses, and every legacy policy stays registered with its source |
| PolicyReplies.RequiredReplies.Accept | capsules/capsule-hook-adapter-oracle/src/decision.rs:135-156 | after any replies: pending, invalid and the decision are what the reply history prescribes |
| PolicyReplies.RequiredReplies.NextWait | capsules/capsule-hook-adapter-oracle/src/decision.rs:126-133 | never waits past the deadline, and at most the quiescence once all have replied |
| PolicyReplies.RequiredReplies.Finish | capsules/capsule-hook-adapter-oracle/src/decision.rs:158-164 | unavailable on a malformed or missing reply, otherwise the last veto, else the last ask, else no objection |
| PolicyReplies.FailsClosed | capsules/capsule-hook-adapter-oracle/src/decision.rs:135-164 | not skipped exactly when every required source sent a well-formed reply and none a malformed one or a veto; then it asks exactly when one asked |
| PolicyReplies.UnlessAllGood | capsules/capsule-hook-adapter-oracle/src/decision.rs:135-164 | unless every required source replied, and none malformed, the answer is to skip for want of a responder |
| PolicyReplies.AnswerExactly | capsules/capsule-hook-adapter-oracle/src/decision.rs:151-164 | otherwise it is the last veto of a required source, reason included, else its last ask, else no objection |
| PolicyReplies.CountsExactly | capsules/capsule-hook-adapter-oracle/src/decision.rs:139-149 | a reply counts exactly when it decodes and its reason is at most 4096 bytes |
| PolicyReplies.OrderDoesNotMatter | capsules/capsule-hook-adapter-oracle/src/decision.rs:151-155 | the order of replies decides neither skip nor, when not skipping, ask |
| PolicyReplies.NothingLiftsAVeto | capsules/capsule-hook-adapter-oracle/src/decision.rs:152-155 | no later reply lifts a veto or a malformed reply |
| PolicyReplies.LegacySourcesMustAgree | capsules/capsule-hook-adapter-oracle/src/decision.rs:22-43 | on protected hooks every source of the legacy list must reply and must not veto, whatever was registered since |
| Compaction.EstimateTotalTokens | capsules/capsule-context-engine/src/strategy.rs:27-32 | the estimate is the true token sum, capped at 64 bits |
| Compaction.TokensHoldBytes | capsules/capsule-context-engine/src/strategy.rs:19-23 | a message counts the least number of four-byte tokens that hold it |
| Compaction.SummarizeAndTruncate | capsules/capsule-context-engine/src/strategy.rs:50-99 | the three loops keep exactly the positions the specification keeps |
| Compaction.CompactionIsExact | capsules/capsule-context-engine/src/strategy.rs:41-99 | the output lists, in order, all but the k oldest removable messages, every recent and protected one included; while the sum fits 64 bits k is the least number that meets the target, or all |
| Compaction.GuardedIs | capsules/capsule-context-engine/src/strategy.rs:35-39 | a message is protected by its id, or, if it has none at all, by its message_id |
| Compaction.FitsIffHarmless | capsules/capsule-context-engine/src/strategy.rs:80-91 | the output meets the target or has nothing removable left exactly when the cap on the sum does no harm |
| Compaction.IdempotentIff | capsules/capsule-context-engine/src/strategy.rs:50-99 | compacting the output again changes nothing exactly when the cap does no harm or the target is at least the cap |
| Compaction.WithoutSaturation | capsules/capsule-context-engine/src/strategy.rs:50-99 | while the sum fits 64 bits both always hold |
| Compaction.SaturatedSumStopsShort | capsules/capsule-context-engine/src/strategy.rs:25-32 | five messages of 2^62 tokens, target 0: neither holds |
| GrepWalk.GrepSearch.WalkAndGrep | capsules/capsule-fs/src/lib.rs:281-325 | the recursive walk with early returns visits the files below the depth limit in reading order until a cap is reached |
| GrepWalk.GrepSearch.GrepContent | capsules/capsule-fs/src/grep.rs:12-21 | appends the matching lines with path and line number until 100 are held |
| GrepWalk.LinesExactly | capsules/capsule-fs/src/grep.rs:13 | the lines of a file, each without a carriage return before its newline, and an unterminated rest as it is |
| GrepWalk.OneLineMatches | capsules/capsule-fs/src/grep.rs:17-19 | a line is reported with path and number exactly when the pattern occurs in it |
| GrepWalk.MatchesConcat | capsules/capsule-fs/src/grep.rs:13-20 | matches of lines in two parts are those of the first, then those of the second, numbered on |
| GrepWalk.MatchesOfFile | capsules/capsule-fs/src/lib.rs:329-339 | the matches of a file are its lines in which the pattern occurs, counted from 1; an unreadable file has none |
| GrepWalk.ContainsIffOccurs | capsules/capsule-fs/src/grep.rs:17-19 | a line matches exactly when the pattern occurs in it |
| GrepWalk.WalkRefinesSearch | capsules/capsule-fs/src/lib.rs:278-325 | the walk returns exactly the first 100 matches of the first 1000 files within depth 20, exceeds no cap, and looks at no file more than it needs |
| GrepWalk.ReachableExactly | capsules/capsule-fs/src/lib.rs:281-325 | the files searched are exactly those fewer than 20 directories below the root |
| GrepWalk.PreorderOfOne | capsules/capsule-fs/src/lib.rs:281-325 | an entry stands for a file, for all files below a readable directory one level deeper, or for nothing |
| GrepWalk.PreorderConcat | capsules/capsule-fs/src/lib.rs:281-325 | entries are visited in order |
| GrepWalk.GrepTool | capsules/capsule-fs/src/lib.rs:158-175 | refuses an empty pattern and otherwise reports what the uncapped specification, cut to the caps, finds |
| GrepWalk.JoinSnoc | capsules/capsule-fs/src/lib.rs:170-174 | matches are joined by newlines, none at the end |
| Decimal.ValueOfPrint | scripts/channel_publication.py:82 | a printed generation reads back as itself, without leading zero |
| Decimal.PrintOfValue | scripts/channel_publication.py:60-75 | a digit string without leading zero is the print of its value |
| ChannelPublication.GenerationsReadBack | scripts/channel_publication.py:60-82 | a name matches with generation n exactly when n is 1 to eighteen nines and the name is the one printed for n |
| ChannelPublication.NamesExactly | scripts/channel_publication.py:60-77 | transaction and history names of a channel, written out |
| ChannelPublication.FlattenAssets | scripts/channel_publication.py:23-32 | one level of nesting is flattened; anything but objects is refused |
| ChannelPublication.FlattenConcat | scripts/channel_publication.py:24-31 | the assets of a list in two parts are those of the first, then those of the second |
| ChannelPublication.FlattenOne | scripts/channel_publication.py:26-30 | a nested list stands for its items, anything else for itself |
| ChannelPublication.Collect | scripts/channel_publication.py:42-58 | the loop over assets returns the inventory or the first error |
| ChannelPublication.ClassifyExactly | scripts/channel_publication.py:42-58 | an asset is an upload exactly with a positive id, a name, state "uploaded" and a positive size; a leftover exactly with these but another state and any size |
| ChannelPublication.KindsOfAssets | scripts/channel_publication.py:42-58 | the uploaded names and leftover ids are those of such assets |
| ChannelPublication.CollectedRefusal | scripts/channel_publication.py:46-58 | a collection is refused for an asset that is wrong in the way named, or for a second upload of one name |
| ChannelPublication.EveryAssetCountedOnce | scripts/channel_publication.py:42-58 | collection succeeds exactly on well-formed assets with distinct upload names, and each asset is then an upload or a leftover, once |
| ChannelPublication.PublicationPlan | scripts/channel_publication.py:35-106 | the whole verdict and the whole plan |
| ChannelPublication.PlannedIff | scripts/channel_publication.py:35-93 | there is a plan exactly for a known channel, a generation of at most eighteen digits, well-formed assets with distinct upload names, no history above every transaction, and a generation not below any transaction |
| ChannelPublication.PlanRefusal | scripts/channel_publication.py:35-93 | why there is no plan: each error only in the case it names |
| ChannelPublication.PlanSays | scripts/channel_publication.py:78-106 | the floors are the largest transaction and history uploaded, or 0; the requested transaction, pointer and bundle are reported as present exactly when uploaded |
| ChannelPublication.PlanListsEveryAsset | scripts/channel_publication.py:95-106 | an accepted plan lists every asset once: upload names in code point order, leftover ids in numeric order |
| ChannelPublication.FloorIsMax | scripts/channel_publication.py:66-77 | a floor is the largest generation read from the names, or 0 |
| ChannelPublication.AcceptedExactly | scripts/channel_publication.py:78-93 | accepted exactly when no history generation is above every transaction and no transaction is above the generation |
| ChannelPublication.Resumable | scripts/channel_publication.py:82-93 | once its own transaction is uploaded the same generation is accepted again, as present and as the floor |
| ChannelPublication.ReplanAccepted | scripts/channel_publication.py:35-106 | adding that upload to the response leaves the plan acceptable, with the same leftovers |
| ChannelPublication.RunIsMonotone | scripts/channel_publication.py:84-93 | over any run of accepted publications generations never go down |
| Layout.Resolve | apps/adaptive-shell/src/layout.rs:115-259 | the plan, slots pushed by loops, with no 32-bit overflow |
| Layout.PhonePlan | apps/adaptive-shell/src/layout.rs:121-151 | below 760 pixels: one surface above a strip of 66, whatever was asked for |
| Layout.DesktopPlan | apps/adaptive-shell/src/layout.rs:153-166 | otherwise the mode asked for, the percentage brought between 38 and 76, and no strip |
| Layout.FlatPlan | apps/adaptive-shell/src/layout.rs:207-244 | one surface fills the workspace; two in a grid take half each, a gap apart |
| Layout.MasterPlan | apps/adaptive-shell/src/layout.rs:168-206 | the master takes its percentage of the width less a gap, rounded down; the others share the rest, one above the other |
| Layout.SlotsInsideIff | apps/adaptive-shell/src/layout.rs:115-259 | all slots lie inside the viewport exactly when it is at least 54 high (64 with two stacked) on desktop, 8 by 48 on phone |
| Layout.SlotsApart | apps/adaptive-shell/src/layout.rs:167-245 | no two slots share area, in any viewport |
| Layout.MasterAndStackFill | apps/adaptive-shell/src/layout.rs:168-206 | master, gap and stack add up to the available width, also where the product saturates |
| Layout.SlotsInOrder | apps/adaptive-shell/src/layout.rs:160-258 | at most three slots, in activity order, all but the first counted as the stack |

## Left out

- Lossy decoding of bytes to text per read, and the JSON decoder: the relay is stated over decoded text and a decoder parameter.
- The text of error messages: a failure is a constructor, with the parser's detail where the source has one; the HTTP request before the stream, and drops of a stream that never starts, are not part of this model.
- SseTheorems.RelayRefinesSpec: assumes reads without error; a broken read has no counterpart in one text, and `SseTheorems.BrokenRead` says what it does.
- ToolBracketing.TurnIsBracketed: assumes that each index introduces one fresh non-empty id together with a name, and later carries neither; what streams that rename or reuse ids raise is `ToolBracketing.AnyDeltas`, but they are not bracketed.
- StreamReconcile.RenderedOnce: assumes a turn that lost no text; what holds otherwise is `StreamReconcile.ExactlyOnceIff`. The display is a buffer per session that appends chat text and is flushed by a final response.
- ProxyLoop.Proxy.Broadcast: which sends fail is arbitrary; serialisation of a message never fails, and the source id is not carried.
- ProxyLoop.Proxy.RunLoop: sorting and deduplicating the dead list is modelled by its result; a message the bus refuses to publish counts as forwarded; the wait after a failed accept is left out.
- Number properties that are not finite, and with them the oversized metadata length the source gives them.
- The key named by an unknown-property violation, and component families: validation says which node and kind.
- PatchOps.ReplaceEdits: the tree is a value, so the mutable reference that search returns is modelled as replacement at the first match in reading order.
- RecipeStores.RevisionCounts: about runs of patches only, because `insert` may overwrite a recipe with any revision.
- Scene.Validator.Check: node identities are natural numbers; how they are hashed from keys is left out.
- HookTokens.OneTokenPerEpoch: each handler takes one store operation at a time, in any order; the log records operations in the order they took effect. A handler whose operation errors simply ends.
- The publication of validated hooks and answers, and audit messages; stored tokens that are not UTF-8, which no registration here creates.
- PolicyLog.RegistrationsForHook: the lists are passed as decoded values, so re-encoding the selection as JSON text is left out.
- PolicyReplies.FailsClosed: a reply is its decoded decision or nothing; which of several prevailing reasons is shown does depend on reply order.
- GrepWalk.WalkRefinesSearch: the directory tree does not change during the walk.
- ChannelPublication.PublicationPlan: JSON numbers are integers, and an asset keeps only its name or id.
- Activity registry, surfaces, themes, model catalogue, hook merge, scaffolding, manifests, archives and packaging: mostly field checks or I/O.
