# A Dafny model of the WindsurfAPI proxy core

WindsurfAPI fronts a pool of upstream accounts with an OpenAI/Anthropic style API. This project models the six parts of it
that carry state over time, and proves what they promise over whole runs:

- a **cascade turn** reads a trajectory whose steps grow in place, emits every unit of its text once, and can be frozen into
  a snapshot and resumed elsewhere (`CascadeTurn.dfy`, `CascadeTurnRuns.dfy`, `CascadeTurnBuffer.dfy`);
- the **detached registry** keeps frozen turns for clients that went away, and hands each to at most one resumer
  (`DetachedRegistry.dfy`, `DetachedRegistryRuns.dfy`, `DetachedRegistryTerms.dfy`, `DetachedRegistryAnswers.dfy`);
- **Connect framing** wraps messages into the Enveloped-Message format of the Connect protocol (Streaming RPCs), and the
  streaming parser reads them back from a queue of borrowed chunks (`ConnectFraming.dfy`, `StreamingFrameParser.dfy`);
- the **native tool-call stream** scanner holds back what may become a `<function_calls>` block (`NativeStream.dfy`,
  `NativeStreamRoundTrip.dfy`);
- the **conversation pool** keeps cascades for reuse under a key that has to line up from turn to turn
  (`ConversationPool.dfy`, `ConversationPoolRuns.dfy`, `ConversationPoolRoundTrip.dfy`, `CanonicalJson.dfy`, `CanonicalJsonLaws.dfy`,
  `ConversationKey.dfy`, `ConversationKeyLaws.dfy`, `ConversationKeyIdentity.dfy`);
- the **account scheduler** admits, ranks, rate-limits and quarantines accounts, keeps their request history and their
  selector catalogs (`AccountPool.dfy`, `AccountSelection.dfy`, `AccountLeases.dfy`, `AccountRate.dfy`, `AccountBreaker.dfy`,
  `AccountBreakerLadder.dfy`, `AccountRing.dfy`, `CatalogSync.dfy`, `CatalogSyncRuns.dfy`, `CatalogSyncLife.dfy`).

Where the original changes an object step by step, the model has a class with the same fields. Each of its methods is proved to
do what a function on the object's value says, and the theorems about runs are about those functions. Clocks, timers, sinks,
fetches and concurrent requests are parameters or steps of a run that may come in any order; a clock never goes back, where
a theorem needs that it says so. Times are integer milliseconds, and
texts are sequences of UTF-16 code units wherever their length or their cuts matter. `Prelude.dfy` holds a few shared
datatypes, folds and the stable sort.

## What turned out to be conditional

- A turn loses nothing as long as no read starts while counted steps are unconsumed. When one does, it recovers exactly the
  steps its window reaches back to (`ReadRecoversIff`); `ReadAfterStoppedBatchLoses` gives a run that reads on after a
  stopped batch and loses text behind a snapshot guard that passes.
- A growing turn ends on the polished text of every final step in its window that has a `responseText`
  (`SweepEndsOnPolished`). Without one, the text it streamed must be a prefix of the polished text (`SweepPolishesIff`), and
  `FallbackIsNotRepaired` shows a step for which it is not.
- Moving a restored turn's offset before its first read changes the next window exactly when the poll floor does not
  hold it (`AdvanceBeforeFirstReadIff`).
- Without the rule that a key determines its caller, a refused admission can destroy another caller's entry, in exactly
  one way: that entry is running and is superseded, the sizes fit, and all of the requester's own slots are held by claims
  (`RefusedAdmitLosesIff`, `RefusedAdmitCanLose`).
- An overdue claim goes with the first observer, whatever else is due (`ObservedClaimGoes`), and all observers agree on the
  rest of the registry exactly when nothing else falls due by then (`ObserversAgreeIff`, `OwnerAndSweepDisagree`): only the
  sweep looks at bystanders, and its moment decides which cause is counted (`SweepTimeDecidesCause`).
- All cuts of a native tool-call stream agree exactly when no block has more UTF-16 units than the cap plus one
  (`CutsAgreeIff`).
- Unwrapping undoes wrapping exactly up to the frame limit, with HTTP compression on top exactly when the wrapped body is
  within it too (`UnwrapUndoesWrapIff`, `UnwrapUndoesWrapInGzipIff`). A body that was never wrapped survives exactly when it
  is not shaped like an envelope, or claims to be compressed and inflates to itself (`RawBodySurvivesIff`,
  `RawBodyCanBeLost`).
- Where the prefix can be digested, a lookup key matches its stored key exactly when system prompts are not hashed or no
  system message stands at or after the newest turn (`LookupMatchesStoreIff`, `LateSystemMessageMisses`). Sufficiency needs
  nothing of the digest (`QuietTailMatches`).
- What is checked in is checked out under every fingerprint it was named with, exactly while it is good and its owner agrees, as
  long as the pool has room for it (`CheckinThenCheckoutIff`); what happens without room is `CheckinIsFair`.
- Requests in flight balance with leases and returns but for returns that find nothing in flight (`InflightBalances`).
- Tools whose names the locale cannot tell apart stay in request order, so for those the order of the request shows
  (`SortToolsIff`, `TiesKeepRequestOrder`).
- With strict pinning the chosen account is unbeaten exactly when the caller's slot is among the tied ones
  (`ChosenIsUnbeatenIff`).
- A refund removes the reservation it names exactly when a request is in flight, the reservation is at most a minute old
  and no later one has the same token (`RefundRemovesNamedIff`).
- The breaker protects the selector that a report names and the pool as a whole. For another selector a report keeps every
  rank exactly when it takes nobody out, or somebody who was not in rotation for it or not the last of its rank
  (`ReportKeepsSelectorIff`, `OtherSelectorCanLose`).
- In `recordAccountRequest` the branch that pops the row just pushed (src/auth.js:4487) cannot be reached: the row itself is
  a failure, so the search before it always finds one.

## Model

| member | source | states |
|---|---|---|
| CascadeTurns.CascadeTurn.ReadWindow | src/cascade-turn.js:215-240 | the window start, the offset and the pending resume window move as the fetched length says, and growth of the offset is reported; the proof pointer and the output stay, and a failed fetch changes nothing |
| CascadeTurns.CascadeTurn.ConsumeStep | src/cascade-turn.js:248-284 | a step emits only what lies beyond its two cursors, thinking before text, and stops between the two when the thinking sink fails |
| CascadeTurns.CascadeTurn.ConsumeFinalStep | src/cascade-turn.js:293-327 | text only, in two emissions each with its own sink: first up to `responseText`, then up to the polished text where that extends it; the delta returned is what both added, and nothing when a sink failed; a failure of the first leaves the second undone |
| CascadeTurns.CascadeTurn.ConsumeBatch | src/cascade-turn.js:338-352 | a batch is consumed in order up to the callback that ends it; the output, the cursors and whether it completed are those of that extent |
| CascadeTurns.CascadeTurn.PollOnce | src/cascade-turn.js:338-352 | fetch and consumption in one call: a failed fetch changes nothing; otherwise it completes exactly when no callback ended the batch early, and reports growth exactly when the offset or the buffer grew |
| CascadeTurns.CascadeTurn.AdvanceTo | src/cascade-turn.js:357-361 | the offset only moves forward and nothing else changes |
| CascadeTurns.CascadeTurn.TakeSnapshot | src/cascade-turn.js:369-409 | a snapshot exists exactly when every counted step was consumed, and holds the next window start, the sorted cursor pairs and the buffer |
| CascadeTurns.CascadeTurn.FromSnapshot | src/cascade-turn.js:415-488 | every snapshot is restored or refused for the first reason that applies |
| CascadeTurns.CursorMapOf | src/cascade-turn.js:54-78 | a cursor table is read back pair by pair; the first malformed pair refuses it all, and of two pairs for one step the later counts |
| CascadeTurns.LastPairCounts | src/cascade-turn.js:54-78 | of two pairs for one step the later one counts |
| CascadeTurns.PairsRoundTrip | src/cascade-turn.js:54-78 | sorting a cursor map into pairs and reading them back gives the map |
| CascadeTurns.PairsSorted | src/cascade-turn.js:369-409 | the pairs of a snapshot are in strictly increasing order of step |
| CascadeTurns.RestoreUndoesSnapshot | src/cascade-turn.js:369-488 | every snapshot that can be taken is accepted, and restores a turn that differs only in carrying the next window explicitly and freezes to the same snapshot |
| CascadeTurns.RestoreIsStable | src/cascade-turn.js:369-488 | whatever is accepted gives a turn that can be frozen at once, and freezing and restoring it again moves nothing any more |
| CascadeTurns.RestoreRefusesIff | src/cascade-turn.js:415-488 | a snapshot is restored exactly when it obeys all ten rules, and refused for the first that it breaks, a batch left in the middle included |
| CascadeTurns.RestoreFillsIn | src/cascade-turn.js:415-488 | what a restored turn has for each optional field that the snapshot leaves out |
| CascadeTurnRuns.ResumeTransparency | src/cascade-turn.js:189-284 | a run detached and resumed any number of times asks for the same windows and ends with the same chunks, cursors and offsets as the uncut run |
| CascadeTurnRuns.AdvanceBeforeFirstReadIff | src/cascade-turn.js:189-192 | the one operation that can tell a restored turn from the uncut one, and exactly when it does |
| CascadeTurnRuns.WindowsTrailTheTrajectory | src/cascade-turn.js:189-240 | over every run each window starts eight steps behind the longest trajectory seen, not before the first step; the offset is that length, and the sweep goes back to the last window read |
| CascadeTurnRuns.ExactlyOnce | src/cascade-turn.js:248-284 | over every run, what a step emitted is a prefix of its text and of its thinking: nothing twice, nothing out of order |
| CascadeTurnBuffers.BufferInterleavesSteps | src/cascade-turn.js:248-284 | over every growing run each chunk of the buffer belongs to one step, and the chunks of each step in buffer order are its text and its thinking up to its cursors |
| CascadeTurnBuffers.PollEmitsInOrder | src/cascade-turn.js:248-352 | a poll adds to the buffer what the steps of its window have beyond their cursors, step by step, thinking before text, up to the callback that ends it |
| CascadeTurnRuns.NothingLost | src/cascade-turn.js:189-240 | in a disciplined run everything below the next window is emitted whenever a snapshot can be taken, and everything after a completed poll |
| CascadeTurnRuns.ReadRecoversIff | src/cascade-turn.js:215-240 | a completed read recovers an unread step exactly when its window reaches back to it, and the snapshot guard passes either way |
| CascadeTurnRuns.ReadAfterStoppedBatchLoses | src/cascade-turn.js:215-240 | a concrete run that reads on after a stopped batch loses text behind a passing guard |
| CascadeTurnRuns.FinalStepPolishesIff | src/cascade-turn.js:293-327 | a step's final text is the polished text exactly when what it had emitted is a prefix of it |
| CascadeTurnRuns.SweepPolishesIff | src/cascade-turn.js:293-327 | for any tracked turn: a step of the sweep ends on the polished text exactly when what it had emitted is a prefix of that; earlier steps and all thinking stay as they were |
| CascadeTurnRuns.SweepEndsOnPolished | src/cascade-turn.js:248-327 | after any growing run of a fresh turn the sweep ends on the polished text of each step in its window that has a `responseText` |
| CascadeTurnRuns.FallbackIsNotRepaired | src/cascade-turn.js:248-327 | a step that streamed its `text` fallback before `responseText` arrived does not end on the polished text |
| CascadeTurnBuffers.SweptBufferIsPolished | src/cascade-turn.js:293-327 | after any growing run and the sweep the chunks of every swept step with a `responseText` are its polished text, and nothing else in the buffer has changed |
| CascadeTurnRuns.SweepMovesOn | src/cascade-turn.js:293-361 | the sweep moves the offset to the end of what it saw and leaves nothing unread |
| CascadeTurnBuffers.SnapshotOfRun | src/cascade-turn.js:369-409 | every snapshot of a run says where the turn was, holds a buffer that its own cursors describe, and its totals are those of that buffer |
| CascadeTurnRuns.RunKeepsBalanced | src/cascade-turn.js:248-327 | the length counters are those of the buffer and `sawText` tells whether text was emitted, through any run and sweep |
| CascadeTurnRuns.RunKeepsAttributed | src/cascade-turn.js:248-284 | the buffer is made up of the emissions of its steps: their cursors add up to its length, for text and for thinking, after every run |
| CascadeTurnRuns.SaidIsCounted | src/cascade-turn.js:248-284 | what a step is said to have emitted over a run is as long as its cursor |
| DetachedTurns.DetachedRegistry.DeleteEntry | src/detached-registry.js:248-258 | a delete is by entry identity: a successor under the same key is left alone, bytes and one counter move, and the result says whether there was anything to delete |
| DetachedTurns.DetachedRegistry.SweepExpired | src/detached-registry.js:272-286 | claimed entries go by deadline only, running ones by expiry first and deadline second, and as many are reported as counted |
| DetachedTurns.DetachedRegistry.EvictOldestRunning | src/detached-registry.js:289-299 | the oldest running entry goes, the first inserted among equals, never a claimed one |
| DetachedTurns.DetachedRegistry.AdmitTurn | src/detached-registry.js:318-405 | admission in the order of the source: request checks, sweep, busy, byte caps, supersede, caller cap, entry cap |
| DetachedTurns.DetachedRegistry.LookupEntry | src/detached-registry.js:408-440 | a hit is for the same caller and not due; a due entry goes for its cause and counts as a miss |
| DetachedTurns.DetachedRegistry.ClaimEntry | src/detached-registry.js:451-483 | only a running, unexpired entry of the same caller is claimed, under a token never used before |
| DetachedTurns.DetachedRegistry.OwnsClaim | src/detached-registry.js:490-503 | ownership holds for the token of the claim until the deadline, and asking after it evicts |
| DetachedTurns.DetachedRegistry.ReleaseClaim | src/detached-registry.js:511-557 | serving, re-detaching and every way in which giving back fails |
| DetachedTurns.DetachedRegistry.EvictEntry | src/detached-registry.js:564-577 | an eviction needs the token of a claim or the identity of a running entry; an overdue claim is counted as overdue |
| DetachedTurns.DetachedRegistry.OnTimer | src/detached-registry.js:228-246 | a timer that fires deletes its own entry if that is due, and nothing else |
| DetachedTurns.DetachedRegistry.EvictAccount | src/detached-registry.js:579-588 | exactly the entries of the account go, claimed or not, and as many are reported as counted |
| DetachedTurns.DetachedRegistry.StartDrain | src/detached-registry.js:594-597 | draining removes every entry and refuses admissions from then on |
| DetachedTurnRuns.RunKeepsInv | src/detached-registry.js:248-405 | in every reachable state the byte account is the sum over the entries, all caps hold, and admissions equal entries plus served plus evictions |
| DetachedTurnRuns.AdmitCosts | src/detached-registry.js:318-405 | a refused admission deletes no unexpired entry; a successful one costs at most one, and never a claimed one |
| DetachedTurnTerms.AdmitStores | src/detached-registry.js:376-405 | what is stored is the request with its own caller, account and snapshot, running, to expire at the admission plus the time to live and due at the requested deadline |
| DetachedTurnTerms.AdmitSucceedsIff | src/detached-registry.js:318-405 | exactly when a request is admitted, by the request and the live entries before it, and exactly who is in the registry afterwards |
| DetachedTurnTerms.AdmitRefusesFirst | src/detached-registry.js:318-388 | a request is refused for the first of eight reasons that applies |
| DetachedTurnTerms.AdmitCounts | src/detached-registry.js:318-405 | what an admission counts: one refusal under its reason, or one admission and the entry that made room |
| DetachedTurnTerms.OldestIff | src/detached-registry.js:289-299 | who goes first is the first inserted of those with the least creation time |
| DetachedTurnTerms.SnapshotWeighs | src/detached-registry.js:122-135 | an entry weighs two bytes for each unit of its buffer, 64 for each chunk, 1024 and its pin |
| DetachedTurnAnswers.AdmittedIsClaimable | src/detached-registry.js:318-483 | after any run that spares it, an admitted request is found under its key, and its caller can claim it exactly before both its expiry and its requested deadline, snapshot and all |
| DetachedTurnAnswers.AdmittedIsOwned | src/detached-registry.js:451-503 | the claimant owns it through any run that leaves the claim alone, exactly until the requested deadline |
| DetachedTurnAnswers.RunningStaysIff | src/detached-registry.js:228-597 | exactly which actions end or hand over a running entry, admissions of others included |
| DetachedTurnRuns.RefusedAdmitLosesIff | src/detached-registry.js:349-405 | an admission is refused and yet deletes an unexpired entry exactly when the swept registry has a running same-key entry of another caller, the byte caps pass, and the requester is at its cap with claims only |
| DetachedTurnRuns.RefusedAdmitCanLose | src/detached-registry.js:349-405 | a registry and a request for which it happens |
| DetachedTurnRuns.ClaimSurvives | src/detached-registry.js:451-577 | a claim lives through any run that does not hold its own token, its deadline, its account's removal or a drain |
| DetachedTurnRuns.ClaimEndsInDeath | src/detached-registry.js:511-577 | a claim that ends leaves no entry with its token |
| DetachedTurnRuns.LostOwnershipIsFinal | src/detached-registry.js:490-503 | a token that lost ownership never owns again, however the run goes on |
| DetachedTurnRuns.DeadTokenIsPowerless | src/detached-registry.js:490-577 | a stale token owns, releases and evicts nothing, also when its key names a successor |
| DetachedTurnRuns.EachTokenServesOnce | src/detached-registry.js:511-530 | each token is served at most once in a run |
| DetachedTurnRuns.TermsNeverMove | src/detached-registry.js:532-557 | claiming and re-detaching never move an entry's expiry, deadline, caller or account |
| DetachedTurnAnswers.LookupFindsIff | src/detached-registry.js:408-440 | a lookup finds exactly the live entry under the key, for its own caller only, and takes it out only when it is due |
| DetachedTurnAnswers.ClaimGrantsIff | src/detached-registry.js:451-483 | a claim is granted exactly on a running, live entry of the same caller |
| DetachedTurnAnswers.ClaimHandsOut | src/detached-registry.js:451-483 | what it hands out is the entry as stored, under a fresh token that owns it |
| DetachedTurnAnswers.ClaimRefusesFor | src/detached-registry.js:451-483 | which of the four refusals a claim meets |
| DetachedTurnAnswers.OwnsIff | src/detached-registry.js:490-503 | who owns a claim |
| DetachedTurnAnswers.ServesIff | src/detached-registry.js:511-530 | a claim is served exactly by its own token before the deadline, and then it is gone and counted |
| DetachedTurnAnswers.GivesBackIff | src/detached-registry.js:532-557 | exactly when a claim can be given back under a new snapshot |
| DetachedTurnAnswers.GivenBackIsHandedOut | src/detached-registry.js:532-557 | the next claimant is handed that snapshot, on the old terms |
| DetachedTurnAnswers.EvictsIff | src/detached-registry.js:564-577 | an eviction takes exactly the entry whose owner it names |
| DetachedTurnAnswers.AccountEvictionIsExact | src/detached-registry.js:579-588 | removing an account takes exactly its entries, each counted once |
| DetachedTurnAnswers.DrainIsFinal | src/detached-registry.js:594-597 | after a drain nothing is ever admitted, found or claimed |
| DetachedTurnRuns.ObserverOrderIndependence | src/detached-registry.js:228-286 | once a claim is overdue and nothing else falls due, any order and number of timer, sweep, lookup, owns, release and evict leaves the same entries, bytes and counters, with one deadline eviction |
| DetachedTurnRuns.ObserversAgreeIff | src/detached-registry.js:228-286 | all non-empty observer sequences between the deadline and a horizon leave the same registry exactly when nothing else falls due by the horizon |
| DetachedTurnRuns.OwnerAndSweepDisagree | src/detached-registry.js:272-503 | the pair of observers that disagrees about any bystander that is due |
| DetachedTurnRuns.ObserversMeetFate | src/detached-registry.js:228-577 | whatever else is due, a sequence of observers is one purge that gives each entry the cause found by the first observer to judge it |
| DetachedTurnRuns.ObservedClaimGoes | src/detached-registry.js:228-577 | whatever else is due, the overdue claim goes for its deadline with any sequence of observers, its token is dead, nothing is served, and exactly the bystanders that a sweep finds due go with it |
| DetachedTurnRuns.OthersDoNotSweep | src/detached-registry.js:228-577 | observers other than the sweep delete the claim for its deadline and nothing else, whatever is due |
| DetachedTurnRuns.SweepTimeDecidesCause | src/detached-registry.js:272-286 | a bystander whose deadline comes before its expiry is counted by whichever bound the sweep comes after |
| ConnectFraming.Be32RoundTrip | src/connect.js:44-58 | the four length bytes read back as the length |
| ConnectFraming.WrappedParsesIff | src/connect.js:44-104 | a wrapped message is read back, with the bytes behind it intact, exactly when it fits the frame limit; otherwise its frame is refused |
| ConnectFraming.StreamRoundTripIff | src/connect.js:44-80 | a wrapped and closed list is read back in full exactly when every message fits |
| ConnectFraming.ChunkingIndependence | src/connect.js:111-222 | for every cut of a byte stream and every interleaving of push and drain, frames delivered and left over are those of one flat parse; after an error the queue starts at the offending frame |
| ConnectFraming.SentIsReceived | src/connect.js:44-222 | any list of payloads, sent in any chunks, arrives in order with only the trailer marked as the end |
| ConnectFraming.AnyStreamReads | src/connect.js:183-222 | any list of frames reads back frame by frame, with both flag bits in every combination, up to the first that is too long or does not inflate |
| ConnectFraming.WireBytes | src/connect.js:44-75 | the bytes of plain and empty messages and of the end of a stream |
| ConnectFraming.CompressedBytes | src/connect.js:44-63 | the bytes of a compressed message |
| ConnectFraming.UnwrapUndoesWrapIff | src/connect.js:61-104 | unwrapping a wrapped request gives it back exactly up to the inflation bound |
| ConnectFraming.UnwrapUndoesWrapInGzipIff | src/connect.js:83-104 | with HTTP compression on top it comes back exactly when the request and the wrapped body both are within the inflation bound |
| ConnectFraming.EnvelopeUnwraps | src/connect.js:83-104 | plain envelopes give up their payload, compressed ones what it inflates to, other flags nothing |
| ConnectFraming.RawBodySurvivesIff | src/connect.js:83-104 | which bodies that were never wrapped come back unchanged: those not shaped like an envelope, and compressed lookalikes that inflate to themselves |
| ConnectFraming.RawBodyCanBeLost | src/connect.js:83-104 | five zero bytes come back empty |
| StreamingParser.StreamingFrameParser.Push | src/connect.js:119-129 | a chunk is appended to the flat contents and counted; an empty one takes no slot and is not |
| StreamingParser.StreamingFrameParser.ByteAt | src/connect.js:131-138 | the byte found by walking the queue is the byte of the flat contents |
| StreamingParser.StreamingFrameParser.CopyPayload | src/connect.js:140-157 | the payload copied across chunk borders is the slice of the flat contents behind the header |
| StreamingParser.StreamingFrameParser.Consume | src/connect.js:159-180 | the flat contents lose exactly the consumed prefix; afterwards the queue is empty or less than half dead, and chunks retired plus chunks queued are the chunks pushed |
| StreamingParser.StreamingFrameParser.CopyingIsPaidFor | src/connect.js:159-180 | compaction never copies more references than chunks were pushed, and the queue array is at most twice the live chunks |
| StreamingParser.StreamingFrameParser.Drain | src/connect.js:183-222 | a drain gives the frames of the flat parse and leaves its rest; when it throws, the queue starts at the refused frame |
| NativeStream.NativeFunctionCallStreamParser.DrainBuffer | src/cascade-native-bridge.js:1229-1269 | the loop over the buffer gives the output and leaves the buffer of the specification |
| NativeStream.PartialPrefixLength | src/cascade-native-bridge.js:1272-1280 | the held length is that of the longest proper tag prefix, in any case, at the end of the text |
| NativeStream.StreamCutInvariance | src/cascade-native-bridge.js:1213-1269 | every cut between UTF-16 units of a text within the cap, then a flush, gives the text and tool calls of the uncut text |
| NativeStream.OneFeedIsWhole | src/cascade-native-bridge.js:1213-1269 | one feed and a flush give the reference output of any text, within the cap or not |
| NativeStream.CutsAgreeIff | src/cascade-native-bridge.js:1211-1269 | all cuts agree exactly when no block, closed or not, exceeds the cap by more than its last UTF-16 unit |
| NativeStreamRoundTrips.SpokenSurvivesCuts | src/cascade-native-bridge.js:1229-1269 | text written around tool-call blocks in any case of letters comes back as that text and the calls of the blocks, however it is cut |
| NativeStreamRoundTrips.UnclosedIsDropped | src/cascade-native-bridge.js:1245-1255 | a block that never closes is dropped with everything behind it |
| NativeStreamRoundTrips.LongerWordIsText | src/cascade-native-bridge.js:1229-1243 | a longer word that only begins like the tag opens nothing |
| ConversationPools.ConversationPool.PruneSlots | src/conversation-pool.js:506-543 | expiry, the fair-share pass, the admitting tenant's pass and the caller index, with both counters |
| ConversationPools.ConversationPool.SqueezeOverShare | src/conversation-pool.js:514-530 | least recently used first, slots go whose tenant is above its share when its turn comes, until the pool fits |
| ConversationPools.ConversationPool.SqueezeTenant | src/conversation-pool.js:531-541 | the admitting tenant's remaining slots go until the pool fits |
| ConversationPools.ConversationPool.CheckinEntry | src/conversation-pool.js:669-724 | the same entry is written under every fingerprint, in place where one exists, and the pool is pruned for its tenant |
| ConversationPools.ConversationPool.CheckoutEntry | src/conversation-pool.js:563-620 | validate first, remove afterwards, with the caller fallback for misses |
| ConversationPools.ConversationPool.CallerFallbackCheckout | src/conversation-pool.js:625-650 | the fallback applies the same validation to the caller's latest fingerprint |
| ConversationPools.ConversationPool.Invalidate | src/conversation-pool.js:731-775 | the two passes drop the slots of what went away and the other slots of their cascades |
| ConversationPoolRuns.CheckinKeepsBound | src/conversation-pool.js:506-724 | from a pool within its bound every check-in ends within it, under any number of fingerprints and with more tenants than slots, and evicts no more than it must |
| ConversationPoolRuns.CheckinIsFair | src/conversation-pool.js:506-543 | each tenant keeps all it had or at least its share; only the one checking in may lose its last slot, with more tenants than slots; within a tenant the least recently used go first |
| ConversationPoolRoundTrips.CheckinFiles | src/conversation-pool.js:669-724 | when it fits, a check-in files its entry under every fingerprint named and keeps every other current slot |
| ConversationPoolRoundTrips.CheckinThenCheckoutIff | src/conversation-pool.js:563-724 | what was checked in is handed out under every fingerprint named, to its caller, exactly while it is good and its owner agrees |
| ConversationPoolRoundTrips.AliasesAreAlike | src/conversation-pool.js:652-724 | an alias hands out the same entry as the first fingerprint, also after that was used |
| ConversationPoolRoundTrips.CheckinThenFallback | src/conversation-pool.js:625-724 | with reuse by caller the next turn of the same caller and model finds the entry without its fingerprint |
| ConversationPoolRoundTrips.ShareIsEqual | src/conversation-pool.js:506-524 | the share is the slots divided by the tenants that hold any, and at least one |
| ConversationPoolRoundTrips.RunKeepsOrderly | src/conversation-pool.js:506-775 | every reachable pool has one slot for a fingerprint and none without one, so the round trips hold of it |
| ConversationPoolRuns.TenantIsolation | src/conversation-pool.js:506-543 | a tenant within its fair share loses no live entry to another tenant's check-in |
| ConversationPoolRuns.TenantIsTwoSegments | src/conversation-pool.js:499-504 | a tenant is what comes before the second colon of a caller key |
| ConversationPoolRuns.ByAccessIsStable | src/conversation-pool.js:514-514 | slots used at the same moment are considered in insertion order |
| ConversationPoolRuns.CheckoutHandsIff | src/conversation-pool.js:563-650 | an entry is handed out exactly when it is current, the caller's and where the caller expects it, and then exactly its slot goes; a failure costs nobody a current entry |
| ConversationPoolRoundTrips.HandedOutIsUnindexed | src/conversation-pool.js:590-620 | a hand-out by fingerprint takes out exactly the index entries that lead to it |
| ConversationPoolRoundTrips.FallbackUnindexes | src/conversation-pool.js:625-650 | when a fallback takes out the index entry it followed |
| ConversationPoolRoundTrips.PrunedIndexLeads | src/conversation-pool.js:546-551 | pruning leaves exactly the index entries that lead to a slot |
| ConversationPoolRuns.InvalidationIsComplete | src/conversation-pool.js:731-775 | a slot survives exactly when neither it nor a slot of its cascade is tied to what went away; a second invalidation drops nothing |
| ConversationPoolRoundTrips.InvalidationSparesIff | src/conversation-pool.js:731-775 | a slot survives exactly when neither it nor a slot of its cascade belongs to the account or server generation that went away |
| ConversationPoolRuns.RunKeepsBound | src/conversation-pool.js:506-796 | the bound holds after every run of check-ins, checkouts, invalidations and prunes |
| ConversationPoolRuns.EachStoreServesOnce | src/conversation-pool.js:563-724 | over every run, hand-outs under a fingerprint never exceed the check-ins that named it |
| ConversationPoolRuns.RunBalances | src/conversation-pool.js:506-775 | every slot ever made is in the pool, was handed out, expired, was evicted or was invalidated |
| CanonicalJsonLaws.StableStringifyIff | src/conversation-pool.js:220-225 | two JSON values have the same canonical text exactly when they are the same value, whatever the order of their members |
| CanonicalJsonLaws.PlainUnambiguous | src/conversation-pool.js:220-225 | no JSON text is a proper beginning of another in any context: escapes, surrogates, numbers and nesting included |
| CanonicalJsonLaws.QuotedUnambiguous | src/conversation-pool.js:220-225 | a quoted string determines its code units and where it ends (RFC 8259 section 7) |
| CanonicalJsonLaws.SortedIsUnique | src/conversation-pool.js:220-225 | sorting keys all the way down leaves one representative of each value |
| ConversationKeys.ProjectAll | src/conversation-pool.js:416-426 | the projected turns in order without system messages, or nothing when one of them holds media that cannot be digested |
| ConversationKeys.PriorTurns | src/conversation-pool.js:402-414 | everything before the newest user or tool turn; nothing when that is the first message or missing |
| ConversationKeyLaws.KeyContinuity | src/conversation-pool.js:402-492 | what is hashed after a conversation is what is hashed before its next user or tool turn |
| ConversationKeyLaws.LookupMatchesStoreIff | src/conversation-pool.js:402-492 | for any message list and a collision-free digest, the lookup key is the stored key of its prefix exactly when the prefix cannot be digested, system prompts are not hashed, or no system message stands at or after the newest turn |
| ConversationKeyLaws.QuietTailMatches | src/conversation-pool.js:402-492 | under the same condition the keys match for any digest |
| ConversationKeyLaws.LateSystemMessageMisses | src/conversation-pool.js:402-492 | one system message after the newest turn makes the lookup miss what it would find without it |
| ConversationKeyLaws.PayloadsAgreeIff | src/conversation-pool.js:428-445 | two payloads are the same text exactly when caller, model, route, both digests and all turns agree |
| ConversationKeyLaws.LookupFindsStoredIff | src/conversation-pool.js:402-492 | a lookup finds what was stored exactly when the identities agree and the histories agree turn by turn in what the projection keeps |
| ConversationKeyIdentity.KeysAgreeIff | src/conversation-pool.js:378-492 | a lookup finds what was stored exactly when caller, model and effective route are the same, so are the emulated tools and the hashed system messages, and the histories agree turn by turn |
| ConversationKeyIdentity.CallersNeverShareKeys | src/conversation-pool.js:428-492 | two callers, or two models, never share a key text, whatever they say and whatever the digest |
| ConversationKeyIdentity.ToolDigestsAgreeIff | src/conversation-pool.js:378-397 | tool digests agree exactly when both are off, or the sorted tools, the choice, the tier and the preamble are the same |
| ConversationKeyIdentity.SystemDigestsAgreeIff | src/conversation-pool.js:352-376 | system digests agree exactly when the rewritten system messages do, or none are hashed |
| ConversationKeyIdentity.KeysExistIff | src/conversation-pool.js:402-492 | exactly when there is a key to look up, and one to store |
| ConversationKeyIdentity.NewestIff | src/conversation-pool.js:402-414 | the newest turn is the last one of a user or a tool |
| ConversationKeyLaws.ProjectionMeans | src/conversation-pool.js:317-349 | the record of a turn says its role and exactly the parts that are kept for that role |
| ConversationKeyLaws.SortToolsIff | src/conversation-pool.js:378-397 | tool lists sort alike exactly when tools with indistinguishable names come in the same order |
| ConversationKeyLaws.ToolOrderIrrelevant | src/conversation-pool.js:378-397 | listing tools with distinguishable names in another order changes neither key |
| ConversationKeyLaws.TiesKeepRequestOrder | src/conversation-pool.js:378-397 | tools whose names tie stay in request order |
| AccountPools.AccountPool.PruneRpmHistory | src/auth.js:640-647 | tokens older than the window are dropped from the front |
| AccountPools.RpmHistoryCount | src/auth.js:652-659 | the read-only count is what pruning would leave |
| AccountPools.AccountPool.GetApiKeyCall | src/auth.js:3091-3433 | the bound account if it is admitted, refusal under pin-only or no-fallback, else selection |
| AccountLeases.StickyIff | src/auth.js:3100-3158 | a caller gets its own account, as such, exactly when it is bound and the first active account with the bound id is admitted, whatever the hash and the other accounts are |
| AccountLeases.PollIsPinOrNothing | src/auth.js:3100-3211 | a poll for the own account gets that or nothing, and a poll that fails changes nothing |
| AccountLeases.NoPinSelectsIff | src/auth.js:3159-3211 | without fallback a bound account that is still active is waited for; in every other case without a pin that holds the answer is that of selection |
| AccountPools.AccountPool.CollectCandidates | src/auth.js:3213-3224 | every account gets its half-open trial; the admitted ones are pruned and become candidates |
| AccountPools.AccountPool.ChooseSlot | src/auth.js:3312-3409 | the shard permutes the tied prefix, or everyone under strict pinning |
| AccountPools.AccountPool.PickDegradedFallback | src/auth.js:3050-3080 | among accounts held back only by a transient cooldown, the first whose cooldown ends soonest |
| AccountPools.AccountPool.AcquireAccountByKey | src/auth.js:3559-3589 | a given account is reserved under its own checks, or left alone |
| AccountPools.AccountPool.RefundReservation | src/auth.js:3815-3825 | a refund prunes and removes the last occurrence of its token, while a request is in flight |
| AccountSelection.SelectedIsBest | src/auth.js:2197-2215 | whom selection hands out was admitted, and no admitted account is better |
| AccountSelection.SelectsIff | src/auth.js:3213-3254 | selection serves from the admitted accounts exactly when there is one |
| AccountLeases.AdmittedIff | src/auth.js:2197-2215 | an account is admitted exactly when none of twelve bars stands in its way |
| AccountLeases.LeaseGoesWhereItMay | src/auth.js:3091-3255 | no lease goes to an account that something bars; a degraded one looks past a cooldown, and only when everybody is barred |
| AccountLeases.RestsBeforeTrial | src/auth.js:4186-4193 | an account in error is tried again exactly when it has rested long enough |
| AccountLeases.BetterIff | src/auth.js:3270-3298 | accounts rank as their five terms of health do, the first that differs deciding |
| AccountSelection.ChosenIsUnbeatenIff | src/auth.js:3270-3409 | for every caller the choice is unbeaten without strict pinning; with it, exactly when the slot is among the tied ones |
| AccountSelection.TiedPrefixIsUnbeaten | src/auth.js:3382-3398 | the tied prefix is exactly the set of unbeaten candidates |
| AccountSelection.EveryUnbeatenIsReached | src/auth.js:3399-3408 | every unbeaten candidate is some caller's choice |
| AccountSelection.DegradedIsLeastCooled | src/auth.js:3050-3080 | no degradable account would be available sooner than the one served |
| AccountLeases.DegradableIff | src/auth.js:3050-3080 | which bars a degraded serve looks past, and which it does not |
| AccountLeases.CooledUntilIsTight | src/auth.js:3050-3080 | the time by which accounts are compared is when the cooldowns in the way are over, not earlier and not later |
| AccountRates.EveryMinuteIsBounded | src/auth.js:640-659 | over every run, by all acquisition paths and with refunds, no minute holds more reservations of an account than its tier allows |
| AccountRates.GetApiKeyEffect | src/auth.js:3140-3158 | sticky, selected and degraded acquisitions reserve only below the limit, once, and only prune the others |
| AccountRates.AcquireByKeyEffect | src/auth.js:3559-3580 | so does an acquisition by key |
| AccountLeases.ByKeyLeaseIff | src/auth.js:3559-3589 | a lease by key goes to the first account with the key, exactly when nothing that counts there bars it |
| AccountLeases.InflightBalances | src/auth.js:3140-3475 | over every run what is in flight and what was given back balance with what was in flight before and the leases, but for returns that found nothing in flight |
| AccountRates.PruningTracks | src/auth.js:640-659 | what pruning leaves is exactly the number of reservations of the last minute |
| AccountRates.CutoffSplits | src/auth.js:146-150 | cutoffs order tokens as they order times |
| AccountRates.RoundedTokensAgree | src/auth.js:142-150 | doubles within rounding error of the exact token lie on the same side of every cutoff as the exact one, and are equal only if the exact ones are |
| AccountRates.RefundRemovesNamedIff | src/auth.js:3815-3825 | a token removes the reservation it was given for exactly when a request is in flight, the reservation is at most a minute old and no later one shares the token |
| AccountRates.RefundIsExact | src/auth.js:142-150 | with fewer than a thousand reservations in a millisecond a refund removes exactly the one it names |
| AccountLeases.RefundLeaves | src/auth.js:3815-3825 | what a refund leaves of a history, found or not |
| AccountBreakers.AccountBreaker.IsLastUsableAccount | src/auth.js:3931-3950 | no other account in rotation for the selector has at least the same rank |
| AccountBreakers.AccountBreaker.ReportErrorCall | src/auth.js:4259-4320 | the windowed streak, the exemption, the trip and its backoff |
| AccountBreakers.AccountBreaker.ReportInternalErrorCall | src/auth.js:4631-4653 | the streak, the exemption and the quarantine |
| AccountBreakers.RunKeepsCover | src/auth.js:3923-3950 | with the exemption on, no run of reports lowers the best rank in rotation, nor that for the one selector all of them name |
| AccountBreakers.ReportKeepsSelectorIff | src/auth.js:3931-4653 | for any selector and either kind of report, exactly when the report keeps every rank in rotation: it takes nobody out, or somebody not usable for the selector, or not the last usable one of its rank |
| AccountBreakers.OtherSelectorCanLose | src/auth.js:3931-4320 | two accounts and a report that names no selector, after which nobody serves a selector that was served before |
| AccountBreakers.DeadlinesOnlyMoveOut | src/auth.js:4259-4320 | no report moves a cooldown deadline earlier |
| AccountBreakerLadders.StreakIsCounted | src/auth.js:4276-4281 | the error count is the number of reports since the last one that came too late for the window |
| AccountBreakerLadders.ErrorReportWrites | src/auth.js:4259-4320 | what an error report writes into the account it names, and that it writes nowhere else |
| AccountBreakerLadders.InternalReportWrites | src/auth.js:4631-4653 | what an internal error writes: a streak, and at its threshold a quarantine |
| AccountBreakerLadders.BackoffClimbs | src/auth.js:4300-4315 | the rests climb a geometric ladder up to the cap and never get shorter |
| AccountBreakerLadders.BackInRotationIff | src/auth.js:4186-4320 | a tripped account is back in rotation exactly when both the trial time and its rest are over |
| AccountRings.AccountRequests.Record | src/auth.js:4447-4491 | a row goes to its owner's ring only, and over the cap the oldest failure goes first |
| AccountRings.RingIsLatest | src/auth.js:4470-4490 | after any history the ring is the most recent billed rows and the failures that fit beside them, in the order of the history |
| AccountRings.RingIsTwoLists | src/auth.js:4443-4490 | the billed rows are the last of all billed rows up to the cap, the failures the last that fit in the remaining slots, and no slot is wasted |
| CatalogSyncs.CatalogSync.UnionRows | src/auth.js:1444-1456 | the union over all contributions, the first writer of a selector winning |
| CatalogSyncs.CatalogSync.PublishUnion | src/auth.js:1501-1516 | the union is published, with the snapshot beside it while an active account has not contributed |
| CatalogSyncs.CatalogSync.ReconcileAccounts | src/auth.js:1398-1430 | whatever belongs to accounts that are not active is forgotten, in whatever order they are visited |
| CatalogSyncs.CatalogSync.StartAttempt | src/auth.js:1595-1613 | an attempt begins, and is the one returned, unless the rows are fresh, the account backs off or an attempt with the same key is under way |
| CatalogSyncs.CatalogSync.ResolveAttempt | src/auth.js:1614-1640 | only a current attempt stores, and only a response that names a selector |
| CatalogSyncLives.StartsIff | src/auth.js:1595-1613 | an attempt begins exactly for an active account whose rows are not fresh, which does not rest, and for whose key none is under way |
| CatalogSyncLives.UndisturbedAttemptStores | src/auth.js:1581-1640 | an attempt that nothing disowns stays current through any run, and then its response is stored whole and in order |
| CatalogSyncLives.SuccessKeepsFresh | src/auth.js:1595-1646 | after a success the next attempt begins exactly when the rows have outlived their time |
| CatalogSyncLives.FailureRests | src/auth.js:1569-1646 | after the n-th failure in a row nothing is lost, and the next attempt begins exactly when the rest for n is over |
| CatalogSyncLives.LiveSays | src/auth.js:1501-1516 | over every run: what is published names exactly the stored selectors, and the snapshot stays exactly while an active account has not contributed or nobody is active |
| CatalogSyncLives.NameIsTrimmed | src/auth.js:1444-1456 | a name is a selector without the white space around it |
| CatalogSyncRuns.RunKeepsInv | src/auth.js:1408-1674 | over all interleavings, stored rows come only from an attempt begun after the account's last invalidation and with its current key, and what is published is the union of what is stored |
| CatalogSyncRuns.InvalidatedAttemptStaysInert | src/auth.js:1581-1593 | an attempt begun before an invalidation changes nothing, however the run goes on and whatever it brings |
| CatalogSyncRuns.DisablingInvalidates | src/auth.js:1408-1424 | an account that leaves the active set loses its rows and its attempt, so enabling it again does not revive them |
| CatalogSyncRuns.ResolveStoresIff | src/auth.js:1621-1646 | empty and failed responses leave what is stored and published as it was |
| CatalogSyncRuns.UnionIsDeduplicated | src/auth.js:1444-1456 | the union names every contributed selector once, by the row that came first |

## Left out

- Cascade turn: `lastGrowthAt` and its clock, the environment switch, and the RPC that fetches steps; steps with one append-only `responseText` are assumed, as in the source's comments.
- Cascade turn: the recovery of src/client.js; only the order in which it calls the turn is used, as the discipline of a run.
- Detached registry: `reset`, `stats`, replay and billing notes; timers are steps that may fire at any time or never, which covers every real schedule.
- Detached registry: sha256 over body, scope and route is a pair of scope and digest; tokens and entry identities are fresh numbers instead of random ones; counters are a multiset of what happened.
- Connect framing: gzip (RFC 1952) is any pair of functions in which inflation undoes deflation; protobuf contents are bytes.
- Native stream: `parseNativeFunctionCallsFromText` is any function of a block; the exact cut condition is stated for parsers that put no text in place of a block.
- Native stream: case folding is that of ASCII letters, as the tag is ASCII.
- Conversation pool: session ids, creation times and history coverage, which are copied without being looked at; `poolStats`.
- Conversation pool: single use of a cascade as such, which does not hold: an alias check-in files one cascade under several fingerprints.
- Conversation key: regular-expression rewriting (meta tags, system prompts, whitespace) and the digests are functions given to the model; canonical blocks are taken as given.
- ConversationKeyLaws.LookupMatchesStoreIff: takes the digest to be collision-free and never empty, which a sha256 prefix is only in practice; QuietTailMatches does without.
- ConversationKeyIdentity.KeysAgreeIff: takes both digests to be collision-free and never empty; CallersNeverShareKeys does without.
- Conversation key: `undefined`, NaN and infinities, which are not JSON values.
- Conversation key: `localeCompare` is any total preorder on names.
- AccountPools.AccountPool.GetApiKeyCall: the sticky binding is given to it as the bound account; clearing a stale binding and counting hits and misses of the binding table are not modelled, as they leave accounts and reservations alone.
- Accounts: proxies, prewarming and logging.
- Accounts: entitlement is a set of refused models and selectors per account; trouble score and quota percentage are fields read at the call. Expired cooldown entries stay in their maps, where every reader compares them with the clock.
- Accounts: reservation tokens are exact thousandths of a millisecond (`RoundedTokensAgree` says what doubles keep of them); shares of the rate limit are exact rationals, and quota percentages reals, instead of doubles.
- Accounts: during a run of the rate bound tiers are fixed and no account is added or removed; quota snapshots and their provenance are not modelled.
- AccountBreakers.AccountBreaker.ReportErrorCall: does not record the health event that feeds the trouble score, and the backoff is rounded down to a millisecond.
- AccountBreakers.AccountBreaker.ReportInternalErrorCall: does not record the health event that feeds the trouble score.
- Request ring: token and cost figures of a row, which are copied; failures carry none.
- Catalog sync: the retry delay with its jitter is a function of failure count, account and key; the model catalog of the Cascade namespace is a separate store and not modelled.
- src/cache.js: an easier case of the registry and the pool.
- HTTP, gRPC, the dashboard, configuration and persistence.
