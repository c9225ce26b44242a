# Tekrion: models and proofs

Tekrion records what an agent run did and keeps the record as evidence: it must not lose,
duplicate, reorder or over-claim it. This project models the parts of Tekrion where that is
hardest to see and proves what they keep, for every input, every run and every failure the
models admit.

Each part follows the same pattern. What the program changes step by step is a class or a
method with loops; its contract ties the new state to a function of the old one. What the
program promises is then proved about that function, by lemmas. Where an operation shares
helpers with its specification, further lemmas say what comes of it in the plainest terms there
are, characters, fields, numbers and the order of events, without naming those helpers; the
files whose names end in `Terms` hold most of these.

| file | what it models |
|---|---|
| `TextLines.dfy` | lines and fields of a server-sent event stream |
| `Sse.dfy` | the incremental stream decoder, against a one-shot reading |
| `ServerEvents.dfy` | the viewer's own reader of such streams, and its agreement with the decoder |
| `EventStreamText.dfy` | how an event stream is written, and what both readers make of the text |
| `JsonValues.dfy`, `Replay.dfy`, `ReplayTerms.dfy` | JSON values; replayed and conflicting frames in the loop the normalizers share |
| `AnthropicMessages.dfy`, `AnthropicTerms.dfy` | drafts of a whole message, and the same drafts assembled from a stream |
| `ResponsesApi.dfy`, `ChatCompletions.dfy`, `ReportTerms.dfy` | what the other two normalizers assemble from a stream and report of it, and that replays leave it alone |
| `Ancestry.dfy` | the walk over `previous_response_id` and the completeness label |
| `Database.dfy` | the evidence tables: keys, cascades, and the triggers that guard imported sessions |
| `Retention.dfy`, `PruneTerms.dfy` | prune plans: linked sessions, ages, the size limit, shared blobs |
| `Deletion.dfy` | carrying a plan out: cascades and collection of blobs |
| `Export.dfy`, `Import.dfy`, `ImportTerms.dfy` | archive export and import, with the compensation of failed imports |
| `ArchiveCodec.dfy`, `JsonText.dfy` | canonical base64, canonical JSON, and the text that its digest is taken of |
| `ArchiveIntegrity.dfy`, `ArchiveTerms.dfy` | building and checking an archive |
| `WorkspaceDiff.dfy` | the changes between two workspace snapshots as a patch |
| `Watcher.dfy` | the debounced file watcher as a machine of turns |
| `RunJournal.dfy`, `JournalTerms.dfy` | the journal of a wrapped process over a store that may fail |
| `RawExchanges.dfy` | the states of raw exchanges, recovery, and repeated normalization |
| `Pagination.dfy` | keyset pagination of events and sessions |
| `ChunkManifest.dfy` | the chunk manifest builder and its validator |
| `Ordering.dfy` | orders, sorting and sums used by several files |

## Where the code and its promises differ

These are statements that fail of the code as it stands; each has a lemma with the input or
the family of inputs, and beside it the statement that does hold.

- The decoder checks its buffer limit before it drains, so joining two chunks can make decoding
  fail where the cut ones pass (`SseDecoding.JoiningCanFail`). Cutting further never fails anew
  (`SseDecoding.CuttingFurtherIsSafe`).
- The two stream readers treat an identifier with a NUL differently
  (`ServerEvents.NulIdIsReadDifferently`); they agree exactly on texts without such a frame
  (`ServerEvents.ReadersAgree`).
- A frame's fingerprint joins its event name and its data with a NUL, so different contents that
  hold a NUL can pass for a replay (`ReplayTerms.NulBlursContents`). Data that is JSON holds
  none, and then equal fingerprints are equal contents (`ReplayTerms.FingerprintsDecide`).
- A streamed tool result never becomes a tool result draft, while a whole message's does, and a
  tool call without arguments whose argument text is streamed as `null` differs as well
  (`AnthropicMessages.NullArgumentsDiffer`). In all other cases, and only there, the streamed
  drafts are the whole message's (`AnthropicMessages.StreamedIsWhole`).
- An import can fail in its transaction although its checks have passed: they do not compare
  file changes, context edges and normalization runs with each other, they accept an exchange
  without an end, and they accept a session without an end that starts after the time of the
  import, which becomes its end. `Import.ImportSucceedsExactly` has the exact condition. A blob
  whose identity came out changed can stay behind unreferenced, and it is at most one
  (`Import.CompensatedFailureRestores`).
- Nothing keeps a context edge, an analysis run or an event's origin within one session. An
  analysis run that targets an event of another session keeps that session from being deleted
  (`Deletion.AnalysisElsewhereBlocks`, and the store of four inserts in
  `Deletion.CrossedStoreBlocks`); a context edge of another session goes along with the event
  it touches, or aborts the deletion when its session is imported
  (`Deletion.EdgeElsewhereGoesAlong`, `Deletion.CascadeIsAllowedExactly`); and an export with
  such a reference can be imported nowhere (`Export.CrossedExportIsRefused`). The exact
  conditions are those of `Deletion.RemoveSessionRemovesOwned`, `Deletion.DeletionReduces` and
  `Export.RoundTrip`.
- The trigger on the sequence counter looks at the new session only, so an imported session's
  counter row can be handed to another session, after which any counter can be inserted for it
  (`Database.ImportedCounterCanBeMoved`). Until the session row is deleted no other statement
  changes the counter (`Database.CounterIsKeptExactly`), and none at all changes the session row
  and its evidence (`Database.ImportedEvidenceIsImmutable`).
- A normalization stored while its exchange is still recording can be stranded: finalizing
  with other bodies makes every repetition fail (`RawExchanges.EarlyNormalizationCanBeStranded`).
  A repetition is accepted exactly while the bodies keep their hashes
  (`RawExchanges.RepetitionIsDecided`).
- The list of workspace changes depends on the order in which the maps are walked when the
  comparison of a locale ties two changes, as it can tie different paths, and only then
  (`WorkspaceDiff.ListIsDetermined`).
- `finish` and `fail` close the journal before they parse their record, so a record that the
  schema refuses, an empty failure message for one, leaves a closed journal without its terminal
  event (`RunJournal.ClosedExactly`, `RunJournal.ClosedIsFinal`).

## Model

| member | source | states |
|---|---|---|
| TextLines.CutLinesIncremental | packages/normalizers/src/sse.ts:120-160 | cutting lines as text arrives and going on with the held-back rest gives the lines of the whole text, a CR at the end of a chunk included |
| SseDecoding.IncrementalSseDecoder.Push | packages/normalizers/src/sse.ts:75-81 | one chunk moves the decoder exactly as the specification step does, frames and limit errors alike |
| SseDecoding.IncrementalSseDecoder.Finish | packages/normalizers/src/sse.ts:83-104 | the end of the stream drains what was held back and yields the unterminated tail; a finished decoder refuses |
| SseDecoding.IncrementalSseDecoder.DrainLines | packages/normalizers/src/sse.ts:120-160 | the loop takes exactly the lines whose end is certain and feeds them to the frame being collected |
| SseDecoding.IncrementalSseDecoder.DispatchFrame | packages/normalizers/src/sse.ts:170-229 | a blank line turns the collected lines into the frame of the specification, or a limit error; what its fields are is `EventStreamText.BlockIsRead` |
| SseDecoding.DecodeSseChunks | packages/normalizers/src/sse.ts:232-249 | the loop over chunks is the specification's `Decode` |
| SseDecoding.DecodeMeaning | packages/normalizers/src/sse.ts:46-249 | decoding succeeds exactly when the buffer, frame and count limits hold and every retry value is safe, and then yields the frames and tail of the one-shot reading (strip one BOM, cut lines, group at blank lines) |
| SseDecoding.DecodeIsRead | packages/normalizers/src/sse.ts:106-118 | the cutting into chunks matters to the buffer limit only: within it, result and error are those of the whole text |
| SseDecoding.ChunkIndependence | packages/normalizers/src/sse.ts:75-160 | two cuttings of one text that stay within the buffer give the same result, the same error included |
| SseDecoding.CuttingFurtherIsSafe | packages/normalizers/src/sse.ts:106-160 | cutting chunks further introduces no error and changes no frame |
| SseDecoding.JoiningCanFail | packages/normalizers/src/sse.ts:106-118 | two chunks that are decoded, and whose concatenation exceeds the buffer limit so that decoding fails |
| ServerEvents.ParseEventBlock | apps/viewer/src/api.ts:62-90 | the field loop reads a block as the event of the specification; what its fields are is `EventStreamText.BlockIsShown` |
| ServerEvents.ParseServerEvents | apps/viewer/src/api.ts:92-131 | the streaming reader, with its held-back CR, yields the events of the normalised whole text for every cutting |
| ServerEvents.BlocksAgree | apps/viewer/src/api.ts:92-131 | splitting at double line feeds and grouping at blank lines give the same events, leading and repeated blank lines included |
| ServerEvents.ReadersAgree | apps/viewer/src/api.ts:62-131 | without a BOM, the viewer's events are the decoder's frames with data followed by the tail's event, if and only if no frame with data ends on an identifier with a NUL |
| ServerEvents.AnyCuttingsAgree | apps/viewer/src/api.ts:92-131 | the same for any cutting of the text on either side |
| ServerEvents.NulFreeTextIsClean | apps/viewer/src/api.ts:62-90 | every text without NUL meets that condition |
| ServerEvents.NulIdIsReadDifferently | apps/viewer/src/api.ts:62-90 | a whole text on which the two readers differ, and how each reads its block |
| EventStreamText.FieldAsWritten | packages/normalizers/src/sse.ts:184-192 | a line `name: v` or `name:v` gives that field exactly v, one space after the colon aside, a line that is the name alone gives the empty text, and a comment line gives no field |
| EventStreamText.LineIsRead | packages/normalizers/src/sse.ts:184-213 | so each written line, field or note, gives its field, its comment or its unknown field and nothing else |
| EventStreamText.BlockIsRead | packages/normalizers/src/sse.ts:177-229 | the frame of a written block: the last event name, the data lines joined by line feeds, the last identifier without NUL, the decimal value of the last all-digit retry, comments and unknown fields in order, and the raw text |
| EventStreamText.BlockIsShown | apps/viewer/src/api.ts:62-90 | the event the viewer shows of a written block: nothing without data, else the data joined, the name or "message", and the last identifier |
| EventStreamText.DigitsArePositional | packages/normalizers/src/sse.ts:206-207 | the value of digits is the sum of each digit times its power of ten |
| EventStreamText.StreamIsRead | packages/normalizers/src/sse.ts:46-249 | the one-shot reading of a stream written with any line ends, byte order mark, blank lines and unterminated rest gives the frames its blocks tell and the tail |
| EventStreamText.DecodedAsWritten | packages/normalizers/src/sse.ts:46-249 | for all limits and every cutting into chunks, decoding succeeds if and only if the buffer limit holds, no block is longer than the frame limit, no retry exceeds 2^53 - 1, and the blocks are not too many; and then it gives what the stream tells |
| EventStreamText.StreamIsShown | apps/viewer/src/api.ts:92-131 | the viewer shows what the blocks and the tail tell |
| EventStreamText.EveryTextIsWritten | packages/normalizers/src/sse.ts:120-160 | every text is a stream so written, so what is said of written streams is said of all texts |
| Replay.SseReplayDetector.Observe | packages/normalizers/src/duplicates.ts:40-71 | accepts a new or anonymous payload, calls a repetition replay or conflict, and never changes a remembered fingerprint |
| Replay.NormalizeFrames | packages/normalizers/src/anthropic-messages.ts:809-896 | the frame loop with its detector, which the three normalizers share, is the specification's fold: skip, report, ignore or apply |
| Replay.InsertedFrame | packages/normalizers/src/duplicates.ts:37-71 | in the loop of any normalizer that does not look at positions, a frame inserted under an accepted identity leaves the assembly as it is up to frame indexes, adds one diagnostic, and one error exactly when its content differs |
| Replay.ReplayIsTransparent | packages/normalizers/src/anthropic-messages.ts:809-826 | a copy of an accepted identified frame anywhere later adds one replay diagnostic and nothing else |
| Replay.LoopIsFold | packages/normalizers/src/anthropic-messages.ts:809-896 | what the loop assembles is the accepted payloads applied one after the other |
| ReplayTerms.MarksDecide | packages/normalizers/src/duplicates.ts:13-31 | two payloads have the same identity exactly when they bear the same frame identifier, or else the same event identifier of their own, or else the same sequence number; none of these leaves a payload anonymous |
| ReplayTerms.FingerprintsDecide | packages/normalizers/src/duplicates.ts:50-57 | for data without NUL, fingerprints are equal exactly when event name and data are |
| ReplayTerms.NulBlursContents | packages/normalizers/src/duplicates.ts:50-57 | two frames of different contents with one fingerprint |
| ReplayTerms.LoopInTerms | packages/normalizers/src/anthropic-messages.ts:809-896 | what the loop does with the next frame after any others: skipped without data, reported when unreadable, applied when no earlier payload bears its mark, and else reported against the first that does, fatally when the contents differ |
| ReplayTerms.AcceptedAreFirst | packages/normalizers/src/duplicates.ts:40-71 | the accepted payloads are those that are the first to bear their mark or bear none |
| ReplayTerms.ReadingInTerms | packages/normalizers/src/anthropic-messages.ts:551-574 | a frame is a payload when its data is a JSON object, and the type in the payload goes before the name of the event |
| JsonValues.FieldsAreFound | packages/normalizers/src/responses.ts:32-44 | what reading a field of each kind finds: the value of the first member of that name, when it is of that kind |
| JsonValues.DecimalCounts | packages/normalizers/src/duplicates.ts:23-29 | a number is written in decimal digits without leading zeros, and they count to it |
| AnthropicMessages.AnthropicIsPlaceFree | packages/normalizers/src/anthropic-messages.ts:828-896 | what the Anthropic loop does with a payload does not depend on its position, so replays and conflicts are transparent to it |
| AnthropicMessages.AnthropicIgnores | packages/normalizers/src/anthropic-messages.ts:809-826 | a repeated or conflicting frame anywhere later leaves the blocks, the usage and all else assembled as they are, and adds one error exactly when its content differs |
| AnthropicMessages.StreamAsTold | packages/normalizers/src/anthropic-messages.ts:828-868 | each usage count, the stop reason, the stop sequence and the identifier are the last ones given by accepted events, each under its own name, and the message has stopped exactly when it was told so |
| AnthropicTerms.StreamedBlock | packages/normalizers/src/anthropic-messages.ts:576-684 | each block of a stream: kind, identifier and name as last given, the text of the last start with the text deltas since, the argument text of all deltas, and whether it was thought, from its own events alone |
| AnthropicTerms.PieceInTerms | packages/normalizers/src/anthropic-messages.ts:594-640 | which events give a piece of which block |
| AnthropicTerms.StreamedEvents | packages/normalizers/src/anthropic-messages.ts:828-896 | the starts told, the errors told, and the unknown events and deltas kept aside, in the order of the accepted events |
| AnthropicTerms.EventApplied | packages/normalizers/src/anthropic-messages.ts:594-684 | what an event reports: a block event without its index or block, an unknown delta, an unknown event, and nothing else |
| AnthropicTerms.BlockDraftInTerms | packages/normalizers/src/anthropic-messages.ts:359-445 | the draft of a whole block by its kind: a tool call or tool result, plain or of a provider, with the fields it gives, a thought that is not told, or an item kept as it is |
| AnthropicTerms.StreamDraftInTerms | packages/normalizers/src/anthropic-messages.ts:686-745 | the draft of a streamed block, with its argument text parsed or else kept as text |
| ResponsesApi.ResponsesIsPlaceFree | packages/normalizers/src/responses.ts:542-749 | what the Responses loop does with a payload, event by event, does not depend on its position |
| ResponsesApi.ResponsesIgnores | packages/normalizers/src/responses.ts:542-558 | so a repeated or conflicting frame leaves texts, function calls, usage and terminal events as they are |
| ResponsesApi.StreamAsGiven | packages/normalizers/src/responses.ts:444-749 | for all frames and every item: its text is the last whole text given with the pieces after it, a call has the identifier, name and final arguments given last and its streamed arguments piece after piece; items stand in order of first mention, and starts, ends and usage are those of the accepted events |
| ResponsesApi.UsageAsReported | packages/normalizers/src/responses.ts:46-57 | each count is the one reported under its own name |
| ReportTerms.EventReports | packages/normalizers/src/responses.ts:560-749 | what an event reports and counts as an error: a start without identifier, a delta without item or text, an unknown event |
| ReportTerms.StreamKeepsAside | packages/normalizers/src/responses.ts:560-749 | the unknown events and the items that are neither messages nor function calls are kept aside in order |
| ChatCompletions.ApplyChunk | packages/normalizers/src/chat-completions.ts:582-681 | one chunk, with the loop over its choices, does to the assembly what the specification says |
| ChatCompletions.CompletionsArePlaceFree | packages/normalizers/src/chat-completions.ts:566-682 | what the loop over chunks does with a payload, its choices and tool deltas, does not depend on its position |
| ChatCompletions.CompletionsIgnore | packages/normalizers/src/chat-completions.ts:566-582 | so a repeated or conflicting frame leaves every choice, the identifier and the usage as they are |
| ChatCompletions.ChoicesAsGiven | packages/normalizers/src/chat-completions.ts:473-682 | for every list of payloads and every choice and tool: content and refusal are the deltas of the choice joined in order, arguments the fragments of the tool, a legacy call going to tool 0; identifier, name and finish reason are the last ones given, except that a legacy call sets an identifier only where there is none |
| ChatCompletions.StreamAsGiven | packages/normalizers/src/chat-completions.ts:566-682 | the same for the frames of a stream, replays and conflicts among them, with the identifier and the usage last given |
| ChatCompletions.FramesAsideAsGiven | packages/normalizers/src/chat-completions.ts:583-624 | errors and chunks not understood are kept aside exactly when a chunk has no choices and no usage is known yet |
| ChatCompletions.UnknownMeaning | packages/normalizers/src/chat-completions.ts:675-680 | the members of a delta kept aside are those of no known name, in order |
| ChatCompletions.UsageAsReported | packages/normalizers/src/chat-completions.ts:60-71 | each count is the one reported under its own name |
| ReportTerms.ChunkReports | packages/normalizers/src/chat-completions.ts:473-682 | what a chunk reports: choices and tool calls without a place, and that it is not understood |
| ReportTerms.DoneIsSkipped | packages/normalizers/src/chat-completions.ts:440-463 | the closing word "[DONE]" is no payload of either stream |
| AnthropicMessages.ContentBlockDrafts | packages/normalizers/src/anthropic-messages.ts:359-445 | one pass gives the joined text in front and a draft for every other block in order; entries that are no objects are reported |
| AnthropicMessages.AssembledBlockDrafts | packages/normalizers/src/anthropic-messages.ts:686-755 | the drafts of the assembled blocks in order of index, whatever the order of the map |
| AnthropicMessages.LoopBlocks | packages/normalizers/src/anthropic-messages.ts:809-850 | the blocks come from the accepted payloads alone |
| AnthropicMessages.BlockIsProjection | packages/normalizers/src/anthropic-messages.ts:576-684 | each block is assembled from its own pieces in order, however blocks interleave |
| AnthropicMessages.StreamedIsWhole | packages/normalizers/src/anthropic-messages.ts:594-755 | for every way of cutting blocks into deltas and interleaving them, the streamed drafts are those of the whole message if and only if the message has no tool result and no null arguments of a tool call are streamed as text |
| AnthropicMessages.FramesGiveWhole | packages/normalizers/src/anthropic-messages.ts:757-920 | the same, in both directions, for the frames of a stream, replays and conflicts among them |
| AnthropicMessages.NullArgumentsDiffer | packages/normalizers/src/anthropic-messages.ts:708-722 | argument text `null` gives another draft than a whole message without arguments |
| Ancestry.ContextReconstructor.FollowChain | packages/context/src/reconstructor.ts:797-945 | the guarded loop ends with the state the specification's walk gives |
| Ancestry.ContextReconstructor.Reconstruct | packages/context/src/reconstructor.ts:660-765 | errors for an unknown or wrong event, otherwise the label of that event |
| Ancestry.ReconstructedLabelIsExact | packages/context/src/reconstructor.ts:741-946 | the label is given exactly when the current request is fully known and an acyclic chain of recorded, preceding, fully captured, unmanaged links within the depth bound ends in a request without predecessor |
| Ancestry.ReconstructedLabelInRecordedStore | packages/context/src/reconstructor.ts:741-946 | in a store whose requests precede their responses the cycle guard says nothing more: the label means just that such a chain exists |
| Ancestry.ExactLabelIsExact | packages/context/src/reconstructor.ts:741-760 | the label for a single request, in terms of protocol, capture, the conversation field in each of its forms, and the other provider-managed fields |
| Ancestry.ManagedLabelIsExact | packages/context/src/reconstructor.ts:741-946 | the label is provider-managed exactly when the current request is fully known and it, or a request that the walk reaches, has the provider hold context, a conversation by name or by record included |
| Ancestry.OtherLabelsAreExact | packages/context/src/reconstructor.ts:741-760 | unknown exactly when the request cannot be read in full or its protocol is unknown, and partial in what is left |
| Ancestry.LabelFailsExactly | packages/context/src/reconstructor.ts:797-890 | reconstruction fails exactly when the request, or one that the walk would go to, has no recorded exchange |
| Ancestry.TurnIsLoaded | packages/context/src/reconstructor.ts:992-1042 | what loading a turn gives, in terms of the recorded exchange and its body |
| Ancestry.LimitationsDecide | packages/context/src/reconstructor.ts:685-946 | loading and walking tell no limitation exactly when the label is exact or reconstructed: every lesser label comes with a reason |
| Ancestry.ReconstructedGraphIsExact | packages/context/src/reconstructor.ts:797-945 | the edges and the turns of a reconstructed context are those of the recorded chain and no others |
| Ancestry.AncestorsDecrease | packages/context/src/reconstructor.ts:797-945 | accepted turns have strictly decreasing sequence numbers and are at most the bound |
| Ancestry.ChainsAreAcyclic | packages/context/src/reconstructor.ts:810-890 | a chain of preceding links visits no response and no request twice |
| Database.ImportedEvidenceIsImmutable | packages/storage/src/migrations.ts:227-525 | from the moment a session is imported, no sequence of inserts, updates and deletes changes, adds to or takes from its evidence until its own row is deleted |
| Database.DoomedIsElsewhere | packages/storage/src/migrations.ts:434-525 | no cascade reaches evidence of an imported session from another row |
| Database.StepKeepsWellFormed | packages/storage/src/migrations.ts:41-222 | every statement keeps primary keys, foreign keys and unique sequences |
| Database.KeysTellApart | packages/storage/src/migrations.ts:41-222 | two rows have one key exactly when they stand in one table under the same primary key |
| Database.CounterIsKeptExactly | packages/storage/src/migrations.ts:235-244 | a statement other than the deletion of its session leaves an imported session's counter as it is if and only if it does not hand it to a session that is not imported and has none |
| Database.CounterStaysExactly | packages/storage/src/migrations.ts:235-244 | the same over every sequence of statements |
| Database.ImportedCounterCanBeMoved | packages/storage/src/migrations.ts:235-244 | every such statement takes effect, and any counter can then be inserted for the imported session |
| Retention.Selection.ExpandLinkedSessions | apps/daemon/src/archive/evidence-maintenance.ts:223-244 | the loop selects the closure under linked internal sessions and marks what it pulled in; an active linked session blocks |
| Retention.ClosureIsLeast | apps/daemon/src/archive/evidence-maintenance.ts:211-244 | the fixpoint is the least closed set with the selected sessions |
| Retention.PlanEvidencePrune | apps/daemon/src/archive/evidence-maintenance.ts:300-370 | a plan, the input's error, or a block, each exactly as the choices made by age and by size give it |
| Retention.PlanSessionDeletion | apps/daemon/src/archive/evidence-maintenance.ts:274-298 | which of its four outcomes it has, exactly: unknown session, active session, blocked by an active linked one, or the plan for the session with those linked to it |
| Retention.PlanIsSafe | apps/daemon/src/archive/evidence-maintenance.ts:300-370 | no active session, closed under links, marked for age exactly the aged sessions, and for size a prefix of the oldest-first order |
| Retention.TerminalIsOldestFirst | apps/daemon/src/archive/evidence-maintenance.ts:327-334 | the candidates are exactly the sessions that are not active, sorted by their end |
| Retention.LastChoiceWasNeeded | apps/daemon/src/archive/evidence-maintenance.ts:347-360 | without the last session newly chosen for size, and those it pulled in, usage is over the limit |
| Retention.UnsatisfiedMeansImpossible | apps/daemon/src/archive/evidence-maintenance.ts:347-369 | an unsatisfied plan has every terminal session, and removing any set of terminal sessions leaves usage over the limit |
| Retention.PlanFreesAtMostListed | apps/daemon/src/archive/evidence-maintenance.ts:176-209 | a plan frees at most the sum of the sizes it lists, although blobs are shared |
| PruneTerms.PlanInTerms | apps/daemon/src/archive/evidence-maintenance.ts:300-370 | a plan in milliseconds and bytes: the old enough sessions, 86 400 000 ms to a day, and the first of the oldest-first order are listed with all that target them and no others, each with its own figures and reasons, age exactly for those old enough; the usage figures are those of the store and of what is left |
| PruneTerms.TerminalInTerms | apps/daemon/src/archive/evidence-maintenance.ts:327-334 | the sessions that are not active, each once, by their end, or their start when they have none, and then by identifier |
| PruneTerms.SummaryInTerms | apps/daemon/src/archive/evidence-maintenance.ts:176-197 | usage without some sessions: the records of the others and the blobs that some other session references |
| PruneTerms.ExpandInTerms | apps/daemon/src/archive/evidence-maintenance.ts:211-244 | what a choice pulls in is the least set with all sessions that target it, and it is blocked exactly when one of these is active |
| PruneTerms.InputIsChecked | apps/daemon/src/archive/evidence-maintenance.ts:304-320 | which inputs are refused, and why |
| Ordering.StringLeMeaning | apps/daemon/src/archive/evidence-maintenance.ts:333 | the order of identifiers: by the first character that differs, a beginning first |
| Deletion.EvidenceStore.RemoveAll | apps/daemon/src/archive/evidence-maintenance.ts:379-397 | every session is checked, then every session goes, or none does |
| Deletion.EvidenceStore.RemoveUnreferenced | packages/storage/src/blob-store.ts:358-435 | the loop removes exactly the unreferenced blobs among those asked for |
| Deletion.EvidenceStore.ExecuteEvidenceDeletion | apps/daemon/src/archive/evidence-maintenance.ts:372-405 | on success the planned sessions and then the unreferenced blobs are gone; on failure nothing is |
| Deletion.OnlyEndedAreRemoved | packages/storage/src/session-repository.ts:199-213 | whatever list is removed, only sessions that are there and not active go |
| Deletion.RemoveSessionMeaning | packages/storage/src/session-repository.ts:199-213 | what deleting a session does to any well-formed store: it fails when another session's row would dangle or an imported session's edge would be cascaded to, and otherwise takes what the session owns and other sessions' edges to its events |
| Deletion.CascadeIsAllowedExactly | packages/storage/src/migrations.ts:434-525 | the triggers abort the cascade exactly when it reaches an edge of an imported session |
| Deletion.RemoveSessionRemovesOwned | packages/storage/src/session-repository.ts:199-213 | deleting a terminal session succeeds and takes exactly the rows it owns if and only if no row of another session refers to one of them |
| Deletion.RemoveSessionsRemovesOwned | apps/daemon/src/archive/evidence-maintenance.ts:379-397 | deleting sessions one after the other succeeds and takes exactly what they own if and only if every row that refers to one of them is of a session going no later, or an edge of a planned session that is not imported |
| Deletion.AnalysisElsewhereBlocks | packages/storage/src/support-repositories.ts:98-123 | an analysis run of another session that targets an event keeps the event's session from being deleted |
| Deletion.EdgeElsewhereGoesAlong | packages/storage/src/support-repositories.ts:59-83 | a context edge of another session is taken along with the event it touches |
| Deletion.CrossedStoreBlocks | packages/storage/src/support-repositories.ts:98-123 | four inserts that the tables accept make a store whose finished session cannot be deleted |
| Deletion.SnapshotExists | apps/daemon/src/archive/evidence-maintenance.ts:80-174 | every well-formed store has usage figures |
| Deletion.SnapshotTellsRows | apps/daemon/src/archive/evidence-maintenance.ts:80-174 | of each session the figures tell the status, start, end and target of its row |
| Deletion.DeletionReduces | apps/daemon/src/archive/evidence-maintenance.ts:372-405 | carrying the deletions out succeeds, leaves the evidence of every retained session as it was, and of the blobs exactly those a retained session references, if and only if the planned sessions can be cut from the store |
| Deletion.SnapshotBlobsAreUsed | apps/daemon/src/archive/evidence-maintenance.ts:80-174 | every blob the usage figures count is referenced by a listed session |
| Deletion.ExecutionMeetsProjection | apps/daemon/src/archive/evidence-maintenance.ts:176-197 | when they can be cut, the usage read afterwards is the projected usage |
| Deletion.PlansAreExecutable | apps/daemon/src/archive/evidence-maintenance.ts:300-405 | a plan made on the unchanged store names distinct removable sessions, and can be carried out with the effect it projects if and only if these can be cut from the store |
| Import.ImportTekrionArchive | apps/daemon/src/archive/tkr-archive.ts:910-1342 | a read-only store is refused; otherwise checks, puts, transaction and compensation end in the specification's outcome for every fault |
| ImportTerms.ChecksInTerms | apps/daemon/src/archive/tkr-archive.ts:1000-1172 | what the checks ask and which error is told first: the manifest agrees, the session is not active, no identifier or sequence stands twice, every record stays inside the session and names listed records, nothing is in the store yet, and the blobs declared are those the records need |
| ImportTerms.FailuresInTerms | apps/daemon/src/archive/tkr-archive.ts:1179-1209 | once they pass, the first blob that cannot be stored decides the error, or else the transaction |
| ImportTerms.SessionAfterImport | apps/daemon/src/archive/tkr-archive.ts:1303-1336 | the session row and its counter after an import, field by field: read-only, ended, the tags in order of first occurrence, the five entries of metadata, and the number after the last event |
| Import.PutAll | apps/daemon/src/archive/tkr-archive.ts:1179-1209 | the blobs are put one by one up to the first error, and the new ones are remembered |
| Import.Commit | apps/daemon/src/archive/tkr-archive.ts:1220-1336 | all statements take effect or none |
| Import.FailureChangesNoRecord | apps/daemon/src/archive/tkr-archive.ts:1054-1342 | on any failure every record is unchanged and every added blob is unreferenced |
| Import.CollectionRestores | packages/storage/src/blob-store.ts:358-435 | so one collection restores a store that had no orphans |
| Import.CompensatedFailureRestores | apps/daemon/src/archive/tkr-archive.ts:1187-1209 | when the compensation works the store is as it was, but for at most one blob whose identity came out changed |
| Import.SuccessHoldsArchive | apps/daemon/src/archive/tkr-archive.ts:1220-1336 | on success the session's evidence is exactly the archive's records and its session row, read-only, with an end, the import's tag and its metadata; other sessions are untouched, and every blob has its declared identity |
| Import.TagsStay | apps/daemon/src/archive/tkr-archive.ts:1318 | the tags of the imported session are those it had and the import's, each once |
| Import.ImportSucceedsExactly | apps/daemon/src/archive/tkr-archive.ts:1054-1342 | success if and only if the checks pass, every blob keeps its identity, nothing fails from outside, no two records share a key, every exchange has ended, and the session has an end or starts no later than the import |
| Export.RoundTrip | apps/daemon/src/archive/tkr-archive.ts:456-764 | importing what a forensic export lists into a store without its records succeeds, that store's own failures apart, if and only if the evidence refers to nothing of another session and the session has an end or starts no later than the import; then the same evidence is there under the session row that imports write, and no other session's has changed |
| Export.ExportedIsRelatedExactly | apps/daemon/src/archive/tkr-archive.ts:1076-1109 | the import's check of relations accepts an export exactly when the evidence refers to nothing of another session |
| Export.CrossedExportIsRefused | apps/daemon/src/archive/tkr-archive.ts:1076-1109 | the export of a session whose analysis targets another session's event can be imported nowhere |
| Base64.EncodingIsCanonical | apps/daemon/src/archive/tkr-integrity.ts:172-199 | encodings are canonical and decode to their bytes |
| Base64.AcceptsExactlyCanonical | apps/daemon/src/archive/tkr-integrity.ts:50-58 | encoding again and comparing accepts exactly the encodings of sections 4 and 3.5 of RFC 4648, with any decoder that undoes the encoding |
| CanonicalJson.NormalizeDecides | apps/daemon/src/archive/tkr-integrity.ts:27-40 | two values normalize alike if and only if they are the same up to the order of members at every depth |
| CanonicalJson.CanonicalTextDecides | apps/daemon/src/archive/tkr-integrity.ts:42-44 | the digest input does not depend on key order, and tells two different values apart as soon as serialization tells their normal forms apart |
| JsonText.ValueUnique | apps/daemon/src/archive/tkr-integrity.ts:42-44 | no serialized value is the beginning of another where a value may end, strings with all their escapes included: text and value determine each other |
| JsonText.CanonicalTextIsExact | apps/daemon/src/archive/tkr-integrity.ts:27-44 | so two values have the same digest input if and only if they are the same up to the order of members |
| JsonText.EscapedReads | apps/daemon/src/archive/tkr-integrity.ts:42-44 | read back as section 7 of RFC 8259 has it, an escaped string gives its characters |
| JsonText.EscapeIsShort | apps/daemon/src/archive/tkr-integrity.ts:42-44 | the short escapes are used where there are any, and hexadecimal digits are small letters |
| ArchiveIntegrity.VerifyTekrionArchive | apps/daemon/src/archive/tkr-integrity.ts:70-151 | the loops compute the specification's verdict, with the kind of error |
| ArchiveIntegrity.VerifyMeaning | apps/daemon/src/archive/tkr-integrity.ts:70-151 | accepted if and only if within the limit, of the schema, with the right digest, and every entry and blob as declared; then the result is the decoded entries under their paths |
| ArchiveTerms.SchemaInTerms | packages/protocol/src/archive.ts:86-181 | the schema on the fields: normalized paths that differ, payloads of the same paths in the same order, blobs under listed paths, and the declared total |
| ArchiveTerms.PathsInTerms | packages/protocol/src/archive.ts:18-33 | a path is valid exactly when it has 1 to 512 characters of the alphabet and no stretch between slashes is empty, "." or ".." |
| ArchiveTerms.BlobsInTerms | apps/daemon/src/archive/tkr-integrity.ts:136-151 | a blob fits exactly when the entry under its path has its hash, length and media type and it is named after the hash |
| ArchiveIntegrity.BuiltVerifies | apps/daemon/src/archive/tkr-integrity.ts:172-199 | for distinct valid paths within the limit, checking a built archive gives back exactly the path-to-bytes map |
| WorkspaceDiff.ChangesBetween | apps/cli/src/run/workspace-observer.ts:765-823 | the result lists each change once, renames exactly the pairs unique on both sides, sorted by any total and transitive comparison of strings |
| WorkspaceDiff.PatchLaw | apps/cli/src/run/workspace-observer.ts:765-823 | carried out in any order the changes apply and turn the baseline into the final snapshot, up to entries of the same kind, length, mode and hash |
| WorkspaceDiff.IdentityMeaning | apps/cli/src/run/workspace-observer.ts:789-795 | the text that stands for an identity tells kind and hash apart |
| WorkspaceDiff.NoPathTwice | apps/cli/src/run/workspace-observer.ts:765-823 | no path is touched by two changes |
| WorkspaceDiff.InverseChangeSet | apps/cli/src/run/workspace-observer.ts:765-823 | the changes of the other direction are exactly the inverses |
| WorkspaceDiff.UndoRestores | apps/cli/src/run/workspace-observer.ts:765-823 | carrying the inverse changes out afterwards, in any order, restores the baseline exactly |
| WorkspaceDiff.NoChangesMeansSame | apps/cli/src/run/workspace-observer.ts:157-167 | the list is empty if and only if the snapshots have the same paths and under each the same kind, length, mode and hash |
| WorkspaceDiff.SortedInTerms | apps/cli/src/run/workspace-observer.ts:816-823 | the list is in order of path, then of the name of the operation, then of the previous path or the empty text |
| WorkspaceDiff.ListIsDetermined | apps/cli/src/run/workspace-observer.ts:816-823 | the sorted list does not depend on the order in which the maps are walked if and only if the comparison ties no two of the changes |
| WorkspaceDiff.DistinctPathsDetermine | apps/cli/src/run/workspace-observer.ts:816-823 | which is so when it tells all paths apart |
| Watcher.DebouncedWorkspaceWatcher.Observed | apps/cli/src/run/workspace-watcher.ts:339-418 | an observation moves the watcher as the specification turn does, with every limit and report |
| Watcher.DebouncedWorkspaceWatcher.FinishFlush | apps/cli/src/run/workspace-watcher.ts:457-468 | the end of a flush arms the timer again when paths are pending |
| Watcher.EveryRunIsValid | apps/cli/src/run/workspace-watcher.ts:311-478 | in every run, while open with pending paths a timer is armed or a flush active, and samples and pending paths stay within their limits |
| Watcher.Progress | apps/cli/src/run/workspace-watcher.ts:438-478 | until everything is drained some internal turn or, while open, the timer is still to come |
| Watcher.AcceptedIsQueued | apps/cli/src/run/workspace-watcher.ts:339-375 | an observation that passes the filters and the path limit queues its path |
| Watcher.ObservationMeaning | apps/cli/src/run/workspace-watcher.ts:62-75 | which file names are let through, not empty, without NUL, relative and inside the root, and the queue afterwards: the entry with its time and its samples, up to 10 000 paths, 32 samples of one and 64 outstanding; any other name changes nothing |
| Watcher.ObservationReports | apps/cli/src/run/workspace-watcher.ts:339-418 | what an observation reports: no path, or each limit once |
| Watcher.AcceptedIsExamined | apps/cli/src/run/workspace-watcher.ts:339-518 | an accepted path stays queued until a flush takes it, and a taken path is inspected unless its flush fails |
| Watcher.StopDrains | apps/cli/src/run/workspace-watcher.ts:311-337 | after stop no run holds more internal work than a bound, work goes on until drained, and that much work drains |
| Watcher.ErrorsAreKept | apps/cli/src/run/workspace-watcher.ts:537-545 | the errors kept are the first of all reported, with a notice in the hundredth place when there were a hundred or more |
| RunJournal.RunEventJournal.WorkNext | apps/cli/src/run/run-event-journal.ts:180-219 | one frame or one transaction is written, or the chain is rejected |
| RunJournal.RunFollows | apps/cli/src/run/run-event-journal.ts:163-447 | in every run, failures included, stored and queued events together are the log the calls describe, refused calls and refused records among them |
| JournalTerms.CallIsTold | apps/cli/src/run/run-event-journal.ts:163-406 | what each call adds to the log, from the values given and the events told before: process number, output cut into numbered frames of full length but the last, snapshot, change, exit code and signal, failure code and the first 4096 characters of its message; and which calls close the journal |
| JournalTerms.StoredWasGiven | apps/cli/src/run/run-event-journal.ts:163-447 | in every run what a stored event says was given to some call |
| RunJournal.ClosedExactly | apps/cli/src/run/run-event-journal.ts:364-406 | a closed journal has told its terminal event unless it was closed with a record that the schema refuses, and then it never tells one |
| RunJournal.ClosedIsFinal | apps/cli/src/run/run-event-journal.ts:163-406 | a closed journal tells nothing more, whatever is called |
| RunJournal.StoredIsPrefix | apps/cli/src/run/run-event-journal.ts:163-447 | the stored events are a prefix of that log, and all of it when the queue is empty |
| RunJournal.NothingAfterFailure | apps/cli/src/run/run-event-journal.ts:412-415 | once a write has failed nothing is stored again |
| RunJournal.StoredIsOrdered | apps/cli/src/run/run-event-journal.ts:163-406 | file changes lie between baseline and final snapshot, output follows the start, and nothing follows the terminal event |
| RunJournal.StoredFrames | apps/cli/src/run/run-event-journal.ts:180-219 | frames of a stream are numbered from 1 without gaps, within the size limit, and join to a prefix of the bytes appended |
| RunJournal.SequencesIncrease | apps/cli/src/run/run-event-journal.ts:417-447 | sequence numbers strictly increase, whatever other writers reserve |
| RunJournal.StatusIsTold | apps/cli/src/run/run-event-journal.ts:364-406 | the session is completed exactly when `session.ended` is stored, and crashed exactly when `session.crashed` is |
| RawExchanges.RawExchangeStore.FinalizeRecording | packages/storage/src/raw-exchange-repository.ts:149-196 | only a recording exchange with its identity kept and an end time becomes complete |
| RawExchanges.RawExchangeStore.RecoverRecording | packages/storage/src/raw-exchange-repository.ts:217-271 | the loop recovers every recording exchange and names them in order of start |
| RawExchanges.RawExchangeStore.InsertNormalization | packages/storage/src/event-repository.ts:140-245 | run, events and parse status are stored together or not at all |
| RawExchanges.RunIsLater | packages/storage/src/raw-exchange-repository.ts:50-271 | in every run no exchange returns to recording, one that has left it changes only its parse status, and identities, events and runs never change |
| RawExchanges.RecoveryIsComplete | packages/storage/src/raw-exchange-repository.ts:217-271 | recovery leaves nothing recording, touches nothing else, and is idempotent |
| RawExchanges.RecoveryIsHonest | packages/storage/src/raw-exchange-repository.ts:217-271 | field by field: a recovered exchange has the outcome capture-incomplete and no complete response, its own end or else the time of recovery, a pending parse skipped, and all else as it was |
| RawExchanges.RecoveredStaysIncomplete | packages/storage/src/raw-exchange-repository.ts:217-271 | whatever happens afterwards, an exchange that was recovered never claims a complete response |
| RawExchanges.RunKeepsEnds | packages/storage/src/raw-exchange-repository.ts:50-271 | in every run an exchange has an end exactly when it is not recording, and no recording one has a complete response |
| RawExchanges.RunKeepsPlaces | packages/storage/src/raw-exchange-repository.ts:50-271 | in every run no two exchanges and no two events of a session share a sequence number |
| RawExchanges.InsertMeaning | packages/storage/src/raw-exchange-repository.ts:50-147 | a new exchange is refused exactly when its identifier or its place in the session is taken |
| RawExchanges.FinalizeMeaning | packages/storage/src/raw-exchange-repository.ts:149-196 | when a finalization takes effect, on the fields, and what it stores |
| RawExchanges.RepetitionIsDecided | packages/storage/src/event-repository.ts:140-245 | after any run, repeating an accepted normalization changes nothing if and only if it gives the same events and the exchange's bodies still have their hashes, and is refused otherwise |
| RawExchanges.BodiesChangeExactly | packages/storage/src/raw-exchange-repository.ts:149-196 | the only change after which they have not is a finalization with other bodies |
| RawExchanges.NormalizationIsIdempotent | packages/storage/src/event-repository.ts:140-245 | at once in any state, and after any run once the exchange has left recording, repeating a normalization changes nothing and a differing one is rejected |
| RawExchanges.EarlyNormalizationCanBeStranded | packages/storage/src/event-repository.ts:152-168 | for an exchange still recording the repetition can fail for good |
| Pagination.PageIsSlice | packages/storage/src/event-repository.ts:330-373 | a page is the next slice of the ordered result, with a cursor exactly when rows are left |
| Pagination.WalkWithRowsBehind | packages/storage/src/event-repository.ts:330-373 | following cursors gives exactly the rows there are at the last page, in order, each once, when rows with larger keys are added between pages |
| Pagination.WalkWithRowsInFront | packages/storage/src/session-repository.ts:238-283 | following cursors gives exactly the rows there were at the first page when newer sessions are added between pages |
| Pagination.ReadAll | apps/daemon/src/archive/evidence-maintenance.ts:65-78 | the loop over pages of a fixed store terminates with the whole result |
| Pagination.AllSessions | apps/daemon/src/archive/evidence-maintenance.ts:65-78 | every session of the store, each once, newest first |
| Pagination.FirstEvents | packages/storage/src/event-repository.ts:330-335 | a first page is a prefix of the result, as many rows as are asked for, 100 by default and between 1 and 1000, and complete exactly when it has no cursor |
| Pagination.FirstSessions | packages/storage/src/session-repository.ts:238-283 | a first page of sessions is the newest ones, as many as are asked for within the same bounds, and complete exactly when it has no cursor |
| Pagination.EventsAreSound | packages/storage/src/event-repository.ts:341-343 | the event query's cursor condition is its order |
| Pagination.SessionsAreSound | packages/storage/src/session-repository.ts:249-258 | the session query's cursor condition is its order, newest first |
| ChunkManifest.ChunkManifestBuilder.Append | packages/storage/src/chunk-manifest.ts:116-144 | a chunk back in time is refused, one beyond the limit is counted, any other is recorded |
| ChunkManifest.ChunkManifestBuilder.Build | packages/storage/src/chunk-manifest.ts:146-157 | the manifest always meets its schema, its entries are the chunks appended first, and recorded and dropped bytes are all bytes appended |
| ChunkManifest.CheckManifest | packages/storage/src/chunk-manifest.ts:33-78 | the pass with running offsets accepts exactly the contiguous, ordered manifests whose truncation agrees with their drops |

## Left out

- One `char` is one code unit of decoded text; UTF-8 decoding, gzip, Zstandard, SHA-256 and `JSON.parse` are functions the models take as given, and so is the text of a number. Lone surrogates are no `char`.
- Prune plans order sessions of one time by `localeCompare`; the model compares their identifiers by code units, and its proofs use only that the order is total and transitive. The workspace changes are sorted by any such comparison, ties included.
- JavaScript lists members with integer names first, in numeric order; the model of canonical JSON lists all members by name. Either order depends on the names alone, so what is said of equal texts holds of both.
- The file system, git, HTTP, the browser and the SQL engine; queries are functions over tables, and the blob store's files and quota are not modelled.
- The drafts that the Responses and Chat normalizers make of what they have assembled, and their whole messages: the assembly of each is modelled, event by event.
- Normalizer results beyond blocks, usage and completion: request evidence, transport errors and materialized event identifiers.
- Context items, token estimates and the text of limitations, and the remark on opaque reasoning that context items can add; the label, the graph, the accepted turns and which limitations the walk finds are modelled.
- The refusals of numbers that are not finite or beyond the safe integers when pruning; usage figures are integers.
- Database.ImportedEvidenceIsImmutable: is about statements on single rows, the only ones the repositories issue; the migrations that rewrite exchanges drop their trigger and are left out.
- The report blob and report run of an import, and the redactions of the share profile. Whether entry paths, counts and source session are what the manifest says, and whether the records reference blobs as it declares them, are two flags of the archive; the counters of a session row are no columns of the model. The time of an import is a valid timestamp.
- Export.RoundTrip: is about any archive that lists what the export's queries list, with the flags above set and every exchange ended, as exports refuse exchanges still recording; the order of those lists is left out.
- A partly failed compensation of an import: it takes effect as a whole or not at all.
- The payload and content budgets of the workspace observer: they would only add easy members.
- Which changes the watcher derives from its samples, and the suppression of repeated ones; a flush is given how many changes it delivers.
- The watcher's `stop` drains within the same call; the model lets other turns come in between, so its runs include more than the program's.
- Workspace metadata of a journal's session and the rows beside its file events, which are written in the same transactions.
- Chunk hashes are given with the chunks.
