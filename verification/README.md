# CodeArts2API: verified model of the gateway's stateful algorithms

CodeArts2API turns CodeArts Agent accounts into an OpenAI-compatible API. This project models the parts of it that
keep state or scan text, in Dafny, and proves what they guarantee. `dafny verify dfyconfig.toml` checks everything.

| files | part of the gateway |
|---|---|
| `Text`, `Utf8`, `Json`, `JsonCodec` | byte strings, Go's string helpers, UTF-8, decoded JSON and the JSON library |
| `SseReader`, `SseEvents`, `ToolCalls`, `CallElements`, `SsePartial`, `SseAggregate`, `SseStream`, `SseAgreement`, `SseText`, `SseFrames`, `SseTextual`, `SseClient`, `SseRoundTrip`, `SseWitnesses` | the stream engine: read-ahead, the aggregating and the live interpreter, what each event and each tool-call element says, payloads that decode in part, what a client reads back, streams on which a promise fails |
| `Pool`, `PoolEffects`, `Health`, `Chat`, `Slots`, `Rotation`, `Notes`, `ChatLoop`, `Accounting`, `Embedded` | the account pool, chat requests and probes as interleaved atomic steps, the request's nested loops, rotation, what a request notes and when it ends, who stays out of rotation, error accounting, errors embedded in a stream |
| `Models`, `Merge`, `Catalog` | per-account model catalogues, merging, limited-time benefit routing |
| `Update`, `UpdateSafety`, `UpdateOutcomes` | self-update by renames, rollback, crashes and power loss |
| `Literals`, `StripComments`, `StripMeaning`, `StripShape`, `ScanObject`, `Fences`, `ToolExtraction` | the text scanners: comment stripping, object scanning, `tool_call` fences, tool calls written as text |
| `Messages`, `ToolHistory`, `HistoryPairing` | chat messages, pairing tool calls with tool results in a chat history |
| `Fingerprint` | canonical messages and the fingerprint chain |

Code that works step by step is a method proved against a specification function; what the code promises is proved
about those functions. A Go string is a sequence of bytes, one `char` each. JSON decoding and encoding, the answer
unwrapper, argument normalisation, the parser of a call block, SHA-256 and tar extraction are function parameters, so
every theorem holds for all of them, under the hypotheses it names (`Faithful` for the JSON library, `Hex` for the shape
of a hash). Decoding returns what `json.Unmarshal` does: the fields as filled in, and whether it reported an error.
`Faithful` asks only for float64 numbers, UTF-8 throughout, and that what nests at most 10,000 levels reads back; every
frame sent is proved to be so written, and `JsonCodec.FaithfulIsMet` exhibits a library that meets it. Time is an integer
that a step is given.

`chatCompletions` appears twice. As a step machine over program counters (`Chat`) it can interleave with other copies of
itself, with probes and with operators: each step performs at most one pool operation, pool operations are the functions
that the methods of class `Pool` are proved to implement, and between two steps anything else may happen. As the nested
loops it is written as (`ChatLoop`) it is proved to make exactly the pool calls of the machine, whatever it meets, and to
come to an end.

Where the code and its comments differ, the model follows the code:

- `internal/upstream/sse.go:466` promises at least one `[DONE]`; a read error (`:614-616`) ends the output without one.
  It is missing exactly when the body breaks before any terminal frame (`SseAgreement.OutputEnds`, and
  `SseWitnesses.ReadErrorEndsWithoutDone` for such a body).
- `internal/upstream/models.go:93-95` and `:115-116` speak of the last successful benefit round and of not keeping the
  memory; `:142-146` always copies it, so it accumulates over all rounds (`Catalog.MemoryIsEverFlagged`).
- `internal/server/handler.go:882-890` takes a healthy sticky account again on later rotations although it was tried
  (`Rotation.StickyAttemptedTwice`); a rotation takes it exactly if it was healthy at the beginning of this and every
  earlier one (`Rotation.StickyExactly`).
- Slots are released by name, so realigning the pool with the credential files (`internal/pool/pool.go:271-301`) while
  a dropped account is in use breaks slot counting; `Slots.SyncExactly` gives the exact condition.
- Unpacking stops silently at 200 MiB (`internal/update/update.go:582`), so a larger binary is installed cut short with
  every check passed (`UpdateOutcomes.OversizedIsCutSilently`, and `InstalledWhole` for exactly when not).
- A snapshot that does not extend the streamed content leaves the client with other text than the captured answer
  (`SseWitnesses.ShrinkingSnapshotDiverges`, and `SseClient.InSyncExactly` for exactly when not).
- `[DONE]` under an `event: done`, `end` or `finish` name is read differently by the two interpreters
  (`SseWitnesses.NamedDoneDiverges`; the finish reasons differ exactly if the last one set before it is not "stop").
- A payload that decodes in part, say with a number outside float64, gives its tool calls and usage to the live
  translator (`internal/upstream/sse.go:630-635`) but not to the aggregator (`:416`), while both take its text
  (`SseWitnesses.PartialPayloadDiverges`). `SseAgreement.InterpretersAgree` says part by part exactly when the two
  answers are equal.
- A chunk whose tool calls nest deeper than the decoder goes is lost to the client as a whole
  (`SseWitnesses.DeepCallsAreLost`; `SseRoundTrip.RoundTrip` says exactly when that costs reasoning or tool calls).
- A message that names an unusable model only behind its first 300 bytes is a 400 that does not end the rotation
  (`Embedded.LatePhraseRotates`, and `EmbeddedErrorHandled` for exactly when it does).
- The finish reason a streaming client is told can differ from the one captured; both are given in closed form over the
  events (`SseRoundTrip.RoundTrip`).
- A tool result that stands in front of its call in the history stays there; results follow their calls exactly if every
  call passed on has an answer behind it (`HistoryPairing.ResultsFollowExactly`, `ResultMayPrecede`).
- A NUL in a message can make two different messages canonically equal (`Fingerprint.NulCollides`).

## Model

| member | source | states |
|---|---|---|
| JsonCodec.FaithfulIsMet | internal/upstream/sse.go:416-418 | There is a JSON library of which all that the stream theorems assume is true, and it may decode a payload with a number outside float64 in part. |
| SseReader.PreflightSse | internal/upstream/client.go:611-664 | The read-ahead rejects exactly when the first data line within the limit carries an embedded error, or the body fails before it; otherwise the reader it returns yields the very bytes that came in and then ends as the original would. |
| SseReader.VerdictExactly | internal/upstream/client.go:611-640 | Told by the lines: it rejects exactly on the error in the data of a line that begins within the limit with no data line before it, or on a failure of the body behind such a line that carries no data. |
| Embedded.EmbeddedExactly | internal/upstream/client.go:637-664 | Data is an embedded error exactly if it decodes without an error and its `error_code` is a text other than "" and "0"; its status is 429, 400 or 502 by the phrases in code and message, and their first 300 bytes are passed on. |
| SseEvents.ReadEvent | internal/upstream/sse.go:408-428 | Reading one line and scanning it yields the next of the events still ahead and leaves exactly the rest; a body that breaks loses the partial line in front of the failure. |
| SseText.NameLine | internal/upstream/sse.go:45-72 | An `event:` line names the next event, in any spacing. |
| SseText.DataLine | internal/upstream/sse.go:45-72 | A `data:` line is an event under the pending name, which it uses up; without data it is nothing. |
| SseText.OtherLine | internal/upstream/sse.go:45-72 | An empty line drops the pending name; every other line, a comment among them, leaves it. |
| SseEvents.StepsSaySame | internal/upstream/sse.go:211-331 | To both interpreters an event means the same text, finish reason and error, whatever calls and usage either holds and whether or not the payload decodes in full. |
| SseEvents.StepKeepsValid | internal/upstream/sse.go:211-331 | After any event, in either interpreter, the finish reason is not empty, the recorded usage is never an empty object, and every accumulated call sits under its own index. |
| SseEvents.ReasoningGrows | internal/upstream/sse.go:211-331 | No event ever removes reasoning already accumulated. |
| SseEvents.ContentReplacedOrExtended | internal/upstream/sse.go:226-315 | Content is replaced exactly by the text of a snapshot or output array, and by every other event at most extended. |
| SseText.ReasoningSays | internal/upstream/sse.go:316-319 | In both interpreters a reasoning event adds exactly the first of its texts to the reasoning and leaves the content alone. |
| SseText.DeltaSays | internal/upstream/sse.go:239-251 | A delta, at the top or in the first choice, adds exactly its `content` and its `reasoning_content`. |
| SseText.TextSays | internal/upstream/sse.go:257-268 | Without a delta the first text of an unnamed or answer event takes the place of the content, unless it is an end marker. |
| SseText.OutputSays | internal/upstream/sse.go:269-285 | Without a text, the joined texts of an output array take the place of the content, if there are any. |
| SseText.QuizSays | internal/upstream/sse.go:335-342 | Without either, a question/answer frame of admissible shape fills empty content with its answer, and nothing else says anything. |
| SseText.SilentSays | internal/upstream/sse.go:225-330 | Finishing events, frames with usage alone, end markers and events of other names change neither content nor reasoning. |
| SseText.ErrorSays | internal/upstream/sse.go:234-238 | An error frame reports the first of its codes with the first of its messages and changes neither content nor reasoning. |
| SseText.FinishingSays | internal/upstream/sse.go:320-330 | A finishing event sets the first of its reasons, or "stop". |
| SseText.ChunkSays | internal/upstream/sse.go:239-263 | A text that marks the end sets "stop"; any other answer sets the finish reason beside its delta, if there is one. |
| SseText.CapturedText | internal/upstream/sse.go:397-439 | Over whole streams, of both interpreters: the reasoning is the concatenation of what the events add to it, and the content is what their contents, told event by event, amount to. |
| SseText.LastReplacementCounts | internal/upstream/sse.go:226-315 | The content is the last replacing text followed by what deltas added after it. |
| SseText.FirstVoiceCounts | internal/upstream/sse.go:333-352 | If nothing replaces it, the content is the first text said, by a delta or as an answer, followed by what deltas added after it. |
| SseText.TerminalExactly | internal/upstream/sse.go:618-684 | The live translation stops at `[DONE]`, at a finishing event and at an error frame, and nowhere else. |
| SseText.LastErrorCounts | internal/upstream/sse.go:397-439 | The aggregator fails exactly if some event is an error frame, and then with the error of the last one. |
| SseText.SentDelta | internal/upstream/sse.go:651-664 | A delta sent says its role, what is new in content and reasoning, its tool calls as they came, and nothing else. |
| ToolCalls.ApplyToolCallDeltas | internal/upstream/sse.go:158-195 | The loop over one `tool_calls` array applies its elements in array order, elements that are not objects skipped; `CallElements` says from the payload what each does. |
| CallElements.ElementApplies | internal/upstream/sse.go:158-195 | One element more changes the call it addresses, by its numeric index or else its position, and no other: name and arguments appended, `id` and `type` replaced unless empty, a call not there before opened as a function. |
| CallElements.TruncateIsIntegerPart | internal/upstream/sse.go:172-178 | A numeric index is cut to its integer part, toward zero. |
| CallElements.AddressesOne | internal/upstream/sse.go:168-178 | An element addresses one call. |
| CallElements.DeltaApplies | internal/upstream/sse.go:158-163 | A delta does what its `tool_calls` array does, and nothing if it has none. |
| ToolCalls.ReassemblyClosedForm | internal/upstream/sse.go:158-195 | For any fragments and prior calls an index is present exactly if it was or some fragment names it, and holds its name and argument pieces in arrival order with its last non-empty id and type. |
| ToolCalls.ReassemblyIgnoresInterleaving | internal/upstream/sse.go:158-195 | Two fragment sequences that agree index by index reassemble to the same calls, however they interleave. |
| ToolCalls.SortedToolCalls | internal/upstream/sse.go:197-208 | The list handed out holds exactly the accumulated calls in strictly increasing index order, whatever order the map iterates in. |
| ToolCalls.SortedListUnique | internal/upstream/sse.go:197-208 | There is only one such list. |
| SsePartial.LeftMatterExactly | internal/upstream/sse.go:416-418 | Leaving out the fragments of some payloads, as the aggregator does of those that decode in part, gives the same calls exactly if, index by index, those open no call, add nothing to name or arguments, and do not have the last word on id or type. |
| SseAggregate.AggregateRaw | internal/upstream/sse.go:397-439 | A body that breaks is an error; otherwise the answer is the fold of all events, taking calls and usage only from payloads that decode without an error, and failing with the last error frame if there was one. `SseText` says what that fold holds. |
| SseAggregate.FoldKeepsValid | internal/upstream/sse.go:397-439 | Over any event list the aggregated state keeps the validity that `StepKeepsValid` states for one event. |
| SseStream.FinishStream | internal/upstream/sse.go:578-610 | Closing writes the usage chunk exactly if asked for, with the native usage or else the estimate of the captured answer, then `[DONE]`; a client that breaks gets a prefix. |
| SseStream.HandleEvent | internal/upstream/sse.go:618-684 | One event sends exactly the frames of its translation, or breaks off where the client broke, and the loop goes on or stops as the translation says. |
| SseStream.StreamWithCapture | internal/upstream/sse.go:497-699 | With a client that keeps reading exactly the translation of the stream is sent, and the answer is captured just when the run finished; with a client that breaks a prefix is sent and nothing is captured. `SseText.CapturedText` says what is captured, `SseRoundTrip.RoundTrip` what is sent. |
| SseAgreement.ErrorIsLocal | internal/upstream/sse.go:211-331 | Whether an event reports an upstream error, and which, does not depend on the state it meets. |
| SseEvents.FinishIsLocal | internal/upstream/sse.go:225-330 | Which finish reason an event puts in force depends on the event alone; an event that sets none leaves the old one. |
| SseAgreement.LinesUpToTerminal | internal/upstream/sse.go:612-691 | Cutting the lines after the first terminal one cuts the events after the first terminal event. |
| SseAgreement.OutcomeExactly | internal/upstream/sse.go:612-698 | A run fails to read exactly if the body breaks before any terminal event, fails with the upstream's error exactly if the first terminal event is an error frame, and finishes otherwise. |
| SseAgreement.FinishInForce | internal/upstream/sse.go:612-698 | The captured finish reason is the last one set before the end marker. |
| SseAgreement.DoneStep | internal/upstream/sse.go:226-233 | To the aggregator `[DONE]` changes nothing, except that under a finishing event name it sets the finish reason to stop. |
| SseAgreement.InterpretersAgree | internal/upstream/sse.go:397-439 | If the first terminal frame is an error, streaming and aggregating the lines up to it fail with that error; if the body does not break before a terminal frame, both answer with the same content and reasoning; the finish reasons differ exactly if those lines end in `[DONE]` under a finishing name and the last one set before it is not stop, the tool calls exactly if payloads that decode in part bring some, the usage exactly if the last one is in such a payload. |
| SseAgreement.RunCollects | internal/upstream/sse.go:629-635 | The captured calls and usage are those of all payloads up to the terminal one. |
| SseAgreement.FoldCollects | internal/upstream/sse.go:415-422 | The aggregated calls and usage are those of the payloads that decode without an error. |
| SseAgreement.OutputGrammar | internal/upstream/sse.go:603-698 | Every translation is chunks followed by the closing frames of its outcome: usage and `[DONE]`, error event and `[DONE]`, or nothing after a read error. |
| SseAgreement.OutputEnds | internal/upstream/sse.go:603-698 | Read off the input: `[DONE]` is missing exactly if the body breaks before any terminal frame, and then the output is chunks only; otherwise it is the last frame and the only one of its kind, with a usage chunk before it exactly if asked for and no error frame came first, an error event exactly if one did. |
| SseFrames.RenderedEvents | internal/upstream/sse.go:519-563 | The bytes written for any frames the engine sends, split into lines and scanned, give back exactly the frames' payloads as unnamed events. |
| SseFrames.ReceiveChunk | internal/upstream/sse.go:519-543 | An emitted chunk read by the aggregator adds exactly its content, reasoning, tool-call fragments and finish reason, with bytes that are not UTF-8 replaced. |
| SseFrames.ReceiveUsage | internal/upstream/sse.go:578-599 | A closing usage chunk read by the aggregator records the usage and nothing else. |
| SseFrames.ReceiveUnreadable | internal/upstream/sse.go:519-543 | A chunk whose tool calls nest deeper than the decoder goes changes nothing at the reader. |
| SseFrames.FrameIsEncodable | internal/upstream/sse.go:519-599 | Every chunk and usage frame built from parts of decoded payloads, text and counts is one the library writes faithfully, and it can be read back exactly if its tool calls do not nest too deep. |
| SseTextual.StepKeepsTextual | internal/upstream/sse.go:211-331 | Content, reasoning and finish reason stay UTF-8 and the usage encodable over every event. |
| SseTextual.ChoicesAreShallow | internal/upstream/sse.go:135-153 | A delta inside `choices` is never too deep for a chunk; only one at the top of the payload can be. |
| SseTextual.FinishedRunIsClean | internal/upstream/sse.go:612-698 | A finished run sends only such frames, and all of them can be read back exactly if no tool calls up to the terminal event are too deep. |
| SseRoundTrip.ReceiveTranslation | internal/upstream/sse.go:612-698 | A reader of a finished run ends with the tool calls, the reasoning and the new content of the events whose chunk it can read, the last finish reason told, and the usage that was asked for. |
| SseClient.InSyncExactly | internal/upstream/sse.go:652-664 | Client and server content agree after every event exactly if every replacing snapshot or output array extends the content before it and no new content comes with a chunk too deep to be read. |
| SseClient.InSyncEndsEqual | internal/upstream/sse.go:612-698 | A client that was always in sync ends with the captured content. |
| SseClient.ReasonHeardExactly | internal/upstream/sse.go:657-659 | A client that can read every chunk with new reasoning ends with all that was captured, any other with less. |
| SseClient.PartsSent | internal/upstream/sse.go:660-664 | The tool-call fragments sent are exactly those captured. |
| SseRoundTrip.RoundTrip | internal/upstream/sse.go:612-698 | Whenever the body does not break before a terminal frame and that frame is no error, what the aggregator reads out of the bytes sent: the captured reasoning and tool calls, each exactly unless some come with a chunk too deep to be read; the captured content whenever every replacing text extended the content so far and none was lost (bytes cut out of a character arrive replaced); the usage that was asked for; and as finish reason the last one told, while the captured one is the last one set. Every frame can be read exactly if no tool calls are too deep for a chunk. |
| SseWitnesses.ShrinkingSnapshotDiverges | internal/upstream/sse.go:260-268 | Without that condition content is lost: after the snapshots "ab" and "xyz" the client holds "abz" and the server "xyz". |
| SseWitnesses.PartialPayloadDiverges | internal/upstream/sse.go:416-416 | A chunk with a tool call and `1e999`, then `[DONE]`: the captured answer holds the call, the aggregated one does not. |
| SseWitnesses.DeepCallsAreLost | internal/upstream/sse.go:661-664 | Reasoning beside tool calls of 9,997 or 9,998 levels is captured but does not reach the client. |
| SseWitnesses.ReadErrorEndsWithoutDone | internal/upstream/sse.go:614-616 | A body that breaks after a snapshot: the client gets the text and no `[DONE]`. |
| SseWitnesses.NamedDoneDiverges | internal/upstream/sse.go:619-628 | Three lines, a chunk with finish reason length and `[DONE]` named done: streaming captures length, aggregating the same lines says stop. |
| Pool.PickExcluding | internal/pool/pool.go:304-320 | The account picked is the first in list order that is not disabled, whose cool-down has passed, and whose name is untried; none is picked only if there is none such. |
| Pool.Pool.AcquireLock | internal/pool/pool.go:467-485 | Succeeds exactly if the first account of the name has a slot free, and then counts one more on it and changes nothing else. |
| Pool.Pool.ReleaseLock | internal/pool/pool.go:488-502 | Counts one less on the first account of the name unless its count is zero, and changes nothing else. |
| Pool.Pool.PickFirst | internal/pool/pool.go:304-320 | The loop returns the object of the account that `PickExcluding` names. |
| Health.BarredIsOut | internal/server/handler.go:880-898 | A name all of whose accounts are disabled or cooling is neither picked nor taken as the sticky one. |
| Health.DisabledStaysOut | internal/pool/pool.go:304-321 | After `Disable` no request turns to the name, over every history of the pool, until it is re-enabled, added or made anew. |
| Health.CoolingStaysOut | internal/pool/pool.go:304-321 | After a cool-down none turns to it up to and including its end, unless a later note or clearing moves that. |
| Pool.Pool.Note | internal/pool/pool.go:366-430 | Error, success, cool-down and disable notes change every account of the name in their own fields and no other account. |
| Pool.Pool.AddAccount | internal/pool/pool.go:133-166 | A known name is re-enabled under the current limit with its count kept, a new one is appended idle. |
| Pool.Pool.SyncToDir | internal/pool/pool.go:271-301 | The new list follows the credential files; a name known before keeps its account once, repeated and new names start afresh, the rest are dropped. |
| PoolEffects.OperationExactly | internal/pool/pool.go:236-502 | What each operation does to each field of each account: slots of the first account of the name, notes and clearings on the fields they are about, everything else unchanged. |
| PoolEffects.AddExactly | internal/pool/pool.go:133-166 | A known name is enabled on its first account under the current limit; any other goes to the end of the list, idle and healthy. |
| PoolEffects.SyncKeepsState | internal/pool/pool.go:271-301 | A name known before keeps its count, errors, cool-down and ban under the current limit. |
| Slots.ChatMoves | internal/server/handler.go:880-1083 | Any step of a chat request acquires only without a slot, releases only the one it holds, and otherwise keeps it; `lockHeld` tells the truth throughout. |
| Slots.SyncExactly | internal/pool/pool.go:271-301 | Realigning the pool keeps slot counting right exactly if no credential file repeats a name and no account in use is dropped. |
| Slots.NextKeepsInv | internal/pool/pool.go:467-536 | Every admissible step of any client or operator keeps each count equal to the slots held and within the limit. |
| Slots.SlotsConserved | internal/server/handler.go:902-1060 | At every moment of every interleaving each account's count is the number of slots its clients hold, at most the limit; a release never meets a zero count; a client that is through holds nothing. |
| Slots.OneProbePerKey | internal/server/availability.go:152-177 | In every interleaving at most one probe per account and model is under way, and a mark stands exactly while its probe is. |
| Rotation.StepKeepsBounds | internal/server/handler.go:880-1083 | Every step keeps accounts attempted and upstream calls within what the rotation and retry counters allow. |
| Rotation.StepProgresses | internal/server/handler.go:880-1083 | Every step brings a request nearer its end, except a poll for a slot that is taken and not timed out, which changes nothing. |
| Rotation.RotationBounded | internal/server/handler.go:878-1083 | Whatever happens around it, a request attempts at most `MaxRotate` accounts, makes at most `MaxRotate * QueueMaxAttempts` calls and gets at most one refresh-retry in each attempt; its first attempts go to the sticky account, as many as rotations begin before it is first missing or unhealthy, the others to pairwise distinct other accounts. |
| Rotation.StickyExactly | internal/server/handler.go:880-898 | A rotation takes the sticky account exactly if there is one and it was in the pool and healthy at the beginning of this and every earlier rotation. |
| Rotation.StickyAttemptedTwice | internal/server/handler.go:882-890 | A healthy sticky account whose slots stay taken is attempted again although it was tried. |
| Notes.NotesExactly | internal/server/handler.go:1001-1082 | Over any run, which note is left when: a success exactly for an answer delivered, an error exactly for one that broke (a client that goes away mid-stream leaves nothing) or for a failure that is none of the API or of status 500 or more, a ban exactly for an invalid token or a 401, a cool-down exactly for a 429. |
| Notes.SuccessExactly | internal/server/handler.go:1036-1082 | A success is noted exactly if an answer was delivered, on the account attempted last, and nothing follows it. |
| Notes.FailureIsLast | internal/server/handler.go:956-1003 | The failure an account is blamed for is the one its own last call met. |
| Notes.RecordsExactly | internal/server/handler.go:880-957 | Each step counts calls, rotations and attempts where they happen, records who was tried, and gives up a sticky account exactly where it is not taken. |
| Notes.AttemptIsLast | internal/server/handler.go:880-1083 | The account at hand is the one attempted last. |
| Notes.EndsExactly | internal/server/handler.go:880-1083 | A request ends exactly when its rotations are used up, no account is left, the client goes away during a queue delay, the model is unavailable, or an answer was delivered or streamed. |
| Notes.OverIsOver | internal/server/handler.go:1049-1082 | Once over, a request leaves nothing more. |
| Notes.RetriesExactly | internal/server/handler.go:956-995 | After a failed call the upstream is called again at once exactly if a first 401 was answered by a refresh, and the request waits in the queue, without its slot, exactly for another failure worth it. |
| Notes.WaitsExactly | internal/server/handler.go:902-906 | A wait ends with the slot exactly if there is room, and otherwise exactly when it times out. |
| Notes.ProbeYields | internal/server/availability.go:152-177 | A probe yields to traffic, to slots in use and to another probe of its key. |
| ChatLoop.Session.AcquireLockWait | internal/pool/pool.go:509-536 | The polling loop ends with the slot taken as soon as a poll finds it free, else when its time is over, and takes it once at most. |
| ChatLoop.Session.CallUpstream | internal/server/handler.go:956-996 | The retry loop leaves with an accepted call, or with the last failure and `lockHeld` telling whether the slot is still held, or with the client gone and nothing held, each exactly when the machine does. |
| ChatLoop.Session.Attempt | internal/server/handler.go:900-1082 | One round with a picked account either ends the request or leaves it at the top of the next rotation, on every path. |
| ChatLoop.Session.ChatCompletions | internal/server/handler.go:878-1083 | The nested loops make exactly the pool calls of a finished run of the machine, whatever they meet, give back every slot, and leave at every moment exactly the notes that `Notes.NotesExactly` says. |
| ChatLoop.SlotsTaken | internal/server/handler.go:902-1054 | At every point of a request the slots it took and has not given back are the one it holds, if any. |
| Accounting.ErrCountIsStreak | internal/pool/pool.go:384-413 | Over any history of pool operations an account's error count is its number of errors since its last success, on top of the starting count if there was none. |
| Accounting.ErrorCoolsAtThreshold | internal/pool/pool.go:384-400 | An error note starts a cool-down exactly if it completes `ErrThreshold` errors in a row, and never disables. |
| Accounting.HarmlessExactly | internal/server/handler.go:1249-1282 | A failure leaves every pool untouched exactly if it says the model is unavailable or is an API error below 500 other than 401 and 429. |
| Accounting.HarmlessRunsPunishNobody | internal/server/handler.go:1249-1282 | No run of such failures and successes, on any accounts in any order, cools or disables anybody. |
| Embedded.StatusSays | internal/upstream/client.go:651-663 | The message passed on names the model exactly if a phrase for it ends within the first 300 bytes of the text; one that does was not given status 502, and one that speaks of sessions or throttling was given 429. |
| Embedded.EmbeddedErrorHandled | internal/server/handler.go:1249-1301 | Read off the text of the error: it never disables an account or earns a refresh; it is waited out exactly if it speaks of throttling or sessions; it ends the rotation exactly if a phrase for an unusable model ends within its first 300 bytes; and it costs nothing then, else a cool-down if it speaks of throttling, nothing if it names the model further on, an error note otherwise. |
| Embedded.LatePhraseRotates | internal/upstream/client.go:658-663 | With 300 bytes or more in front of the phrase it is a 400 that does not end the rotation. |
| Models.ModelLessTotal | internal/upstream/models.go:265-281 | The display order is asymmetric, and total on entries with different keys. |
| Models.ModelLessTransitive | internal/upstream/models.go:265-281 | The display order is transitive. |
| Models.SortUnique | internal/upstream/models.go:258-281 | A list with distinct keys has one sorted arrangement only, so an unstable sort cannot show. |
| Models.SortedIsDisplayOrder | internal/upstream/models.go:265-281 | Ranked entries come by ascending rank, entries of rank 0 behind all of them, equal ranks by ascending lower-case ID. |
| Text.BeforeExactly | internal/upstream/models.go:280-280 | Before another text stand its proper prefixes and whatever has the smaller byte where the two first differ. |
| Merge.MergedClosedForm | internal/upstream/models.go:238-308 | The merge has one entry per lower-case ID that any list mentions; its flags are the disjunction over all contributors, and each parameter is filled in exactly if some contributor fills it in. |
| Merge.MergedFavoursWinner | internal/upstream/models.go:284-316 | The merged entry is spelled like the first contributor of best rank (context window known, then a spelling with capitals) and has every parameter that one fills in. |
| Merge.ParametersFromContributors | internal/upstream/models.go:284-308 | Every parameter of a merged entry is one that some contributor gives. |
| Merge.MergeModels | internal/upstream/models.go:238-260 | The merged list is in display order, spelled out over rank and ID, and holds each entry of the merge map once. |
| Merge.MergeDeterministic | internal/upstream/models.go:254-260 | Any two such lists are equal, whatever order map iteration and the sort took. |
| Catalog.UpdateKeepsIndexes | internal/upstream/models.go:147-176 | After storing a round, `knows` is exactly the lower-case IDs of the list, `benefit` exactly those of flagged entries, and every remembered entry is flagged and under its own key. |
| Catalog.BuildCatalog | internal/upstream/models.go:130-176 | The loops over list and memory build exactly that catalogue, for every map iteration order. |
| Catalog.IndexAgreesWithScan | internal/upstream/models.go:206-222 | Routing by the indexes and routing by scanning the list agree on every model. |
| Catalog.MemoryIsEverFlagged | internal/upstream/models.go:142-160 | After any history the memory of an account holds exactly the keys some round of that account flagged. |
| Catalog.RememberLatest | internal/upstream/models.go:142-160 | The memory holds each benefit under the last entry that flags it. |
| Catalog.SpellingsExactly | internal/upstream/models.go:157-159 | The spelling learned for a key is the last one with capitals, else the one known before, else the key itself. |
| Catalog.OnlyOwnRounds | internal/upstream/models.go:126-177 | The indexes of an account are those its own last round left; other accounts never matter. |
| Catalog.BenefitClosedForm | internal/upstream/models.go:126-222 | Over every history a model is benefit-routed exactly if the account's last round flags it, or does not mention it and either kept benefits with some earlier round of the account flagging it, or it is a seed. |
| Catalog.OwnIdRoutes | internal/upstream/models.go:206-222 | An entry that the list flags is routed under its own ID, and one it only mentions is not, seed or no seed. |
| Catalog.RouteIgnoresCaseAndSpace | internal/upstream/models.go:206-210 | A model is asked for by its ID in any case and with any space around it. |
| Catalog.ModelCatalog.SetAccountModels | internal/upstream/models.go:126-177 | Stores the round for its account, leaves all other accounts alone, keeps every index right, moves the routing state as the history model says, and learns the spellings of what it lists. |
| Catalog.ModelCatalog.IsBenefitModel | internal/upstream/models.go:206-222 | Answers what the indexes say, which is what a scan of the account's list with the seed fallback says. |
| Update.ReplaceExecutable | internal/update/update.go:420-435 | Makes exactly the planned system calls: back up by rename, install by rename, rename back if that fails. |
| Update.PrepareBinary | internal/update/update.go:332-388 | Downloads, verifies, unpacks, flushes in that order and stops at the first failure with only temporary files written. |
| Update.Apply | internal/update/update.go:242-265 | Prepares, swaps only if prepared, and cleans up the temporary directory in every case in which there is one. |
| Update.Rollback | internal/update/update.go:438-453 | Renames the backup over the executable if there is one. |
| UpdateSafety.ActKeepsSafe | internal/update/update.go:370-389 | Temporary writes, flushes, backing up, restoring, and moving in a flushed genuine binary each keep every directory the medium may hold bootable. |
| UpdateSafety.PrepareAllowed | internal/update/update.go:351-389 | Once preparation succeeds the new binary is flushed and came out of an archive matching a published sum. |
| UpdateSafety.ReplaceAllowed | internal/update/update.go:420-435 | From there every call of the swap keeps the disk safe at the point it is made, with any rename or directory flush failing. |
| UpdateSafety.PowerLossKeepsSafe | internal/update/update.go:381-389 | Losing power, with any unsynced directory surviving and unflushed contents torn, keeps the disk safe. |
| UpdateSafety.CrashSafety | internal/update/update.go:332-454 | Over every run of updates and rollbacks, each failing or killed anywhere, with power losses between, the executable's or the backup's path holds a flushed binary that was there at the start or is one as unpacked from a verified archive. |
| UpdateSafety.CrashSafetyComplete | internal/update/update.go:332-454 | If published binaries are within the size limit, every directory the medium may come back with has a complete flushed binary at one of the two paths and nothing else at either. |
| UpdateOutcomes.FailedAttemptTouchesNothing | internal/update/update.go:332-424 | If any step before the first swap rename fails, executable and backup read the same at every moment of the attempt. |
| UpdateOutcomes.OnlyVerifiedIsInstalled | internal/update/update.go:375-384 | A binary goes into place only from an archive of admissible size matching the published sum. |
| UpdateOutcomes.VerifiedInAnyCase | internal/update/update.go:535-550 | A published sum matches in either case and in no other way. |
| UpdateOutcomes.PrepareOutcomeExactly | internal/update/update.go:332-388 | How far an update gets, told by what it meets: the first thing wanting decides, and it comes to the swap exactly if nothing is. |
| UpdateOutcomes.ReplaceOutcomeExactly | internal/update/update.go:420-435 | How the swap ends, told by which renames succeed. |
| UpdateOutcomes.ReplaceOutcome | internal/update/update.go:420-435 | What executable and backup hold after each way the swap can end. |
| UpdateOutcomes.ApplyOutcome | internal/update/update.go:242-265 | Installed: the unpacked binary runs and the old one is the backup. Restored: the old one is back and there is no backup. Stranded: only the backup is left. Anything else: both untouched. |
| UpdateOutcomes.NothingLeftBehind | internal/update/update.go:353-357 | If cleaning up succeeds, no temporary file is left, however the update ends. |
| UpdateOutcomes.InstalledIsDurable | internal/update/update.go:425-434 | Once the directory flush after the last rename succeeds, every directory the medium may hold has the same files at both paths. |
| UpdateOutcomes.InstalledWhole | internal/update/update.go:575-582 | The installed binary is a prefix of the archive's, as long as the limit of 200 MiB allows, and all of it exactly when that one is within the limit. |
| UpdateOutcomes.OversizedIsCutSilently | internal/update/update.go:575-582 | A larger one is cut and installed although every check passed. |
| UpdateOutcomes.ApplyThenRollback | internal/update/update.go:438-453 | After an installed or stranded update a rollback whose rename succeeds restores the previous executable exactly and consumes the backup. |
| StripComments.StripJSONComments | cmd/server/config.go:137-183 | The scanner writes what a recursive lexer keeps: literals and plain bytes, a newline for each line comment that had one, nothing for block comments. |
| StripMeaning.LexLossless | cmd/server/config.go:137-183 | The lexer's tokens cover the text byte for byte. |
| StripMeaning.NoNewOpener | cmd/server/config.go:157-180 | A slash that opens no comment still opens none once what follows it is stripped. |
| StripMeaning.LexOfStrip | cmd/server/config.go:137-183 | The tokens of the output are those of the input without the comments; no two pieces run together into something new. |
| StripMeaning.StrippedIsCommentFree | cmd/server/config.go:137-183 | The output holds no comment, terminated or not, outside a string. |
| StripMeaning.LiteralsSurvive | cmd/server/config.go:141-156 | String literals come through byte for byte and in order, and no new one appears. |
| StripMeaning.UnchangedExactly | cmd/server/config.go:137-183 | A text comes through unchanged exactly when it holds no comment. |
| StripMeaning.StripIdempotent | cmd/server/config.go:137-183 | Stripping twice is stripping once, unterminated strings and comments included. |
| StripShape.BlockIsGone | cmd/server/config.go:171-178 | `/*`, any body without `*/`, then `*/` leaves nothing, and what follows is stripped on its own. |
| StripShape.LastBlockIsGone | cmd/server/config.go:171-178 | A block comment that is not closed takes the rest of the text. |
| StripShape.LineIsGone | cmd/server/config.go:160-170 | `//` and any body without a newline leave the newline that ends them. |
| StripShape.LiteralIsKept | cmd/server/config.go:142-159 | A literal up to the first quote that no backslash protects is written as it stands, whatever is in it. |
| StripShape.ByteIsKept | cmd/server/config.go:180-180 | Any other byte is written as it stands. |
| StripShape.TokensHaveShape | cmd/server/config.go:137-183 | Every token of a text has the shape of its kind and goes to the end of the text only if nothing ends it before. |
| ScanObject.NextByte | internal/server/tools.go:204-218 | The scanner's depth, in-string and escape state after one more byte, read off the text by literal lexing as in section 7 of RFC 8259. |
| ScanObject.ScanJSONObject | internal/server/tools.go:197-225 | Returns the shortest piece from `start` whose braces outside literals balance, and gives up only if `start` is no opening brace or no piece balances. |
| ScanObject.BalancesOnce | internal/server/tools.go:197-225 | There is only one such piece, and it does not depend on what follows it. |
| Fences.NoFenceAnywhere | internal/server/tools.go:91-100 | When the loop stops, no opener anywhere is followed by a closer anywhere after it. |
| Fences.PassTakesApart | internal/server/tools.go:91-108 | One left-to-right pass loses nothing and cuts at the first opener and the first closer after it, again and again. |
| Fences.PassUnique | internal/server/tools.go:91-108 | There is no other way to take a text apart at its first fences. |
| Fences.CallsInOrder | internal/server/tools.go:102-105 | A block yields what it parses to, and calls come in the order of their blocks. |
| Fences.CutStep | internal/server/tools.go:107-107 | Cutting one fence and trimming shortens the text and leaves a pass exactly the remaining fences and the same text outside them. |
| Fences.ExtractFenced | internal/server/tools.go:88-108 | The calls are those of the fences a single pass over the original text finds, in text order; the rest is the text outside them, trimmed, with no complete fence left. |
| ToolExtraction.TryObject | internal/server/tools.go:113-120 | Takes calls from the object that starts at the last brace before the first occurrence of the key, if that object closes and parses, and from nowhere else. |
| ToolExtraction.TakenOnce | internal/server/tools.go:113-130 | What such an object yields is determined by the text. |
| ToolExtraction.ExtractToolCalls | internal/server/tools.go:88-132 | Fences that yield calls win, then the object around the wrapper key, then the one around the arguments key, in what the fences left; if none parses, the original text comes back and nothing is found. |
| ToolHistory.IndexResults | internal/server/handler.go:1133-1139 | The index holds exactly the answered IDs, each with its last answer. |
| ToolHistory.PairedToolMessages | internal/server/handler.go:1133-1166 | Calls are kept exactly of assistants all of whose calls are answered, results exactly where they are the last answer to a kept call. |
| ToolHistory.BuildUpstreamMessages | internal/server/handler.go:1093-1129 | The list sent consists of the surviving messages in order, each in its wire form. |
| HistoryPairing.HistoryIsPaired | internal/server/handler.go:1093-1166 | Whatever the history, the upstream sees every call with exactly one result of its ID and no result without a call. |
| HistoryPairing.ResultsFollowExactly | internal/server/handler.go:1093-1166 | Every result stands behind its calls exactly if in the history every call passed on has an answer behind it. |
| HistoryPairing.ResultMayPrecede | internal/server/handler.go:1097-1128 | A result in front of its call stays in front of it. |
| HistoryPairing.CallsDroppedOnlyIfUnanswered | internal/server/handler.go:1142-1160 | An assistant keeps its place and all its calls, or loses them all because one has an empty ID or one that no tool message bears. |
| HistoryPairing.TalkIsKept | internal/server/handler.go:1097-1128 | What system, user and assistant say reaches the upstream in full and in order. |
| HistoryPairing.UnchangedExactly | internal/server/handler.go:1093-1166 | Exactly the paired, well-shaped lists come through unchanged. |
| HistoryPairing.BuildIdempotent | internal/server/handler.go:1093-1166 | Mapping the result again changes nothing. |
| Fingerprint.WriteCanonical | internal/server/request.go:245-263 | The builder writes the NUL-joined fields of the message with its arguments normalised. |
| Fingerprint.CanonicalDecodesExactly | internal/server/request.go:245-263 | A canonical text decodes to the message, up to normalised arguments, exactly when nothing written into it contains a NUL. |
| Fingerprint.CanonicalUnique | internal/server/request.go:245-263 | Canonical texts of such messages are equal exactly if role, text, tool call ID, and calls up to normalised arguments are. |
| Fingerprint.NulCollides | internal/server/request.go:245-263 | For any call there is a message without calls, its text holding NULs, with the same canonical text. |
| Fingerprint.ComputeFingerprint | internal/server/request.go:282-294 | The loop computes the chained hash of the whole list. |
| Fingerprint.InputUnique | internal/server/request.go:282-285 | What is hashed for a message determines the fingerprint before it and the canonical text. |
| Fingerprint.FingerprintUnique | internal/server/request.go:282-294 | Equal fingerprints mean equal canonical messages, or two different texts hashed on the way collide. |
| Fingerprint.SameFingerprintSameHistory | internal/server/request.go:245-294 | For NUL-free histories equal fingerprints mean messages equal in role, text, tool call ID and calls up to normalised arguments, or such a collision. |
| Fingerprint.SameHistorySameFingerprint | internal/server/request.go:245-294 | Histories equal in these respects get the same fingerprint, whatever the hash. |

## Left out

- Slots.SlotsConserved: assumes a fixed `maxConcurrent` and no dropped account in use; `Slots.SyncExactly` shows the second is necessary.
- UpdateSafety.CrashSafety: does not promise that a binary is all of the one published (`CrashSafetyComplete` does, within the size limit); assumes directory changes reach the medium in the order they were made; a file system that keeps half of a rename is not modelled.
- Text: lower-casing, trimming and case-insensitive comparison act on ASCII; Unicode white space and case are not modelled.
- JSON: which fields decoding fills in is up to the library, a parameter; negative zero is zero; converting a number beyond 64 bits to an integer is not modelled.
- Response writing: a frame is written whole or not at all; headers and flushing are not modelled.
- Answer unwrapping, call-block parsing, argument normalisation: parameters; only what the theorems name is assumed of them.
- Waiting for a slot: the 100 ms sleep and the deadline become one input that says whether the wait is over (`ChatLoop` assumes that it always is at some point); `Get` and `Healthy` on the sticky account are one step.
- Pool fields with no bearing on routing (`lastErr`, reasons, `coolKind`, keep-alive and validation times, credentials) and saving the pool state to disk.
- Token validation and refresh: an outcome handed to the step; their HTTP exchange, signing and DPoP are not modelled.
- The fast refusal of models known to be unusable, the traffic and availability records, and the pacing of sweeps (`beginSweep`, `endSweep`).
- The removal of wrapper tags from what `extractToolCalls` leaves (`internal/server/tools.go:135-143`) is a parameter; its only caller discards that text.
- Catalogue age (`fetched`, `CatalogTTL`), looking a spelling up, and fetching the lists.
- The release check, asset choice, URL rules and `compareSemver` of the updater: one input says whether an update is eligible.
- The executable's path is a constant; what the operating system reports as the path of a running file that has been renamed is not modelled. Apply and Rollback exclude each other by a lock, so a run is a sequence of them.
- Choosing a conversation ID from the first user message; OAuth login, administration, the panel, benefit claiming, usage estimates, configuration overlays and logging.
