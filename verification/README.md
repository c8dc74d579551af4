# Models and proofs of the agent core

This project models, in Dafny, the parts of the agent whose correctness spans several
functions, and proves what they keep over every input and every run:

- the conversation history and the operations that change it in place
  (`src/agent/agent.rs`, `src/agent/compaction.rs`): modules `Messages`, `History`,
  `Turns`, `Entries`, `Runs`, `Streaming`, `ImageCap`, `StoredImages`, `Blocked`, and the class
  `AgentState.Agent`;
- the text protocols, each with a reader for what it prints: image markers
  (`src/multimodal.rs`: `Multimodal`, `Clearing`, `Preparation`), tool frames and tool-call blocks
  (`src/agent/dispatcher.rs`: `ToolFrames`, `ToolCalls`), and prompt sections replaced in
  place (`src/agent/prompt.rs`: `Prompt`);
- the build timestamp (`build.rs`: `Calendar`, `Timestamp`), against the proleptic
  Gregorian calendar and RFC 3339, section 5.6 and Appendix C;
- the bounded store of session grants (`src/approval/session_grants.rs`: `SessionGrants`);
- lists out of nested JSON (`src/identity.rs`: `Identity`) and rule selection
  (`src/agent/classifier.rs`: `Classifier`).

`Text` holds strings as the program sees them: trimming, searching, joining, UTF-8 length.

Code that changes state step by step is a method (of a class where the source has an
object), proved equal to a function; the lemmas are about those functions. `dafny verify
dfyconfig.toml` checks everything.

## Where the code differs from its comments

The model follows the code.

- `compute_split_index` says it needs `keep_last + 1` user messages; the code needs
  `keep_last` (`History.SplitIndexSpec`). With exactly that many and nothing but system
  messages before them, a compaction makes the history one entry longer
  (`History.CompactionLength`).
- `turn_inner` says a refusal leaves the history as it was; a refused first turn leaves
  the system prompt behind (`Turns.RefusedTurn`).
- `restore_history` clears the history before it builds the prompt, so a prompt that
  cannot be built loses it; `reseed_history` and `adopt_history_from` build first
  (`AgentState.Agent.RestoreHistory`, `AgentState.Agent.ReseedHistory`).
- Compaction re-adds every system message and also keeps the tail as it stands: a system
  message after the split comes out twice (`History.CompactionRepeats`), and a restored
  system turn after another turn brings that about (`Runs.MiddleSystemTurnBreaks`).
- Text before an unclosed `<tool_call>` is emitted twice (`ToolCalls.TextOnceIff`).
- Cutting out a marker can close up another: `[IMA[IMAGE:x]GE:y]` counts as one image when
  it is judged and as two once stored (`ImageCap.SentCount`, `ImageCap.ClosingExample`).
- `turn_inner` stores prepared images so that a removed file cannot break a later turn; a
  marker left open in the text takes in the stored data URI, and every later turn of the
  session is refused (`StoredImages.StoredIsSettled`, `Blocked.LostImageBlocks`).
- `push_prior_turns` puts a placeholder where an image cannot be prepared; a reference that
  holds a marker prefix is an image again inside its placeholder, and a full session goes
  over its limit (`ImageCap.PlaceholdersHoldNone`, `ImageCap.PlaceholderExample`).
- `adopt_history_from` carries a session into an agent with a new configuration and judges
  nothing. A session over the new image limit is refused every message
  (`Blocked.AdoptedOverLimit`, `Blocked.LowerLimitBlocks`). An image named to a provider
  without vision is stored as named, and after the change of provider that its error asks
  for (`src/agent/loop_.rs:1988-1997`) it blocks the session (`Blocked.RawImageBlocks`).
- `pairing_safe_cut` and `compute_split_index` are there to keep calls and results together;
  with the XML dispatcher results are user messages, and both can cut between them
  (`Turns.XmlTrimPairs`, `Turns.XmlTrimSplits`, `Turns.XmlCompactPairs`,
  `Turns.XmlCompactionSplits`).
- The note that replaces a historic image can close a marker left open before it, so the
  redacted message still counts as an image
  (`Preparation.RedactedIsClear`, `Preparation.RedactionCanLeaveAnImage`).
- Replacing persona and safety sections does not commute when one is removed while it
  directly follows the other (`Prompt.PersonaSafetyCommute`, `Prompt.RemovalOrderShows`).
- Splicing a section differs from rebuilding at the end of a prompt, where a rebuild ends
  with a blank line, and for a blank section (`Prompt.SpliceIsRebuild`).

## Model

| member | source | states |
|---|---|---|
| Runs.RunWellFormed | src/agent/agent.rs:407-477 | after any sequence of turns, compactions, clears, restores, reseeds and adoptions whose restored system turns come first, a non-empty history starts with a system message, all system messages come first, each result entry directly follows the calls it answers, and each call entry is directly followed by a result entry or by a message with the XML results heading |
| Runs.StepWellFormed | src/agent/agent.rs:801-956 | one operation, successful or not, keeps that invariant; an adopted history is itself the outcome of a run |
| Runs.SystemsCountCompactions | src/agent/agent.rs:886-904 | over every run without restored system turns, a non-empty history holds exactly one system message plus one per successful compaction since the last reset |
| Runs.StepCounted | src/agent/agent.rs:407-477 | what each operation does to that count |
| Runs.SentTurnIsCapped | src/agent/agent.rs:1217-1269 | after a sent turn, whatever the loop did, the entries other than system messages are within the cap |
| Runs.MiddleSystemTurnBreaks | src/agent/agent.rs:420-436 | a restored system turn after another turn breaks the order: the condition of the invariant is needed |
| Turns.LoopContinues | src/agent/loop_.rs:2138-2243 | the tool loop, stopped at any round or after a nudge, appends no system messages, follows every call directly with its results, as an entry or under the XML results heading, and pairs every native result entry with its calls |
| Turns.LoopPairsXml | src/agent/dispatcher.rs:121-134 | with the XML dispatcher, every results message the loop appends carries the results heading and directly follows its calls |
| Turns.XmlTrimPairs | src/agent/agent.rs:926-956 | with the XML dispatcher a trim keeps results behind their calls if and only if the other messages all fit, or the place the cut is moved to is not a results message |
| Turns.XmlTrimSplits | src/agent/agent.rs:926-956 | a cap of two cuts a turn with one call at its results, for every prompt, text, call and answer |
| Turns.XmlCompactPairs | src/agent/agent.rs:890-904 | the same for a compaction: if and only if the user message it splits at is not a results message |
| Turns.XmlCompactionSplits | src/agent/compaction.rs:75-95 | keeping one user message of a turn with a call cuts the call from its results, for every prompt, text, call, answer and summary |
| Turns.TurnKeeps | src/agent/agent.rs:1181-1269 | a turn that runs, is refused or has no prompt keeps the history well formed and every system message in order; only an empty history gains one |
| Turns.RefusedTurn | src/agent/agent.rs:1184-1221 | a refused turn adds no user message, and leaves the history as it was exactly when it was not empty |
| Turns.PushPriorShape | src/agent/agent.rs:479-492 | stored turns are put back one entry each, in order, behind what is there; each is what its role and content make of it, judged against the entries before it |
| Turns.PushPriorKinds | src/agent/agent.rs:479-492 | each pushed entry is a chat entry, a system message exactly for a system turn |
| Turns.PushPriorWellFormed | src/agent/agent.rs:479-492 | behind system messages, the pushed turns leave a well-formed history if and only if their system turns come first |
| Turns.PushPriorSystems | src/agent/agent.rs:479-492 | turns that are no system turns add no system message |
| Turns.RestoreWellFormed | src/agent/agent.rs:420-436 | a restore leaves a well-formed history if and only if its system turns come first |
| Turns.ReseedWellFormed | src/agent/agent.rs:445-454 | the same for a reseed |
| Turns.AdoptKeeps | src/agent/agent.rs:460-477 | an adopted conversation is well formed, keeps its other entries in order and its number of system messages, with the prompt exchanged |
| Entries.AdoptIs | src/agent/agent.rs:460-477 | an adopted history is this agent's prompt, then the other history without its leading system message; without a prompt nothing changes |
| Entries.AdoptKeepsSummaries | src/agent/agent.rs:456-477 | in a well-formed session only the leading prompt is exchanged: the summaries behind it and all other entries stay |
| Entries.RestoreIs | src/agent/agent.rs:420-436 | a restore gives nothing from nothing, the turns alone when one is a system turn, else the new prompt and the turns; nothing at all when the prompt cannot be built |
| Entries.ReseedIs | src/agent/agent.rs:445-454 | a reseed gives the new prompt and the turns, or the old history without a prompt |
| Entries.PriorIs | src/agent/agent.rs:479-512 | a stored turn by its role: system and assistant text as it is; a user message as it would be sent now, or else its text and one placeholder line per image |
| Entries.TurnShape | src/agent/agent.rs:1181-1269 | a refused turn leaves the history with its prompt; a sent one leaves the old history, the message and what the loop appended, trimmed: every system message, and of the others a suffix, all when the cap allows |
| Entries.TurnWithoutPrompt | src/agent/agent.rs:1181-1188 | a first turn whose prompt cannot be built changes nothing |
| Entries.SentContent | src/agent/agent.rs:1116-1151 | what is sent without vision or without images is the message itself; with images, its cleaned text and what the reader gives for each, in order, and every reference of it is of an allowed type |
| Entries.RefusedType | src/agent/agent.rs:1138-1149 | a message is refused for its type only when a reference of its prepared form is not allowed |
| Entries.SentReads | src/agent/agent.rs:1116-1151 | with a text whose markers are all closed and blank, what is sent reads as that text and, reference by reference, what the reader gave |
| Entries.LoopInOrder | src/agent/loop_.rs:2138-2243 | the loop appends, round by round, the model's text with its calls, then an entry that carries every result; then the answer, the nudge, or both |
| Entries.ResultsCarried | src/agent/dispatcher.rs:121-134 | a results entry carries every result in order: its call id, or `unknown`, and its output; or in frames its name, status and neutralised output |
| Entries.SeenInOrder | src/agent/dispatcher.rs:159-181 | a provider sees the entries of a history in order |
| Entries.SeenAlone | src/agent/dispatcher.rs:230-256 | chat is seen as it is, calls as an assistant message, results as one tool message each, or as one user message whose frames show every call id and neutralised content |
| History.PairingSafeCut | src/agent/compaction.rs:110-116 | the loop finds the first place at or after the cut that is no result entry |
| History.SafeCutStops | src/agent/compaction.rs:97-116 | everything the cut moved past is a result, and it never stops on one |
| History.SelectLast | src/agent/agent.rs:926-944 | the system messages, the other entries and the user messages are selected by the role of a chat entry alone, in order |
| History.TrimKeepsLongest | src/agent/agent.rs:926-956 | a trim of any history over the cap keeps every system message in order, then, of too many others, the longest suffix within the cap that does not start with a result, or else all others; a history within the cap stays as it is |
| History.TrimWellFormed | src/agent/agent.rs:926-956 | trimming keeps a history well formed and its system messages unchanged |
| History.TrimIdempotent | src/agent/agent.rs:926-956 | trimming twice is trimming once, on any history, even when system messages alone exceed the cap; the others never do afterwards |
| History.ComputeSplitIndex | src/agent/compaction.rs:75-95 | the counting loop from the end finds the split place |
| History.SplitIndexSpec | src/agent/compaction.rs:67-95 | there is no split if and only if there are fewer than `keep` user messages; otherwise it is a user message with exactly `keep` of them from there on |
| History.CompactionShape | src/agent/agent.rs:801-904 | compaction of any history succeeds if and only if there are `max(keep_last, 1)` user messages and the summary is not blank; it yields the system messages, one envelope, then verbatim the suffix from a user message on with exactly that many |
| History.SummaryReadsBack | src/agent/compaction.rs:203-215 | the one entry that any compaction adds is a system message behind the old ones that reads as the trimmed summary between its two boundary texts |
| History.CompactionWellFormed | src/agent/agent.rs:886-904 | compacting a well-formed history gives a well-formed one, whose system messages are the old ones and the envelope |
| History.CompactionRepeats | src/agent/agent.rs:890-904 | on any history, compaction repeats no system message if and only if none stands at or after the split |
| History.CompactionLength | src/agent/agent.rs:801-904 | for any history, the new length is the old one, plus one, less the summarised entries that are no system messages, plus the system messages that come out twice |
| AgentState.Agent.ClearHistory | src/agent/agent.rs:407-409 | the history is empty |
| AgentState.Agent.PrepareNewTurn | src/agent/agent.rs:1116-1151 | a new message is judged with the whole history and comes back prepared, refused, or with a MIME type that is not allowed |
| AgentState.Agent.PreparePriorUserTurn | src/agent/agent.rs:494-512 | a stored turn comes back prepared, or as its text with one placeholder per reference |
| AgentState.Agent.PushPriorTurns | src/agent/agent.rs:479-492 | each stored turn is judged against those pushed before it |
| AgentState.Agent.RestoreHistory | src/agent/agent.rs:420-436 | the new history, and failure exactly when a needed prompt cannot be built, the history then being empty |
| AgentState.Agent.ReseedHistory | src/agent/agent.rs:445-454 | the prompt, then the turns; without a prompt nothing changes |
| AgentState.Agent.AdoptHistoryFrom | src/agent/agent.rs:460-477 | the conversation moves behind the new prompt and the other agent is left without one; without a prompt neither agent changes |
| AgentState.Agent.TrimHistory | src/agent/agent.rs:926-956 | splitting, dropping and joining in place does what `TrimTo` says |
| AgentState.Agent.CompactStreaming | src/agent/agent.rs:801-904 | success gives the compacted history, its lengths and a prefix of the summary to the receiver, all of it if it stays open; any failure leaves the history as it was; it is for lack of turns exactly below `max(keep_last, 1)` user messages |
| AgentState.Agent.TurnInner | src/agent/agent.rs:1181-1269 | the whole new history of a turn, and when it runs, is refused or lacks its prompt |
| Streaming.StreamSummaryAsChunks | src/agent/compaction.rs:217-239 | the chunks sent are the first ones of the summary's, as many as the receiver takes |
| Streaming.ChunksAreTheSummary | src/agent/compaction.rs:217-239 | the chunks are non-empty, concatenate to the summary, are cut only after whitespace, and all but the last have at least 64 bytes |
| Streaming.ChunksAreEarly | src/agent/compaction.rs:222-234 | a chunk is sent as soon as it has 64 bytes: no chunk has them before its last word |
| Text.Utf8LenLast | src/agent/compaction.rs:224-225 | the length of a string is that of its UTF-8 encoding, character by character |
| Streaming.SentIsPrefix | src/agent/compaction.rs:217-239 | a receiver that closes early got a prefix of the summary, and otherwise all of it |
| ImageCap.RunCap | src/agent/agent.rs:407-512 | whatever the configuration, in every state any run reaches, the user messages hold at most `max_images` markers, when each operation is tame: a text sent with vision closes up no new marker, one stored without vision names no image, stored turns are put back with no image but those that were judged, what the loop appends as user messages names none, and an adopted session is itself within the limit |
| ImageCap.StepCap | src/agent/agent.rs:407-512 | each tame operation keeps that bound |
| ImageCap.SentCount | src/agent/agent.rs:1116-1151 | for any message and dispatcher, with vision: it is sent only if the images that the provider sees of session and message are within the limit, and the user messages then hold exactly theirs, its own, and the ones its cleaned text closes up |
| ImageCap.SeenCount | src/agent/agent.rs:1116-1125 | the provider sees at least the images of the user messages, and with native tool calls no others |
| ImageCap.AdoptCount | src/agent/agent.rs:460-477 | adoption carries every image over, so the limit holds after it if and only if the other session is within it |
| Turns.PlaceholdersAreLines | src/agent/agent.rs:494-512 | a stored turn that cannot be prepared is its text, unless empty, then one placeholder line per reference, in order |
| ImageCap.PlaceholdersHoldNone | src/agent/agent.rs:494-512 | for any text and references, the placeholders hold no image if and only if the text, and every reference with the bracket that closes its placeholder, hold no markers but closed blank ones |
| ImageCap.PlaceholdersRead | src/agent/agent.rs:494-512 | for any test that no bracketed reference passes: all that placeholders read as passes if and only if the text, and every reference with its closing bracket, have all markers closed and all their references pass |
| ImageCap.TameIsClear | src/agent/agent.rs:494-512 | a refused stored turn is put back without an image if and only if it is tame: it names none, or its cleaned text and closed references hold no markers but closed blank ones |
| ImageCap.PlaceholderExample | src/agent/agent.rs:494-512 | `[IMAGE:x[IMAGE:y]` put back into a full session as a placeholder takes it over the limit by one, in every full session |
| StoredImages.RunSettled | src/agent/agent.rs:407-512 | whatever the configurations and with a new reader for each operation: in every state any run reaches, all that a provider sees of the session asks for nothing but data URIs, when each operation keeps that |
| StoredImages.StepSettled | src/agent/agent.rs:407-512 | an operation keeps that when, with vision, the text beside its images has all markers closed around data URIs or blanks, without vision the stored text asks for data URIs only, and so do nudges, results that are seen as user messages, stored turns put back, and an adopted session |
| StoredImages.StoredIsSettled | src/agent/agent.rs:1217-1224 | a prepared message asks for nothing that a reader without any of the files cannot give if and only if every marker of its cleaned text is closed and every reference of that text is a data URI itself |
| StoredImages.RefusedIsSettled | src/agent/agent.rs:494-512 | a stored turn that is put back as placeholders asks for nothing but data URIs if and only if it names no image, or its text and its references, closed by their brackets, have all markers closed around data URIs or blanks |
| StoredImages.AdoptSettled | src/agent/agent.rs:460-477 | an adopted session asks for nothing but data URIs if and only if it did before |
| StoredImages.SettledIsReadable | src/agent/agent.rs:1116-1137 | in such a session, a message whose own images can be read is refused if and only if the provider has vision and sees more images than the limit |
| StoredImages.NeverUnreadable | src/agent/agent.rs:1217-1224 | that holds after every run that keeps to data URIs, with either dispatcher, when every file read before is gone |
| StoredImages.TextIsSent | src/agent/agent.rs:1116-1151 | with vision and native tool calls, after every such run, a message without images is sent as it is if and only if the session is within the limit, whatever files are gone |
| StoredImages.TextIsAlwaysSent | src/agent/agent.rs:1116-1151 | so it is always sent after a run that is tame too |
| Blocked.LostImageBlocks | src/agent/agent.rs:1217-1224 | after the one turn `[IMAGE:a] [IMAGE:b`, every later message of the session is refused although no file was lost, if the image type of what was stored is allowed |
| Blocked.OverLimitRefuses | src/agent/agent.rs:1116-1137 | a session with more images than the limit refuses every message, text or not |
| Blocked.AdoptedOverLimit | src/agent/agent.rs:460-477 | a session over the new limit is adopted whole, after any runs of both agents, and every later message is refused |
| Blocked.LowerLimitBlocks | src/agent/agent.rs:460-477 | so for one turn with two images under a limit of two, adopted under a limit of one |
| Blocked.BlockedBy | src/agent/agent.rs:1116-1137 | one stored message that cannot be prepared again refuses every later one, as unreadable when the limit allows |
| Blocked.RawImageBlocks | src/agent/agent.rs:1117-1119 | an image named to a provider without vision is stored as named; adopted by an agent with vision that cannot read it, the session refuses every message |
| Clearing.ClearSplits | src/multimodal.rs:53-111 | a text, and one behind it on a new line that opens a bracket before it closes one, hold no reference together if and only if the first has only closed blank markers and the second has no reference |
| Clearing.GoodSplits | src/multimodal.rs:53-111 | for any test that no bracketed reference passes: all references of the two together pass if and only if all markers of the first are closed and all references of both pass alone |
| Clearing.ReferencesPast | src/multimodal.rs:53-111 | behind a text without a marker and a character that no marker prefix holds, a text reads as it does alone, reference by reference |
| Clearing.FallbackOpens | src/multimodal.rs:82-88 | a reference found by falling back to the first bracket holds an opening bracket itself, so it is never blank |
| Clearing.TrimKeepsCount | src/multimodal.rs:53-111 | trimming a text changes no reference count |
| Clearing.NoReferencesStay | src/multimodal.rs:105-111 | the cleaned text of a message without references is the trimmed message, and holds none either |
| ImageCap.ClosingExample | src/multimodal.rs:53-111 | `[IMA[IMAGE:x]GE:y]` counts as one image when it is judged and gains one when it is stored |
| Multimodal.ParseImageMarkers | src/multimodal.rs:53-111 | the cursor scan returns the trimmed copied pieces and the references of the removed ones, and always advances |
| Multimodal.ScanClose | src/multimodal.rs:62-88 | the bracket scan with its running depth, and its fallback to the first `]` |
| Multimodal.PiecesPartition | src/multimodal.rs:53-111 | the pieces are consecutive runs whose concatenation is the message, and each removed one is a whole marker around its trimmed, non-blank reference |
| Multimodal.ReadStep | src/multimodal.rs:57-103 | a message is read marker by marker: a reference is taken out with its marker, a blank marker is copied, and what follows is read on its own |
| Multimodal.ReadEnd | src/multimodal.rs:57-108 | without a marker prefix, or without a bracket behind it, all is copied |
| Multimodal.CloseAtBalance | src/multimodal.rs:67-81 | a bracket behind balanced text is the one that closes a marker |
| Multimodal.CloseElsewhere | src/multimodal.rs:82-88 | where there is none, it is the first bracket, if there is any |
| Multimodal.ComposeMultimodalMessage | src/multimodal.rs:273-292 | the composed message |
| Multimodal.ComposeIsLines | src/multimodal.rs:273-292 | the composed message is the trimmed text and a blank line, then one marker a line |
| Multimodal.ComposeParsesBack | src/multimodal.rs:53-292 | for non-blank, trimmed, bracket-balanced references, parsing the composed message gives back the trimmed text and the references in order, if and only if every marker in that text is closed and blank |
| Multimodal.QuietParses | src/multimodal.rs:53-111 | markers appended to such a text are read back and the text is copied |
| Multimodal.LoudMisreads | src/multimodal.rs:53-111 | markers appended to any other text are misread |
| Multimodal.CountAdds | src/multimodal.rs:53-292 | appending a run of markers to any text adds at least as many references, and exactly as many when they hold no brackets |
| Preparation.PrepareMessagesForProvider | src/multimodal.rs:215-271 | the limit is judged first, the first failing reference ends it, other roles and marker-free messages are kept |
| Preparation.PrepareIs | src/multimodal.rs:222-270 | a list over the limit is refused with both numbers, one without images is handed on, any other is prepared whole or fails |
| Preparation.PrepareAllIs | src/multimodal.rs:239-270 | message by message in order, or the first message with an unreadable image |
| Preparation.PrepareOneIs | src/multimodal.rs:241-264 | other roles and messages without images are kept; in the others every reference becomes what the reader gives for it, in its place behind the same cleaned text, or the first unreadable one is named |
| Preparation.CountLast | src/multimodal.rs:113-119 | the images of a list are the references of its user messages |
| Preparation.PreparedCount | src/multimodal.rs:215-292 | a prepared message holds its own images plus those its cleaned text reads as |
| Preparation.PreparedIsStable | src/agent/agent.rs:1217-1224 | preparing a stored message again changes nothing, when its cleaned text has no markers but closed blank ones and data URIs are left as they are |
| Preparation.StoredReadsBack | src/multimodal.rs:215-292 | a prepared message asks again for exactly the data URIs it stores if and only if every marker in the text beside them is closed and blank |
| Preparation.StoredImageIsLost | src/agent/agent.rs:1217-1224 | `[IMAGE:a] [IMAGE:b` is prepared once and can never be prepared again: its open marker takes in the stored data URI |
| Preparation.PrepareAllLast | src/agent/agent.rs:1129-1133 | the last message is prepared as it would be alone |
| Preparation.RedactedIsClear | src/multimodal.rs:121-161 | a redacted historic message counts no image if and only if every marker in its cleaned text is closed and blank |
| Preparation.RedactedSays | src/multimodal.rs:139-155 | a redacted message keeps its role and cleaned text and says how many images it had |
| Preparation.RedactAt | src/multimodal.rs:131-156 | every message but the last is redacted, in its place |
| Preparation.RedactLeavesLast | src/multimodal.rs:121-156 | then only the images of the last message are still counted |
| Preparation.RedactionCanLeaveAnImage | src/multimodal.rs:131-161 | `[IMAGE:a] [IMAGE:b` still counts as an image after redaction |
| ToolFrames.EscapeFrameAttr | src/agent/dispatcher.rs:42-56 | the loop escapes character by character |
| ToolFrames.UnescapeEscape | src/agent/dispatcher.rs:42-56 | un-escaping an escaped attribute gives the original |
| ToolFrames.EscapePlain | src/agent/dispatcher.rs:42-56 | an escaped value holds no `<`, `>` or quote |
| ToolFrames.TagIs | src/agent/dispatcher.rs:36-38 | the match finds exactly `<`, whitespace, perhaps a slash, whitespace, and the word in any case, and leaves what follows |
| ToolFrames.NeutraliseNeutral | src/agent/dispatcher.rs:32-40 | a neutralised output holds no frame tag in any case or spacing, whatever it was, even where one removed tag stands inside another |
| ToolFrames.NeutraliseFixpoint | src/agent/dispatcher.rs:32-40 | neutralising changes nothing if and only if the output holds no tag, and is idempotent: so it cannot be undone on an output that holds one |
| ToolFrames.NeutraliseRestores | src/agent/dispatcher.rs:32-40 | with every `&lt;` written out again, the neutralised text and the output are the same: nothing else is changed |
| ToolFrames.NeutraliseTakesTags | src/agent/dispatcher.rs:32-40 | the `<` that stay are exactly as many as open no tag at any place of the output |
| ToolFrames.FormatResults | src/agent/dispatcher.rs:121-134 | the user message with one frame per result |
| ToolFrames.ResultsReadBack | src/agent/dispatcher.rs:334-340 | for all names and outputs, the frame reader applied to the rendered text gives exactly one frame per result, in order, with its own attributes and neutralised body |
| ToolFrames.StoredResultsReadBack | src/agent/dispatcher.rs:159-183 | the same for stored results with call ids |
| ToolFrames.StoredResultsDecode | src/agent/dispatcher.rs:159-181 | reading the text of stored results gives, frame by frame, the call id and the neutralised content |
| ToolFrames.ResultsDecode | src/agent/dispatcher.rs:121-134 | reading it whole gives, frame by frame, the original name, the right status and the neutralised output |
| ToolFrames.AttrsReadBack | src/agent/dispatcher.rs:121-134 | the attribute text of a frame reads as its name and status |
| ToolFrames.NeutralNeverCloses | src/agent/dispatcher.rs:334-340 | a neutral body never closes the frame it is in: the lazy reader ends at the real closer |
| ToolCalls.ParseXmlToolCalls | src/agent/dispatcher.rs:59-108 | the loop over the rest of the text; every slice in bounds, every turn shortens the rest |
| ToolCalls.CloseAfterOpen | src/agent/dispatcher.rs:70-71 | a closer is never found inside its opener, so the block slice is in bounds |
| ToolCalls.Segments | src/agent/dispatcher.rs:59-108 | every text is segments and blocks, then a part with no whole block |
| ToolCalls.ParseClosed | src/agent/dispatcher.rs:59-108 | when every opener is closed: in order, the call of every block whose JSON has a non-empty string name, with its arguments or else the empty object; malformed and unnamed blocks give none; and the non-blank segments, trimmed and joined by newlines |
| ToolCalls.CallsReadBack | src/agent/dispatcher.rs:71-96 | calls written as blocks are read back: all of them, in order, with their names and arguments |
| ToolCalls.ParseUnclosed | src/agent/dispatcher.rs:65-105 | with an unclosed opener: the calls before it, and the text in front of it emitted, then again with the rest |
| ToolCalls.TextOnceIff | src/agent/dispatcher.rs:65-105 | no text is said twice if and only if the last opener is closed or only blank text precedes it |
| Prompt.BuildPrompt | src/agent/prompt.rs:206-217 | the prompt of the rendered sections |
| Prompt.BuildOne | src/agent/prompt.rs:206-217 | a section is its text without trailing whitespace and a blank line, or nothing when it is blank |
| Prompt.BuildAppend | src/agent/prompt.rs:206-217 | the sections of a prompt follow each other in order |
| Prompt.ReplaceSectionInto | src/agent/prompt.rs:602-625 | the replaced prompt |
| Prompt.FindHeadingIsFirst | src/agent/prompt.rs:590-600 | the heading found is the first line that is exactly it: skipping overlapping matches cannot skip one |
| Prompt.HeadingLineIs | src/agent/prompt.rs:592-600 | a heading line is the heading at the start or behind a newline, and at the end or in front of a newline of either kind |
| Prompt.ReplaceKeepsRest | src/agent/prompt.rs:602-625 | every prompt with the heading is whole lines without it, its section, and a rest that is empty or a `## ` line; only the section changes |
| Prompt.ReplaceMissing | src/agent/prompt.rs:602-608 | a prompt in which no line is exactly the heading is left unchanged |
| Prompt.ReplaceTwice | src/agent/prompt.rs:602-625 | a second replacement overwrites a first that is a section of its own |
| Prompt.ReplaceTwiceIff | src/agent/prompt.rs:602-625 | every second replacement overwrites the first if and only if that was a section of its own |
| Prompt.ReplacementsCommute | src/agent/prompt.rs:602-640 | replacements of two headings, each empty or a section of its own, commute if and only if neither removes a section that directly follows the other |
| Prompt.PersonaSafetyCommute | src/agent/prompt.rs:627-640 | that law for the persona and safety sections |
| Prompt.RemovalOrderShows | src/agent/prompt.rs:627-640 | a prompt on which the order of the two shows |
| Prompt.PersonalityIsNotPersona | src/agent/prompt.rs:590-600 | `## Personality` is never taken for `## Persona` |
| Prompt.SpliceIsRebuild | src/agent/prompt.rs:206-625 | splicing a new section into a built prompt gives the prompt a rebuild would give, if and only if the new section is non-blank and some later one is, or neither |
| Calendar.CivilIsTheCalendar | build.rs:157-169 | day 0 is 1970-01-01 and each day is followed by the next date under the leap-year rule, for all days before and after |
| Calendar.CivilCounts | build.rs:157-169 | every day gives a valid date whose day number is that day |
| Calendar.DayNumberInverts | build.rs:157-169 | every valid date comes back from its day number |
| Calendar.CivilMonotone | build.rs:157-169 | later days have later dates |
| Calendar.YearOfEra | build.rs:160-163 | the nested divisions find the year of the 400-year era that holds the day, so no unsigned subtraction goes below zero |
| Calendar.EraRange | build.rs:158-160 | the truncating division of the shifted day is the floor, for negative days too |
| Calendar.CastKeepsYear | build.rs:167 | the cast to 32 bits keeps the year if and only if the day lies between the first of the least and the last of the greatest such year |
| Timestamp.FormatReadsBack | build.rs:144-152 | before the year 10000 a timestamp has 20 characters and reads back as its second |
| Timestamp.ReadFormats | build.rs:144-152 | the only text that reads as a second is its timestamp |
| Timestamp.FormatLength | build.rs:144-169 | for every number of seconds: 20 characters if and only if the year, as cast to 32 bits, lies between -999 and 9999; where the cast keeps the year, if and only if before the year 10000 |
| Timestamp.StringOrderIsTimeOrder | build.rs:144-152 | timestamps compare as strings the way their seconds do |
| SessionGrants.GrantsAreTheTrace | src/approval/session_grants.rs:50-161 | after any sequence of lock steps, a getter returns exactly the names recorded for that session in that map since its last drop, less those turned away because the session held none and 1000 sessions did; all of it read off the trace alone |
| SessionGrants.GettersAreTheTrace | src/approval/session_grants.rs:50-108 | the three getters, each on its own map |
| SessionGrants.RecordsByMap | src/approval/session_grants.rs:64-149 | tools go to the tool map, a command, trimmed, to the map of its own risk, in addition to what the session has there, if there is room and neither is blank; the other two maps stay as they were |
| SessionGrants.KeysAreHolders | src/approval/session_grants.rs:27-39 | the sessions of a map are exactly those for which the trace has a grant that stands |
| SessionGrants.RunBounded | src/approval/session_grants.rs:20-161 | each map holds at most 1000 sessions, none blank and none without a grant |
| SessionGrants.KindsNeverMix | src/approval/session_grants.rs:27-39 | over every trace, each map is what the events of its own kind alone would make of it |
| SessionGrants.ClearLeavesNoOlderGrant | src/approval/session_grants.rs:151-155 | with the clear split into its three lock steps, and others between them, no grant recorded before it began survives its return |
| SessionGrants.ClearSparesOthers | src/approval/session_grants.rs:151-155 | after the three steps of a clear the session holds nothing of any kind, and every other session what it held |
| SessionGrants.SortedIsUnique | src/approval/session_grants.rs:60-61 | a sorted listing is determined by the set of names |
| SessionGrants.SortNames | src/approval/session_grants.rs:54-61 | exactly the names of the set, in strict order |
| SessionGrants.Store.Record | src/approval/session_grants.rs:133-149 | the session has the tools in addition, if there is room and it is not blank; the other two maps stay as they were |
| SessionGrants.Store.RecordCommandName | src/approval/session_grants.rs:64-82 | the same for a command, trimmed, in the command map alone |
| SessionGrants.Store.RecordMediumCommandName | src/approval/session_grants.rs:113-131 | the same for a medium-risk command in its own map alone |
| SessionGrants.Store.GrantedTools | src/approval/session_grants.rs:84-93 | the tools of the session, none for a blank one |
| SessionGrants.Store.GrantedCommands | src/approval/session_grants.rs:50-62 | exactly the commands of the session, sorted |
| SessionGrants.Store.GrantedMediumCommands | src/approval/session_grants.rs:96-108 | exactly the medium-risk commands of the session, sorted |
| SessionGrants.Store.Clear | src/approval/session_grants.rs:151-155 | the three drops, one after the other |
| SessionGrants.Store.ClearAll | src/approval/session_grants.rs:157-161 | an empty store |
| Identity.DedupeNonEmpty | src/identity.rs:652-667 | the loop de-duplicates |
| Identity.DedupeKeepsFirst | src/identity.rs:652-667 | the result is exactly the trimmed, non-blank values that repeat no earlier one ignoring ASCII case, in order, pairwise different |
| Identity.SameNameIff | src/identity.rs:659-662 | two names are the same if and only if they differ in ASCII case at most |
| Identity.DedupeTwice | src/identity.rs:652-667 | taking in a de-duplicated list is taking in the values themselves |
| Identity.ListOf | src/identity.rs:624-650 | the recursive extraction, ending on every nested value |
| Identity.ListIsOneDedupe | src/identity.rs:624-650 | the list of any nested value is one de-duplication of its flattened leaves: de-duplicating at the inner levels changes nothing |
| Identity.ArrayAsText | src/identity.rs:568-582 | an array reads as no text if and only if all its flattened leaves are blank, and otherwise as trimmed, non-blank text |
| Identity.AsText | src/identity.rs:568-582 | null is no text, an array its list, an object its parts, and any other value its scalar |
| Identity.ScalarIs | src/identity.rs:552-566 | a string is its trimmed text unless blank; numbers and booleans as printed; anything else is no scalar |
| Identity.ObjectGoesBy | src/identity.rs:633-641 | an object goes by its name, without one by its title, without either by its summary, and by nothing when that is empty |
| Identity.LookupIs | src/identity.rs:634-636 | a key finds the value of its first field |
| Identity.PartsAppend | src/identity.rs:594-622 | the parts of an object are those of its fields in order |
| Identity.PartsAlone | src/identity.rs:594-622 | a field gives nothing under a key with `@`, an object's parts under its label, and an array's list or a scalar behind its label |
| Identity.NestedLabel | src/identity.rs:594-622 | however deep a string is nested, its label is the keys on the way to it, with spaces for underscores |
| Identity.SpacedIs | src/identity.rs:600 | underscores become spaces and nothing else changes |
| Identity.ObjectSummary | src/identity.rs:584-592 | the summary of an object |
| Identity.IntoParts | src/identity.rs:594-622 | pushing into the shared vector appends exactly the parts of the object |
| Classifier.SortByPriority | src/agent/classifier.rs:16-17 | the stable sort by descending priority |
| Classifier.BestIsAhead | src/agent/classifier.rs:8-48 | the direct search finds the matching rule of highest priority, earliest in the configuration among ties |
| Classifier.FirstIsBest | src/agent/classifier.rs:19-45 | the first match in the stable order is that rule |
| Classifier.Classify | src/agent/classifier.rs:8-48 | the sorted scan returns the hint of the matching rule that goes before all other matching ones, and nothing if and only if the rules are off or none matches |
| Classifier.ClassifyModel | src/agent/agent.rs:1012-1020 | the hint of that rule is used exactly when it is available |
| Classifier.MatchesMeans | src/agent/classifier.rs:19-44 | a rule matches if and only if the message is within its length bounds and a keyword stands in it when both are lowered, or a pattern stands in it as it is |
| Classifier.KeywordsIgnoreCase | src/agent/classifier.rs:32-36 | keywords do not tell messages apart that lower to the same text |
| Classifier.PatternsHeedCase | src/agent/classifier.rs:37-41 | patterns do not depend on lower-casing at all |

## Left out

- JSON, regular expressions and Unicode lower-casing are functions or predicates: the frame reader spells out the two expressions it needs, `ToolCalls` takes the JSON reader as a parameter, `Classifier` the lower-casing.
- Fetching, reading and encoding an image is a function from reference to data URI or failure, another one for each operation of a run; a data URI is assumed to hold no brackets and no outer whitespace, as the code's fixed MIME list and base64 give. The MIME check of a prepared message is a predicate on each of its references. An `AgentState.Agent` has one reader in its configuration.
- The error text of a refused turn, the token ledger, events other than summary chunks, and the log lines.
- Memory recall: a turn starts from the already enriched message.
- The model's answers, tool execution and approval inside `run_structured_loop`: the rounds and the ending of the loop are any values; its own trimming of a plain message list is another code path and not modelled.
- `flatten_for_summary` and `build_side_request`: the rendering of the side request; the answer to it is any text or an error.
- The JSON encoders of native tool calls and results are functions of the entry; only their roles matter to what is proved.
- The wording, audience gating and file injection of prompt sections: a prompt is built from any rendered sections.
- The field-by-field normalisers and the rendering of `src/identity.rs`.
- `SessionGrants.Store.GrantedTools` gives a set where the code lists a hash set in no fixed order.
- `SessionGrants.Store.Clear` runs its three steps at once; the interleavings are those of `SessionGrants.ClearLeavesNoOlderGrant`. Lock poisoning does not arise with the locks used.
- `Classifier.SortByPriority` orders indices of the rules, where the code sorts a vector of references with the library's stable sort.
- `Runs.RunWellFormed`: for restores and reseeds whose system turns come first, because it fails without (`Runs.MiddleSystemTurnBreaks`).
- `ImageCap.RunCap`: for tame operations, because it fails without: `ImageCap.SentCount`, `ImageCap.TameIsClear` and `ImageCap.AdoptCount` say exactly what each adds, `ImageCap.ClosingExample`, `ImageCap.PlaceholderExample` and `Blocked.LowerLimitBlocks` that it does. It bounds the images of user messages; an XML provider also sees those of stored native results (`ImageCap.SeenCount`).
- `StoredImages.RunSettled`: for operations that keep to data URIs, because it fails without: `StoredImages.StoredIsSettled`, `StoredImages.RefusedIsSettled` and `StoredImages.AdoptSettled` are the exact conditions, `Blocked.LostImageBlocks` and `Blocked.RawImageBlocks` the failures.
- `StoredImages.TextIsSent`: for a provider with vision and native tool calls; with the XML dispatcher the limit is on all that the provider sees (`StoredImages.NeverUnreadable`), and without vision nothing is judged.
- `Turns.LoopContinues`: pairing is that of result entries; the XML dispatcher's results messages have `Turns.LoopPairsXml`.
- `Calendar.CivilCounts`: days are unbounded integers; the overflow of 64 bits near the ends of their range is not modelled, as the program divides an unsigned number of seconds by 86400 first.
- Strings are sequences of Unicode scalar values; all delimiters are ASCII, so slicing at them needs no bytes. Lengths in bytes are modelled where the code compares them.
- Command-line handling, processes, ports and the web interface.
