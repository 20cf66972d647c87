# Verified model of the voice agent's stateful core

This project models, in Dafny, the parts of the MAAV voice agent whose correctness
depends on how tasks interleave or on how a stream is cut, and proves what those
parts guarantee over every run, every interleaving and every cut.

| file | what it models |
|---|---|
| `Duplex.dfy`, `Converse.dfy`, `LoopMessages.dfy`, `PendingToken.dfy`, `Cancellation.dfy` | the full-duplex turn protocol of `/ws/converse`: the session object, and a step system with the orchestrator loop, the turn tasks and their think and speak subtasks; which message answers which event; the confirmation token handed from turn to turn; the cancellation token |
| `SarvamTts.dfy`, `SynthesisEnds.dfy`, `SarvamStt.dfy` | the two speech sockets: text pump beside receive loop over a first-in first-out server; one receive raced against the audio pump |
| `Text.dfy`, `Chunker.dfy`, `ChunkStream.dfy`, `ChunkTheorems.dfy`, `ChunkMeaning.dfy`, `MaskTheorem.dfy` | sentence and clause chunking of a reply, with number runs masked; what a chunk is, in terms of the characters alone |
| `MarkerDeletion.dfy`, `MarkerStream.dfy`, `OutputValidation.dfy`, `CleanText.dfy`, `TagStream.dfy`, `ReplyStream.dfy` | deletion of the tool-verified marker as a rewriting system, output validation whole and streamed, HTML tags over a stream, and the streamed reply from model deltas to displayed deltas |
| `ConfirmationGate.dfy`, `AgentLoop.dfy` | single-use confirmation tokens, the tool loop of one turn, and any number of turns on one gate |
| `HistoryCache.dfy`, `ThreadTurns.dfy`, `Router.dfy`, `RateLimiter.dfy`, `Sse.dfy`, `FailurePolicy.dfy` | conversation histories and the locked turns on them, provider fallback and cooldown, sliding windows, event framing, backoff and retry |
| `Options.dfy`, `Numbers.dfy` | what several modules share |

Concurrency is modelled by steps from one `await` to the next. A cancelled task passes
its cancellation on to the subtask it awaits, and that one may swallow it: go on, send
more and end in any way; only a task that awaits no running subtask is cancelled itself
at its next step. The model, the tools, the speech services, the clock, the
language checks and the network are parameters or arbitrary events: the theorems
hold whatever they do. Times are reals. SHA-256 is taken as injective, and random
tokens as never repeated.

Results that differ from a first reading of the code:

- Chunks do not depend on how a reply was cut, except that a delta ending right after
  the decimal point of a number splits it: `CutsMatterOnlyInDecimals` is an
  equivalence.
- `marker_safe_split` shows exactly the one-pass deletion of the whole text on every
  cut if and only if that deletion leaves no marker: `SplitRefinesDeletion`. Both have a
  failing cut: `CutDecimalChangesChunks` and `NestedToolMarker`.
- Unmasking a number-masked text is not always its inverse; `UnmaskUndoesMaskExactly`
  says for which texts it is, and `UnmaskNeedsNulFree` gives one for which it is not.
- A stream shows no HTML tag as long as no call releases an unclosed `<`
  (`StreamShowsNoTag`), and that is the exact guard of every call: once one is out, some
  delta makes a tag of it (`SafeExactly`; the tail must hold no marker). An unclosed `<`
  that stands alone is never released (`OneOpenIsHeld`); of two, the first can be
  (`TwoOpenShowTag`).
- Whether a reply falls back to the tool loop depends on how it was cut, unless an
  attempt shows in its first 200 characters or nowhere: `SniffIgnoresCutsExactly`.
- Turns on one conversation thread run one at a time exactly as long as the thread is not
  evicted from the cache while one of its turns holds or awaits the lock
  (`TurnsAreSerialised`, `SerialisedExactly`); `EvictedWhileRunning` is a run in which it
  is.
- A session is left busy exactly when a turn is ended short of `finish_turn` in an
  active session and no `speech_start` comes after (`StrandsExactly`,
  `StrandedExactly`); `RaisingTurnStrands` is a run in which a backend exception does it.
- One `speech_start` always ends in a fresh token, no registered task and one event. It
  ends in LISTENING unless the interrupted turn swallowed its cancellation while
  thinking and then died while speaking: `SpeechStartRecovers` is an equivalence,
  `SwallowedCancelStrands` such a run. `call_backend_chat`
  (`backend/agent_core/speech_gateway/backend_client.py:97-109`) catches no
  cancellation, and then LISTENING is certain (`HonouredCancelRecovers`).
- At teardown an older turn may still be sending its `turn_complete`, and that is the
  only task that can be left (`ClosedMeansDone`, with the run `ClosedWhileSending`).
- `CancellationToken.run` raises `TurnCancelled` exactly if the call has not ended when
  it resumes, so a token that fired first can still lose (`RaceDecides`,
  `FiredTokenMayLose`); it leaves its call running exactly if its own task is cancelled
  from outside during the race (`LeftRunningExactly`, `OutsideCancelLeavesCall`).
- The repository's README.md, lines 108 to 122, says the full-duplex endpoint is not
  wired; the code wires it at `backend/agent_core/speech_gateway/main.py:476`, and the
  model follows the code.

`dafny verify dfyconfig.toml` checks the whole project.

## Model

| member | source | states |
|---|---|---|
| Duplex.SessionStateMachine.BargeIn | backend/agent_core/supervisor/session_state_machine.py:29-37 | any phase goes to LISTENING, and the answer says whether something was in progress |
| Duplex.DuplexSession.RegisterTurnTask | backend/agent_core/speech_gateway/duplex_session.py:48-53 | the whole-turn task is registered and nothing else changes |
| Duplex.DuplexSession.StartThinkingTask | backend/agent_core/speech_gateway/duplex_session.py:55-57 | THINKING with the think task registered, nothing else changed |
| Duplex.DuplexSession.StartSpeakingTask | backend/agent_core/speech_gateway/duplex_session.py:59-61 | SPEAKING with the speak task registered, nothing else changed |
| Duplex.DuplexSession.Finish | backend/agent_core/speech_gateway/duplex_session.py:63-69 | idle session with a fresh token and no event recorded |
| Duplex.DuplexSession.SpeechStartBegin | backend/agent_core/speech_gateway/duplex_session.py:71-79 | an idle session is left as it is; an active one goes to LISTENING with its token fired |
| Duplex.DuplexSession.SpeechStartEnd | backend/agent_core/speech_gateway/duplex_session.py:92-97 | no task registered, a fresh token, exactly one more event |
| Cancellation.CheckRaisesExactly | backend/agent_core/agents/cancellation.py:24-36 | in every run a call of `check` raises if and only if somebody cancelled the token before it |
| Cancellation.NothingLeftRunning | backend/agent_core/agents/cancellation.py:38-58 | over every run: a result is the call's own, TurnCancelled only after the token fired and the call stopped, and a call that outlives `run` has not been asked to stop |
| Cancellation.LeftRunningExactly | backend/agent_core/agents/cancellation.py:46-58 | the step that ends `run` leaves the call running if and only if it is an outside cancellation that hits the race while the call runs |
| Cancellation.RaceDecides | backend/agent_core/agents/cancellation.py:44-58 | over every run whose race is woken: TurnCancelled if and only if the token has fired and the call has not ended at that wake, otherwise the call's own result, also when the token fired first |
| Cancellation.FiredTokenMayLose | backend/agent_core/agents/cancellation.py:47-50 | a run in which the token fires first and the call's result is returned |
| Cancellation.OutsideCancelLeavesCall | backend/agent_core/agents/cancellation.py:44-50 | a run in which an outside cancellation leaves the call running although the token fired |
| Converse.StepKeepsInv | backend/agent_core/speech_gateway/main.py:580-729 | every step of loop, turn and subtasks keeps the protocol invariant |
| Converse.RunKeepsInv | backend/agent_core/speech_gateway/main.py:613-729 | so does every run |
| LoopMessages.LoopAnswersEvents | backend/agent_core/speech_gateway/main.py:668-716 | over every run the loop has sent, in order, what the events it took call for in the phase they were taken in: a question back for an unsure final transcript, `transcript_final` for a sure one, an error for an error, `barge_in_detected` for a `speech_start` in an active phase; nothing is missing while it waits; and there is one turn for every sure transcript and one barge-in event for every such `speech_start` |
| LoopMessages.OtherEventsChangeNothing | backend/agent_core/speech_gateway/main.py:668-689 | an event that calls for no message changes nothing, except that the end of the stream ends the loop |
| LoopMessages.ClosingTakesNothing | backend/agent_core/speech_gateway/main.py:717-729 | after that no event is taken any more |
| LoopMessages.CancelReachesTheTask | backend/agent_core/speech_gateway/main.py:676-729 | a barge-in, and the teardown, ask the newest turn to stop unless it has ended: the subtask it runs, or, if it runs none, the turn itself, and no other turn |
| LoopMessages.TurnsSayWhatIsTrue | backend/agent_core/speech_gateway/main.py:613-666 | in every reachable state an error was reported only by a turn whose backend call failed, a text means a reply or follows such an error, completion means the speech returned, and a turn that is past a message has sent it |
| LoopMessages.SpeechIsSent | backend/agent_core/speech_gateway/main.py:592-611 | of every turn the log holds exactly the audio and the text-only signals its speak task gave, in order |
| LoopMessages.PhaseTellsTheTurn | backend/agent_core/speech_gateway/duplex_session.py:48-61 | in every reachable state an unfinished turn thinks under THINKING and speaks under SPEAKING, with exactly its own tasks registered; the phase can lag only while a barge-in waits for it |
| LoopMessages.TokenTellsTheBargeIn | backend/agent_core/speech_gateway/duplex_session.py:63-97 | in every reachable state the session's token is cancelled if and only if a barge-in waits for a turn that is still registered |
| Converse.OneTurnAtATime | backend/agent_core/speech_gateway/main.py:688-716 | in every reachable state at most one turn is short of `finish_turn`, and it is the registered one |
| Converse.OneVoiceAtATime | backend/agent_core/speech_gateway/main.py:613-666 | no two think or speak tasks run at once, in one turn or in two |
| Converse.SilenceAfterBargeIn | backend/agent_core/speech_gateway/main.py:676-679 | once `barge_in_detected` is sent for a turn, that turn has ended and never sends anything again, also if its subtasks swallowed their cancellation |
| Converse.SecondLayerNeverWaits | backend/agent_core/speech_gateway/duplex_session.py:80-90 | cancelling the turn task always suffices: the two further cancellations never have to wait |
| Converse.TurnSpeaksInOrder | backend/agent_core/speech_gateway/main.py:613-666 | a turn's messages come in the order error, text, audio, completion, each once but for audio, and nothing is spoken before its text was shown |
| Converse.CancelsToBargeIn | backend/agent_core/speech_gateway/duplex_session.py:71-97 | whatever runs while a barge-in waits for its victim, it ends about to report that victim, in the session that the victim's end determines |
| Converse.SpeechStartRecovers | backend/agent_core/speech_gateway/duplex_session.py:71-97 | from any reachable state one `speech_start` leaves an idle session alone and brings an active one to no task, fresh token, one more event; to LISTENING if and only if the victim did not think on in spite of its cancellation and die speaking |
| Converse.HonouredCancelRecovers | backend/agent_core/speech_gateway/backend_client.py:97-109 | when the backend call honours its cancellation, one `speech_start` always ends in LISTENING, whatever the speak task does |
| Converse.SwallowedCancelStrands | backend/agent_core/speech_gateway/duplex_session.py:71-97 | a run in which a barge-in leaves a busy session behind |
| Converse.BargeInProgresses | backend/agent_core/speech_gateway/duplex_session.py:99-109 | a barge-in's next step is always enabled and brings it closer to its end; no other step sets it back |
| Converse.StrandsExactly | backend/agent_core/speech_gateway/main.py:613-666 | a step strands a session if and only if it ends a turn short of `finish_turn` while the session is active; outside a cancellation that is a raising send, a think task with neither reply nor BackendChatError, or a speak task that does not return |
| Converse.StrandedExactly | backend/agent_core/speech_gateway/main.py:613-716 | a run leaves the session stranded if and only if some step of it did so and no `speech_start` was taken after |
| Converse.StrandedUntilSpeechStart | backend/agent_core/speech_gateway/main.py:688-689 | a session left busy without a turn ignores everything but a `speech_start`, which frees it |
| Converse.RaisingTurnStrands | backend/agent_core/speech_gateway/main.py:618-622 | a run in which an uncaught backend exception leaves the session busy |
| Converse.ClosedMeansDone | backend/agent_core/speech_gateway/main.py:719-729 | when the socket is closed every task is done if and only if no older turn was still sending `turn_complete` |
| Converse.ClosedWhileSending | backend/agent_core/speech_gateway/main.py:665-666 | a run to the closed socket in which the first of two turns is still sending it |
| PendingToken.ThinkSendsLatestAnswer | backend/agent_core/speech_gateway/main.py:580-590 | over every run, what a think task sends, at any moment while it thinks, is the token of the latest turn before it that was answered, or none |
| PendingToken.AnsweredMeans | backend/agent_core/speech_gateway/main.py:618-628 | only a turn with a reply, or the apology, counts as answered, with the token of that reply; and every turn does that has shown its text |
| PendingToken.NextThinkSends | backend/agent_core/speech_gateway/main.py:616-628 | after an interruption: if the turn before had shown its text its own reply decides, and if its think task gave none the same token is sent again |
| SarvamTts.StepKeepsInv | backend/agent_core/speech/sarvam_tts.py:221-322 | every step of pump, server and receive loop keeps flushes, finals and audio accounted for |
| SarvamTts.FinalsNeverExceedFlushes | backend/agent_core/speech/sarvam_tts.py:221-264 | in every interleaving a final answers a flush already counted |
| SarvamTts.AudioIsAPrefix | backend/agent_core/speech/sarvam_tts.py:291-293 | what was yielded is always a prefix of the audio of all chunks in order |
| SarvamTts.FinishedMeansEverything | backend/agent_core/speech/sarvam_tts.py:263-322 | `synthesize` ends without raising only after all audio of all chunks, with timeouts firing at any time |
| SynthesisEnds.EndsExactly | backend/agent_core/speech/sarvam_tts.py:263-317 | in every reachable state a step ends the loop well if and only if the text has ended, all flushes have been answered and no send failed; it raises if and only if they were answered and a send failed, or the service reports an error or closes |
| SynthesisEnds.RaisesOnlyForAFailure | backend/agent_core/speech/sarvam_tts.py:221-317 | a run raises only if the pump failed, the service reported an error, or the connection closed |
| SynthesisEnds.EveryVoiceFinishes | backend/agent_core/speech/sarvam_tts.py:221-317 | every text has a run that ends well, and it yields all its audio |
| SynthesisEnds.AudioExactly | backend/agent_core/speech/sarvam_tts.py:221-293 | all the audio of a text is, chunk by chunk in order, that of its chunks |
| SarvamTts.LostFlushNeverFinishes | backend/agent_core/speech/sarvam_tts.py:247-252 | when a counted flush was never sent, only an error or a closed connection can end the loop |
| SarvamStt.StepKeepsInv | backend/agent_core/speech/sarvam_stt.py:145-204 | every step of the race between receive and audio pump keeps the receive and message invariants |
| SarvamStt.SingleReader | backend/agent_core/speech/sarvam_stt.py:156-194 | at most one receive is ever in flight, and none when the loop goes round or ends |
| SarvamStt.EveryMessageOnce | backend/agent_core/speech/sarvam_stt.py:194-250 | every message read is translated and yielded once, in arrival order, and none is lost |
| SarvamStt.EventsSayMessages | backend/agent_core/speech/sarvam_stt.py:210-250 | in every run what was yielded is one event for each handled message that means something, and the one it means; a reason that is missing is reported as unknown |
| SarvamStt.GivesUpOnlyAfterAudio | backend/agent_core/speech/sarvam_stt.py:158-206 | the loop times out only after the audio has ended; otherwise only the socket ends it |
| SarvamStt.EndsExactly | backend/agent_core/speech/sarvam_stt.py:156-208 | in every run the stream has timed out if and only if a time-out was taken, which comes only after the audio has ended; it ends cleanly or with an error only as the socket was closed; and after that it reads no more |
| SarvamStt.BoundedExactly | backend/agent_core/speech/sarvam_stt.py:157-194 | a receive is begun without a bound exactly as long as the audio has not ended, and one that the end of the audio overtakes is given up and begun again |
| ChunkStream.MaskNumberRuns | backend/agent_core/speech/chunker.py:40-50 | the loop produces the spelled units of the text and its number runs |
| ChunkStream.UnmaskNumberRuns | backend/agent_core/speech/chunker.py:53-56 | one replacement per run, in order |
| Chunker.UnmaskUndoesMask | backend/agent_core/speech/chunker.py:40-56 | unmasking undoes masking on NUL-free text |
| MaskTheorem.UnmaskNeedsNulFree | backend/agent_core/speech/chunker.py:53-56 | a text with NULs that unmasking does not restore |
| MaskTheorem.UnmaskUndoesMaskExactly | backend/agent_core/speech/chunker.py:40-56 | for every text, unmasking restores it if and only if no run's placeholder is spelled out in the text before that run with a NUL appended |
| Chunker.MaskedCut | backend/agent_core/speech/chunker.py:86-92 | searching the masked text and unmasking both halves cuts the text itself at its first end mark outside numbers |
| ChunkStream.TakeSentence | backend/agent_core/speech/chunker.py:86-92 | the halves of the masked buffer, unmasked; on NUL-free text the two parts of the buffer itself, which shrinks |
| Chunker.SplitIntoClausesIsClauses | backend/agent_core/speech/chunker.py:59-64 | splitting the masked sentence and unmasking the pieces gives the clauses of the sentence itself: no number is cut |
| Chunker.FinalizeKeeps | backend/agent_core/speech/chunker.py:67-71 | finalizing a sentence keeps its content up to whitespace and commas |
| ChunkStream.ChunkStream | backend/agent_core/speech/chunker.py:74-113 | the loop over deltas yields exactly the specified chunks, also when the deltas end in an exception |
| ChunkTheorems.ChunksKeepContent | backend/agent_core/speech/chunker.py:74-113 | for every sequence of NUL-free deltas the chunks in order are the reply, up to whitespace and commas |
| ChunkTheorems.SentenceStable | backend/agent_core/speech/chunker.py:85-92 | a sentence found in a prefix is the sentence of the whole, unless its end mark is a cut-off decimal point |
| ChunkTheorems.CutsMatterOnlyInDecimals | backend/agent_core/speech/chunker.py:74-113 | the chunks equal those of the whole reply in one delta if and only if no cut falls right after the decimal point of a number |
| ChunkTheorems.CutDecimalChangesChunks | backend/agent_core/speech/chunker.py:85-92 | such a cut of "3.1", and that its chunks differ |
| ChunkMeaning.RunExactly | backend/agent_core/speech/chunker.py:30-34 | a number run is the longest number at its place: a sign or none, a digit, digits and commas, and a point with digits or none |
| ChunkMeaning.SentenceExactly | backend/agent_core/speech/chunker.py:24-92 | the first sentence ends right after the first full stop or other end mark that lies in no number, and there is none if there is no such mark |
| ChunkMeaning.ClausesExactly | backend/agent_core/speech/chunker.py:28-64 | the clauses of a text are what is left of it between the commas outside numbers and the whitespace that leads to a conjunction, trimmed, without the blank ones |
| ChunkMeaning.WordsExactly | backend/agent_core/speech/chunker.py:68-96 | a text is its words with whitespace around and between them, and no other words are |
| ChunkMeaning.JoinExactly | backend/agent_core/speech/chunker.py:100-101 | joined words have one space between them |
| ChunkMeaning.StripExactly | backend/agent_core/speech/chunker.py:70-110 | trimming takes whitespace only, and all of it at both ends |
| ChunkMeaning.DeltaExactly | backend/agent_core/speech/chunker.py:82-108 | whatever was held, one delta makes every sentence it completes be said at once, in order: whole up to 25 words, else by clauses, and of a first sentence of more than 10 words these ten first; only what follows the last sentence is held |
| ChunkMeaning.ReplyExactly | backend/agent_core/speech/chunker.py:74-113 | a reply that is not cut after a decimal point is said sentence by sentence of the whole, and its rest at the end |
| MarkerDeletion.DeleteSnoc | backend/agent_core/security/output_validation.py:141 | how one-pass deletion grows by a character: appended, or a whole marker taken back |
| MarkerDeletion.DeleteErases | backend/agent_core/security/output_validation.py:141 | one pass only deletes complete markers |
| MarkerDeletion.NormalForm | backend/agent_core/security/output_validation.py:121-145 | deleting complete markers is confluent: every order that leaves none ends in the same normal form, which is reachable |
| MarkerStream.SplitOnlyErases | backend/agent_core/security/output_validation.py:121-145 | for every cut, what is shown comes from the text by deleting complete markers only, and has its normal form |
| MarkerStream.CleanDeletionIsStreamed | backend/agent_core/security/output_validation.py:121-145 | if one pass over the whole text leaves no marker, every cut shows exactly that |
| MarkerStream.SplitRefinesDeletion | backend/agent_core/security/output_validation.py:121-145 | every cut shows the one-pass deletion if and only if that deletion leaves no marker |
| MarkerStream.NestedMarkerNeedsCare | backend/agent_core/security/output_validation.py:121-145 | for a marker inside a marker one pass leaves the marker, and one cut shows nothing |
| OutputValidation.NestedToolMarker | backend/agent_core/security/output_validation.py:121-145 | two such cuts of one text with the tool-verified marker |
| OutputValidation.MarkerHeadOnce | backend/agent_core/tools/rag_tool.py:63 | the marker's first character occurs in it only once, and no angle bracket does |
| CleanText.LeftExactly | backend/agent_core/security/output_validation.py:17-47 | what cleaning leaves is the text without script elements, then without tags, then without markers, each given by its form, found from the left and as short as it can be |
| CleanText.SanitizeExactly | backend/agent_core/security/output_validation.py:42-51 | a reply is refused if and only if one of the two headings occurs in it; else it is what cleaning leaves, with one newline for several, trimmed |
| CleanText.ScreenExactly | backend/agent_core/security/output_validation.py:100-118 | one call on a stream leaks if and only if a heading occurs in what cleaning leaves of the buffer; else it releases all of that but the last 54 characters, or all from an open `<` on if that is more |
| OutputValidation.SanitizedHasNoTag | backend/agent_core/security/output_validation.py:42-51 | a sanitized reply matches the HTML tag pattern nowhere, whatever the model wrote |
| OutputValidation.ScreenedHasNoTag | backend/agent_core/security/output_validation.py:100-118 | nor does what one call of the streaming form releases and keeps |
| TagStream.StreamShowsNoTag | backend/agent_core/security/output_validation.py:100-118 | nor does all that a whole stream shows and holds, for every cut, as long as no call releases an unclosed `<` |
| TagStream.SafeExactly | backend/agent_core/security/output_validation.py:109-118 | a call that passes keeps a safe stream safe from every next delta if and only if it releases no unclosed `<`, when its tail holds no marker |
| TagStream.OneOpenIsHeld | backend/agent_core/security/output_validation.py:109-118 | an unclosed `<` that stands alone is never released |
| TagStream.TwoOpenShowTag | backend/agent_core/security/output_validation.py:109-118 | a stream with two unclosed `<` in one call, of which the first is released and becomes a shown tag |
| OutputValidation.StreamRefusesAsWhole | backend/agent_core/security/output_validation.py:100-118 | on text without `<` and marker, for every cut: stopped if and only if sanitizing the consumed text would refuse, and otherwise everything read is shown or held |
| OutputValidation.LeakStopsAtOnce | backend/agent_core/security/output_validation.py:105-106 | the stream stops at exactly the delta that completes a leak phrase; what was shown before is a phrase-free prefix, and only the refusal follows |
| ReplyStream.SniffAndForward | backend/agent_core/agents/task_agent.py:546-572 | the loop decides on the first deltas that hold 200 characters and forwards the rest unchanged |
| ReplyStream.SniffExactly | backend/agent_core/agents/task_agent.py:532-572 | the deltas are held until they come to 200 characters or are all; then the reply falls back if and only if the prefix or a tool's name with a colon occurs in what is held, and is forwarded unchanged if not; a stream that fails before gives nothing |
| ReplyStream.SniffCatches | backend/agent_core/agents/task_agent.py:532-572 | for every cut, an attempt in the first 200 characters is caught before anything is forwarded, a caught one is real, and otherwise the whole reply is forwarded |
| ReplyStream.SniffIgnoresCutsExactly | backend/agent_core/agents/task_agent.py:546-572 | all cuts of a reply are sniffed alike if and only if an attempt shows in its first 200 characters or nowhere in it |
| ReplyStream.ReplyLoop | backend/agent_core/agents/task_agent.py:644-674 | the chunk loop with its two early exits computes the specified run |
| ReplyStream.StreamTurn | backend/agent_core/agents/task_agent.py:628-770 | sniffing, chunking, screening, final flush and correction together give the specified outcome, also when the provider fails midway |
| ReplyStream.ReplyEndsExactly | backend/agent_core/agents/task_agent.py:644-770 | how a reply ends, with the first violation or leak: it falls back if and only if an attempt was sniffed; a provider error if and only if the stream fails and neither was found, and then exactly what the screen released of its whole sentences was shown, and nothing held; a violation shows the correction alone, a leak ends with the refusal, and otherwise all that was held is shown last |
| ReplyStream.WholeReplyIsShown | backend/agent_core/agents/task_agent.py:644-685 | without tool call, violation or failure, and with clean chunks, the shown deltas are exactly the chunks and the model's reply up to whitespace and commas |
| ReplyStream.ViolationShowsOnlyCorrection | backend/agent_core/agents/task_agent.py:645-662 | of a reply caught in the wrong language nothing is shown but the correction |
| ReplyStream.ReplyIgnoresCuts | backend/agent_core/agents/task_agent.py:546-685 | two cuts of one reply, neither right after a decimal point, show the same deltas and end the same way, if an attempt shows in the first 200 characters or nowhere |
| ConfirmationGate.ConfirmationGate.EvictExpired | backend/agent_core/security/confirmation.py:71-75 | exactly the unexpired tokens stay |
| ConfirmationGate.ConfirmationGate.RequestConfirmation | backend/agent_core/security/confirmation.py:77-87 | the table stays the one of the calls made so far |
| ConfirmationGate.RequestKeepsExactly | backend/agent_core/security/confirmation.py:71-87 | over any history, a request keeps an older token if and only if it has not expired, and adds the new one for its action and time |
| ConfirmationGate.ConfirmationGate.Consume | backend/agent_core/security/confirmation.py:109-120 | a granted token is gone; a failed consume leaves every unexpired token as it was |
| ConfirmationGate.GrantedExactly | backend/agent_core/security/confirmation.py:89-120 | over any history of calls, a consume is granted if and only if the token was issued for this tool and arguments, has not expired, and was not redeemed since |
| ConfirmationGate.RedeemsIssue | backend/agent_core/security/confirmation.py:109-120 | every redemption belongs to an earlier issue of the same action, before its expiry |
| ConfirmationGate.RedeemedOnce | backend/agent_core/security/confirmation.py:109-120 | no token is redeemed twice |
| AgentLoop.PlainTextMessages | backend/agent_core/agents/task_agent.py:370-393 | same length, no tool shapes; plain messages are kept, a tool's result becomes the user's words, an answer with calls its text or a note |
| AgentLoop.DispatchCalls | backend/agent_core/agents/task_agent.py:959-1028 | calls run in order until the budget or a missing confirmation stops them; every gated call that runs redeemed the turn's token for it, whatever other turns do to the gate in between, and a confirmation is asked for only after the turn's own token, if it has one, was refused |
| AgentLoop.CheckDraft | backend/agent_core/agents/task_agent.py:1059-1144 | stopped if and only if a check or the correction was cancelled; else final, with the model's draft or the answered correction, which was asked for with the conversation, the draft and the violation in plain words; it counts as checked if and only if no violation was found or the second check passed |
| AgentLoop.RunTurn | backend/agent_core/agents/task_agent.py:895-1144 | terminates against any model within the budget of generation and tool calls, and says why it ended, by the last answer: apology if and only if it failed, stopped if and only if it, its tools or its check was cancelled, an answer without calls ends final with its checked draft, one with calls by the budget or for a confirmation; dispatches the model's calls in order without skipping, sends exactly the specified conversation, and runs gated calls only by grants of its own, while other turns use the same gate |
| AgentLoop.FirstCallIsTold | backend/agent_core/agents/task_agent.py:901-925 | the first generation call is told the history and the message |
| AgentLoop.NextCallIsTold | backend/agent_core/agents/task_agent.py:943-1035 | the next one is told the answer and, for each of its calls, the result that tool gave for this call, under its id and name if the calls were native, as the user's words if not |
| AgentLoop.NativeCallsFirst | backend/agent_core/agents/task_agent.py:943-950 | an answer's calls are its native ones, and only if it has none the one written in its text |
| AgentLoop.ConversationIsPaired | backend/agent_core/agents/task_agent.py:945-1028 | answers and results added so far pair up |
| AgentLoop.PairedAt | backend/agent_core/agents/task_agent.py:945-1028 | in a paired conversation every native call message is followed by exactly its results, same ids, in order |
| AgentLoop.GenerationsArePaired | backend/agent_core/agents/task_agent.py:913-1028 | every generation call of every turn sees a paired conversation |
| AgentLoop.OneGatedCall | backend/agent_core/agents/task_agent.py:985-1009 | with fresh tokens a turn runs at most one gated call, whatever other turns do to the gate |
| AgentLoop.VoiceWriteWasConfirmed | backend/agent_core/agents/task_agent.py:985-1009 | a write-scope call a voice turn ran is its only one, redeemed with a token issued before for the same tool and arguments, in time |
| AgentLoop.WritesInjectIntoIssues | backend/agent_core/api/main.py:189-191 | over any number of turns interleaving on the one gate: two write-scope calls that ran were in different turns, let through by different grants of different tokens from different issues |
| HistoryCache.StreamHistory.Get | backend/agent_core/api/main.py:168-176 | gives the stored history; a hit moves the key to the end, a miss changes nothing |
| HistoryCache.StreamHistory.LockFor | backend/agent_core/api/main.py:443 | the lock of a key is the one in the dictionary, a new one if there is none |
| HistoryCache.StreamHistory.Set | backend/agent_core/api/main.py:179-188 | stores under the key, now last, and drops the first key, with its lock, when there are more than 1000 |
| HistoryCache.PresentExactly | backend/agent_core/api/main.py:168-188 | a key is cached if and only if it was ever set and fewer than 1000 other keys were touched since it was |
| HistoryCache.OrderIsRecency | backend/agent_core/api/main.py:168-188 | the order is that of the last touches, at most 1000 keys long |
| HistoryCache.MessagesExactly | backend/agent_core/api/main.py:465-488 | turn by turn a history holds the question as the user's message and then the answer as the assistant's, with the marker on a line of its own if and only if tools backed it |
| HistoryCache.LastAreWholePairs | backend/agent_core/api/main.py:483-488 | the last 20 messages are the last ten turns in whole pairs |
| ThreadTurns.StepKeepsLocked | backend/agent_core/api/main.py:443-488 | in every step a lock belongs to one key, and who runs under it came first |
| ThreadTurns.TurnsAreSerialised | backend/agent_core/api/main.py:443-488 | in every run that does not evict a key while one of its turns holds or awaits a lock, its turns run one at a time |
| ThreadTurns.SerialisedExactly | backend/agent_core/api/main.py:186-188 | an event makes it possible that two turns of the key run at once later if and only if it is such an eviction |
| ThreadTurns.EvictedWhileRunning | backend/agent_core/api/main.py:186-188 | a run, over 1000 other threads, in which a thread is evicted while its turn runs and two of its turns run at once |
| ThreadTurns.StepKeepsFaithful | backend/agent_core/api/main.py:444-488 | while its turns run one at a time, every step keeps the key's history equal to the last 20 messages of its remembered turns |
| ThreadTurns.TurnSeesItsThread | backend/agent_core/api/main.py:443-488 | in every such run a turn works with the last ten remembered turns of its thread since it was last absent |
| HistoryCache.GraphAgrees | backend/agent_core/supervisor/graph.py:131-148 | the graph's rule gives the same history for the same turns, failed ones included |
| Router.UsableMembers | backend/agent_core/llm_adapter/base.py:178-184 | the providers not cooling down, in order of preference, or all of them; never none of some |
| Router.LLMRouter.CompleteWithFallback | backend/agent_core/llm_adapter/base.py:190-261 | the loop over providers is the specified walk |
| Router.LLMRouter.StreamWithFallback | backend/agent_core/llm_adapter/base.py:263-308 | so is the streaming loop, chunk by chunk |
| Router.StreamsFromOneProvider | backend/agent_core/llm_adapter/base.py:263-308 | the stream is one provider's own, unspliced; those called before failed retriably without a chunk, in order; a router with a provider calls one |
| Router.CompletesFromOneProvider | backend/agent_core/llm_adapter/base.py:190-261 | a completion is one provider's own; those called before failed retriably, in order; it stops at the first that does not, with its result or its error |
| Router.RememberedExactly | backend/agent_core/llm_adapter/base.py:186-188 | over any history of calls with a monotone clock the table holds a name if and only if a provider of that name was called and replaced because of a 429, until 30 seconds after the latest such attempt |
| Router.CooldownIsKept | backend/agent_core/llm_adapter/base.py:172-188 | over any such history, a call may use a provider if and only if its name was not limited in the last 30 seconds, or every name was |
| RateLimiter.SlidingWindowRateLimiter.Allow | backend/agent_core/security/rate_limit.py:72-89 | decision and new table of one call |
| RateLimiter.RefusedExactly | backend/agent_core/security/rate_limit.py:72-89 | a request is refused if and only if the accepted hits in the closed window up to now reach the limit |
| RateLimiter.NeverMoreThanAllowed | backend/agent_core/security/rate_limit.py:72-89 | no closed window of the given length ever holds more accepted hits of a key than the limit |
| RateLimiter.TableIsTidy | backend/agent_core/security/rate_limit.py:80-89 | every stored deque is non-empty and sorted |
| RateLimiter.RedisRefusedExactly | backend/agent_core/security/rate_limit.py:53-70 | Redis decides by the same rule over the half-open window, and its key expiry never changes a decision |
| RateLimiter.RedisNeverMoreThanAllowed | backend/agent_core/security/rate_limit.py:53-70 | and no half-open window holds more than the limit |
| Sse.StreamChatMessage | frontend/src/api/chatClient.js:69-97 | the read loop delivers what the specification of the reads says |
| Sse.FragmentsDoNotMatter | frontend/src/api/chatClient.js:69-97 | for every stream and every fragmentation, delivery is that of the stream read in one piece |
| Sse.BlocksExactly | frontend/src/api/chatClient.js:69-97 | whatever blocks of lines a stream is made of, and however it is fragmented, delivered is, line by line, the trimmed data of every data line whose data parse, and of no other; what follows the last block is kept |
| Sse.DeliveredExactly | frontend/src/api/chatClient.js:69-97 | every stream is made of such blocks and a rest, so this holds of every stream |
| Sse.TrimExactly | frontend/src/api/chatClient.js:88 | trimming takes blank characters only, and all of them at both ends |
| Sse.RoundTrip | backend/agent_core/api/main.py:373-374 | for every list of events and every fragmentation exactly those payloads are delivered, in order, and nothing is left |
| FailurePolicy.SttStreamWithBackoffThenRest | backend/agent_core/speech_gateway/failure_policy.py:56-96 | stops at the first attempt that does not raise; otherwise REST runs once and closes with one event; waits double and stay below the bound |
| FailurePolicy.StreamedAt | backend/agent_core/speech_gateway/failure_policy.py:73-84 | every event of every attempt is passed on, behind all that came before it |
| FailurePolicy.AlwaysFailing | backend/agent_core/speech_gateway/failure_policy.py:73-96 | an always-failing stream is attempted k + 1 times and waits 0.25 (2^k - 1) seconds in all, k the largest number that keeps this below the bound |
| FailurePolicy.Replay.Pull | backend/agent_core/speech_gateway/main.py:403-425 | every attempt is given the text from its start |
| FailurePolicy.SynthesizeWithRetry | backend/agent_core/speech_gateway/failure_policy.py:99-125 | one retry over the replayed text, then the text-only signal, exactly if both attempts raised; the second attempt hears all the text from its start, or, if the first ended the generator, what the first heard |

## Left out

- ChunkStream.ChunkStream: requires NUL-free text, on which its cuts are those of the text itself; with NULs `MaskTheorem.UnmaskUndoesMaskExactly` tells when one mask and unmask round is faithful, and nothing is claimed about the loop.
- ReplyStream.StreamTurn: requires NUL-free text, for the same reason; the answer of `run_turn` after a sniffed tool call and the closing `done` event are not part of its outcome.
- OutputValidation.StreamRefusesAsWhole: says nothing about text with `<` or the marker, because what is removed then depends on the cut; `TagStream` and `MarkerStream` say what holds there.
- AgentLoop.WritesInjectIntoIssues: takes tokens never to repeat, over all the calls of the gate.
- AgentLoop.CheckDraft: gives the draft before `sanitize_llm_output`, and takes the language checks and the self-check as one arbitrary verdict.
- Router.LLMRouter.CompleteWithFallback: stands for both completion forms, whose payloads differ; two calls that overlap in time are not modelled.
- SarvamTts.FinishedMeansEverything: takes the server to answer flushes first in, first out, with one final after each flush's audio; configuration, base64 and the lengths of the two receive timeouts, with the flag that chooses between them, are not modelled.
- SarvamStt.SingleReader: takes a cancelled receive to leave its message on the socket, as the WebSocket library promises.
- Converse.StepKeepsInv: takes the events of the speech-to-text pump as arbitrary.
- ThreadTurns.TurnSeesItsThread: claims nothing for a key that was evicted while in use, beyond that its turns can then overlap.
- `_parse_tool_call`, JSON parsing and printing: parameters.
- Redis with several replicas, its connection and its races: only one sequential client is modelled.
- Prompts, language detection, self-check judgement, PII masking, audio checks, provider adapters, persistence, authentication, metrics and the browser's components: not modelled.
- Parsing of the client's configuration and of its control messages in the WebSocket endpoints: not modelled.
