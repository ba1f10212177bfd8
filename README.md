# Speechify dictation core in Dafny

Speechify is a browser page that turns speech into text and text into speech.
It uses the Web Speech API. There are three versions of the page script. They
all append recognised transcripts to a text area, but each has jobs of its own:

- `enhanced_script.js` keeps the recognizer in continuous mode and never
  restarts it. On mobile it throttles both the transcripts it appends and the
  speech it starts. It also defines the noise filter `isValidTranscript`, and its
  save dialog normalises the file name.
- `fixed_script.js` turns continuous mode off on mobile and restarts the
  recognizer after each session. It filters repeats against the last accepted
  text and a five-entry buffer. On mobile and Safari it reads long text aloud
  in chunks of whole sentences.
- `optimized_script.js` also turns continuous mode off on mobile. It restarts
  while the recognizer's `_isListening` flag is set, and its save dialog strips
  the characters a file name may not hold.

A fourth script, `debug.js`, wraps the recognizer's handlers with an event log
for debugging. This project models the decision logic of those scripts and
proves what each decision guarantees.

Modules:

- `Text` (text.dfy): the strings the scripts work with.
  - ECMAScript `trim` and the `\s` whitespace set.
  - `startsWith`, `endsWith`, `includes` and `join`.
  - ASCII case folding.
  - The two ways a transcript is appended to the text.
- `Speech` (speech.dfy): what the handlers read from a `SpeechRecognitionEvent`.
  Also the requests they make of the engine, recorded as values, and the two
  ways the scripts cap a history: `slice(-n)` and `shift`.
- `Enhanced` (enhanced.dfy): `enhanced_script.js`.
  - The noise filter `isValidTranscript`.
  - The save-file name.
  - The mobile transcript and speech throttles, as predicate-plus-record pairs.
  - The page's dictation state, as class `Dictation` with its handlers.
- `Fixed` (fixed.dfy): `fixed_script.js`.
  - The transcript filter against the last accepted text and a five-entry buffer.
  - The mobile restart, which trims that buffer.
  - The listening flag.
- `Chunking` (chunking.dfy): the sentence split and greedy chunk grouping that
  the speak handler of `fixed_script.js` uses on mobile and Safari.
- `Optimized` (optimized.dfy): `optimized_script.js`.
  - The page-wide `recognition` variable and the `_isListening` toggle.
  - The result and end handlers.
  - Filename sanitising.
- `DebugLog` (debug.dfy): `SpeechifyDebug.recognition` in `debug.js`, a
  newest-first event log capped at 50, and the handler wrapping done by
  `injectDebugIntoRecognition`.

Environment inputs become explicit:

- The clock (`Date.now()`) is an integer parameter.
- Each `setTimeout` that clears a flag or restarts recognition is a method the
  environment calls when the timer fires.
- Browser facts are parameters:
  - whether recognition is supported;
  - whether the microphone is granted;
  - whether `start()` throws;
  - the synthesis engine's `speaking` and `pending` flags;
  - the names `window` defines.
- Calls into the browser (start, stop, speak, download) are returned as values
  (`EngineRequest`, `EndAction`, `SpeakOutcome`, `Download`).

Three behaviours of the code are modelled as written:

- **`fixed_script.js` rejects every transcript.** The last accepted transcript
  starts as `''`, and every string starts with `''`. `Fixed.Dictation`
  proves the consequence: nothing is ever appended.
- **The `optimized_script.js` microphone button never stops a session.** Each
  click builds a new recognizer before the toggle, so the toggle always starts.
  `Optimized.ClickWhileListening` proves this.
- **`optimized_script.js` turns away a browser that exposes only
  `SpeechRecognition`.** The support check looks for `speechRecognition`, with a
  lower-case `s`. `Optimized.StandardOnlyClick` proves that such a click starts
  nothing.

`isValidTranscript` is defined in `enhanced_script.js` but never called there.
It is modelled as a predicate of its own.

## Model

| member | source | states |
|---|---|---|
| `Text.TrimEmptyIffAllSpace` | enhanced_script.js:318 | a text trims to nothing exactly when every character is ECMAScript whitespace, which is the save button's emptiness test |
| `Text.TrimStartDropsSpace` | enhanced_script.js:318 | what `trim` drops from the front is whitespace |
| `Text.TrimEndDropsSpace` | enhanced_script.js:318 | what `trim` drops from the end is whitespace |
| `Text.AppendSeparated` | enhanced_script.js:457-460 | the old text is a prefix and the transcript a suffix of the result; exactly one space is inserted between them, and only when the text is non-empty and does not already end in a space |
| `Text.AppendWithSpace` | fixed_script.js:255-259 | the old text is a prefix and the transcript a suffix; one space is inserted between them exactly when the old text is non-empty |
| `Text.AppendStylesAgree` | optimized_script.js:116-131 | the two appending styles give the same text whenever the text does not already end in a space |
| `Speech.PushCapped` | enhanced_script.js:660-665 | push then `slice(-cap)`: the new entry is last, the length is the old length plus one capped at `cap`, and the rest is the newest old entries in order |
| `Speech.PushCappedUnderCap` | enhanced_script.js:660-665 | below the cap nothing is evicted |
| `Speech.PushShift` | fixed_script.js:262-269 | push then at most one `shift`: the new entry is last, at most one old entry is dropped from the front, and the others keep their order |
| `Speech.PushShiftIsPushCapped` | fixed_script.js:262-269 | for a history within its cap, the `shift` form and the `slice` form agree |
| `Enhanced.IsValidTranscript` | enhanced_script.js:255-281 | a transcript shorter than two characters is never valid, and one whose trimmed form matches a noise pattern is rejected, whatever its padding. Two or more whitespace characters pass, because the length test counts the untrimmed string and the empty trimmed form matches no pattern |
| `Enhanced.SingleCharacterTestIsDead` | enhanced_script.js:257-263 | every one-character transcript is already rejected by the length test, so the single-letter test can never decide anything |
| `Enhanced.NoiseIgnoresCase` | enhanced_script.js:267-272 | two strings that fold to the same lower-case form get the same noise verdict, including the case-sensitive punctuation pattern |
| `Enhanced.ValidityIgnoresCase` | enhanced_script.js:255-281 | `isValidTranscript` gives the same verdict on strings that differ only in ASCII letter case |
| `Enhanced.ValidityIgnoresLeadingSpace` | enhanced_script.js:274-277 | leading whitespace does not change the verdict on a transcript of at least two characters |
| `Enhanced.TrimmedNoiseRejected` | enhanced_script.js:274-277 | a trimmed transcript that matches a noise pattern is rejected |
| `Enhanced.TrimmedOtherAccepted` | enhanced_script.js:255-281 | a trimmed transcript of at least two characters that matches no noise pattern is accepted |
| `Enhanced.FillerRejected` | enhanced_script.js:268 | the capitalised filler `Um` is rejected, because the pattern ignores case |
| `Enhanced.PaddedMarkRejected` | enhanced_script.js:270-275 | ` ?`, a lone `?` padded to pass the length test, is still rejected, because the patterns test the trimmed form |
| `Enhanced.RepeatedFillerAccepted` | enhanced_script.js:267-280 | the patterns are anchored, so the repeated filler `um um` passes |
| `Enhanced.SaveFilename` | enhanced_script.js:340-343 | the name ends in `.txt`; it starts with the trimmed input, or with `speechify_text` when that is empty; the suffix is added exactly when it is missing |
| `Enhanced.SaveFilenameIdempotent` | enhanced_script.js:340-343 | normalising a normalised name changes nothing |
| `Enhanced.SaveRequest` | enhanced_script.js:316-350 | save fails with nothing-to-save exactly when the text is all whitespace; otherwise the untrimmed text is offered under the name `SaveFilename` gives for the input, which ends in `.txt` |
| `Enhanced.CanAddMobileTranscript` | enhanced_script.js:625-653 | off mobile every transcript passes. On mobile a transcript passes only outside the cooldown, 1000 ms or more after the last append, and when no history entry with the same text ignoring case is younger than 5000 ms |
| `Enhanced.TranscriptRecorded` | enhanced_script.js:655-673 | recording stamps the time, sets the cooldown, and appends the transcript as the newest of at most five entries; below the cap nothing is evicted |
| `Enhanced.RecordedTranscriptCoolsDown` | enhanced_script.js:631-634 | right after a record, every transcript is refused until the cooldown clears |
| `Enhanced.RecordedTranscriptBlocksRepeats` | enhanced_script.js:636-650 | after the cooldown, any transcript within 1000 ms is refused, and a case-insensitive repeat within 5000 ms is refused |
| `Enhanced.RecordedTranscriptAdmitsOthers` | enhanced_script.js:625-653 | after the cooldown and the one-second gap, a transcript unlike every entry in the history is admitted |
| `Enhanced.CanStartMobileSpeech` | enhanced_script.js:676-708 | speech starts only when unblocked, with the engine idle, 3000 ms or more after the last start, and when no history entry with the same text is younger than 30000 ms |
| `Enhanced.SpeechRecorded` | enhanced_script.js:710-728 | recording a speech stamps the time, sets the block, and appends the text as the newest of at most three entries |
| `Enhanced.RecordedSpeechBlocksRepeats` | enhanced_script.js:676-707 | once unblocked, speech is refused for 3000 ms, and the same text for 30000 ms |
| `Enhanced.ResetThrottlesAdmit` | enhanced_script.js:584-589 | reset throttles admit a transcript exactly when the clock reads at least 1000, and a speech exactly when it reads at least 3000 |
| `Enhanced.AcceptsTranscript` | enhanced_script.js:446-452 | an accepted transcript is non-empty and differs from the last accepted one; off mobile those two tests alone decide |
| `Enhanced.Dictation.constructor` | enhanced_script.js:418-421 | a new session: not listening, not user-stopped, no last transcript, throttles at their initial values |
| `Enhanced.Dictation.RecordMobileTranscript` | enhanced_script.js:655-673 | on mobile, the transcript throttle becomes the recorded one; off mobile and for every other field, nothing changes |
| `Enhanced.Dictation.TranscriptCooldownExpired` | enhanced_script.js:669-672 | the 800 ms timer clears only the cooldown flag |
| `Enhanced.Dictation.HandleResults` | enhanced_script.js:434-487 | a final, non-empty trimmed transcript that differs from the last one and passes the mobile throttle is appended with one separating space; it becomes the last transcript, and on mobile it is recorded. Anything else, including every interim result, leaves text, last transcript and history unchanged |
| `Enhanced.Dictation.ClickRecord` | enhanced_script.js:500-614 | no support: nothing. Listening: stop, and mark the stop as the user's. Otherwise, with the microphone granted: start, and a throwing `start()` clears the flag again |
| `Enhanced.Dictation.OnStart` | enhanced_script.js:542-550 | the session is listening |
| `Enhanced.Dictation.OnError` | enhanced_script.js:557-576 | every error ends listening |
| `Enhanced.Dictation.OnEnd` | enhanced_script.js:578-599 | listening ends; on mobile the transcript throttle is reset; the message says "stopped" exactly when the user stopped it, and the user-stop flag is cleared |
| `Enhanced.Dictation.RecordMobileSpeech` | enhanced_script.js:710-728 | the speech throttle becomes the recorded one |
| `Enhanced.Dictation.SpeechUnblocked` | enhanced_script.js:724-727 | the 3 s timer clears only the block |
| `Enhanced.Dictation.HandleMobileSpeech` | enhanced_script.js:747-789 | blank text or no synthesis: nothing changes. Active speech: it is stopped. Otherwise the throttle decides at the clock reading of its check: wait with nothing changed, or record the trimmed text at the later reading of the record and start it |
| `Enhanced.Dictation.ForceCleanup` | enhanced_script.js:71-87 | speech becomes inactive, and both throttles return to their initial state |
| `Enhanced.Dictation.PageHidden` | enhanced_script.js:1134-1157 | hiding the page cancels a running speech and reports it. On mobile the listener added earlier (enhanced_script.js:109-114) first meets a running speech with `forceSpeechCleanup`, so both throttles return to their initial state; otherwise they are kept. A listening session stops and is marked as stopped by the user |
| `Enhanced.HiddenSpeechAdmitsTranscripts` | enhanced_script.js:71-114 | on mobile, after the page is hidden during speech, any transcript passes the throttle from a clock reading of 1000 on |
| `Enhanced.HideThenEnd` | enhanced_script.js:1146-1155 | a session stopped by hiding the page ends with the "stopped" message, and both flags are cleared |
| `Enhanced.Dictation.SpeechBegan` | enhanced_script.js:849-854 | the utterance's start marks speech active |
| `Enhanced.Dictation.SpeechFinished` | enhanced_script.js:856-880 | the utterance's end or error marks speech inactive |
| `Fixed.Accepts` | fixed_script.js:235-250 | a transcript the filter as written admits differs from the last text and from every buffered entry |
| `Fixed.AcceptsIntended` | fixed_script.js:235-250 | a transcript the intended filter admits differs from the last text and from every buffered entry; in a new session it admits exactly the non-empty transcripts |
| `Fixed.EmptyLastRejectsAll` | fixed_script.js:226-237 | with an empty last text, the filter rejects every transcript |
| `Fixed.IntendedFilterAgrees` | fixed_script.js:235-237 | the intended filter admits a first non-empty transcript; once a last text exists it agrees with the filter as written; whatever the written filter admits, the intended one admits too |
| `Fixed.AcceptedBlocksOverlaps` | fixed_script.js:243-250 | once a transcript is accepted and buffered, a next transcript that contains it or lies inside it is rejected |
| `Fixed.BufferedEntryBlocksExtensions` | fixed_script.js:243-250 | a transcript containing any buffered entry is rejected, whatever the last text |
| `Fixed.FindRepetition` | fixed_script.js:240-250 | the buffer scan reports a repetition exactly when some buffered entry equals, contains or lies inside the transcript |
| `Fixed.RestartTrim` | fixed_script.js:397-401 | with more than three entries, the newest three are kept in order and the last text becomes them joined by spaces; otherwise both are unchanged |
| `Fixed.JoinBounds` | fixed_script.js:400 | a joined list starts with its first part and ends with its last |
| `Fixed.TrimmedRestartRejectsNewest` | fixed_script.js:397-401 | after a trimming restart, a repeat of the newest entry ends the last text and overlaps the buffer, so it is rejected |
| `Fixed.Dictation.constructor` | fixed_script.js:226-232 | a new session: nothing accepted, empty buffer, not listening |
| `Fixed.Dictation.HandleResults` | fixed_script.js:215-283 | a final transcript that passes the filter is appended with a space when the text is non-empty; it is pushed into the five-entry buffer and becomes the last text. Interim results change nothing. From the initial state, nothing is ever appended |
| `Fixed.Dictation.ClickRecord` | fixed_script.js:285-442 | no support: nothing. Listening: stop. Otherwise, with the microphone granted: start, and a throwing `start()` clears the flag |
| `Fixed.Dictation.OnStart` | fixed_script.js:338-350 | only on mobile does start set the listening flag |
| `Fixed.Dictation.OnSpeechEnd` | fixed_script.js:352-357 | desktop sessions are stopped when speech ends; mobile ones are not |
| `Fixed.Dictation.OnError` | fixed_script.js:364-387 | on mobile, network and permission errors end listening; other errors and desktop leave the flag alone |
| `Fixed.Dictation.OnEnd` | fixed_script.js:389-419 | a restart is scheduled exactly for a listening mobile session |
| `Fixed.Dictation.RestartFired` | fixed_script.js:394-413 | the buffer and last text are trimmed as `RestartTrim` says; a throwing `start()` ends listening and reports the stop; the text and the no-acceptance state are kept |
| `Fixed.StopThenEnd` | fixed_script.js:304-318 | a user stop followed by the engine's end reports the recording stopped instead of restarting |
| `Fixed.MobileSessionRestarts` | fixed_script.js:389-413 | a cleanly started mobile session has a restart scheduled when it ends |
| `Chunking.MarkRun` | fixed_script.js:541 | the run of `.!?` starting at a position lies within the text, ends in a mark when non-empty, and is maximal |
| `Chunking.MarkRunAllMarks` | fixed_script.js:541 | every character of the run is a mark |
| `Chunking.NextSeparator` | fixed_script.js:541 | a found separator lies at or after the search start and is a mark run followed by whitespace |
| `Chunking.NextSeparatorIsLeftmost` | fixed_script.js:541 | no separator starts before the one found |
| `Chunking.PiecesFrom` | fixed_script.js:541-553 | splitting the text from any position yields at least one piece |
| `Chunking.Pieces` | fixed_script.js:541-553 | splitting the whole text yields at least one piece |
| `Chunking.PiecesConcat` | fixed_script.js:541-553 | the split pieces, each with its mark run and whitespace attached, concatenate back to the text |
| `Chunking.PiecesEndWithSeparator` | fixed_script.js:541-553 | every piece except the last ends with a mark followed by one whitespace character |
| `Chunking.PieceNotBlank` | fixed_script.js:541-553 | when the text ends in a non-whitespace character, no piece is blank |
| `Chunking.KeepNonBlank` | fixed_script.js:553 | every kept part is non-blank, and no more parts are kept than given |
| `Chunking.KeepNonBlankMembers` | fixed_script.js:553 | the filter keeps exactly the parts whose trimmed form is non-empty |
| `Chunking.KeepNonBlankKeepsAll` | fixed_script.js:553 | a list without blank parts passes the filter unchanged |
| `Chunking.Sentences` | fixed_script.js:541-553 | every sentence is non-empty and holds a non-whitespace character |
| `Chunking.SentencesOfTrimmedText` | fixed_script.js:541-553 | for trimmed non-empty text the sentences concatenate back to exactly the text, so the split loses, reorders and duplicates nothing |
| `Chunking.GroupChunks` | fixed_script.js:556-571 | the chunks are the sentences grouped in order; each chunk is non-empty and is the concatenation of its group; a chunk of two or more sentences is shorter than 150; each chunk was closed only because adding the next sentence would reach 150 |
| `Chunking.Utterances` | fixed_script.js:539-571 | on mobile or Safari, text over 150 characters is spoken as non-empty chunks that concatenate to its sentences, and so to the trimmed text itself; anything else is spoken whole |
| `Optimized.IsSupportedAsWritten` | optimized_script.js:75 | a window with `webkitSpeechRecognition` passes; one with the standard constructor but neither other name fails |
| `Optimized.IsSupported` | optimized_script.js:81 | a window with `webkitSpeechRecognition` has a constructor; one with only the misspelled name has none |
| `Optimized.StandardOnlyBrowserRejected` | optimized_script.js:75 | a browser exposing only `SpeechRecognition` passes the intended check but fails the check as written |
| `Optimized.SupportChecksDiffer` | optimized_script.js:75-81 | the written and intended checks differ exactly on browsers with the standard constructor and without the prefixed one |
| `Optimized.IsForbidden` | optimized_script.js:289 | every control character is removed; letters, digits, space, `.`, `-` and `_` are kept |
| `Optimized.Sanitize` | optimized_script.js:289 | the result contains no forbidden character and is no longer than the input |
| `Optimized.SanitizeAppend` | optimized_script.js:289 | sanitising distributes over concatenation |
| `Optimized.SanitizeFixesExactlyClean` | optimized_script.js:289 | a name is unchanged by sanitising exactly when it has no forbidden character |
| `Optimized.SanitizeIdempotent` | optimized_script.js:289 | sanitising twice is sanitising once |
| `Optimized.SaveRequest` | optimized_script.js:260-294 | no download exactly when the trimmed text or the trimmed name is empty, the text being checked first; a download carries the trimmed text |
| `Optimized.SavedNameIsClean` | optimized_script.js:289-294 | the download name is clean, ends in `.txt`, and before the suffix is the sanitised trimmed input |
| `Optimized.ForbiddenOnlyNameSavesBareSuffix` | optimized_script.js:281-294 | a name made only of forbidden characters passes the emptiness check and saves as `.txt` |
| `Optimized.Recognizer.constructor` | optimized_script.js:82-88 | a new recognizer is not listening, continuous only off mobile, with interim results and `en-US` |
| `Optimized.Recognizer.Toggle` | optimized_script.js:167-173 | a listening recognizer is stopped and its flag cleared; any other is started and its flag set |
| `Optimized.Page.Click` | optimized_script.js:64-173 | a click starts only when the check as written passes and the constructor lookup finds a constructor. A fresh recognizer then replaces `recognition` and is always started. In every other case nothing is requested and `recognition` is kept, including a window that defines only `speechRecognition`, where `new` throws |
| `Optimized.ClickStartsExactly` | optimized_script.js:75-82 | a click starts exactly when the window defines `webkitSpeechRecognition`, or both `speechRecognition` and `SpeechRecognition` |
| `Optimized.StandardOnlyClick` | optimized_script.js:75-79 | a window with only the standard `SpeechRecognition` gets no start request from a click, and the page is unchanged |
| `Optimized.Page.OnStart` | optimized_script.js:90-101 | only on mobile does start set the flag |
| `Optimized.Page.OnSpeechEnd` | optimized_script.js:103-105 | the end of speech always stops the session |
| `Optimized.Page.OnResult` | optimized_script.js:107-139 | a final, non-empty trimmed transcript is appended after one space, or becomes the text when the text is empty; the mobile and desktop branches give the same text; anything else changes nothing |
| `Optimized.Page.OnEnd` | optimized_script.js:146-164 | a restart is scheduled exactly on mobile while the current recognizer's flag is set |
| `Optimized.Page.RestartFired` | optimized_script.js:150-158 | a throwing restart clears the flag and reports the stop |
| `Optimized.ClickWhileListening` | optimized_script.js:55-82 | a click while the flag of `recognition` is set starts a second recognizer and leaves the first one's flag set. A click gets past the processing guard only after the button was reset, on an error or at the desktop end of a session, so the flag it sees is stale |
| `Optimized.StartThenEnd` | optimized_script.js:90-164 | a session started by a click restarts on mobile and reports stopped on desktop |
| `DebugLog.Logged` | debug.js:21-32 | the new event is first and the older events follow in order; the length grows by one, or stays the same when that would exceed 50 |
| `DebugLog.LoggedStaysCapped` | debug.js:28-30 | a log within 50 entries stays within 50 |
| `DebugLog.LoggedFullDropsOldest` | debug.js:27-30 | on a full log the oldest entry is dropped and the others move down one place |
| `DebugLog.Recent` | debug.js:21-32 | the reference holds the last min(n, 50) of n events, newest first: its entry `i` is the event logged `i` places before the newest |
| `DebugLog.LoggedIsRecent` | debug.js:21-32 | the log always equals the 50 most recent events ever logged, newest first |
| `DebugLog.KindOf` | debug.js:293-340 | each wrapped handler logs one of the five types `start`, `end`, `error`, `result` and `speechend` |
| `DebugLog.DataOf` | debug.js:293-340 | an error logs its code and message, a result its index and results, and the other handlers log no data |
| `DebugLog.KindsDistinct` | debug.js:293-340 | each wrapped handler logs under a type of its own |
| `DebugLog.CopyResults` | debug.js:312-329 | the nested copy loops reproduce every result and alternative exactly |
| `DebugLog.RecognitionDebug.constructor` | debug.js:13-16 | no instance and an empty log |
| `DebugLog.RecognitionDebug.Init` | debug.js:17-20 | only the watched instance changes; the log is untouched |
| `DebugLog.RecognitionDebug.LogEvent` | debug.js:21-32 | the log becomes `Logged` of the old log and the new event, and stays within 50 |
| `DebugLog.RecognitionDebug.GetEvents` | debug.js:33-35 | returns the log as it is |
| `DebugLog.RecognitionDebug.ClearEvents` | debug.js:36-39 | the log is empty |
| `DebugLog.RecognitionDebug.ShowStatus` | debug.js:40-53 | no instance: the no-instance answer. Otherwise the instance's settings, its listening flag read as false when unset, and the first min(5, n) log entries |
| `DebugLog.RecognitionDebug.Wrapped` | debug.js:293-340 | a wrapped handler logs exactly one event of its own type with its data, then delegates exactly when an original handler exists |
| `DebugLog.Inject` | debug.js:277-290 | no instance: nothing changes. Otherwise the debug object watches it; the log is untouched |
| `DebugLog.HandleThenShow` | debug.js:40-53 | after any wrapped handler, the status shows between one and five events, the newest being the one just logged |

## Left out

- DOM and UI: buttons, animations, dialogs, the settings panel, keyboard shortcuts, the tap counter, the debug panel, `systemInfo` and the microphone helpers of `debug.js`. None of them holds state the handlers decide on.
- `debounce` and the `data-processing` re-entrancy guard. They only delay or drop clicks, and each modelled method is one click that got through.
- Timers. Each `setTimeout` that matters is a method the environment calls (`TranscriptCooldownExpired`, `SpeechUnblocked`, `RestartFired`). Their delays are not modelled.
- Browser APIs are not modelled. Starting, stopping, speaking and downloading are returned as values, and `getUserMedia` and a throwing `start()` are boolean parameters.
- A failing `initSpeechRecognition` in enhanced_script.js and fixed_script.js. Creating the recognizer is assumed to succeed.
- `handleDesktopSpeech`, the speak handlers' voice, rate and pitch settings, pause and resume, and the Chrome keep-alive interval. These are synthesis-engine and floating-point glue.
- In fixed_script.js's speak handler, the chunks are spoken one after another through `onend` callbacks. The model stops at the list of chunks.
- Settings persistence (`localStorage`, `JSON.parse`, `parseFloat`) and app.py. app.py is not part of this model.
- The regular-expression engine. The patterns are written as explicit predicates.
- `Enhanced.CanAddMobileTranscript`: the repeat test folds ASCII letters only, where `toLowerCase` folds every letter.
- `Enhanced.RecordedTranscriptBlocksRepeats`: for the same reason it states less than the source. For example, with `"Été"` recorded at 5000 and the cooldown cleared, the source refuses `"été"` at 6500 as a repeat, but the model admits it.
- The save handler of `fixed_script.js` is not modelled. It adds `.txt` to the trimmed name, or to `speechify_text`, without any test.
- `Chunking.KeepNonBlank`: the order of the kept parts is stated only through `Chunking.SentencesOfTrimmedText`, for the trimmed text the speak handler passes.
- `Chunking.Utterances`: the user-agent test for Safari is the boolean parameter `mobileOrSafari`.
- A result event with no result, or whose latest result has no alternative, is not modelled: the result handlers require a well-formed event (`Speech.WellFormedEvent`). In the source such an event makes the handler throw before it changes anything.
- String lengths count characters, not UTF-16 code units. The 150-character chunk limit and the length tests agree with the browser only outside the astral planes.
- `DebugLog.RecognitionDebug.GetEvents`: the source returns the log array itself, so a caller can mutate the log. The model returns its value.
- `DebugLog.RecognitionDebug.ShowStatus`: `grammars` is not modelled, and `_isListening` is modelled as an optional boolean.
- Event timestamps in `debug.js` come from the clock (`toISOString`). Here they are a string parameter.
- The `onerror` handler of optimized_script.js only reports the error and changes no modelled state.

## Findings

| source | as written | input that shows it | evidently intended | confidence | as-written member | corrected member |
|---|---|---|---|---|---|---|
| optimized_script.js:75 | the support check looks for `speechRecognition`, with a lower-case `s` | a browser whose `window` defines `SpeechRecognition` but not `webkitSpeechRecognition` is told recognition is unsupported | accept the standard `SpeechRecognition`, which line 81 then uses | high, not executed | `Optimized.StandardOnlyBrowserRejected` | `Optimized.SupportChecksDiffer` (`Optimized.IsSupported`, the check the constructor lookup on line 81 relies on) |
| fixed_script.js:226-237 | the last text starts as `''`, and the filter rejects any transcript that starts with the last text | the first final transcript `"hello"` from a new session: `"hello".startsWith('')` holds, so it is rejected, and so is every later one | apply the prefix and suffix tests only once a transcript has been accepted | high, not executed | `Fixed.EmptyLastRejectsAll` (with `Fixed.Dictation.HandleResults`, which keeps the code as written) | `Fixed.IntendedFilterAgrees` (`Fixed.AcceptsIntended`, used by the repeat-blocking lemmas) |
