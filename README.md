# HIVE-Avatar voice pipeline, modelled in Dafny

HIVE-Avatar is a talking 3D avatar. The browser sends push-to-talk audio over
a WebSocket. The server then:

1. transcribes the audio;
2. streams the assistant's reply from a chat model;
3. cuts the reply into sentences as it arrives;
4. voices each sentence, and extracts Rhubarb mouth cues for it;
5. sends each sentence's audio and cues back to the browser.

The browser turns the cues into ARKit blend-shape weights at every frame.

This project models four parts of that pipeline and proves their properties.

- **The sentence segmenter** (`splitIntoSentences`), in `segmenter.dfy`, with the string helpers in `text.dfy`.
  - A boundary is `.`, `!` or `?` followed by whitespace.
  - A `.` after a known abbreviation is not a boundary.
  - Pieces are returned trimmed.
- **One voice turn** (`processUserAudio`), in `orchestrator.dfy`. It is a producer and a consumer sharing a sentence queue.
  - The producer re-segments its buffer after every chat chunk and queues every complete sentence.
  - The consumer numbers the sentences it takes, and reports each as audio or as an error.
  - It stops after 20 sentences.
  - JavaScript switches between the two loops only at `await`. Each method of the class `Turn` runs at most one await-free stretch of the source, and some stretches are split over two methods: `ConsumerTake` and `ConsumerDeliver` both run parts of the stretch that reports one sentence and takes the next.
  - Splitting a stretch only adds interleavings. So `Turn.Valid()`, which holds across every interleaving the methods allow, covers every schedule the source can run.
  - `Turn.Begin` spans the two awaits before the chat starts (conversion and transcription). No other part of the turn exists yet, so nothing can run in between.
- **Lip-sync** (`mapRhubarbToVisemes`, `interpolateVisemes`, `blendShapes` and the `RHUBARB_TO_ARKIT` table), in `viseme_mapper.dfy` and `shared.dfy`.
  - Weights are exact reals.
- **The connection handler** of the server, in `session.dfy`.
  - It turns callbacks into WebSocket frames.
  - It keeps the chat history at most 40 messages long.

The repository's test cases are worked out on the model in:
- `segmenter_examples.dfy`;
- `viseme_examples.dfy`;
- `orchestrator_examples.dfy`.

Behaviour of the code as written that the model keeps:
- `onStart` fires before the audio is converted or transcribed. A blank transcript therefore gives `assistant.start` followed by `assistant.empty` (`Turn.Begin`).
- Reaching 20 sentences stops the consumer but not the chat loop. The producer methods do not require the consumer to be running.
- `isFinal` is computed before the cap is checked. A turn stopped by the cap may therefore never report a final sentence. `ReportsInOrder` allows at most one final report, not exactly one.
- The buffer is replaced by the last sentence *trimmed*. Whitespace at the end of a chunk is therefore lost before the next chunk is appended.
  - `OrchestratorExamples.TrimmedBufferMergesWords` shows the reply "Hi. How " + "are you?" queued as "Hi." and "Howare you?".
  - This is why the conservation property is stated for non-whitespace characters only.
- The server does not serialise turns on one connection. `Connection` models the turns one after the other.

## Model

| member | source | states |
|---|---|---|
| Text.IsWhitespace | packages/server/src/orchestrator.ts:20 | defines JavaScript's `\s`, the characters `trim()` removes and `split(/\s+/)` splits on: the WhiteSpace and LineTerminator code points |
| Text.ToLower | packages/server/src/orchestrator.ts:42 | defines `toLowerCase()` on ASCII letters, character by character; other characters are kept |
| Text.TrimSpec | packages/server/src/orchestrator.ts:27 | `trim()` keeps exactly the slice between the leading and the trailing whitespace, and the result has no whitespace at either end |
| Text.TrimEmptyIffBlank | packages/server/src/orchestrator.ts:24 | `text.trim()` is empty exactly when the text is all whitespace |
| Text.LastWordSpec | packages/server/src/orchestrator.ts:37-40 | the last element of `split(/\s+/)` is the longest whitespace-free suffix: it is a suffix, holds no whitespace, and is preceded by whitespace or the start |
| Segmenter.WhitespaceRunEndSpec | packages/server/src/orchestrator.ts:20 | the greedy `\s+` of the boundary pattern consumes the whole whitespace run and stops at the first non-whitespace character |
| Segmenter.NextBoundarySpec | packages/server/src/orchestrator.ts:33 | one `exec` of the pattern from `lastIndex` finds the leftmost boundary (terminal followed by whitespace) and its full whitespace run, or reports that none is left |
| Segmenter.StripTerminal | packages/server/src/orchestrator.ts:41 | defines the removal of at most one trailing `.`, `!` or `?` from the last word |
| Segmenter.AbbreviationWord | packages/server/src/orchestrator.ts:37-43 | defines the word looked up in the set `Abbreviations` (the twelve words of lines 6-19): the last whitespace-separated word of the candidate, one trailing terminal removed, lower-cased |
| Segmenter.Scan | packages/server/src/orchestrator.ts:33-52 | defines the loop over boundaries from the cursor `from` with the piece start `last`: an abbreviation's dot is passed over, any other boundary pushes the trimmed piece and moves the piece start past the whitespace, and the trimmed tail is pushed when no boundary is left; empty pieces are dropped |
| Segmenter.Sentences | packages/server/src/orchestrator.ts:23-55 | defines `splitIntoSentences`: `[]` for blank text, otherwise the scan of the trimmed text from position 0 |
| Segmenter.SplitIntoSentences | packages/server/src/orchestrator.ts:23-55 | the regex loop with its cursor and piece start returns exactly the pieces the scanning specification gives |
| Segmenter.AcceptedPiece | packages/server/src/orchestrator.ts:34-47 | a piece cut at an accepted boundary is a trimmed non-empty sentence ending in `.`, `!` or `?` and not in an abbreviation's dot |
| Segmenter.ScanShape | packages/server/src/orchestrator.ts:33-52 | every piece the loop and the tail push is non-empty and trimmed, and every piece but the last ends at an accepted boundary |
| Segmenter.SentencesShape | packages/server/src/orchestrator.ts:23-55 | every returned sentence is non-empty with no whitespace at either end, and every sentence except possibly the last ends in `[.!?]` and not in an abbreviation's dot |
| Segmenter.ScanCutsAtEveryBoundary | packages/server/src/orchestrator.ts:33-52 | every piece the scan pushes holds no boundary except the dot of a known abbreviation, given that every boundary passed over since the piece start was one |
| Segmenter.SentencesCutAtEveryBoundary | packages/server/src/orchestrator.ts:33-48 | inside every returned sentence, each `.`, `!` or `?` followed by whitespace is a `.` whose sentence prefix ends in a known abbreviation |
| Segmenter.ScanSlices | packages/server/src/orchestrator.ts:33-52 | the pieces pushed so far, each followed by the whitespace after its boundary, rebuild the text up to the piece start; at the end they rebuild the whole trimmed text |
| Segmenter.SentencesAreSlices | packages/server/src/orchestrator.ts:23-55 | the sentences of a non-blank text are its own slices, in order: joined with non-empty runs of whitespace between them they give back the trimmed text character for character. With `SentencesShape` and `SentencesCutAtEveryBoundary`, the text is cut at every boundary that is not an abbreviation's dot and nowhere else |
| Segmenter.ScanKeepsText | packages/server/src/orchestrator.ts:33-52 | the pieces pushed, joined, hold the non-whitespace characters of the trimmed text, in order |
| Segmenter.SentencesKeepText | packages/server/src/orchestrator.ts:23-55 | no non-whitespace character is lost, added or reordered by splitting |
| Segmenter.SentencesEmptyIffBlank | packages/server/src/orchestrator.ts:24 | the result is empty exactly when the input is empty or whitespace only |
| Segmenter.SentencesWithoutBoundary | packages/server/src/orchestrator.ts:51-52 | input without a terminal followed by whitespace gives `[]` when blank and `[trim(input)]` otherwise |
| Segmenter.TrimIsSentence | packages/server/src/orchestrator.ts:51-52 | the trim of a non-blank remainder is a sentence |
| SegmenterExamples.SplitsOnPeriod | packages/server/src/orchestrator.test.ts:5-10 | "Hello world. How are you?" splits into "Hello world." and "How are you?" |
| SegmenterExamples.SplitsOnQuestionMark | packages/server/src/orchestrator.test.ts:12-14 | "What? Really!" splits into "What?" and "Really!" |
| SegmenterExamples.SingleSentence | packages/server/src/orchestrator.test.ts:16-18 | "Hello world" is one sentence |
| SegmenterExamples.EmptyString | packages/server/src/orchestrator.test.ts:20-22 | the empty string gives no sentence |
| SegmenterExamples.MrIsAbbreviation | packages/server/src/orchestrator.ts:37-43 | the word looked up for "Mr." is "mr", lower-cased and without its dot, and it is in the abbreviation set, so the dot after "Mr" does not cut |
| SegmenterExamples.KeepsAbbreviation | packages/server/src/orchestrator.test.ts:24-28 | "Mr. Smith is here." stays one sentence |
| Shared.TableKeys | packages/shared/src/index.ts:56-66 | the shape table has entries for exactly X, A, B, C, D, E, F, G and H |
| Shared.RestShapeIsEmpty | packages/shared/src/index.ts:57 | the rest shape X sets no blend shape |
| Shared.OpenShape | packages/shared/src/index.ts:61 | D is `{jawOpen: 0.8, mouthOpen: 1.0}` |
| Shared.TableWeightsInRange | packages/shared/src/index.ts:57-66 | every weight of every shape lies in [0, 1] |
| VisemeMapper.MapRhubarbToVisemes | packages/shared/src/viseme-mapper.ts:7-14 | one cue out per cue in, in order, with time = start, shape = value, weight = 1 and duration = end - start |
| VisemeMapper.MapRoundTrip | packages/shared/src/viseme-mapper.ts:7-14 | Rhubarb's cues are recovered from the viseme cues, so the mapping loses nothing |
| VisemeMapper.MapAppend | packages/shared/src/viseme-mapper.ts:7-14 | the mapping is cue by cue: mapping two lists joined is joining the two mapped lists |
| VisemeMapper.FirstCoveringSpec | packages/shared/src/viseme-mapper.ts:28-35 | the cue found is the first in list order whose interval `[time, time + duration)` contains the time, and when none is found no cue contains it |
| VisemeMapper.FirstCoveringIs | packages/shared/src/viseme-mapper.ts:28-35 | a cue that contains the time, with no earlier cue containing it, is the one found |
| VisemeMapper.FindCue | packages/shared/src/viseme-mapper.ts:28-35 | the loop with `break` sets the current cue to the first covering cue and the next cue to its immediate successor, or neither when none covers |
| VisemeMapper.ShapeWeights | packages/shared/src/viseme-mapper.ts:39 | defines `RHUBARB_TO_ARKIT[shape] ?? {}`: the shape's table, or no weights for an unknown shape |
| VisemeMapper.Blend | packages/shared/src/viseme-mapper.ts:54-67 | the blended table has exactly the keys of either table; each value is `a + (b - a) * t` with a missing key counted as 0 |
| VisemeMapper.Interpolated | packages/shared/src/viseme-mapper.ts:18-52 | defines the weights at a time: none without a covering cue; in the last 0.08 s of the first covering cue, with a cue after it, its shape blended toward the next cue's; otherwise its shape's table |
| VisemeMapper.BlendShapes | packages/shared/src/viseme-mapper.ts:54-67 | the key-by-key loop builds exactly the blend over the union of both key sets |
| VisemeMapper.InterpolateVisemes | packages/shared/src/viseme-mapper.ts:18-52 | the method returns the specified weights for every cue list and time |
| VisemeMapper.NoCues | packages/shared/src/viseme-mapper.ts:22 | no cues give no weights at any time |
| VisemeMapper.NoActiveCue | packages/shared/src/viseme-mapper.ts:37 | when no cue contains the time the result is empty |
| VisemeMapper.ActiveCueExists | packages/shared/src/viseme-mapper.ts:28-37 | a current cue is found exactly when some cue contains the time |
| VisemeMapper.HoldsShape | packages/shared/src/viseme-mapper.ts:39-51 | with no successor, or more than 0.08 s left in the active cue, the result is the active shape's table (empty for an unknown shape) |
| VisemeMapper.BlendFactorRange | packages/shared/src/viseme-mapper.ts:43-46 | inside the last 0.08 s of a cue the blend factor lies in [0, 1) |
| VisemeMapper.BlendWindow | packages/shared/src/viseme-mapper.ts:42-47 | inside the last 0.08 s with a successor, the result blends the active shape's table toward the next one's by `1 - remaining / 0.08`, which lies in [0, 1) |
| VisemeMapper.LerpBetween | packages/shared/src/viseme-mapper.ts:64 | for a factor in [0, 1], each blended value lies between the two table values |
| VisemeMapper.BlendInRange | packages/shared/src/viseme-mapper.ts:54-67 | blending two tables with weights in [0, 1] gives weights in [0, 1] |
| VisemeMapper.InterpolatedInRange | packages/shared/src/viseme-mapper.ts:18-52 | every interpolated weight lies in [0, 1] |
| VisemeMapper.FirstCoveringIgnoresWeight | packages/shared/src/viseme-mapper.ts:28-35 | cue lists that differ only in the cues' weight fields give the same current cue |
| VisemeMapper.WeightIgnored | packages/shared/src/viseme-mapper.ts:18-52 | the result does not depend on the cues' weight field |
| VisemeMapper.LerpAdvances | packages/shared/src/viseme-mapper.ts:64 | a larger factor in [0, 1] moves the value further from `a` toward `b`, never past `b` |
| VisemeMapper.BlendTowards | packages/shared/src/viseme-mapper.ts:59-64 | for each key, blending with a larger factor gives a weight between the smaller factor's blend and the second table's weight |
| VisemeMapper.BlendAdvances | packages/shared/src/viseme-mapper.ts:42-47 | while one cue stays active inside its blend window, each blend shape of the active or the next cue is present, any other is absent, and each weight moves monotonically with time from the active shape's value toward the next shape's, in either direction |
| VisemeExamples.MapsFourCues | packages/shared/src/viseme-mapper.test.ts:5-26 | four Rhubarb cues give four viseme cues, the first `{0, X, 1, 0.07}` and the third shape D lasting 0.3 s |
| VisemeExamples.MapsNoCues | packages/shared/src/viseme-mapper.test.ts:28-31 | no Rhubarb cues give no viseme cues |
| VisemeExamples.OpenAtCueStart | packages/shared/src/viseme-mapper.test.ts:40-47 | shape D at the start of its cue opens the jaw to 0.8 |
| VisemeExamples.BlendsTowardOpen | packages/shared/src/viseme-mapper.test.ts:49-60 | at 0.16 s between X and D the jaw is at 0.4, strictly between 0 and 0.8 |
| Orchestrator.FinalIsUnique | packages/server/src/orchestrator.ts:116 | at most one audio report of a turn is final, and it carries the largest sentence number of all audio reports |
| Orchestrator.ReportsExtend | packages/server/src/orchestrator.ts:103-122 | a report for the next number after reports none of which is final keeps the reports numbered 0, 1, 2, … in order |
| Orchestrator.EndsCompletedTurn | packages/server/src/orchestrator.ts:76-157 | start, at most 20 reports in number order, and done make the callbacks of a completed turn |
| Orchestrator.Report | packages/server/src/orchestrator.ts:108-122 | a voiced sentence is reported as `onAudio` with its audio, its Rhubarb cues mapped to visemes, its number and the final flag; a failure of synthesis, conversion or extraction is reported as `onError` with its message; an audio report is final only when asked to be |
| Orchestrator.Feed | packages/server/src/orchestrator.ts:134-146 | defines one chunk of the producer: the chunk is appended to the reply, the buffer with the chunk is split, and when that gives more than one sentence all but the last are queued and the last becomes the buffer |
| Orchestrator.FeedWith | packages/server/src/orchestrator.ts:139-145 | defines the producer step once the split is known: with more than one sentence queue all but the last and keep the last as the buffer, otherwise keep the buffer with the chunk |
| Orchestrator.FeedAll | packages/server/src/orchestrator.ts:134-146 | defines the producer after the chunks, fed one by one from an empty reply, buffer and queue |
| Orchestrator.Flushed | packages/server/src/orchestrator.ts:149-151 | defines the queue once the stream ends: a non-blank buffer is queued trimmed, a blank one is dropped |
| Orchestrator.SplitKeepsText | packages/server/src/orchestrator.ts:139-145 | queueing all but the last sentence and keeping the last as the buffer keeps the text's non-whitespace characters |
| Orchestrator.FeedKeepsText | packages/server/src/orchestrator.ts:134-146 | after each chunk the queued sentences and the buffer still hold the reply's non-whitespace characters, in order |
| Orchestrator.FeedKeepsSentences | packages/server/src/orchestrator.ts:139-145 | only sentences (non-empty, trimmed) are ever queued |
| Orchestrator.FeedAllSpec | packages/server/src/orchestrator.ts:134-146 | the reply is the chunks joined, and the producer keeps its text and queues only sentences |
| Orchestrator.FlushedSpec | packages/server/src/orchestrator.ts:149-152 | flushing a non-blank buffer trimmed loses no text and queues only a sentence |
| Orchestrator.StreamKeepsText | packages/server/src/orchestrator.ts:134-152 | once the stream ends, the queued sentences hold every non-whitespace character of the chunks joined, in order, and each is a sentence |
| Orchestrator.TraceEndsInFeedAll | packages/server/src/orchestrator.ts:134-146 | a producer that took the chunks one by one is in the state the stream specification gives for all of them |
| Orchestrator.TraceExtend | packages/server/src/orchestrator.ts:134-146 | one more chunk extends the producer's history by one step |
| Orchestrator.EndOfStream | packages/server/src/orchestrator.ts:134-159 | at the end of the stream the reply is the chunks joined and the queued sentences hold all its non-whitespace characters |
| Orchestrator.Turn.Valid | packages/server/src/orchestrator.ts:89-127 | defines the turn's invariant: the queue is the sentences enqueued less those taken, at most 20 numbers are given, the producer's fields are its specification's for the chunks so far, the consumer's state agrees with the flags, and the callbacks are start, the reports numbered in order with at most one final, then done or empty |
| Orchestrator.Turn.Begin | packages/server/src/orchestrator.ts:76-93 | `onStart` first; a failed conversion or transcription throws; a blank transcript reports `onEmpty` and returns two empty strings; any other starts both loops with an empty queue and index 0 |
| Orchestrator.Turn.ProducerChunk | packages/server/src/orchestrator.ts:134-146 | the chunk is appended to the reply; when the buffer with the chunk splits into more than one sentence, all but the last are queued in order and the last becomes the buffer, otherwise the buffer keeps the chunk |
| Orchestrator.Turn.Absorb | packages/server/src/orchestrator.ts:135-145 | the buffer and the reply grow by the chunk, then all but the last sentence are pushed in order and the last becomes the buffer |
| Orchestrator.Turn.Enqueue | packages/server/src/orchestrator.ts:141-143 | pushing the sentences one by one appends them to the queue in order |
| Orchestrator.Turn.ProducerFinish | packages/server/src/orchestrator.ts:149-152 | a non-blank buffer is queued trimmed and processing is marked done |
| Orchestrator.Turn.ProducerFail | packages/server/src/orchestrator.ts:134 | an exception from the chat stream ends the turn with that exception |
| Orchestrator.Turn.ConsumerTake | packages/server/src/orchestrator.ts:97-104 | the consumer exits when the queue is empty and processing is done, waits when only the queue is empty, and otherwise takes the first sentence and gives it the next number |
| Orchestrator.Turn.ConsumerDeliver | packages/server/src/orchestrator.ts:108-127 | the sentence's report is appended, final exactly when the queue is empty and processing is done at that moment; at 20 numbers the consumer stops and marks processing done |
| Orchestrator.Turn.Complete | packages/server/src/orchestrator.ts:155-159 | `onDone` ends the turn's callbacks, which are start, at most 20 numbered reports in order, and done; every queued sentence was voiced unless the cap was reached |
| Orchestrator.Turn.EndedStream | packages/server/src/orchestrator.ts:134-159 | once the chat stream has ended, the reply returned is the chunks joined, the queue received exactly the flushed stream's sentences, and they hold all of the reply's non-whitespace characters |
| OrchestratorExamples.FirstChunkSplits | packages/server/src/orchestrator.ts:139-145 | the buffer "Hi. How " splits into "Hi." and the trimmed fragment "How" |
| OrchestratorExamples.TrimmedBufferMergesWords | packages/server/src/orchestrator.ts:144 | the reply "Hi. How are you?" streamed as "Hi. How " and "are you?" is returned whole but queued as "Hi." and "Howare you?" |
| Session.FramesFor | packages/server/src/server.ts:46-76 | `onStart`, `onDone` and `onEmpty` each give the one text frame `assistant.start`, `assistant.done` or `assistant.empty`; `onError` gives one recoverable error frame with its message; `onAudio` gives the `assistant.audio` message with visemes, number and final flag, followed by one binary frame of its audio |
| Session.Failure | packages/server/src/server.ts:90-97 | an exception escaping the turn gives one text frame, a recoverable error carrying the exception's message |
| Session.Frames | packages/server/src/server.ts:46-76 | defines what the client receives for a run of callbacks: each callback's frames, in callback order |
| Session.BlankTurnFrames | packages/server/src/server.ts:46-67 | a turn whose transcript was blank (callbacks `onStart`, `onEmpty`, as `Turn.Begin` gives them) reaches the client as `assistant.start` then `assistant.empty`, and leaves the history unchanged |
| Session.PairedAppend | packages/server/src/server.ts:49-61 | frame runs in which every audio message is followed by its audio stay so when joined |
| Session.FramesWellFormed | packages/server/src/server.ts:46-76 | in the frames of any run of callbacks, every `assistant.audio` message is immediately followed by one binary frame, every binary frame follows one, and every error is recoverable |
| Session.CompletedTurnFrames | packages/server/src/server.ts:46-67 | the client sees a completed turn start with `assistant.start` and end with `assistant.done` |
| Session.Evict | packages/server/src/server.ts:86-88 | eviction keeps the newest `min(n, 40)` messages, dropping the oldest first |
| Session.EvictKeepsAlternating | packages/server/src/server.ts:86-88 | evicting from an alternating history of whole turns leaves it alternating |
| Session.PushTurnAlternating | packages/server/src/server.ts:82-83 | pushing the user's message and then the assistant's keeps the history alternating |
| Session.Remember | packages/server/src/server.ts:81-89 | defines the history after a turn: unchanged without a transcript; otherwise the user's and the assistant's messages are pushed and the oldest evicted down to 40 |
| Session.RememberSpec | packages/server/src/server.ts:81-89 | after any turn the history alternates user and assistant, starting with the user, and has at most 40 messages; a turn without a transcript leaves it unchanged, and one with a transcript leaves its two messages newest |
| Session.Connection.constructor | packages/server/src/server.ts:34 | a connection starts with an empty history |
| Session.Connection.Send | packages/server/src/server.ts:46-76 | a callback appends its frames to what the client has received |
| Session.Connection.Finish | packages/server/src/server.ts:80-97 | a thrown turn sends a recoverable error and leaves the history unchanged; a returned one pushes the pair when the transcript is non-empty, then shifts while more than 40 remain |
| Session.Connection.SendAll | packages/server/src/server.ts:46-76 | the turn's callbacks reach the client as their frames, in callback order |
| Session.Connection.Respond | packages/server/src/server.ts:36-98 | one message of the client: all callback frames in order, then the turn's end |

## Left out

- Audio conversion (ffmpeg), speech-to-text, the chat model, speech synthesis and Rhubarb are not modelled. They appear as inputs:
  - a `Transcription` (a transcript, or the exception that conversion or transcription threw);
  - the chat chunks passed one by one to `ProducerChunk`;
  - a `Synthesis` per sentence (audio and mouth cues, or the exception).
- The chat history passed to the chat model is not modelled, since the model's answer is an input.
- The 50 ms polling timer is a step of `ConsumerTake` that changes nothing. Real time is not modelled.
- When the chat stream throws, the consumer loop is never joined and may go on voicing queued sentences. `ProducerFail` ends the turn with the exception, and no consumer step is modelled after it.
- The consumer is modelled with two steps, taking a sentence and delivering its report. Its awaits make those two steps separate.
- A callback that itself throws is not modelled.
- An exception that is not an `Error` (the server's "Unknown error" message and `String(err)` in `onError`) is not modelled. Every exception carries a message string.
- JSON encoding of frames, Fastify, the `/health` route and the command-line entry point are not modelled.
- The `audio` field of `AssistantAudioMessage` is not modelled. Its bytes travel in the binary frame that follows the JSON message.
- Lower-casing covers ASCII letters only. `toLowerCase` on other characters is not modelled.
- Times and weights are exact reals. JavaScript's floating-point rounding is not modelled.
- `VisemeMapper.ShapeWeights`: an unknown shape name gives an empty table. A name that hits a property of `Object.prototype` is not modelled.
- `VisemeMapper.BlendShapes`: the result is a map, so the key order of the JavaScript object is not modelled.
- `Session.Connection.Respond`: turns on one connection are modelled one after the other. The server can run several at once on the same history.
- `Orchestrator.Turn.EndedStream`: text conservation is stated for non-whitespace characters only, because the trimmed buffer drops whitespace between chunks.
