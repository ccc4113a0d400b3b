/**
 * One voice turn: transcribe the user's speech, stream the assistant's reply,
 * cut it into sentences as it arrives, and voice the sentences one by one.
 *
 * The reply is handled by two cooperating loops that share a sentence queue.
 * The producer appends each streamed chunk to a buffer, re-segments it, and
 * queues every complete sentence. The consumer takes sentences off the front
 * of the queue, numbers them, and reports each one as audio or as an error.
 * JavaScript runs them on one thread and switches only at `await`. Each
 * method of `Turn` runs at most one await-free stretch: the consumer's
 * report and its next take are split over `ConsumerDeliver` and
 * `ConsumerTake`, which only adds interleavings, and `Begin` spans the two
 * awaits before the chat, when no other part of the turn runs yet. Any
 * interleaving of the methods that their preconditions allow keeps
 * `Turn.Valid()`, so every schedule the source can run keeps it.
 */
module Orchestrator {
  import opened Wrappers
  import opened Text
  import opened Segmenter
  import opened Shared
  import opened VisemeMapper

  /** The consumer stops once this many sentences have been numbered. */
  const MaxSentences: nat := 20

  /** The callbacks a turn makes, in the order it makes them. */
  datatype Callback =
    | OnStart
    | OnAudio(audio: seq<bv8>, visemes: seq<VisemeCue>, sentenceIndex: nat, isFinal: bool)
    | OnDone
    | OnEmpty
    | OnError(message: string)

  /** What conversion to WAV followed by speech-to-text gave: a transcript or an exception. */
  datatype Transcription = Transcribed(text: string) | TranscriptionFailed(message: string)

  /**
   * What voicing one sentence gave: the speech audio and Rhubarb's mouth cues
   * for it, or the exception that synthesis, conversion or phoneme extraction
   * threw.
   */
  datatype Synthesis = Synthesized(audio: seq<bv8>, mouthCues: seq<MouthCue>) | SynthesisFailed(message: string)

  /** Whether the turn is still running, has returned its texts, or has thrown. */
  datatype Status = Running | Returned(userText: string, assistantText: string) | Threw(message: string)

  /** Where the consumer loop is. */
  datatype Consumer =
    | AtLoopHead                          // about to test the loop condition
    | Awaiting(sentence: string, index: nat)  // voicing the sentence it took
    | Exited

  predicate IsFinalAudio(e: Callback) {
    e.OnAudio? && e.isFinal
  }

  /** The report of the sentence numbered `k`: its audio, or an error. */
  predicate IsReport(e: Callback, k: nat) {
    e.OnError? || (e.OnAudio? && e.sentenceIndex == k)
  }

  /** Reports one per numbered sentence, in number order, a final one only last. */
  predicate ReportsInOrder(rs: seq<Callback>) {
    && (forall k :: 0 <= k < |rs| ==> IsReport(rs[k], k))
    && (forall k :: 0 <= k < |rs| && IsFinalAudio(rs[k]) ==> k == |rs| - 1)
  }

  /**
   * At most one audio report is final, and it carries the largest sentence
   * number of all audio reports.
   */
  lemma FinalIsUnique(rs: seq<Callback>)
    requires ReportsInOrder(rs)
    ensures forall i, j :: 0 <= i < |rs| && 0 <= j < |rs| && IsFinalAudio(rs[i]) && IsFinalAudio(rs[j]) ==> i == j
    ensures forall i, j :: 0 <= i < |rs| && 0 <= j < |rs| && IsFinalAudio(rs[i]) && rs[j].OnAudio? ==>
      rs[j].sentenceIndex <= rs[i].sentenceIndex
  {
    forall i, j | 0 <= i < |rs| && 0 <= j < |rs| && IsFinalAudio(rs[i]) && rs[j].OnAudio?
      ensures rs[j].sentenceIndex <= rs[i].sentenceIndex
    {
      assert IsReport(rs[i], i) && IsReport(rs[j], j);
    }
  }

  /** A report for the next number may follow reports none of which was final. */
  lemma ReportsExtend(rs: seq<Callback>, e: Callback)
    requires ReportsInOrder(rs) && IsReport(e, |rs|)
    requires forall k :: 0 <= k < |rs| ==> !IsFinalAudio(rs[k])
    ensures ReportsInOrder(rs + [e])
  {
    var rs' := rs + [e];
    forall k | 0 <= k < |rs'| ensures IsReport(rs'[k], k) {
      if k < |rs| {
        assert rs'[k] == rs[k];
      }
    }
  }

  /**
   * The callbacks of a turn that chatted and returned: the start, one report
   * for each of at most 20 numbered sentences, and the end.
   */
  predicate CompletedTurn(events: seq<Callback>) {
    && 2 <= |events| <= MaxSentences + 2
    && events[0] == OnStart
    && events[|events| - 1] == OnDone
    && ReportsInOrder(events[1..|events| - 1])
  }

  /** The start, at most 20 reports in order, and the end make a completed turn. */
  lemma EndsCompletedTurn(reports: seq<Callback>)
    requires ReportsInOrder(reports) && |reports| <= MaxSentences
    ensures CompletedTurn([OnStart] + reports + [OnDone])
  {
    var events := [OnStart] + reports + [OnDone];
    assert events[1..|events| - 1] == reports;
  }

  /** The callback for the sentence numbered `index`, once voicing it gave `outcome`. */
  function Report(outcome: Synthesis, index: nat, isFinal: bool): (e: Callback)
    ensures IsReport(e, index)
    ensures IsFinalAudio(e) ==> isFinal
    ensures outcome.Synthesized? ==> e == OnAudio(outcome.audio, MapRhubarbToVisemes(outcome.mouthCues), index, isFinal)
    ensures outcome.SynthesisFailed? ==> e == OnError(outcome.message)
  {
    match outcome
    case Synthesized(audio, cues) => OnAudio(audio, MapRhubarbToVisemes(cues), index, isFinal)
    case SynthesisFailed(message) => OnError(message)
  }

  /**
   * What the producer has built from the chat stream: the whole reply so
   * far, the pending fragment, and the sentences it has queued.
   */
  datatype Producer = Producer(fullText: string, buffer: string, queued: seq<string>)

  /**
   * One chunk of the chat stream: it is appended to the reply and to the
   * buffer; when the buffer then splits into more than one sentence, all but
   * the last are queued in order and the last becomes the buffer.
   */
  function Feed(p: Producer, chunk: string): Producer {
    FeedWith(p, chunk, Sentences(p.buffer + chunk))
  }

  /** `Feed`, once the buffer with the chunk appended has been split into the sentences `s`. */
  function FeedWith(p: Producer, chunk: string, s: seq<string>): Producer {
    if |s| > 1 then Producer(p.fullText + chunk, s[|s| - 1], p.queued + s[..|s| - 1])
    else Producer(p.fullText + chunk, p.buffer + chunk, p.queued)
  }

  /** The producer after the chunks `chunks`, from an empty reply. */
  function FeedAll(chunks: seq<string>): Producer {
    if chunks == [] then Producer([], [], [])
    else Feed(FeedAll(chunks[..|chunks| - 1]), chunks[|chunks| - 1])
  }

  /** The sentences queued once the stream has ended: a non-blank buffer goes last, trimmed. */
  function Flushed(p: Producer): seq<string> {
    if Trim(p.buffer) != [] then p.queued + [Trim(p.buffer)] else p.queued
  }

  /** The queued sentences and the buffer hold the non-whitespace characters of the reply, in order. */
  predicate KeepsText(p: Producer) {
    NonWhitespace(Concat(p.queued) + p.buffer) == NonWhitespace(p.fullText)
  }

  predicate AllSentences(ss: seq<string>) {
    forall i :: 0 <= i < |ss| ==> IsSentence(ss[i])
  }

  lemma AppendAssociates(q: string, b: string, c: string)
    ensures q + (b + c) == (q + b) + c
  {
  }

  lemma AppendKeepsText(x: string, y: string, c: string)
    requires NonWhitespace(x) == NonWhitespace(y)
    ensures NonWhitespace(x + c) == NonWhitespace(y + c)
  {
    NonWhitespaceAppend(x, c);
    NonWhitespaceAppend(y, c);
  }

  /** Appending the same text on both sides keeps two strings' non-whitespace characters equal. */
  lemma KeepsAppended(q: string, b: string, c: string, f: string)
    requires NonWhitespace(q + b) == NonWhitespace(f)
    ensures NonWhitespace(q + (b + c)) == NonWhitespace(f + c)
  {
    AppendAssociates(q, b, c);
    AppendKeepsText(q + b, f, c);
  }

  /**
   * Queueing all but the last of the sentences `s` of `t` and keeping the
   * last as the buffer keeps the non-whitespace characters of `t`.
   */
  lemma SplitKeepsText(qs: seq<string>, s: seq<string>, t: string)
    requires |s| > 0 && NonWhitespace(Concat(s)) == NonWhitespace(t)
    ensures NonWhitespace(Concat(qs + s[..|s| - 1]) + s[|s| - 1]) == NonWhitespace(Concat(qs) + t)
  {
    var init, last := s[..|s| - 1], s[|s| - 1];
    var a := Concat(qs);
    assert Concat(qs + init) + last == a + Concat(s) by {
      ConcatAppend(qs, init);
    }
    assert NonWhitespace(a + Concat(s)) == NonWhitespace(a + t) by {
      NonWhitespaceAppend(a, Concat(s));
      NonWhitespaceAppend(a, t);
    }
  }

  /** Re-segmenting the buffer after a chunk loses no text. */
  lemma FeedKeepsText(p: Producer, chunk: string)
    requires KeepsText(p)
    ensures KeepsText(Feed(p, chunk))
  {
    KeepsAppended(Concat(p.queued), p.buffer, chunk, p.fullText);
    var s := Sentences(p.buffer + chunk);
    if |s| > 1 {
      SentencesKeepText(p.buffer + chunk);
      SplitKeepsText(p.queued, s, p.buffer + chunk);
    }
  }

  /** Only sentences are ever queued. */
  lemma FeedKeepsSentences(p: Producer, chunk: string)
    requires AllSentences(p.queued)
    ensures AllSentences(Feed(p, chunk).queued)
  {
    var s := Sentences(p.buffer + chunk);
    SentencesShape(p.buffer + chunk);
    if |s| > 1 {
      var q := p.queued + s[..|s| - 1];
      forall i | 0 <= i < |q| ensures IsSentence(q[i]) {
        if i >= |p.queued| {
          assert q[i] == s[i - |p.queued|];
        }
      }
    }
  }

  /** The reply is the chunks joined, and the producer keeps its text and queues only sentences. */
  lemma {:induction false} FeedAllSpec(chunks: seq<string>)
    ensures FeedAll(chunks).fullText == Concat(chunks)
    ensures KeepsText(FeedAll(chunks))
    ensures AllSentences(FeedAll(chunks).queued)
  {
    if chunks != [] {
      var init := chunks[..|chunks| - 1];
      FeedAllSpec(init);
      FeedKeepsText(FeedAll(init), chunks[|chunks| - 1]);
      FeedKeepsSentences(FeedAll(init), chunks[|chunks| - 1]);
    }
  }

  /** Flushing the buffer loses no text and queues only a sentence. */
  lemma FlushedSpec(p: Producer)
    requires KeepsText(p) && AllSentences(p.queued)
    ensures NonWhitespace(Concat(Flushed(p))) == NonWhitespace(p.fullText)
    ensures AllSentences(Flushed(p))
  {
    NonWhitespaceAppend(Concat(p.queued), p.buffer);
    NonWhitespaceOfTrim(p.buffer);
    if Trim(p.buffer) != [] {
      ConcatSnoc(p.queued, Trim(p.buffer));
      NonWhitespaceAppend(Concat(p.queued), Trim(p.buffer));
      TrimIsSentence(p.buffer);
    } else {
      NonWhitespaceOfBlank(Trim(p.buffer));
    }
  }

  /**
   * Once the stream has ended, the queued sentences hold every
   * non-whitespace character of the whole reply, in order, and each of them
   * is a sentence.
   */
  lemma StreamKeepsText(chunks: seq<string>)
    ensures NonWhitespace(Concat(Flushed(FeedAll(chunks)))) == NonWhitespace(Concat(chunks))
    ensures AllSentences(Flushed(FeedAll(chunks)))
  {
    FeedAllSpec(chunks);
    FlushedSpec(FeedAll(chunks));
  }

  /** `trace` lists the producer's states as it takes the chunks `chunks` one by one. */
  predicate IsTrace(trace: seq<Producer>, chunks: seq<string>) {
    && |trace| == |chunks| + 1
    && trace[0] == Producer([], [], [])
    && forall i :: 0 <= i < |chunks| ==> Step(trace, chunks, i)
  }

  /** The producer took chunk `i` of the stream in one step. */
  predicate Step(trace: seq<Producer>, chunks: seq<string>, i: nat)
    requires i < |chunks| && |trace| == |chunks| + 1
  {
    trace[i + 1] == Feed(trace[i], chunks[i])
  }

  /** The last state of a trace is the producer after all its chunks. */
  lemma {:induction false} TraceEndsInFeedAll(trace: seq<Producer>, chunks: seq<string>)
    requires IsTrace(trace, chunks)
    ensures trace[|chunks|] == FeedAll(chunks)
  {
    if chunks != [] {
      var n := |chunks| - 1;
      var t, c := trace[..n + 1], chunks[..n];
      assert IsTrace(t, c) by {
        forall i | 0 <= i < n ensures Step(t, c, i) {
          assert Step(trace, chunks, i);
        }
      }
      TraceEndsInFeedAll(t, c);
      assert Step(trace, chunks, n);
    }
  }

  /** A trace grows by one step per chunk. */
  lemma TraceExtend(trace: seq<Producer>, chunks: seq<string>, chunk: string)
    requires IsTrace(trace, chunks)
    ensures IsTrace(trace + [Feed(trace[|chunks|], chunk)], chunks + [chunk])
  {
    var n := |chunks|;
    var t', c' := trace + [Feed(trace[n], chunk)], chunks + [chunk];
    assert |t'| == |c'| + 1 && t'[0] == trace[0];
    forall i | 0 <= i < |c'| ensures Step(t', c', i) {
      if i < n {
        assert Step(trace, chunks, i);
        assert t'[i + 1] == trace[i + 1] && t'[i] == trace[i] && c'[i] == chunks[i];
      } else {
        assert t'[i + 1] == Feed(trace[n], chunk) && t'[i] == trace[n] && c'[i] == chunk;
      }
    }
  }

  /**
   * Once the stream has ended, a producer that followed the chunks step by
   * step holds the chunks joined as its reply, and has queued sentences that
   * hold every non-whitespace character of that reply, in order.
   */
  lemma EndOfStream(trace: seq<Producer>, chunks: seq<string>, fullText: string, enqueued: seq<string>)
    requires IsTrace(trace, chunks)
    requires fullText == trace[|chunks|].fullText && enqueued == Flushed(trace[|chunks|])
    ensures fullText == Concat(chunks) && enqueued == Flushed(FeedAll(chunks))
    ensures NonWhitespace(Concat(enqueued)) == NonWhitespace(fullText) && AllSentences(enqueued)
  {
    TraceEndsInFeedAll(trace, chunks);
    FeedAllSpec(chunks);
    StreamKeepsText(chunks);
  }

  /** The state of one call of `processUserAudio`. */
  class Turn {
    var status: Status
    var userText: string
    var fullText: string
    var buffer: string
    var queue: seq<string>
    var sentenceIndex: nat
    var processingDone: bool
    /** The producer is still inside its loop over the chat stream. */
    var streaming: bool
    var consumer: Consumer
    /** The callbacks made so far. */
    var events: seq<Callback>

    /** The turn got past transcription and started the chat. */
    ghost var chatStarted: bool
    /** The chunks of the chat stream so far. */
    ghost var chunks: seq<string>
    /** The producer's state before the first chunk and after each one. */
    ghost var trace: seq<Producer>
    /** Every sentence ever queued, in order. */
    ghost var enqueued: seq<string>
    /** Every sentence the consumer took, in order. */
    ghost var dispatched: seq<string>
    /** The consumer's callbacks so far. */
    ghost var reports: seq<Callback>

    /** The callback that ends the turn once it has returned. */
    ghost function Ending(): seq<Callback>
      reads this`status, this`chatStarted
    {
      if status.Returned? then (if chatStarted then [OnDone] else [OnEmpty]) else []
    }

    /** The queue is a FIFO, and the cap bounds the numbering. */
    ghost predicate QueueValid()
      reads this`enqueued, this`dispatched, this`queue, this`sentenceIndex
    {
      && enqueued == dispatched + queue
      && |dispatched| == sentenceIndex <= MaxSentences
    }

    /** The producer's fields are what its specification gives for the chunks so far. */
    ghost predicate ProducerValid()
      reads this`chatStarted, this`streaming, this`fullText, this`buffer, this`enqueued, this`chunks, this`trace
    {
      && IsTrace(trace, chunks)
      && (streaming ==> Producer(fullText, buffer, enqueued) == trace[|chunks|])
      && (!streaming ==> fullText == trace[|chunks|].fullText && enqueued == Flushed(trace[|chunks|]))
    }

    ghost predicate ConsumerValid()
      reads this`status, this`chatStarted, this`streaming, this`consumer, this`sentenceIndex, this`dispatched, this`processingDone, this`queue, this`enqueued, this`reports
    {
      && (status.Running? ==> chatStarted)
      && (!chatStarted ==> !streaming && consumer.Exited? && enqueued == [] && reports == [])
      && (status.Returned? && chatStarted ==> !streaming && consumer.Exited?)
      && (consumer.AtLoopHead? ==> sentenceIndex < MaxSentences)
      && (consumer.Awaiting? ==>
            && consumer.index + 1 == sentenceIndex && consumer.index < |dispatched|
            && consumer.sentence == dispatched[consumer.index])
      && (processingDone && streaming ==> consumer.Exited?)
      && (consumer.Exited? && chatStarted && !status.Threw? ==>
            sentenceIndex == MaxSentences || (queue == [] && processingDone && !streaming))
    }

    ghost predicate EventsValid()
      reads this`events, this`reports, this`status, this`chatStarted, this`consumer, this`sentenceIndex, this`queue, this`processingDone, this`streaming
    {
      && events == [OnStart] + reports + Ending()
      && ReportsInOrder(reports)
      && |reports| == sentenceIndex - (if consumer.Awaiting? then 1 else 0)
      && (forall k :: 0 <= k < |reports| && IsFinalAudio(reports[k]) ==>
            !consumer.Awaiting? && queue == [] && processingDone && !streaming)
    }

    ghost predicate Valid()
      reads this
    {
      QueueValid() && ProducerValid() && ConsumerValid() && EventsValid()
    }

    /**
     * The start of the turn up to the chat: `onStart`, then the transcript.
     * A failed transcription throws; a blank one reports `onEmpty` and
     * returns two empty strings; any other starts the chat with both loops.
     */
    constructor Begin(transcription: Transcription)
      ensures Valid()
      ensures transcription.TranscriptionFailed? ==>
        status == Threw(transcription.message) && events == [OnStart]
      ensures transcription.Transcribed? && IsBlank(transcription.text) ==>
        status == Returned("", "") && events == [OnStart, OnEmpty]
      ensures transcription.Transcribed? && !IsBlank(transcription.text) ==>
        && status == Running && userText == transcription.text && events == [OnStart]
        && fullText == [] && buffer == [] && queue == [] && sentenceIndex == 0
        && !processingDone && streaming && consumer == AtLoopHead
    {
      fullText, buffer, queue, sentenceIndex, processingDone := [], [], [], 0, false;
      chunks, trace, enqueued, dispatched, reports := [], [Producer([], [], [])], [], [], [];
      events := [OnStart];
      streaming, consumer, chatStarted := false, Exited, false;
      match transcription
      case TranscriptionFailed(message) =>
        status, userText := Threw(message), [];
      case Transcribed(text) =>
        TrimEmptyIffBlank(text);
        if Trim(text) == [] {
          status, userText := Returned([], []), [];
          events := events + [OnEmpty];
        } else {
          status, userText := Running, text;
          streaming, consumer, chatStarted := true, AtLoopHead, true;
        }
    }

    /**
     * One chunk of the chat stream: appended to the buffer and the full
     * text; when the buffer then holds more than one sentence, all but the
     * last are queued in order and the last becomes the buffer.
     */
    method ProducerChunk(chunk: string)
      requires Valid() && status.Running? && streaming
      modifies this`trace, this`buffer, this`fullText, this`chunks, this`queue, this`enqueued
      ensures Valid()
      ensures fullText == old(fullText) + chunk
      ensures var s := Sentences(old(buffer) + chunk);
        if |s| > 1 then queue == old(queue) + s[..|s| - 1] && buffer == s[|s| - 1]
        else queue == old(queue) && buffer == old(buffer) + chunk
    {
      var sentences := SplitIntoSentences(buffer + chunk);
      TraceExtend(trace, chunks, chunk);
      trace, chunks := trace + [Feed(trace[|chunks|], chunk)], chunks + [chunk];
      Absorb(chunk, sentences);
    }

    /**
     * The chunk once the buffer with it appended has been split into
     * `sentences`: the buffer and the full text grow by the chunk, then all
     * but the last sentence are queued and the last becomes the buffer.
     */
    method Absorb(chunk: string, sentences: seq<string>)
      requires QueueValid() && ConsumerValid() && EventsValid() && status.Running? && streaming
      requires IsTrace(trace, chunks)
      requires trace[|chunks|] == FeedWith(Producer(fullText, buffer, enqueued), chunk, sentences)
      modifies this`buffer, this`fullText, this`queue, this`enqueued
      ensures Valid()
      ensures fullText == old(fullText) + chunk
      ensures if |sentences| > 1 then queue == old(queue) + sentences[..|sentences| - 1] && buffer == sentences[|sentences| - 1]
        else queue == old(queue) && buffer == old(buffer) + chunk
    {
      buffer := buffer + chunk;
      fullText := fullText + chunk;
      if |sentences| > 1 {
        var complete := sentences[..|sentences| - 1];
        Enqueue(complete);
        enqueued := enqueued + complete;
        buffer := sentences[|sentences| - 1];
      }
    }

    /** Pushes the sentences `ss` onto the back of the queue, one by one. */
    method Enqueue(ss: seq<string>)
      modifies this`queue
      ensures queue == old(queue) + ss
    {
      var i := 0;
      while i < |ss|
        invariant 0 <= i <= |ss|
        invariant queue == old(queue) + ss[..i]
      {
        queue := queue + [ss[i]];
        i := i + 1;
      }
      assert ss[..i] == ss;
    }

    /**
     * The end of the chat stream: a non-blank buffer is queued trimmed, and
     * the producer marks processing done.
     */
    method ProducerFinish()
      requires Valid() && status.Running? && streaming
      modifies this`queue, this`enqueued, this`processingDone, this`streaming
      ensures Valid()
      ensures queue == old(queue) + if Trim(old(buffer)) != [] then [Trim(old(buffer))] else []
      ensures processingDone && !streaming
      ensures && status == old(status) && fullText == old(fullText) && sentenceIndex == old(sentenceIndex)
              && consumer == old(consumer) && events == old(events)
    {
      if Trim(buffer) != [] {
        queue := queue + [Trim(buffer)];
        enqueued := enqueued + [Trim(buffer)];
      }
      processingDone := true;
      streaming := false;
    }

    /** The chat stream throws: the turn ends with that exception. */
    method ProducerFail(message: string)
      requires Valid() && status.Running? && streaming
      modifies this`status
      ensures Valid()
      ensures status == Threw(message)
      ensures && queue == old(queue) && sentenceIndex == old(sentenceIndex) && events == old(events)
    {
      status := Threw(message);
    }

    /**
     * The consumer at the head of its loop: it exits once the queue is empty
     * and processing is done, waits while the queue is empty, and otherwise
     * takes the first sentence and gives it the next number.
     */
    method ConsumerTake()
      requires Valid() && status.Running? && consumer.AtLoopHead?
      modifies this`consumer, this`queue, this`sentenceIndex, this`dispatched
      ensures Valid()
      ensures if old(queue) == [] && old(processingDone) then
          consumer.Exited? && queue == [] && sentenceIndex == old(sentenceIndex)
        else if old(queue) == [] then
          consumer.AtLoopHead? && queue == [] && sentenceIndex == old(sentenceIndex)
        else
          && consumer == Awaiting(old(queue)[0], old(sentenceIndex))
          && queue == old(queue)[1..] && sentenceIndex == old(sentenceIndex) + 1
      ensures && status == old(status) && fullText == old(fullText) && buffer == old(buffer)
              && processingDone == old(processingDone) && streaming == old(streaming)
              && events == old(events)
    {
      if !(|queue| > 0 || !processingDone) {
        consumer := Exited;
      } else if |queue| == 0 {
        // the 50 ms poll: nothing changes
      } else {
        var sentence := queue[0];
        assert forall k :: 0 <= k < |reports| ==> !IsFinalAudio(reports[k]);
        assert enqueued == (dispatched + [sentence]) + queue[1..];
        queue := queue[1..];
        var idx := sentenceIndex;
        sentenceIndex := sentenceIndex + 1;
        dispatched := dispatched + [sentence];
        consumer := Awaiting(sentence, idx);
      }
    }

    /**
     * The consumer once voicing its sentence has settled: it reports the
     * audio, final when the queue is empty and processing is done at that
     * moment, or the error; then it stops if the cap is reached.
     */
    method ConsumerDeliver(outcome: Synthesis)
      requires Valid() && status.Running? && consumer.Awaiting?
      modifies this`reports, this`events, this`processingDone, this`consumer
      ensures Valid()
      ensures events == old(events) + [Report(outcome, old(consumer.index), old(queue) == [] && old(processingDone))]
      ensures if sentenceIndex >= MaxSentences then processingDone && consumer.Exited?
              else processingDone == old(processingDone) && consumer.AtLoopHead?
      ensures && status == old(status) && fullText == old(fullText) && buffer == old(buffer)
              && queue == old(queue) && sentenceIndex == old(sentenceIndex) && streaming == old(streaming)
    {
      var isFinal := |queue| == 0 && processingDone;
      var e := Report(outcome, consumer.index, isFinal);
      ReportsExtend(reports, e);
      reports := reports + [e];
      events := events + [e];
      if sentenceIndex >= MaxSentences {
        processingDone := true;
        consumer := Exited;
      } else {
        consumer := AtLoopHead;
      }
    }

    /**
     * Both loops are over: `onDone`, and the turn returns the transcript and
     * the whole reply. Every queued sentence was voiced unless the cap was
     * reached, and the queued sentences hold all the text of the reply.
     */
    method Complete()
      requires Valid() && status.Running? && !streaming && consumer.Exited?
      modifies this`status, this`events
      ensures Valid()
      ensures status == Returned(userText, fullText) && events == old(events) + [OnDone]
      ensures CompletedTurn(events)
      ensures sentenceIndex == MaxSentences || (queue == [] && dispatched == enqueued)
    {
      assert CompletedTurn(events + [OnDone]) by {
        EndsCompletedTurn(reports);
      }
      status := Returned(userText, fullText);
      events := events + [OnDone];
    }

    /**
     * Once the chat stream has ended, the reply is the chunks joined, the
     * sentences queued are those the stream gives when flushed, and they
     * hold every non-whitespace character of the reply, in order.
     */
    lemma EndedStream()
      requires Valid() && chatStarted && !streaming
      ensures fullText == Concat(chunks) && enqueued == Flushed(FeedAll(chunks))
      ensures NonWhitespace(Concat(enqueued)) == NonWhitespace(fullText) && AllSentences(enqueued)
    {
      EndOfStream(trace, chunks, fullText, enqueued);
    }
  }
}
