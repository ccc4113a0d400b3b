/**
 * One WebSocket connection of the server: every binary message from the
 * client is one voice turn. The turn's callbacks become frames sent to the
 * client, and a turn that returns with a transcript adds the user's words and
 * the reply to the connection's chat history, which keeps the last 40
 * messages.
 */
module Session {
  import opened Shared
  import opened Orchestrator

  /** The history keeps at most this many messages: the last 20 turns. */
  const MaxHistory: nat := 40

  /** A WebSocket frame: a JSON server message, or raw audio bytes. */
  datatype Frame = Text(message: ServerMessage) | Binary(data: seq<bv8>)

  predicate IsAudioHeader(f: Frame) {
    f.Text? && f.message.AssistantAudio?
  }

  /** Every `assistant.audio` message is followed by its audio, and every audio frame follows one. */
  predicate Paired(fs: seq<Frame>) {
    && (forall k :: 0 <= k < |fs| && IsAudioHeader(fs[k]) ==> k + 1 < |fs| && fs[k + 1].Binary?)
    && (forall k :: 0 <= k < |fs| && fs[k].Binary? ==> 0 < k && IsAudioHeader(fs[k - 1]))
  }

  /** Every error the server sends says the client may go on. */
  predicate ErrorsRecoverable(fs: seq<Frame>) {
    forall k :: 0 <= k < |fs| && fs[k].Text? && fs[k].message.Error? ==> fs[k].message.recoverable
  }

  /** The frames the server sends for one callback of the turn. */
  function FramesFor(cb: Callback): (fs: seq<Frame>)
    ensures Paired(fs) && ErrorsRecoverable(fs)
    ensures cb.OnAudio? <==> |fs| == 2
    ensures cb.OnAudio? ==> fs == [Text(AssistantAudio(cb.visemes, cb.sentenceIndex, cb.isFinal)), Binary(cb.audio)]
    ensures cb.OnStart? ==> fs == [Text(AssistantStart)]
    ensures cb.OnDone? ==> fs == [Text(AssistantDone)]
    ensures cb.OnEmpty? ==> fs == [Text(AssistantEmpty)]
    ensures cb.OnError? ==> fs == [Text(Error(cb.message, true))]
  {
    match cb
    case OnStart => [Text(AssistantStart)]
    case OnAudio(audio, visemes, sentenceIndex, isFinal) =>
      [Text(AssistantAudio(visemes, sentenceIndex, isFinal)), Binary(audio)]
    case OnDone => [Text(AssistantDone)]
    case OnEmpty => [Text(AssistantEmpty)]
    case OnError(message) => [Text(Error(message, true))]
  }

  /** The frames for a run of callbacks, in order. */
  function Frames(events: seq<Callback>): seq<Frame> {
    if events == [] then [] else Frames(events[..|events| - 1]) + FramesFor(events[|events| - 1])
  }

  /** The frame sent when the turn throws. */
  function Failure(message: string): (f: Frame)
    ensures ErrorsRecoverable([f]) && !IsAudioHeader(f) && !f.Binary?
    ensures f == Text(Error(message, true))
  {
    Text(Error(message, true))
  }

  /** Two paired runs of frames joined are paired. */
  lemma PairedAppend(a: seq<Frame>, b: seq<Frame>)
    requires Paired(a) && Paired(b)
    ensures Paired(a + b)
  {
    var c := a + b;
    forall k | 0 <= k < |c| && IsAudioHeader(c[k]) ensures k + 1 < |c| && c[k + 1].Binary? {
      if k < |a| {
        assert IsAudioHeader(a[k]);
      } else {
        assert IsAudioHeader(b[k - |a|]);
      }
    }
    forall k | 0 <= k < |c| && c[k].Binary? ensures 0 < k && IsAudioHeader(c[k - 1]) {
      if k < |a| {
        assert a[k].Binary?;
      } else {
        assert b[k - |a|].Binary?;
      }
    }
  }

  lemma RecoverableAppend(a: seq<Frame>, b: seq<Frame>)
    requires ErrorsRecoverable(a) && ErrorsRecoverable(b)
    ensures ErrorsRecoverable(a + b)
  {
    var c := a + b;
    forall k | 0 <= k < |c| && c[k].Text? && c[k].message.Error? ensures c[k].message.recoverable {
      if k < |a| {
        assert c[k] == a[k];
      } else {
        assert c[k] == b[k - |a|];
      }
    }
  }

  /** The frames of any run of callbacks pair every audio message with its audio, and all errors are recoverable. */
  lemma {:induction false} FramesWellFormed(events: seq<Callback>)
    ensures Paired(Frames(events)) && ErrorsRecoverable(Frames(events))
  {
    if events != [] {
      var init := events[..|events| - 1];
      FramesWellFormed(init);
      PairedAppend(Frames(init), FramesFor(events[|events| - 1]));
      RecoverableAppend(Frames(init), FramesFor(events[|events| - 1]));
    }
  }

  lemma FramesAppend(a: seq<Callback>, e: Callback)
    ensures Frames(a + [e]) == Frames(a) + FramesFor(e)
  {
    assert (a + [e])[..|a|] == a;
  }

  /** Each callback gives at least one frame. */
  lemma {:induction false} FramesLength(events: seq<Callback>)
    ensures |Frames(events)| >= |events|
  {
    if events != [] {
      FramesLength(events[..|events| - 1]);
    }
  }

  /** The frames of a run of callbacks begin with those of its first callback. */
  lemma {:induction false} FramesStart(events: seq<Callback>)
    requires events != []
    ensures |FramesFor(events[0])| <= |Frames(events)|
    ensures Frames(events)[..|FramesFor(events[0])|] == FramesFor(events[0])
  {
    var init := events[..|events| - 1];
    if init == [] {
      assert Frames(events) == FramesFor(events[0]);
    } else {
      FramesStart(init);
      assert init[0] == events[0];
    }
  }

  /**
   * A turn that chatted and returned is seen by the client as
   * `assistant.start` first and `assistant.done` last, with every audio
   * message followed by its audio.
   */
  lemma CompletedTurnFrames(events: seq<Callback>)
    requires CompletedTurn(events)
    ensures var fs := Frames(events);
      && |fs| >= 2 && fs[0] == Text(AssistantStart) && fs[|fs| - 1] == Text(AssistantDone)
      && Paired(fs) && ErrorsRecoverable(fs)
  {
    FramesWellFormed(events);
    FramesLength(events);
    FramesStart(events);
    assert events == events[..|events| - 1] + [OnDone];
    FramesAppend(events[..|events| - 1], OnDone);
  }

  /**
   * A turn whose transcript was blank is seen by the client as
   * `assistant.start` then `assistant.empty`, and leaves the history as it was.
   */
  lemma BlankTurnFrames(h: seq<Message>)
    ensures Frames([OnStart, OnEmpty]) == [Text(AssistantStart), Text(AssistantEmpty)]
    ensures Remember(h, "", "") == h
  {
    FramesAppend([OnStart], OnEmpty);
    assert Frames([OnStart]) == Frames([]) + FramesFor(OnStart);
  }

  /** The history alternates user and assistant messages, starting with the user's. */
  predicate Alternating(h: seq<Message>) {
    && |h| % 2 == 0
    && forall i :: 0 <= i < |h| ==> h[i].role == (if i % 2 == 0 then User else Assistant)
  }

  /** What the eviction loop leaves: the oldest messages dropped one by one until at most 40 remain. */
  function Evict(h: seq<Message>): (r: seq<Message>)
    ensures |r| == if |h| > MaxHistory then MaxHistory else |h|
    ensures r == h[|h| - |r|..]
  {
    if |h| > MaxHistory then h[|h| - MaxHistory..] else h
  }

  /** Evicting from an alternating history keeps it alternating, since whole turns go. */
  lemma EvictKeepsAlternating(h: seq<Message>)
    requires Alternating(h)
    ensures Alternating(Evict(h))
  {
    var r := Evict(h);
    var d := |h| - |r|;
    assert d % 2 == 0;
    forall i | 0 <= i < |r| ensures r[i].role == (if i % 2 == 0 then User else Assistant) {
      assert r[i] == h[d + i];
      assert (d + i) % 2 == i % 2;
    }
  }

  /** A turn of the user's words and the reply appended to an alternating history keeps it alternating. */
  lemma PushTurnAlternating(h: seq<Message>, userText: string, assistantText: string)
    requires Alternating(h)
    ensures Alternating(h + [Message(User, userText), Message(Assistant, assistantText)])
  {
    var h' := h + [Message(User, userText), Message(Assistant, assistantText)];
    forall i | 0 <= i < |h'| ensures h'[i].role == (if i % 2 == 0 then User else Assistant) {
      if i < |h| {
        assert h'[i] == h[i];
      }
    }
  }

  /** The history after a turn that returned `userText` and `assistantText`. */
  function Remember(h: seq<Message>, userText: string, assistantText: string): seq<Message> {
    if userText != [] then Evict(h + [Message(User, userText), Message(Assistant, assistantText)]) else h
  }

  /**
   * The history stays alternating and within 40 messages, and a turn with a
   * transcript leaves its two messages newest.
   */
  lemma RememberSpec(h: seq<Message>, userText: string, assistantText: string)
    requires Alternating(h) && |h| <= MaxHistory
    ensures var r := Remember(h, userText, assistantText);
      && Alternating(r) && |r| <= MaxHistory
      && (userText == [] ==> r == h)
      && (userText != [] ==> |r| >= 2 && r[|r| - 2..] == [Message(User, userText), Message(Assistant, assistantText)])
  {
    if userText != [] {
      PushTurnAlternating(h, userText, assistantText);
      EvictKeepsAlternating(h + [Message(User, userText), Message(Assistant, assistantText)]);
    }
  }

  /** The state of one connection: its chat history and the frames sent to the client so far. */
  class Connection {
    var history: seq<Message>
    var frames: seq<Frame>

    ghost predicate HistoryValid()
      reads this`history
    {
      Alternating(history) && |history| <= MaxHistory
    }

    ghost predicate FramesValid()
      reads this`frames
    {
      Paired(frames) && ErrorsRecoverable(frames)
    }

    ghost predicate Valid()
      reads this
    {
      HistoryValid() && FramesValid()
    }

    /** A new connection has an empty history. */
    constructor ()
      ensures Valid() && history == [] && frames == []
    {
      history, frames := [], [];
    }

    /** One callback of the running turn, sent to the client. */
    method Send(cb: Callback)
      requires Valid()
      modifies this`frames
      ensures Valid()
      ensures frames == old(frames) + FramesFor(cb)
    {
      PairedAppend(frames, FramesFor(cb));
      RecoverableAppend(frames, FramesFor(cb));
      frames := frames + FramesFor(cb);
    }

    /**
     * The turn is over. When it threw, the client gets a recoverable error;
     * when it returned a transcript, the two messages are pushed onto the
     * history and the oldest shifted off while more than 40 remain.
     */
    method Finish(outcome: Status)
      requires Valid() && !outcome.Running?
      modifies this`history, this`frames
      ensures Valid()
      ensures outcome.Threw? ==> frames == old(frames) + [Failure(outcome.message)] && history == old(history)
      ensures outcome.Returned? ==>
        frames == old(frames) && history == Remember(old(history), outcome.userText, outcome.assistantText)
    {
      match outcome
      case Threw(message) =>
        PairedAppend(frames, [Failure(message)]);
        RecoverableAppend(frames, [Failure(message)]);
        frames := frames + [Failure(message)];
      case Returned(userText, assistantText) =>
        RememberSpec(history, userText, assistantText);
        if userText != [] {
          var h := history + [Message(User, userText), Message(Assistant, assistantText)];
          ghost var full := h;
          while |h| > MaxHistory
            invariant h == full[|full| - |h|..]
            invariant |h| < |full| ==> |h| >= MaxHistory
          {
            h := h[1..];
          }
          history := h;
        }
    }

    /** The callbacks `events` sent to the client in order, each as `Send` sends it. */
    method SendAll(events: seq<Callback>)
      requires Valid()
      modifies this`frames
      ensures Valid()
      ensures frames == old(frames) + Frames(events)
    {
      FramesWellFormed(events);
      PairedAppend(frames, Frames(events));
      RecoverableAppend(frames, Frames(events));
      frames := frames + Frames(events);
    }

    /**
     * A whole turn as the client sees it: each callback's frames in order,
     * then the turn's end.
     */
    method Respond(events: seq<Callback>, outcome: Status)
      requires Valid() && !outcome.Running?
      modifies this`history, this`frames
      ensures Valid()
      ensures frames == old(frames) + Frames(events) + (if outcome.Threw? then [Failure(outcome.message)] else [])
      ensures history == if outcome.Returned? then Remember(old(history), outcome.userText, outcome.assistantText)
                         else old(history)
    {
      SendAll(events);
      Finish(outcome);
    }
  }
}
