/**
 * The producer worked out on a two-chunk reply whose first chunk ends in a
 * space. The buffer is replaced by a trimmed sentence, so that space is gone
 * before the next chunk is appended and two words of the reply are voiced as
 * one, while the reply text itself keeps them apart.
 */
module OrchestratorExamples {
  import opened Wrappers
  import opened Text
  import opened Segmenter
  import opened Orchestrator

  lemma FirstChunkBoundaries()
    ensures NextBoundary("Hi. How", 0) == Some(Match(2, 4))
    ensures NextBoundary("Hi. How", 4) == None
  {
    assert WhitespaceRunEnd("Hi. How", 3) == 4;
  }

  /** "Hi" is not one of the abbreviations. */
  lemma HiIsNoAbbreviation()
    ensures AbbreviationWord("Hi.") == "hi" && AbbreviationWord("Hi.") !in Abbreviations
  {
    assert "Hi."[..2] == "Hi";
    assert "Hi"[..1] == "H";
    assert "H"[..0] == "";
    assert LastWord("Hi.") == "Hi.";
    assert ToLower("Hi") == "hi";
  }

  /** The chunk trims to "Hi. How", whose two pieces are already trimmed. */
  lemma FirstChunkPieces()
    ensures var r := "Hi. How";
      Trim("Hi. How ") == r && Trim(r[0..3]) == "Hi." && Trim(r[4..]) == "How"
  {
    var r := "Hi. How";
    assert "Hi. How "[..7] == r;
    assert Trim("Hi. How ") == r;
    assert r[0..3] == "Hi.";
    assert IsTrimmed("Hi.");
    TrimOfTrimmed("Hi.");
    assert r[4..] == "How";
    assert IsTrimmed("How");
    TrimOfTrimmed("How");
  }

  /** The first chunk splits into "Hi." and the trimmed fragment "How". */
  lemma FirstChunkSplits()
    ensures Sentences("Hi. How ") == ["Hi.", "How"]
  {
    FirstChunkPieces();
    FirstChunkBoundaries();
    HiIsNoAbbreviation();
    ScanStep("Hi. How", 0, 0, [], Match(2, 4));
  }

  lemma NoBoundaryInSecond()
    ensures NextBoundary("Howare you?", 0) == None
  {
    assert NextBoundary("Howare you?", 5) == None;
  }

  /** The buffer and the second chunk hold no boundary. */
  lemma SecondChunkSplits()
    ensures Sentences("How" + "are you?") == ["Howare you?"]
  {
    var r := "Howare you?";
    assert "How" + "are you?" == r;
    assert IsTrimmed(r);
    TrimOfTrimmed(r);
    NoBoundaryInSecond();
    assert r[0..] == r;
  }

  lemma FeedFirst()
    ensures Feed(Producer([], [], []), "Hi. How ") == Producer("Hi. How ", "How", ["Hi."])
  {
    assert [] + "Hi. How " == "Hi. How ";
    FirstChunkSplits();
  }

  lemma FeedSecond()
    ensures Feed(Producer("Hi. How ", "How", ["Hi."]), "are you?") == Producer("Hi. How are you?", "Howare you?", ["Hi."])
  {
    SecondChunkSplits();
  }

  lemma FedOnce()
    ensures FeedAll(["Hi. How "]) == Producer("Hi. How ", "How", ["Hi."])
  {
    var c := ["Hi. How "];
    assert c[..0] == [];
    FeedFirst();
  }

  lemma FedTwice()
    ensures FeedAll(["Hi. How ", "are you?"]) == Producer("Hi. How are you?", "Howare you?", ["Hi."])
  {
    var c := ["Hi. How ", "are you?"];
    assert c[..1] == ["Hi. How "];
    FedOnce();
    FeedSecond();
  }

  lemma FlushedAfterTwo()
    ensures Flushed(Producer("Hi. How are you?", "Howare you?", ["Hi."])) == ["Hi.", "Howare you?"]
  {
    assert IsTrimmed("Howare you?");
    TrimOfTrimmed("Howare you?");
  }

  /**
   * The reply "Hi. How are you?" streamed as "Hi. How " and "are you?" is
   * kept whole as the reply, but queued as "Hi." and "Howare you?".
   */
  lemma TrimmedBufferMergesWords()
    ensures FeedAll(["Hi. How ", "are you?"]).fullText == "Hi. How are you?"
    ensures Flushed(FeedAll(["Hi. How ", "are you?"])) == ["Hi.", "Howare you?"]
  {
    FedTwice();
    FlushedAfterTwo();
  }
}
