/**
 * The segmenter's examples, worked out on the model: two sentences split at a
 * period, two at a question mark, one sentence without a boundary, the empty
 * string, and an abbreviation that does not end a sentence.
 */
module SegmenterExamples {
  import opened Wrappers
  import opened Text
  import opened Segmenter

  lemma PeriodBoundaryLast()
    ensures NextBoundary("Hello world. How are you?", 13) == None
  {
  }

  lemma PeriodBoundaryNear()
    ensures NextBoundary("Hello world. How are you?", 6) == Some(Match(11, 13))
  {
    var r := "Hello world. How are you?";
    assert WhitespaceRunEnd(r, 12) == 13;
    assert NextBoundary(r, 11) == Some(Match(11, 13));
    assert NextBoundary(r, 10) == Some(Match(11, 13));
    assert NextBoundary(r, 9) == Some(Match(11, 13));
    assert NextBoundary(r, 8) == Some(Match(11, 13));
    assert NextBoundary(r, 7) == Some(Match(11, 13));
  }

  lemma PeriodBoundaryFirst()
    ensures NextBoundary("Hello world. How are you?", 0) == Some(Match(11, 13))
  {
    var r := "Hello world. How are you?";
    PeriodBoundaryNear();
    assert NextBoundary(r, 5) == Some(Match(11, 13));
    assert NextBoundary(r, 4) == Some(Match(11, 13));
    assert NextBoundary(r, 3) == Some(Match(11, 13));
    assert NextBoundary(r, 2) == Some(Match(11, 13));
    assert NextBoundary(r, 1) == Some(Match(11, 13));
  }

  /** "world" is not one of the abbreviations. */
  lemma WorldIsNoAbbreviation()
    ensures AbbreviationWord("Hello world.") !in Abbreviations
  {
    assert "Hello world." == "Hello " + "world.";
    LastWordAfterSpace("Hello ", "world.");
    assert "world."[..5] == "world";
    assert ToLower("world") == "world";
  }

  /** The text and both of its pieces are already trimmed. */
  lemma PeriodPieces()
    ensures var r := "Hello world. How are you?";
      Trim(r) == r && Trim(r[0..12]) == "Hello world." && Trim(r[13..]) == "How are you?"
  {
    var r := "Hello world. How are you?";
    assert IsTrimmed(r);
    TrimOfTrimmed(r);
    assert r[0..12] == "Hello world.";
    assert IsTrimmed("Hello world.");
    TrimOfTrimmed("Hello world.");
    assert r[13..] == "How are you?";
    assert IsTrimmed("How are you?");
    TrimOfTrimmed("How are you?");
  }

  lemma SplitsOnPeriod()
    ensures Sentences("Hello world. How are you?") == ["Hello world.", "How are you?"]
  {
    PeriodPieces();
    PeriodBoundaryFirst();
    PeriodBoundaryLast();
    WorldIsNoAbbreviation();
    ScanStep("Hello world. How are you?", 0, 0, [], Match(11, 13));
  }

  lemma QuestionMarkBoundaries()
    ensures NextBoundary("What? Really!", 0) == Some(Match(4, 6))
    ensures NextBoundary("What? Really!", 6) == None
  {
    assert WhitespaceRunEnd("What? Really!", 5) == 6;
  }

  /** The text and both of its pieces are already trimmed. */
  lemma QuestionMarkPieces()
    ensures var r := "What? Really!";
      Trim(r) == r && Trim(r[0..5]) == "What?" && Trim(r[6..]) == "Really!"
  {
    var r := "What? Really!";
    assert IsTrimmed(r);
    TrimOfTrimmed(r);
    assert r[0..5] == "What?";
    assert IsTrimmed("What?");
    TrimOfTrimmed("What?");
    assert r[6..] == "Really!";
    assert IsTrimmed("Really!");
    TrimOfTrimmed("Really!");
  }

  lemma SplitsOnQuestionMark()
    ensures Sentences("What? Really!") == ["What?", "Really!"]
  {
    QuestionMarkPieces();
    QuestionMarkBoundaries();
    ScanStep("What? Really!", 0, 0, [], Match(4, 6));
  }

  lemma SingleSentence()
    ensures Sentences("Hello world") == ["Hello world"]
  {
    var r := "Hello world";
    assert IsTrimmed(r);
    TrimOfTrimmed(r);
    assert NextBoundary(r, 0) == None;
    assert r[0..] == r;
  }

  lemma EmptyString()
    ensures Sentences("") == []
  {
    TrimOfTrimmed("");
  }

  lemma AbbreviationBoundaryLast()
    ensures NextBoundary("Mr. Smith is here.", 4) == None
  {
  }

  lemma AbbreviationBoundaryFirst()
    ensures NextBoundary("Mr. Smith is here.", 0) == Some(Match(2, 4))
  {
    assert WhitespaceRunEnd("Mr. Smith is here.", 3) == 4;
  }

  /** "Mr." is one of the abbreviations. */
  lemma MrIsAbbreviation()
    ensures AbbreviationWord("Mr.") == "mr" && AbbreviationWord("Mr.") in Abbreviations
  {
    assert "Mr."[..2] == "Mr";
    assert "Mr"[..1] == "M";
    assert "M"[..0] == "";
    assert LastWord("Mr.") == "Mr.";
    assert ToLower("Mr") == "mr";
  }

  /** The text and the piece before its first boundary are already trimmed. */
  lemma AbbreviationPieces()
    ensures var r := "Mr. Smith is here.";
      Trim(r) == r && Trim(r[0..3]) == "Mr." && r[0..] == r
  {
    var r := "Mr. Smith is here.";
    assert IsTrimmed(r);
    TrimOfTrimmed(r);
    assert r[0..3] == "Mr.";
    assert IsTrimmed("Mr.");
    TrimOfTrimmed("Mr.");
  }

  lemma KeepsAbbreviation()
    ensures Sentences("Mr. Smith is here.") == ["Mr. Smith is here."]
  {
    AbbreviationPieces();
    AbbreviationBoundaryFirst();
    AbbreviationBoundaryLast();
    MrIsAbbreviation();
    ScanStep("Mr. Smith is here.", 0, 0, [], Match(2, 4));
  }
}
