/** The lip-sync examples, worked out on the model. */
module VisemeExamples {
  import opened Shared
  import opened VisemeMapper

  /** Four Rhubarb cues give four viseme cues with the same shapes and times. */
  lemma MapsFourCues()
    ensures var vs := MapRhubarbToVisemes([
        MouthCue(0.0, 0.07, "X"), MouthCue(0.07, 0.3, "B"),
        MouthCue(0.3, 0.6, "D"), MouthCue(0.6, 0.8, "X")]);
      && |vs| == 4
      && vs[0] == VisemeCue(0.0, "X", 1.0, 0.07)
      && vs[2].shape == "D" && vs[2].duration == 0.3
  {
  }

  lemma MapsNoCues()
    ensures MapRhubarbToVisemes([]) == []
  {
  }

  /** Shape D at the start of its cue opens the jaw to 0.8. */
  lemma OpenAtCueStart()
    ensures var w := Interpolated([VisemeCue(0.0, "D", 1.0, 0.5)], 0.0);
      "jawOpen" in w && w["jawOpen"] == 0.8
  {
    var cues := [VisemeCue(0.0, "D", 1.0, 0.5)];
    HoldsShape(cues, 0.0, 0);
  }

  /** 40 ms before the rest shape gives way to D, the jaw is half way to D's 0.8. */
  lemma BlendsTowardOpen()
    ensures var w := Interpolated([VisemeCue(0.0, "X", 1.0, 0.2), VisemeCue(0.2, "D", 1.0, 0.3)], 0.16);
      "jawOpen" in w && w["jawOpen"] == 0.4 && 0.0 < w["jawOpen"] < 0.8
  {
    var cues := [VisemeCue(0.0, "X", 1.0, 0.2), VisemeCue(0.2, "D", 1.0, 0.3)];
    assert Remaining(cues[0], 0.16) == 0.04;
    BlendWindow(cues, 0.16, 0);
    assert 1.0 - 0.04 / LerpDuration == 0.5;
  }
}
