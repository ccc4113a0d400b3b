/**
 * Lip-sync: Rhubarb's mouth cues become viseme cues, and at any playback time
 * the viseme cues give the blend-shape weights to show, easing into the next
 * cue over the last 80 ms of the current one.
 */
module VisemeMapper {
  import opened Wrappers
  import opened Shared

  /** One cue of Rhubarb's output: mouth shape `value` from `start` to `end` seconds. */
  datatype MouthCue = MouthCue(start: real, end: real, value: string)

  function ToViseme(c: MouthCue): VisemeCue {
    VisemeCue(c.start, c.value, 1.0, c.end - c.start)
  }

  /** The Rhubarb cue a viseme cue was made from. */
  function ToMouthCue(v: VisemeCue): MouthCue {
    MouthCue(v.time, v.time + v.duration, v.shape)
  }

  /** Rhubarb's cues as viseme cues, one for one and in order. */
  function MapRhubarbToVisemes(cues: seq<MouthCue>): (vs: seq<VisemeCue>)
    ensures |vs| == |cues|
    ensures forall i :: 0 <= i < |cues| ==>
      && vs[i].time == cues[i].start
      && vs[i].shape == cues[i].value
      && vs[i].weight == 1.0
      && vs[i].duration == cues[i].end - cues[i].start
  {
    seq(|cues|, i requires 0 <= i < |cues| => ToViseme(cues[i]))
  }

  function MouthCues(vs: seq<VisemeCue>): seq<MouthCue> {
    seq(|vs|, i requires 0 <= i < |vs| => ToMouthCue(vs[i]))
  }

  /** Mapping loses nothing: Rhubarb's cues are recovered from the viseme cues. */
  lemma MapRoundTrip(cues: seq<MouthCue>)
    ensures MouthCues(MapRhubarbToVisemes(cues)) == cues
  {
    var vs := MapRhubarbToVisemes(cues);
    forall i | 0 <= i < |cues| ensures MouthCues(vs)[i] == cues[i] {
      assert vs[i] == ToViseme(cues[i]);
    }
  }

  /** Mapping works cue by cue, so it keeps the order of the cues. */
  lemma MapAppend(a: seq<MouthCue>, b: seq<MouthCue>)
    ensures MapRhubarbToVisemes(a + b) == MapRhubarbToVisemes(a) + MapRhubarbToVisemes(b)
  {
    var l, r := MapRhubarbToVisemes(a + b), MapRhubarbToVisemes(a) + MapRhubarbToVisemes(b);
    forall i | 0 <= i < |a + b| ensures l[i] == r[i] {
      if i < |a| {
        assert (a + b)[i] == a[i];
      } else {
        assert (a + b)[i] == b[i - |a|];
      }
    }
  }

  /** Length in seconds of the transition into the next cue. */
  const LerpDuration: real := 0.08

  /** `t` lies in the cue's half-open interval. */
  predicate Covers(c: VisemeCue, t: real) {
    c.time <= t < c.time + c.duration
  }

  /** The first cue at or after `from` whose interval holds `t`. */
  function FirstCovering(cues: seq<VisemeCue>, t: real, from: nat): (i: Option<nat>)
    requires from <= |cues|
    ensures i.Some? ==> from <= i.value < |cues|
    decreases |cues| - from
  {
    if from == |cues| then None
    else if Covers(cues[from], t) then Some(from)
    else FirstCovering(cues, t, from + 1)
  }

  lemma {:induction false} FirstCoveringSpec(cues: seq<VisemeCue>, t: real, from: nat)
    requires from <= |cues|
    ensures FirstCovering(cues, t, from).None? ==>
      forall j :: from <= j < |cues| ==> !Covers(cues[j], t)
    ensures FirstCovering(cues, t, from).Some? ==>
      var i := FirstCovering(cues, t, from).value;
      Covers(cues[i], t) && forall j :: from <= j < i ==> !Covers(cues[j], t)
    decreases |cues| - from
  {
    if from < |cues| && !Covers(cues[from], t) {
      FirstCoveringSpec(cues, t, from + 1);
    }
  }

  /** Conversely, the first cue that holds `t` is the one found. */
  lemma {:induction false} FirstCoveringIs(cues: seq<VisemeCue>, t: real, from: nat, i: nat)
    requires from <= i < |cues| && Covers(cues[i], t)
    requires forall j :: from <= j < i ==> !Covers(cues[j], t)
    ensures FirstCovering(cues, t, from) == Some(i)
    decreases i - from
  {
    if from < i {
      FirstCoveringIs(cues, t, from + 1, i);
    }
  }

  /** The weights of a shape; a shape the table does not know has none. */
  function ShapeWeights(shape: string): ShapeTable {
    if shape in RhubarbToArkit then RhubarbToArkit[shape] else map[]
  }

  /** A missing weight counts as 0. */
  function Weight(w: ShapeTable, key: string): real {
    if key in w then w[key] else 0.0
  }

  function Lerp(a: real, b: real, f: real): real {
    a + (b - a) * f
  }

  /** Every blend shape of `a` or `b`, moved the fraction `f` of the way from `a` to `b`. */
  function Blend(a: ShapeTable, b: ShapeTable, f: real): (r: ShapeTable)
    ensures r.Keys == a.Keys + b.Keys
  {
    map k | k in a.Keys + b.Keys :: Lerp(Weight(a, k), Weight(b, k), f)
  }

  /** Time left in `c` at `t`. */
  function Remaining(c: VisemeCue, t: real): real {
    c.time + c.duration - t
  }

  /** The blend-shape weights at time `t` of the cue list `cues`. */
  function Interpolated(cues: seq<VisemeCue>, t: real): ShapeTable {
    match FirstCovering(cues, t, 0)
    case None => map[]
    case Some(i) =>
      if i + 1 < |cues| && Remaining(cues[i], t) <= LerpDuration then
        Blend(ShapeWeights(cues[i].shape), ShapeWeights(cues[i + 1].shape),
              1.0 - Remaining(cues[i], t) / LerpDuration)
      else ShapeWeights(cues[i].shape)
  }

  /** `blendShapes`: fills the result one key of the union at a time. */
  method BlendShapes(a: ShapeTable, b: ShapeTable, f: real) returns (result: ShapeTable)
    ensures result == Blend(a, b, f)
  {
    var allKeys := a.Keys + b.Keys;
    var todo := allKeys;
    result := map[];
    while todo != {}
      invariant todo <= allKeys
      invariant result.Keys == allKeys - todo
      invariant forall k :: k in result ==> result[k] == Lerp(Weight(a, k), Weight(b, k), f)
      decreases todo
    {
      var key :| key in todo;
      var va := if key in a then a[key] else 0.0;
      var vb := if key in b then b[key] else 0.0;
      result := result[key := va + (vb - va) * f];
      todo := todo - {key};
    }
    assert result.Keys == Blend(a, b, f).Keys;
  }

  /**
   * The search loop of `interpolateVisemes`: the first cue holding `t` and the
   * cue right after it, if any.
   */
  method FindCue(cues: seq<VisemeCue>, t: real) returns (current: Option<VisemeCue>, next: Option<VisemeCue>)
    ensures FirstCovering(cues, t, 0).None? ==> current.None? && next.None?
    ensures FirstCovering(cues, t, 0).Some? ==>
      var i := FirstCovering(cues, t, 0).value;
      && current == Some(cues[i])
      && next == (if i + 1 < |cues| then Some(cues[i + 1]) else None)
  {
    current, next := None, None;
    var i := 0;
    while i < |cues|
      invariant 0 <= i <= |cues|
      invariant FirstCovering(cues, t, 0) == FirstCovering(cues, t, i)
      invariant current.None? && next.None?
    {
      var cue := cues[i];
      if t >= cue.time && t < cue.time + cue.duration {
        current := Some(cue);
        next := if i + 1 < |cues| then Some(cues[i + 1]) else None;
        break;
      }
      i := i + 1;
    }
  }

  /** `interpolateVisemes`. */
  method InterpolateVisemes(visemes: seq<VisemeCue>, currentTime: real) returns (r: ShapeTable)
    ensures r == Interpolated(visemes, currentTime)
  {
    if |visemes| == 0 {
      return map[];
    }
    var currentCue, nextCue := FindCue(visemes, currentTime);
    if currentCue.None? {
      return map[];
    }
    var cur := currentCue.value;
    var currentShapes := ShapeWeights(cur.shape);
    if nextCue.Some? {
      var timeUntilNext := cur.time + cur.duration - currentTime;
      if timeUntilNext <= LerpDuration {
        var nextShapes := ShapeWeights(nextCue.value.shape);
        var f := 1.0 - timeUntilNext / LerpDuration;
        r := BlendShapes(currentShapes, nextShapes, f);
        return;
      }
    }
    r := currentShapes;
  }

  /** No cues, no weights, whatever the time. */
  lemma NoCues(t: real)
    ensures Interpolated([], t) == map[]
  {
  }

  /** A time outside every cue gets no weights. */
  lemma NoActiveCue(cues: seq<VisemeCue>, t: real)
    requires forall i :: 0 <= i < |cues| ==> !Covers(cues[i], t)
    ensures Interpolated(cues, t) == map[]
  {
    FirstCoveringSpec(cues, t, 0);
  }

  /** Some cue holds `t` exactly when the result comes from an active cue. */
  lemma ActiveCueExists(cues: seq<VisemeCue>, t: real)
    ensures FirstCovering(cues, t, 0).Some? <==> exists i :: 0 <= i < |cues| && Covers(cues[i], t)
  {
    FirstCoveringSpec(cues, t, 0);
  }

  /** The active cue is the first one holding `t`. */
  predicate ActiveAt(cues: seq<VisemeCue>, t: real, i: nat) {
    && i < |cues| && Covers(cues[i], t)
    && forall j :: 0 <= j < i ==> !Covers(cues[j], t)
  }

  /**
   * Without a next cue, or with more than 80 ms of the active cue left, the
   * weights are those of the active cue's shape.
   */
  lemma HoldsShape(cues: seq<VisemeCue>, t: real, i: nat)
    requires ActiveAt(cues, t, i)
    requires i + 1 == |cues| || Remaining(cues[i], t) > LerpDuration
    ensures Interpolated(cues, t) == ShapeWeights(cues[i].shape)
  {
    FirstCoveringIs(cues, t, 0, i);
  }

  /** The blend factor of a time inside the transition window lies in [0, 1). */
  lemma BlendFactorRange(remaining: real)
    requires 0.0 < remaining <= LerpDuration
    ensures 0.0 <= 1.0 - remaining / LerpDuration < 1.0
  {
    assert remaining / LerpDuration == remaining * 12.5;
  }

  /**
   * In the last 80 ms of the active cue, with a cue after it, the weights
   * blend the active shape toward the next one by the fraction
   * `1 - remaining / 0.08`, which lies in [0, 1).
   */
  lemma BlendWindow(cues: seq<VisemeCue>, t: real, i: nat)
    requires ActiveAt(cues, t, i)
    requires i + 1 < |cues| && Remaining(cues[i], t) <= LerpDuration
    ensures 0.0 <= 1.0 - Remaining(cues[i], t) / LerpDuration < 1.0
    ensures Interpolated(cues, t) ==
      Blend(ShapeWeights(cues[i].shape), ShapeWeights(cues[i + 1].shape),
            1.0 - Remaining(cues[i], t) / LerpDuration)
  {
    FirstCoveringIs(cues, t, 0, i);
    BlendFactorRange(Remaining(cues[i], t));
  }

  lemma ProductNonNegative(x: real, y: real)
    requires 0.0 <= x && 0.0 <= y
    ensures 0.0 <= x * y
  {
  }

  /** Scaling by a factor in [0, 1] moves a number toward zero without crossing it. */
  lemma ScaleDown(x: real, f: real)
    requires 0.0 <= f <= 1.0
    ensures 0.0 <= x ==> 0.0 <= x * f <= x
    ensures x <= 0.0 ==> x <= x * f <= 0.0
  {
    assert x * f + x * (1.0 - f) == x;
    if 0.0 <= x {
      ProductNonNegative(x, f);
      ProductNonNegative(x, 1.0 - f);
    } else {
      ProductNonNegative(-x, f);
      ProductNonNegative(-x, 1.0 - f);
      assert (-x) * f == -(x * f) && (-x) * (1.0 - f) == -(x * (1.0 - f));
    }
  }

  /** A fraction in [0, 1] of the way from `a` to `b` lies between them. */
  lemma LerpBetween(a: real, b: real, f: real)
    requires 0.0 <= f <= 1.0
    ensures a <= b ==> a <= Lerp(a, b, f) <= b
    ensures b <= a ==> b <= Lerp(a, b, f) <= a
  {
    var d := b - a;
    ScaleDown(d, f);
    assert Lerp(a, b, f) == a + d * f;
  }

  /** Blending two tables of weights in [0, 1] gives weights in [0, 1]. */
  lemma BlendInRange(a: ShapeTable, b: ShapeTable, f: real)
    requires WeightsInRange(a) && WeightsInRange(b) && 0.0 <= f <= 1.0
    ensures WeightsInRange(Blend(a, b, f))
  {
    forall k | k in Blend(a, b, f) ensures IsWeight(Blend(a, b, f)[k]) {
      LerpBetween(Weight(a, k), Weight(b, k), f);
    }
  }

  /** Every interpolated weight lies in [0, 1]. */
  lemma InterpolatedInRange(cues: seq<VisemeCue>, t: real)
    ensures WeightsInRange(Interpolated(cues, t))
  {
    TableWeightsInRange();
    match FirstCovering(cues, t, 0)
    case None =>
    case Some(i) =>
      FirstCoveringSpec(cues, t, 0);
      if i + 1 < |cues| && Remaining(cues[i], t) <= LerpDuration {
        BlendWindow(cues, t, i);
        BlendFactorRange(Remaining(cues[i], t));
        BlendInRange(ShapeWeights(cues[i].shape), ShapeWeights(cues[i + 1].shape),
                     1.0 - Remaining(cues[i], t) / LerpDuration);
      }
  }

  /** Two cue lists that differ only in the cues' `weight` fields. */
  predicate SameButWeights(cues: seq<VisemeCue>, cues': seq<VisemeCue>) {
    && |cues| == |cues'|
    && forall i :: 0 <= i < |cues| ==>
         && cues[i].time == cues'[i].time
         && cues[i].shape == cues'[i].shape
         && cues[i].duration == cues'[i].duration
  }

  lemma {:induction false} FirstCoveringIgnoresWeight(cues: seq<VisemeCue>, cues': seq<VisemeCue>, t: real, from: nat)
    requires SameButWeights(cues, cues') && from <= |cues|
    ensures FirstCovering(cues, t, from) == FirstCovering(cues', t, from)
    decreases |cues| - from
  {
    if from < |cues| {
      FirstCoveringIgnoresWeight(cues, cues', t, from + 1);
    }
  }

  /** A cue's `weight` never affects the result. */
  lemma WeightIgnored(cues: seq<VisemeCue>, cues': seq<VisemeCue>, t: real)
    requires SameButWeights(cues, cues')
    ensures Interpolated(cues, t) == Interpolated(cues', t)
  {
    FirstCoveringIgnoresWeight(cues, cues', t, 0);
  }

  /** Moving the fraction further along moves the value further from `a` toward `b`. */
  lemma LerpAdvances(a: real, b: real, f: real, f': real)
    requires 0.0 <= f <= f' <= 1.0
    ensures a <= b ==> a <= Lerp(a, b, f) <= Lerp(a, b, f') <= b
    ensures b <= a ==> b <= Lerp(a, b, f') <= Lerp(a, b, f) <= a
  {
    LerpBetween(a, b, f);
    LerpBetween(a, b, f');
    assert Lerp(a, b, f') - Lerp(a, b, f) == (b - a) * (f' - f);
    if a <= b {
      ProductNonNegative(b - a, f' - f);
    } else {
      ProductNonNegative(a - b, f' - f);
      assert (a - b) * (f' - f) == -((b - a) * (f' - f));
    }
  }

  /** Blending further along moves every weight further from `a`'s toward `b`'s; keys of neither table stay absent. */
  lemma BlendTowards(a: ShapeTable, b: ShapeTable, f: real, f': real, k: string)
    requires 0.0 <= f <= f' <= 1.0
    ensures Weight(a, k) <= Weight(b, k) ==>
      Weight(a, k) <= Weight(Blend(a, b, f), k) <= Weight(Blend(a, b, f'), k) <= Weight(b, k)
    ensures Weight(b, k) <= Weight(a, k) ==>
      Weight(b, k) <= Weight(Blend(a, b, f'), k) <= Weight(Blend(a, b, f), k) <= Weight(a, k)
  {
    LerpAdvances(Weight(a, k), Weight(b, k), f, f');
  }

  /** Inside the transition window, a later time has a larger blend factor, and both lie in [0, 1]. */
  lemma WindowFactors(cues: seq<VisemeCue>, t: real, t': real, i: nat)
    requires ActiveAt(cues, t, i) && ActiveAt(cues, t', i)
    requires i + 1 < |cues| && Remaining(cues[i], t) <= LerpDuration
    requires t <= t'
    ensures 0.0 <= 1.0 - Remaining(cues[i], t) / LerpDuration <= 1.0 - Remaining(cues[i], t') / LerpDuration <= 1.0
    ensures Remaining(cues[i], t') <= LerpDuration
  {
    var rem, rem' := Remaining(cues[i], t), Remaining(cues[i], t');
    assert rem / LerpDuration == rem * 12.5 && rem' / LerpDuration == rem' * 12.5;
  }

  /**
   * Inside the transition window of the active cue, every blend shape of the
   * active or the next cue is present, and its weight moves monotonically
   * from the active shape's weight toward the next shape's as time goes on;
   * any other blend shape is absent.
   */
  lemma BlendAdvances(cues: seq<VisemeCue>, t: real, t': real, i: nat, k: string)
    requires ActiveAt(cues, t, i) && ActiveAt(cues, t', i)
    requires i + 1 < |cues| && Remaining(cues[i], t) <= LerpDuration
    requires t <= t'
    ensures var a, b := ShapeWeights(cues[i].shape), ShapeWeights(cues[i + 1].shape);
      && (k in Interpolated(cues, t) <==> k in a.Keys + b.Keys)
      && (k in Interpolated(cues, t') <==> k in a.Keys + b.Keys)
      && (Weight(a, k) <= Weight(b, k) ==>
            Weight(a, k) <= Weight(Interpolated(cues, t), k) <= Weight(Interpolated(cues, t'), k) <= Weight(b, k))
      && (Weight(b, k) <= Weight(a, k) ==>
            Weight(b, k) <= Weight(Interpolated(cues, t'), k) <= Weight(Interpolated(cues, t), k) <= Weight(a, k))
  {
    var a, b := ShapeWeights(cues[i].shape), ShapeWeights(cues[i + 1].shape);
    var f, f' := 1.0 - Remaining(cues[i], t) / LerpDuration, 1.0 - Remaining(cues[i], t') / LerpDuration;
    WindowFactors(cues, t, t', i);
    assert Interpolated(cues, t) == Blend(a, b, f) by { BlendWindow(cues, t, i); }
    assert Interpolated(cues, t') == Blend(a, b, f') by { BlendWindow(cues, t', i); }
    BlendTowards(a, b, f, f', k);
  }
}
