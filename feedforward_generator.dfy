/** The blend contract of the feedforward generator around its opaque forward
    pass: graceful fallback, the global identity blend, the in-place regional
    re-blend and the batch helper. */
module FeedforwardGeneration {
  import opened Raster
  import opened Wrappers
  import opened Types
  import FaceParsing

  // ---------------------------------------------------------------------------
  // Rounding and saturation of 8-bit results.

  /** `cvRound`: the nearest integer, ties to the even one. */
  function RoundHalfEven(v: real): (n: int)
    ensures v - 0.5 <= n as real <= v + 0.5
  {
    var f := v.Floor;
    var frac := v - f as real;
    if frac < 0.5 then f
    else if frac > 0.5 then f + 1
    else if f % 2 == 0 then f else f + 1
  }

  /** `saturate_cast<uchar>` of an integer. */
  function Saturate(n: int): (b: Byte)
    ensures 0 <= n <= 255 ==> b == n
  {
    if n < 0 then 0 else if n > 255 then 255 else n
  }

  /** Rounding keeps a value that lies between two integers between them. */
  lemma RoundBetween(v: real, lo: int, hi: int)
    requires lo as real <= v <= hi as real
    ensures lo <= RoundHalfEven(v) <= hi
  {
    var f := v.Floor;
    assert lo <= f;
    if v < hi as real {
      assert f < hi;
    } else {
      assert f == hi;
    }
  }

  // ---------------------------------------------------------------------------
  // The global identity blend: cv::addWeighted(crop, s, synth, 1 - s, 0).

  /** One channel of the identity blend with lock strength `s`, used as given. */
  function IdentityChannel(c: Byte, y: Byte, s: real): Byte {
    Saturate(RoundHalfEven(c as real * s + y as real * (1.0 - s)))
  }

  function IdentityPixel(c: Pixel, y: Pixel, s: real): Pixel {
    Pixel(IdentityChannel(c.b, y.b, s), IdentityChannel(c.g, y.g, s), IdentityChannel(c.r, y.r, s))
  }

  /** `cv::addWeighted` of two images of the same size. */
  function AddWeighted(crop: Image, s: real, synth: Image): (r: Image)
    requires crop.Shaped() && synth.Shaped() && synth.SameSize(crop)
    ensures r.Shaped() && r.SameSize(crop)
    ensures forall y, x | 0 <= y < crop.rows && 0 <= x < crop.cols ::
      r.at[y][x] == IdentityPixel(crop.at[y][x], synth.at[y][x], s)
  {
    Mat(crop.rows, crop.cols, seq(crop.rows, y requires 0 <= y < crop.rows =>
      seq(crop.cols, x requires 0 <= x < crop.cols => IdentityPixel(crop.at[y][x], synth.at[y][x], s))))
  }

  /** Strength 1 reproduces the crop and strength 0 the synthesized image. */
  lemma IdentityBlendEndpoints(crop: Image, synth: Image)
    requires crop.Shaped() && synth.Shaped() && synth.SameSize(crop)
    ensures AddWeighted(crop, 1.0, synth) == crop
    ensures AddWeighted(crop, 0.0, synth) == synth
  {
    Extensional(AddWeighted(crop, 1.0, synth), crop);
    Extensional(AddWeighted(crop, 0.0, synth), synth);
  }

  // ---------------------------------------------------------------------------
  // The regional re-blend (blendRegion, applyRegionalBlending).

  /** `blendRegion` on one channel: truncation of orig * (1 - a) + aged * a. */
  function BlendChannel(o: Byte, g: Byte, a: real): (v: Byte)
    requires 0.0 <= a <= 1.0
    ensures (if o <= g then o else g) <= v <= (if o <= g then g else o)
  {
    ConvexBetween(o, g, a);
    (o as real * (1.0 - a) + g as real * a).Floor
  }

  /** A convex combination of two integers lies between them. */
  lemma ConvexBetween(o: int, g: int, a: real)
    requires 0.0 <= a <= 1.0
    ensures var v := o as real * (1.0 - a) + g as real * a;
      (if o <= g then o else g) as real <= v <= (if o <= g then g else o) as real
  {
    var d := (g - o) as real;
    assert o as real * (1.0 - a) + g as real * a == o as real + d * a;
    var e := if d >= 0.0 then d else -d;
    ProductNonNegative(e, a);
    ProductNonNegative(e, 1.0 - a);
    assert e * a + e * (1.0 - a) == e;
    assert d >= 0.0 ==> d * a == e * a;
    assert d < 0.0 ==> d * a == -(e * a);
  }

  lemma ProductNonNegative(x: real, y: real)
    requires x >= 0.0 && y >= 0.0
    ensures x * y >= 0.0
  {
  }

  /** Blending with strength 0 restores the original channel, strength 1 keeps the aged one. */
  lemma BlendChannelEndpoints(o: Byte, g: Byte)
    ensures BlendChannel(o, g, 0.0) == o
    ensures BlendChannel(o, g, 1.0) == g
  {
  }

  function BlendPixel(o: Pixel, g: Pixel, a: real): Pixel
    requires 0.0 <= a <= 1.0
  {
    Pixel(BlendChannel(o.b, g.b, a), BlendChannel(o.g, g.g, a), BlendChannel(o.r, g.r, a))
  }

  /** `mask / 255 > 0.5`. */
  predicate Selected(m: bv8) {
    m > 127
  }

  /** One pixel after `blendRegion`: re-blended where the mask is selected, untouched elsewhere. */
  function PassPixel(o: Pixel, g: Pixel, m: bv8, a: real): Pixel
    requires 0.0 <= a <= 1.0
  {
    if Selected(m) then BlendPixel(o, g, a) else g
  }

  /** The first `aged.rows` x `aged.cols` block of `m` exists. */
  predicate Covers<T, U>(m: Mat<T>, aged: Mat<U>) {
    m.Shaped() && aged.rows <= m.rows && aged.cols <= m.cols
  }

  /** The image `blendRegion` leaves in `aged`: unchanged for an empty mask,
      otherwise every selected pixel re-blended with `original`. */
  function BlendRegionSpec(original: Image, aged: Image, mask: Mask, a: real): (r: Image)
    requires 0.0 <= a <= 1.0 && aged.Shaped() && Covers(original, aged)
    requires mask.Empty() || Covers(mask, aged)
    ensures r.Shaped() && r.SameSize(aged)
    ensures mask.Empty() ==> r == aged
    ensures !mask.Empty() ==> forall y, x | 0 <= y < aged.rows && 0 <= x < aged.cols ::
      r.at[y][x] == if Selected(mask.at[y][x]) then BlendPixel(original.at[y][x], aged.at[y][x], a) else aged.at[y][x]
  {
    if mask.Empty() then aged
    else Mat(aged.rows, aged.cols, seq(aged.rows, y requires 0 <= y < aged.rows =>
      seq(aged.cols, x requires 0 <= x < aged.cols => PassPixel(original.at[y][x], aged.at[y][x], mask.at[y][x], a))))
  }

  /** Which labels the regional pass reads as hair, eyes and mouth. */
  datatype RegionLabels = RegionLabels(hairLo: int, hairHi: int, eyesLo: int, eyesHi: int, mouthLo: int, mouthHi: int)

  /** The labels as the regional pass reads them: hair = 1, eyes = 3..4, mouth = 5..6. */
  const CodeRegions := RegionLabels(1, 1, 3, 4, 5, 6)

  const HairAgedStrength := 0.8
  const HairKeptStrength := 0.1
  const EyesStrength := 0.3
  const MouthStrength := 0.4

  /** The hair pass strength: 0.8 with hair aging enabled, 0.1 without. */
  function HairStrength(controls: AgeControls): real {
    if controls.enableHairAging then HairAgedStrength else HairKeptStrength
  }

  /** The three passes of `applyRegionalBlending`, in order: hair, eyes, mouth. */
  function RegionalBlendWith(regions: RegionLabels, original: Image, aged: Image, labels: LabelMap, controls: AgeControls): (r: Image)
    requires aged.Shaped() && Covers(original, aged) && !labels.Empty() && Covers(labels, aged)
    ensures r.Shaped() && r.SameSize(aged)
  {
    var afterHair := BlendRegionSpec(original, aged, FaceParsing.InRange(labels, regions.hairLo, regions.hairHi), HairStrength(controls));
    var afterEyes := BlendRegionSpec(original, afterHair, FaceParsing.InRange(labels, regions.eyesLo, regions.eyesHi), EyesStrength);
    BlendRegionSpec(original, afterEyes, FaceParsing.InRange(labels, regions.mouthLo, regions.mouthHi), MouthStrength)
  }

  /** The regional pass as the generator runs it. */
  function RegionalBlend(original: Image, aged: Image, labels: LabelMap, controls: AgeControls): (r: Image)
    requires aged.Shaped() && Covers(original, aged) && !labels.Empty() && Covers(labels, aged)
    ensures r.Shaped() && r.SameSize(aged)
  {
    RegionalBlendWith(CodeRegions, original, aged, labels, controls)
  }

  /** The label ranges do not overlap. */
  predicate Disjoint(g: RegionLabels) {
    (g.hairHi < g.eyesLo || g.eyesHi < g.hairLo) &&
    (g.hairHi < g.mouthLo || g.mouthHi < g.hairLo) &&
    (g.eyesHi < g.mouthLo || g.mouthHi < g.eyesLo)
  }

  /** With disjoint label ranges each pixel is re-blended at most once, with the
      strength of the one range holding its label, and is otherwise unchanged. */
  lemma RegionalBlendAt(regions: RegionLabels, original: Image, aged: Image, labels: LabelMap, controls: AgeControls, y: nat, x: nat)
    requires aged.Shaped() && Covers(original, aged) && !labels.Empty() && Covers(labels, aged)
    requires Disjoint(regions) && y < aged.rows && x < aged.cols
    ensures var v := labels.at[y][x]; var o := original.at[y][x]; var g := aged.at[y][x];
      RegionalBlendWith(regions, original, aged, labels, controls).at[y][x] ==
        if regions.hairLo <= v <= regions.hairHi then BlendPixel(o, g, HairStrength(controls))
        else if regions.eyesLo <= v <= regions.eyesHi then BlendPixel(o, g, EyesStrength)
        else if regions.mouthLo <= v <= regions.mouthHi then BlendPixel(o, g, MouthStrength)
        else g
  {
  }

  /** With disjoint ranges the order of the passes does not matter: running
      mouth, eyes, hair gives the same pixel as hair, eyes, mouth. */
  lemma PassOrderIrrelevant(regions: RegionLabels, o: Pixel, g: Pixel, v: Byte, controls: AgeControls)
    requires Disjoint(regions)
    ensures
      var hair := InRangeBit(v, regions.hairLo, regions.hairHi);
      var eyes := InRangeBit(v, regions.eyesLo, regions.eyesHi);
      var mouth := InRangeBit(v, regions.mouthLo, regions.mouthHi);
      PassPixel(o, PassPixel(o, PassPixel(o, g, hair, HairStrength(controls)), eyes, EyesStrength), mouth, MouthStrength) ==
      PassPixel(o, PassPixel(o, PassPixel(o, g, mouth, MouthStrength), eyes, EyesStrength), hair, HairStrength(controls))
  {
  }

  /** One element of `cv::inRange`. */
  function InRangeBit(v: Byte, lo: int, hi: int): bv8 {
    if lo <= v <= hi then FaceParsing.Full else 0
  }

  // ---------------------------------------------------------------------------
  // The generator's result.

  /** The opaque inference: resize to the input size, normalise, forward pass
      conditioned on the age input, denormalise to 8 bits. `None` when it throws. */
  type Forward = (Image, int, int, real) -> Option<Image>

  /** The age conditioning value passed to inference. */
  function AgeInput(controls: AgeControls): real {
    controls.targetAge / 100.0
  }

  /** The parsing mask can be read wherever the crop can (or is empty and ignored). */
  predicate MaskFits(mask: LabelMap, crop: Image) {
    mask.Empty() || Covers(mask, crop)
  }

  /** What `generateAgedFace` returns. */
  function AgedFace(loaded: bool, width: int, height: int, crop: Image, controls: AgeControls, mask: LabelMap, forward: Forward): (r: Image)
    requires crop.Shaped() && MaskFits(mask, crop)
    ensures r.Shaped() && r.SameSize(crop)
  {
    if !loaded || crop.Empty() then crop
    else match forward(crop, width, height, AgeInput(controls))
      case None => crop
      case Some(synth) =>
        if !(synth.Shaped() && synth.SameSize(crop)) then crop  // addWeighted throws on a size mismatch
        else
          var blended := AddWeighted(crop, controls.identityLockStrength, synth);
          if mask.Empty() then blended else RegionalBlend(crop, blended, mask, controls)
  }

  /** Without a model, for an empty crop, or when inference throws, the crop comes back unmodified. */
  lemma AgedFaceFallback(loaded: bool, width: int, height: int, crop: Image, controls: AgeControls, mask: LabelMap, forward: Forward)
    requires crop.Shaped() && MaskFits(mask, crop)
    requires !loaded || crop.Empty() || forward(crop, width, height, AgeInput(controls)).None?
    ensures AgedFace(loaded, width, height, crop, controls, mask, forward) == crop
  {
  }

  /** Without a parsing mask the result is the identity blend of the crop and the
      synthesized image: the crop itself at lock strength 1, the synthesized image at 0. */
  lemma AgedFaceIdentityBlend(width: int, height: int, crop: Image, controls: AgeControls, forward: Forward)
    requires crop.Shaped() && !crop.Empty()
    requires forward(crop, width, height, AgeInput(controls)).Some?
    requires var synth := forward(crop, width, height, AgeInput(controls)).value; synth.Shaped() && synth.SameSize(crop)
    ensures var synth := forward(crop, width, height, AgeInput(controls)).value;
      var r := AgedFace(true, width, height, crop, controls, NoMat(), forward);
      r == AddWeighted(crop, controls.identityLockStrength, synth) &&
      (controls.identityLockStrength == 1.0 ==> r == crop) &&
      (controls.identityLockStrength == 0.0 ==> r == synth)
  {
    IdentityBlendEndpoints(crop, forward(crop, width, height, AgeInput(controls)).value);
  }

  /** At lock strength 1 the generator returns the crop whatever the network and the parsing mask. */
  lemma FullLockKeepsCrop(loaded: bool, width: int, height: int, crop: Image, controls: AgeControls, mask: LabelMap, forward: Forward)
    requires crop.Shaped() && MaskFits(mask, crop) && controls.identityLockStrength == 1.0
    ensures AgedFace(loaded, width, height, crop, controls, mask, forward) == crop
  {
    if loaded && !crop.Empty() && forward(crop, width, height, AgeInput(controls)).Some? {
      var synth := forward(crop, width, height, AgeInput(controls)).value;
      if synth.Shaped() && synth.SameSize(crop) {
        IdentityBlendEndpoints(crop, synth);
        if !mask.Empty() {
          var r := RegionalBlend(crop, crop, mask, controls);
          forall y, x | 0 <= y < crop.rows && 0 <= x < crop.cols
            ensures r.at[y][x] == crop.at[y][x]
          {
            RegionalBlendAt(CodeRegions, crop, crop, mask, controls, y, x);
          }
          Extensional(r, crop);
        }
      }
    }
  }

  // ---------------------------------------------------------------------------
  // The in-place passes over the aged image buffer.

  /** The current contents of an image buffer. */
  function ImageOf(a: array2<Pixel>): (m: Image)
    reads a
    ensures m.Shaped() && m.rows == a.Length0 && m.cols == a.Length1
    ensures forall y, x | 0 <= y < a.Length0 && 0 <= x < a.Length1 :: m.at[y][x] == a[y, x]
  {
    Mat(a.Length0, a.Length1, seq(a.Length0, y requires 0 <= y < a.Length0 reads a =>
      seq(a.Length1, x requires 0 <= x < a.Length1 reads a => a[y, x])))
  }

  /** `blendRegion`: rewrites, row by row, every pixel of `aged` whose mask value is selected. */
  method BlendRegion(original: Image, aged: array2<Pixel>, mask: Mask, a: real)
    requires 0.0 <= a <= 1.0 && Covers(original, ImageOf(aged))
    requires mask.Empty() || Covers(mask, ImageOf(aged))
    modifies aged
    ensures ImageOf(aged) == BlendRegionSpec(original, old(ImageOf(aged)), mask, a)
  {
    ghost var before := ImageOf(aged);
    if mask.Empty() {
      return;
    }
    var y := 0;
    while y < aged.Length0
      invariant 0 <= y <= aged.Length0
      invariant forall yy, xx | 0 <= yy < aged.Length0 && 0 <= xx < aged.Length1 ::
        aged[yy, xx] == if yy < y then PassPixel(original.at[yy][xx], before.at[yy][xx], mask.at[yy][xx], a) else before.at[yy][xx]
    {
      var x := 0;
      while x < aged.Length1
        invariant 0 <= x <= aged.Length1
        invariant forall yy, xx | 0 <= yy < aged.Length0 && 0 <= xx < aged.Length1 ::
          aged[yy, xx] == if yy < y || (yy == y && xx < x) then PassPixel(original.at[yy][xx], before.at[yy][xx], mask.at[yy][xx], a) else before.at[yy][xx]
      {
        if Selected(mask.at[y][x]) {
          var o := original.at[y][x];
          var g := aged[y, x];
          aged[y, x] := Pixel(BlendChannel(o.b, g.b, a), BlendChannel(o.g, g.g, a), BlendChannel(o.r, g.r, a));
        }
        x := x + 1;
      }
      y := y + 1;
    }
    Extensional(ImageOf(aged), BlendRegionSpec(original, before, mask, a));
  }

  /** `applyRegionalBlending`: the hair, eyes and mouth passes in place, in that order. */
  method ApplyRegionalBlending(original: Image, aged: array2<Pixel>, labels: LabelMap, controls: AgeControls)
    requires Covers(original, ImageOf(aged)) && !labels.Empty() && Covers(labels, ImageOf(aged))
    modifies aged
    ensures ImageOf(aged) == RegionalBlend(original, old(ImageOf(aged)), labels, controls)
  {
    var hairMask := FaceParsing.InRange(labels, CodeRegions.hairLo, CodeRegions.hairHi);
    var eyeMask := FaceParsing.InRange(labels, CodeRegions.eyesLo, CodeRegions.eyesHi);
    var mouthMask := FaceParsing.InRange(labels, CodeRegions.mouthLo, CodeRegions.mouthHi);
    if controls.enableHairAging {
      BlendRegion(original, aged, hairMask, HairAgedStrength);
    } else {
      BlendRegion(original, aged, hairMask, HairKeptStrength);
    }
    BlendRegion(original, aged, eyeMask, EyesStrength);
    BlendRegion(original, aged, mouthMask, MouthStrength);
  }

  // ---------------------------------------------------------------------------
  // Discrepancies between the code and the label vocabulary / control ranges.

  /** The parser's own vocabulary for the three groups: hair = 13, eyes = 4..5, mouth = 10..12. */
  const ParserRegions := RegionLabels(FaceParsing.Hair, FaceParsing.Hair, FaceParsing.LeftEye, FaceParsing.RightEye,
                                      FaceParsing.MouthInterior, FaceParsing.LowerLip)

  /** As written, the regional pass misreads a parser label map: a hair pixel
      (label 13) is left as it is, while a skin pixel (label 1) receives the hair
      strength and a left-eyebrow pixel (label 6) the mouth strength. */
  lemma CodeRegionsMisreadParser(original: Image, aged: Image, labels: LabelMap, controls: AgeControls, y: nat, x: nat)
    requires aged.Shaped() && Covers(original, aged) && !labels.Empty() && Covers(labels, aged)
    requires y < aged.rows && x < aged.cols
    ensures var r := RegionalBlend(original, aged, labels, controls).at[y][x];
      (labels.at[y][x] == FaceParsing.Hair ==> r == aged.at[y][x]) &&
      (labels.at[y][x] == FaceParsing.Skin ==> r == BlendPixel(original.at[y][x], aged.at[y][x], HairStrength(controls))) &&
      (labels.at[y][x] == FaceParsing.LeftBrow ==> r == BlendPixel(original.at[y][x], aged.at[y][x], MouthStrength))
  {
    RegionalBlendAt(CodeRegions, original, aged, labels, controls, y, x);
  }

  /** With the parser's vocabulary, hair, eye and mouth pixels get their group's
      strength and every other pixel (skin included) keeps the identity blend. */
  lemma ParserRegionsBlendGroups(original: Image, aged: Image, labels: LabelMap, controls: AgeControls, y: nat, x: nat)
    requires aged.Shaped() && Covers(original, aged) && !labels.Empty() && Covers(labels, aged)
    requires y < aged.rows && x < aged.cols
    ensures var r := RegionalBlendWith(ParserRegions, original, aged, labels, controls).at[y][x];
      var v := labels.at[y][x]; var o := original.at[y][x]; var g := aged.at[y][x];
      (v == FaceParsing.Hair ==> r == BlendPixel(o, g, HairStrength(controls))) &&
      (v in {FaceParsing.LeftEye, FaceParsing.RightEye} ==> r == BlendPixel(o, g, EyesStrength)) &&
      (v in {FaceParsing.MouthInterior, FaceParsing.UpperLip, FaceParsing.LowerLip} ==> r == BlendPixel(o, g, MouthStrength)) &&
      (v !in {FaceParsing.Hair, FaceParsing.LeftEye, FaceParsing.RightEye, FaceParsing.MouthInterior, FaceParsing.UpperLip, FaceParsing.LowerLip} ==> r == g)
  {
    RegionalBlendAt(ParserRegions, original, aged, labels, controls, y, x);
  }

  /** As written, a lock strength outside [0, 1] extrapolates: strength 2 turns
      a channel blended from 100 and 250 into 0, below both inputs. */
  lemma UnclampedIdentityOvershoots()
    ensures IdentityChannel(100, 250, 2.0) == 0
  {
    assert 100 as real * 2.0 + 250 as real * (1.0 - 2.0) == -50.0;
  }

  /** The `addWeighted` weighting c * a + y * (1 - a) with 0 <= a <= 1 lies between c and y. */
  lemma WeightsBetween(c: int, y: int, a: real)
    requires 0.0 <= a <= 1.0
    ensures var w := c as real * a + y as real * (1.0 - a);
      (if c <= y then c else y) as real <= w <= (if c <= y then y else c) as real
  {
    var d := (c - y) as real;
    assert c as real * a + y as real * (1.0 - a) == y as real + d * a;
    if d >= 0.0 {
      assert 0.0 <= d * a && 0.0 <= d * (1.0 - a);
      assert y as real <= y as real + d * a <= c as real;
    } else {
      assert d * a <= 0.0 && d * (1.0 - a) <= 0.0;
      assert c as real <= y as real + d * a <= y as real;
    }
  }

  /** Rounding and saturating a value between two bytes gives a byte between them. */
  lemma SettledBetween(w: real, lo: Byte, hi: Byte)
    requires lo as real <= w <= hi as real
    ensures lo <= Saturate(RoundHalfEven(w)) <= hi
  {
    RoundBetween(w, lo, hi);
  }

  /** The identity blend with the strength clamped to [0, 1] first. */
  function ClampedIdentityChannel(c: Byte, y: Byte, s: real): Byte {
    IdentityChannel(c, y, Clamp01(s))
  }

  /** For a strength in [0, 1] the identity blend of a channel lies between the crop's and the synthesized value. */
  lemma IdentityBetween(c: Byte, y: Byte, a: real)
    requires 0.0 <= a <= 1.0
    ensures (if c <= y then c else y) <= IdentityChannel(c, y, a) <= (if c <= y then y else c)
  {
    var w := c as real * a + y as real * (1.0 - a);
    assert IdentityChannel(c, y, a) == Saturate(RoundHalfEven(w));
    WeightsBetween(c, y, a);
    SettledBetween(w, if c <= y then c else y, if c <= y then y else c);
  }

  /** With the clamp, every blended channel lies between the crop's and the
      synthesized value, whatever strength the caller supplies. */
  lemma ClampedIdentityBetween(c: Byte, y: Byte, s: real)
    ensures var v := ClampedIdentityChannel(c, y, s);
      (if c <= y then c else y) <= v <= (if c <= y then y else c)
  {
    IdentityBetween(c, y, Clamp01(s));
  }

  // ---------------------------------------------------------------------------
  // The generator object.

  /** `identity_strength_` clamped to [0, 1]. */
  function Clamp01(s: real): (c: real)
    ensures 0.0 <= c <= 1.0
    ensures 0.0 <= s <= 1.0 ==> c == s
  {
    if s < 0.0 then 0.0 else if s > 1.0 then 1.0 else s
  }

  /** The controls the batch uses for item i: its own, or the first when it has none. */
  function BatchControls(controls: seq<AgeControls>, i: nat): AgeControls
    requires |controls| > 0
  {
    if i < |controls| then controls[i] else controls[0]
  }

  /** The parsing mask the batch uses for item i: its own, or no mask. */
  function BatchMask(masks: seq<LabelMap>, i: nat): LabelMap {
    if i < |masks| then masks[i] else NoMat()
  }

  class FeedforwardGenerator {
    var modelLoaded: bool
    var inputWidth: int
    var inputHeight: int
    var temporalStabilization: bool
    var identityStrength: real

    /** The state the constructor leaves: unloaded, 512 x 512 input,
        stabilisation off and identity strength 0.5. */
    predicate AsConstructed()
      reads this
    {
      !modelLoaded && inputWidth == 512 && inputHeight == 512 && !temporalStabilization && identityStrength == 0.5
    }

    constructor ()
      ensures AsConstructed()
    {
      modelLoaded := false;
      inputWidth := 512;
      inputHeight := 512;
      temporalStabilization := false;
      identityStrength := 0.5;
    }

    /** `loadModel`; `netReady` is whether reading the network produced a non-empty net. */
    method LoadModel(netReady: bool) returns (ok: bool)
      modifies this`modelLoaded
      ensures ok == netReady
      ensures modelLoaded == (old(modelLoaded) || netReady)
    {
      ok := netReady;
      if netReady {
        modelLoaded := true;
      }
    }

    /** `generateAgedFace`. The stored `identityStrength` plays no part. */
    method GenerateAgedFace(crop: Image, controls: AgeControls, mask: LabelMap, forward: Forward) returns (r: Image)
      requires crop.Shaped() && MaskFits(mask, crop)
      ensures r == AgedFace(modelLoaded, inputWidth, inputHeight, crop, controls, mask, forward)
    {
      if !modelLoaded || crop.Empty() {
        return crop;
      }
      var output := forward(crop, inputWidth, inputHeight, controls.targetAge / 100.0);
      if output.None? {
        return crop;
      }
      var synth := output.value;
      if !(synth.Shaped() && synth.SameSize(crop)) {
        return crop;
      }
      var blended := AddWeighted(crop, controls.identityLockStrength, synth);
      if mask.Empty() {
        return blended;
      }
      var buffer := new Pixel[crop.rows, crop.cols]((y, x) requires 0 <= y < crop.rows && 0 <= x < crop.cols => blended.at[y][x]);
      Extensional(ImageOf(buffer), blended);
      ApplyRegionalBlending(crop, buffer, mask, controls);
      r := ImageOf(buffer);
    }

    /** `generateAgedFacesBatch`: one result per crop, in order, item i using its
        own controls (or the first) and its own mask (or none). */
    method GenerateAgedFacesBatch(crops: seq<Image>, controls: seq<AgeControls>, masks: seq<LabelMap>, forward: Forward)
      returns (results: seq<Image>)
      requires |crops| > 0 ==> |controls| > 0
      requires forall i | 0 <= i < |crops| :: crops[i].Shaped() && MaskFits(BatchMask(masks, i), crops[i])
      ensures |results| == |crops|
      ensures forall i | 0 <= i < |crops| ::
        results[i] == AgedFace(modelLoaded, inputWidth, inputHeight, crops[i], BatchControls(controls, i), BatchMask(masks, i), forward)
    {
      results := [];
      var i := 0;
      while i < |crops|
        invariant 0 <= i <= |crops|
        invariant |results| == i
        invariant forall k | 0 <= k < i ::
          results[k] == AgedFace(modelLoaded, inputWidth, inputHeight, crops[k], BatchControls(controls, k), BatchMask(masks, k), forward)
      {
        var ctrl := if i < |controls| then controls[i] else controls[0];
        var mask := if i < |masks| then masks[i] else NoMat();
        var aged := GenerateAgedFace(crops[i], ctrl, mask, forward);
        results := results + [aged];
        i := i + 1;
      }
    }

    /** `setInputResolution`. */
    method SetInputResolution(width: int, height: int)
      modifies this`inputWidth, this`inputHeight
      ensures inputWidth == width && inputHeight == height
    {
      inputWidth := width;
      inputHeight := height;
    }

    /** `enableTemporalStabilization`. */
    method EnableTemporalStabilization(enable: bool)
      modifies this`temporalStabilization
      ensures temporalStabilization == enable
    {
      temporalStabilization := enable;
    }

    /** `setIdentityPreservationStrength`: stores the strength clamped to [0, 1]. */
    method SetIdentityPreservationStrength(strength: real)
      modifies this`identityStrength
      ensures identityStrength == Clamp01(strength)
    {
      identityStrength := if strength < 0.0 then 0.0 else if strength > 1.0 then 1.0 else strength;
    }
  }
}
