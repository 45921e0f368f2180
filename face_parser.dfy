/** Facial region masks derived from a CelebAMask-HQ label map, and the
    parser's fallback and batch behaviour around its opaque network. */
module FaceParsing {
  import opened Raster
  import opened Wrappers

  // Label ids of the 19-class CelebAMask-HQ vocabulary used below.
  const Skin := 1
  const Nose := 2
  const LeftEye := 4
  const RightEye := 5
  const LeftBrow := 6
  const RightBrow := 7
  const MouthInterior := 10
  const UpperLip := 11
  const LowerLip := 12
  const Hair := 13
  const Neck := 17

  /** The "set" value of a binary mask. */
  const Full: bv8 := 255

  // Rectangular dilation kernels. OpenCV anchors a k x k kernel at k / 2, so
  // it covers offsets -(k / 2) .. k - 1 - k / 2 around each pixel.
  const BrowKernelSize := 15
  const BrowWindowLo := -(BrowKernelSize / 2)                    // -7
  const BrowWindowHi := BrowKernelSize - 1 - BrowKernelSize / 2  // +7
  const CentreKernelSize := 20
  const CentreWindowLo := -(CentreKernelSize / 2)                     // -10
  const CentreWindowHi := CentreKernelSize - 1 - CentreKernelSize / 2 // +9

  // The jaw band starts at row floor(rows * 0.6).
  const JawStartNum := 6
  const JawStartDen := 10

  /** First row of the jaw band of a map with `rows` rows. */
  function JawStartRow(rows: nat): (start: nat)
    ensures start <= rows
  {
    rows * JawStartNum / JawStartDen
  }

  predicate Binary(v: bv8) {
    v == 0 || v == Full
  }

  /** Every element is 0 or 255. */
  predicate BinaryMask(m: Mask) {
    forall y, x | 0 <= y < |m.at| && 0 <= x < |m.at[y]| :: Binary(m.at[y][x])
  }

  /** The mask of a map-sized result that is the map's shape and binary. */
  predicate WellFormedMaskOf(r: Mask, l: LabelMap) {
    r.Shaped() && r.SameSize(l) && BinaryMask(r)
  }

  // ---------------------------------------------------------------------------
  // The OpenCV primitives the masks are built from.

  /** What `cv::inRange` asserts of its source before anything else; an empty
      source makes it throw a `cv::Exception` naming this condition. */
  const EmptySourceAssertion := "!_src.empty()"

  /** `cv::inRange(l, lo, hi)` on a non-empty map: 255 where lo <= label <= hi, else 0. */
  function InRange(l: LabelMap, lo: int, hi: int): (r: Mask)
    requires l.Shaped() && !l.Empty()
    ensures WellFormedMaskOf(r, l)
    ensures forall y, x | 0 <= y < l.rows && 0 <= x < l.cols ::
      r.at[y][x] == if lo <= l.at[y][x] <= hi then Full else 0
  {
    Mat(l.rows, l.cols, seq(l.rows, y requires 0 <= y < l.rows =>
      seq(l.cols, x requires 0 <= x < l.cols => if lo <= l.at[y][x] <= hi then Full else 0)))
  }

  /** `cv::bitwise_and`. */
  function BitAnd(a: Mask, b: Mask): (r: Mask)
    requires a.Shaped() && b.Shaped() && a.SameSize(b)
    ensures r.Shaped() && r.SameSize(a)
    ensures forall y, x | 0 <= y < a.rows && 0 <= x < a.cols :: r.at[y][x] == a.at[y][x] & b.at[y][x]
  {
    Mat(a.rows, a.cols, seq(a.rows, y requires 0 <= y < a.rows =>
      seq(a.cols, x requires 0 <= x < a.cols => a.at[y][x] & b.at[y][x])))
  }

  /** `cv::bitwise_or`. */
  function BitOr(a: Mask, b: Mask): (r: Mask)
    requires a.Shaped() && b.Shaped() && a.SameSize(b)
    ensures r.Shaped() && r.SameSize(a)
    ensures forall y, x | 0 <= y < a.rows && 0 <= x < a.cols :: r.at[y][x] == a.at[y][x] | b.at[y][x]
  {
    Mat(a.rows, a.cols, seq(a.rows, y requires 0 <= y < a.rows =>
      seq(a.cols, x requires 0 <= x < a.cols => a.at[y][x] | b.at[y][x])))
  }

  /** `~m` on an 8-bit mask. */
  function BitNot(a: Mask): (r: Mask)
    requires a.Shaped()
    ensures r.Shaped() && r.SameSize(a)
    ensures forall y, x | 0 <= y < a.rows && 0 <= x < a.cols :: r.at[y][x] == !a.at[y][x]
  {
    Mat(a.rows, a.cols, seq(a.rows, y requires 0 <= y < a.rows =>
      seq(a.cols, x requires 0 <= x < a.cols => !a.at[y][x])))
  }

  function Max8(a: bv8, b: bv8): bv8 {
    if a < b then b else a
  }

  /** Largest element of row `r` over columns [xa, xb); columns outside the row contribute nothing. */
  function RowMax(r: seq<bv8>, xa: int, xb: int): bv8
    decreases xb - xa
  {
    if xb <= xa then 0
    else Max8(RowMax(r, xa, xb - 1), if 0 <= xb - 1 < |r| then r[xb - 1] else 0)
  }

  /** Largest element of `m` over rows [ya, yb) and columns [xa, xb); cells outside `m` contribute nothing. */
  function BoxMax(m: Mask, ya: int, yb: int, xa: int, xb: int): bv8
    requires m.Shaped()
    decreases yb - ya
  {
    if yb <= ya then 0
    else Max8(BoxMax(m, ya, yb - 1, xa, xb), if 0 <= yb - 1 < m.rows then RowMax(m.at[yb - 1], xa, xb) else 0)
  }

  /** `cv::dilate` with a rectangular kernel covering offsets lo..hi on both axes:
      each element becomes the maximum over its window; pixels outside the image do not contribute. */
  function Dilate(m: Mask, lo: int, hi: int): (r: Mask)
    requires m.Shaped()
    ensures r.Shaped() && r.SameSize(m)
    ensures forall y, x | 0 <= y < m.rows && 0 <= x < m.cols ::
      r.at[y][x] == BoxMax(m, y + lo, y + hi + 1, x + lo, x + hi + 1)
  {
    Mat(m.rows, m.cols, seq(m.rows, y requires 0 <= y < m.rows =>
      seq(m.cols, x requires 0 <= x < m.cols => BoxMax(m, y + lo, y + hi + 1, x + lo, x + hi + 1))))
  }

  /** 255 on rows start.. and 0 above: the `lower_mask` of the jaw. */
  function LowerBand(rows: nat, cols: nat, start: nat): (r: Mask)
    ensures r.Shaped() && r.rows == rows && r.cols == cols
    ensures forall y, x | 0 <= y < rows && 0 <= x < cols :: r.at[y][x] == if y >= start then Full else 0
  {
    Mat(rows, cols, seq(rows, y => seq(cols, _ => if y >= start then Full else 0)))
  }

  // ---------------------------------------------------------------------------
  // Facts about the primitives on binary masks.

  lemma BitOpsOnBinary(a: bv8, b: bv8)
    requires Binary(a) && Binary(b)
    ensures Binary(a & b) && (a & b == Full <==> a == Full && b == Full)
    ensures Binary(a | b) && (a | b == Full <==> a == Full || b == Full)
    ensures Binary(!a) && (!a == Full <==> a == 0)
  {
  }

  lemma {:induction false} RowMaxOfBinary(r: seq<bv8>, xa: int, xb: int)
    requires forall i | 0 <= i < |r| :: Binary(r[i])
    ensures Binary(RowMax(r, xa, xb))
    ensures RowMax(r, xa, xb) == Full <==> exists i :: xa <= i < xb && 0 <= i < |r| && r[i] == Full
    decreases xb - xa
  {
    if xa < xb {
      RowMaxOfBinary(r, xa, xb - 1);
    }
  }

  /** The dilation window of a binary mask holds 255 exactly when some in-image cell of the window is set. */
  lemma {:induction false} BoxMaxOfBinary(m: Mask, ya: int, yb: int, xa: int, xb: int)
    requires m.Shaped() && BinaryMask(m)
    ensures Binary(BoxMax(m, ya, yb, xa, xb))
    ensures BoxMax(m, ya, yb, xa, xb) == Full <==>
      exists yy, xx :: ya <= yy < yb && xa <= xx < xb && 0 <= yy < m.rows && 0 <= xx < m.cols && m.at[yy][xx] == Full
    decreases yb - ya
  {
    if ya < yb {
      BoxMaxOfBinary(m, ya, yb - 1, xa, xb);
      if 0 <= yb - 1 < m.rows {
        RowMaxOfBinary(m.at[yb - 1], xa, xb);
      }
    }
  }

  /** Dilating a binary mask gives a binary mask. */
  lemma DilateBinary(m: Mask, lo: int, hi: int)
    requires m.Shaped() && BinaryMask(m)
    ensures BinaryMask(Dilate(m, lo, hi))
  {
    var d := Dilate(m, lo, hi);
    forall y, x | 0 <= y < |d.at| && 0 <= x < |d.at[y]|
      ensures Binary(d.at[y][x])
    {
      BoxMaxOfBinary(m, y + lo, y + hi + 1, x + lo, x + hi + 1);
    }
  }

  // ---------------------------------------------------------------------------
  // getRegionMask and the direct-membership masks.

  /** The mask `getRegionMask` computes: no matrix for an empty map, otherwise
      255 exactly where the label is one of `indices`. */
  function RegionMask(l: LabelMap, indices: seq<int>): (r: Mask)
    requires l.Shaped()
    ensures l.Empty() ==> r == NoMat()
    ensures !l.Empty() ==> WellFormedMaskOf(r, l)
    ensures !l.Empty() ==> forall y, x | 0 <= y < l.rows && 0 <= x < l.cols ::
      (r.at[y][x] == Full <==> l.at[y][x] in indices)
  {
    if l.Empty() then NoMat()
    else Mat(l.rows, l.cols, seq(l.rows, y requires 0 <= y < l.rows =>
      seq(l.cols, x requires 0 <= x < l.cols => if l.at[y][x] in indices then Full else 0)))
  }

  /** `getRegionMask`: ORs the `inRange(l, idx, idx)` mask of every index into a zero mask. */
  method GetRegionMask(l: LabelMap, indices: seq<int>) returns (r: Mask)
    requires l.Shaped()
    ensures r == RegionMask(l, indices)
  {
    if l.Empty() {
      return NoMat();
    }
    r := Fill(l.rows, l.cols, 0 as bv8);
    var i := 0;
    while i < |indices|
      invariant 0 <= i <= |indices|
      invariant r.Shaped() && r.SameSize(l)
      invariant forall y, x | 0 <= y < l.rows && 0 <= x < l.cols ::
        r.at[y][x] == if l.at[y][x] in indices[..i] then Full else 0
    {
      assert indices[..i + 1] == indices[..i] + [indices[i]];
      r := BitOr(r, InRange(l, indices[i], indices[i]));
      i := i + 1;
    }
    assert indices[..i] == indices;
    Extensional(r, RegionMask(l, indices));
  }

  function GetEyesMask(l: LabelMap): (r: Mask)
    requires l.Shaped()
    ensures l.Empty() ==> r == NoMat()
    ensures !l.Empty() ==> WellFormedMaskOf(r, l)
  {
    RegionMask(l, [LeftEye, RightEye])
  }

  function GetMouthMask(l: LabelMap): (r: Mask)
    requires l.Shaped()
    ensures l.Empty() ==> r == NoMat()
    ensures !l.Empty() ==> WellFormedMaskOf(r, l)
  {
    RegionMask(l, [MouthInterior, UpperLip, LowerLip])
  }

  function GetNeckMask(l: LabelMap): (r: Mask)
    requires l.Shaped()
    ensures l.Empty() ==> r == NoMat()
    ensures !l.Empty() ==> WellFormedMaskOf(r, l)
  {
    RegionMask(l, [Neck])
  }

  function GetHairMask(l: LabelMap): (r: Mask)
    requires l.Shaped()
    ensures l.Empty() ==> r == NoMat()
    ensures !l.Empty() ==> WellFormedMaskOf(r, l)
  {
    RegionMask(l, [Hair])
  }

  function GetEyebrowsMask(l: LabelMap): (r: Mask)
    requires l.Shaped()
    ensures l.Empty() ==> r == NoMat()
    ensures !l.Empty() ==> WellFormedMaskOf(r, l)
  {
    RegionMask(l, [LeftBrow, RightBrow])
  }

  /** Each membership mask marks exactly the pixels carrying one of its labels. */
  lemma MembershipMasksAt(l: LabelMap, y: nat, x: nat)
    requires l.Shaped() && y < l.rows && x < l.cols
    ensures GetEyesMask(l).at[y][x] == Full <==> l.at[y][x] == LeftEye || l.at[y][x] == RightEye
    ensures GetMouthMask(l).at[y][x] == Full <==> MouthInterior <= l.at[y][x] <= LowerLip
    ensures GetNeckMask(l).at[y][x] == Full <==> l.at[y][x] == Neck
    ensures GetHairMask(l).at[y][x] == Full <==> l.at[y][x] == Hair
    ensures GetEyebrowsMask(l).at[y][x] == Full <==> l.at[y][x] == LeftBrow || l.at[y][x] == RightBrow
  {
  }

  /** No pixel is in both the eyes mask and the hair mask. */
  lemma EyesHairDisjoint(l: LabelMap, y: nat, x: nat)
    requires l.Shaped() && y < l.rows && x < l.cols
    ensures !(GetEyesMask(l).at[y][x] == Full && GetHairMask(l).at[y][x] == Full)
  {
    MembershipMasksAt(l, y, x);
  }

  // ---------------------------------------------------------------------------
  // The derived masks.

  // Unlike the membership masks, the derived masks call `inRange` on the map
  // without the empty-map guard of `getRegionMask`, so an empty map throws.

  /** Skin intersected with the 15 x 15 dilation of the eyebrows. */
  function GetForeheadMask(l: LabelMap): (r: Call<Mask>)
    requires l.Shaped()
    ensures r.Threw? <==> l.Empty()
    ensures r.Threw? ==> r.what == EmptySourceAssertion
    ensures r.Returned? ==> r.value.Shaped() && r.value.SameSize(l)
  {
    if l.Empty() then Threw(EmptySourceAssertion)
    else Returned(BitAnd(InRange(l, Skin, Skin), Dilate(InRange(l, LeftBrow, RightBrow), BrowWindowLo, BrowWindowHi)))
  }

  /** Skin minus the 20 x 20 dilation of nose and mouth. */
  function GetCheeksMask(l: LabelMap): (r: Call<Mask>)
    requires l.Shaped()
    ensures r.Threw? <==> l.Empty()
    ensures r.Threw? ==> r.what == EmptySourceAssertion
    ensures r.Returned? ==> r.value.Shaped() && r.value.SameSize(l)
  {
    if l.Empty() then Threw(EmptySourceAssertion)
    else Returned(BitAnd(InRange(l, Skin, Skin), BitNot(CentreDilated(l))))
  }

  /** The dilated nose-and-mouth area that the cheeks exclude. */
  function CentreDilated(l: LabelMap): (r: Mask)
    requires l.Shaped() && !l.Empty()
    ensures r.Shaped() && r.SameSize(l)
  {
    Dilate(BitOr(InRange(l, Nose, Nose), InRange(l, MouthInterior, LowerLip)), CentreWindowLo, CentreWindowHi)
  }

  /** Skin restricted to rows from floor(0.6 * rows) down. */
  function GetJawMask(l: LabelMap): (r: Call<Mask>)
    requires l.Shaped()
    ensures r.Threw? <==> l.Empty()
    ensures r.Threw? ==> r.what == EmptySourceAssertion
    ensures r.Returned? ==> r.value.Shaped() && r.value.SameSize(l)
  {
    if l.Empty() then Threw(EmptySourceAssertion)
    else Returned(BitAnd(InRange(l, Skin, Skin), LowerBand(l.rows, l.cols, JawStartRow(l.rows))))
  }

  predicate IsBrow(v: Byte) {
    LeftBrow <= v <= RightBrow
  }

  predicate IsCentre(v: Byte) {
    v == Nose || MouthInterior <= v <= LowerLip
  }

  /** Some pixel whose label satisfies `p` lies in the window of offsets lo..hi around (y, x). */
  ghost predicate LabelWithin(l: LabelMap, y: int, x: int, lo: int, hi: int, p: Byte -> bool) {
    exists yy, xx :: y + lo <= yy <= y + hi && x + lo <= xx <= x + hi &&
      0 <= yy < |l.at| && 0 <= xx < |l.at[yy]| && p(l.at[yy][xx])
  }

  /** Some eyebrow pixel lies in the 15 x 15 window around (y, x). */
  ghost predicate BrowWithin(l: LabelMap, y: int, x: int) {
    LabelWithin(l, y, x, BrowWindowLo, BrowWindowHi, IsBrow)
  }

  /** Some nose or mouth pixel lies in the 20 x 20 window around (y, x). */
  ghost predicate CentreWithin(l: LabelMap, y: int, x: int) {
    LabelWithin(l, y, x, CentreWindowLo, CentreWindowHi, IsCentre)
  }

  /** Dilating the mask of the labels satisfying `p` sets a pixel exactly when
      such a label lies in its window. */
  lemma DilatedLabelsAt(l: LabelMap, m: Mask, p: Byte -> bool, lo: int, hi: int, y: nat, x: nat)
    requires l.Shaped() && m.Shaped() && m.SameSize(l) && y < l.rows && x < l.cols
    requires forall yy, xx | 0 <= yy < l.rows && 0 <= xx < l.cols :: m.at[yy][xx] == if p(l.at[yy][xx]) then Full else 0
    ensures Binary(Dilate(m, lo, hi).at[y][x])
    ensures Dilate(m, lo, hi).at[y][x] == Full <==> LabelWithin(l, y, x, lo, hi, p)
  {
    BoxMaxOfBinary(m, y + lo, y + hi + 1, x + lo, x + hi + 1);
    if Dilate(m, lo, hi).at[y][x] == Full {
      var yy, xx :| y + lo <= yy < y + hi + 1 && x + lo <= xx < x + hi + 1 &&
        0 <= yy < m.rows && 0 <= xx < m.cols && m.at[yy][xx] == Full;
      assert p(l.at[yy][xx]);
    }
    if LabelWithin(l, y, x, lo, hi, p) {
      var yy, xx :| y + lo <= yy <= y + hi && x + lo <= xx <= x + hi &&
        0 <= yy < |l.at| && 0 <= xx < |l.at[yy]| && p(l.at[yy][xx]);
      assert m.at[yy][xx] == Full;
    }
  }

  /** A forehead pixel is set iff it is skin and an eyebrow pixel lies in its 15 x 15 window. */
  lemma ForeheadMaskAt(l: LabelMap, y: nat, x: nat)
    requires l.Shaped() && y < l.rows && x < l.cols
    ensures Binary(GetForeheadMask(l).value.at[y][x])
    ensures GetForeheadMask(l).value.at[y][x] == Full <==> l.at[y][x] == Skin && BrowWithin(l, y, x)
  {
    var brows := InRange(l, LeftBrow, RightBrow);
    DilatedLabelsAt(l, brows, IsBrow, BrowWindowLo, BrowWindowHi, y, x);
    BitOpsOnBinary(InRange(l, Skin, Skin).at[y][x], Dilate(brows, BrowWindowLo, BrowWindowHi).at[y][x]);
  }

  /** The nose-or-mouth mask marks exactly the centre labels. */
  lemma CentreMaskAt(l: LabelMap)
    requires l.Shaped() && !l.Empty()
    ensures forall yy, xx | 0 <= yy < l.rows && 0 <= xx < l.cols ::
      BitOr(InRange(l, Nose, Nose), InRange(l, MouthInterior, LowerLip)).at[yy][xx] == if IsCentre(l.at[yy][xx]) then Full else 0
  {
    forall yy, xx | 0 <= yy < l.rows && 0 <= xx < l.cols
      ensures BitOr(InRange(l, Nose, Nose), InRange(l, MouthInterior, LowerLip)).at[yy][xx] == if IsCentre(l.at[yy][xx]) then Full else 0
    {
      BitOpsOnBinary(InRange(l, Nose, Nose).at[yy][xx], InRange(l, MouthInterior, LowerLip).at[yy][xx]);
    }
  }

  /** A cheek pixel is set iff it is skin and no nose or mouth pixel lies in its 20 x 20 window;
      so no cheek pixel is inside the dilated centre. */
  lemma CheeksMaskAt(l: LabelMap, y: nat, x: nat)
    requires l.Shaped() && y < l.rows && x < l.cols
    ensures Binary(GetCheeksMask(l).value.at[y][x])
    ensures GetCheeksMask(l).value.at[y][x] == Full <==> l.at[y][x] == Skin && !CentreWithin(l, y, x)
    ensures GetCheeksMask(l).value.at[y][x] == Full ==> CentreDilated(l).at[y][x] == 0
  {
    var centre := BitOr(InRange(l, Nose, Nose), InRange(l, MouthInterior, LowerLip));
    CentreMaskAt(l);
    DilatedLabelsAt(l, centre, IsCentre, CentreWindowLo, CentreWindowHi, y, x);
    var d := CentreDilated(l).at[y][x];
    BitOpsOnBinary(d, d);
    BitOpsOnBinary(InRange(l, Skin, Skin).at[y][x], !d);
  }

  /** A jaw pixel is set iff it is skin and lies at or below row floor(0.6 * rows); rows above are 0. */
  lemma JawMaskAt(l: LabelMap, y: nat, x: nat)
    requires l.Shaped() && y < l.rows && x < l.cols
    ensures Binary(GetJawMask(l).value.at[y][x])
    ensures GetJawMask(l).value.at[y][x] == Full <==> l.at[y][x] == Skin && y >= l.rows * 6 / 10
    ensures y < l.rows * 6 / 10 ==> GetJawMask(l).value.at[y][x] == 0
  {
    BitOpsOnBinary(InRange(l, Skin, Skin).at[y][x], LowerBand(l.rows, l.cols, JawStartRow(l.rows)).at[y][x]);
  }

  /** Forehead, cheeks and jaw only ever mark skin pixels. */
  lemma DerivedMasksWithinSkin(l: LabelMap, y: nat, x: nat)
    requires l.Shaped() && y < l.rows && x < l.cols
    ensures GetForeheadMask(l).value.at[y][x] == Full ==> l.at[y][x] == Skin
    ensures GetCheeksMask(l).value.at[y][x] == Full ==> l.at[y][x] == Skin
    ensures GetJawMask(l).value.at[y][x] == Full ==> l.at[y][x] == Skin
  {
    ForeheadMaskAt(l, y, x);
    CheeksMaskAt(l, y, x);
    JawMaskAt(l, y, x);
  }

  /** On a non-empty map every named mask has the map's size and only 0/255 values. */
  lemma RegionMasksWellFormed(l: LabelMap)
    requires l.Shaped() && !l.Empty()
    ensures WellFormedMaskOf(GetEyesMask(l), l) && WellFormedMaskOf(GetMouthMask(l), l)
    ensures WellFormedMaskOf(GetNeckMask(l), l) && WellFormedMaskOf(GetHairMask(l), l)
    ensures WellFormedMaskOf(GetEyebrowsMask(l), l)
    ensures GetForeheadMask(l).Returned? && GetCheeksMask(l).Returned? && GetJawMask(l).Returned?
    ensures WellFormedMaskOf(GetForeheadMask(l).value, l) && WellFormedMaskOf(GetCheeksMask(l).value, l)
    ensures WellFormedMaskOf(GetJawMask(l).value, l)
  {
    forall y, x | 0 <= y < l.rows && 0 <= x < l.cols
      ensures Binary(GetForeheadMask(l).value.at[y][x]) && Binary(GetCheeksMask(l).value.at[y][x]) && Binary(GetJawMask(l).value.at[y][x])
    {
      ForeheadMaskAt(l, y, x);
      CheeksMaskAt(l, y, x);
      JawMaskAt(l, y, x);
    }
  }

  /** On an empty map the five membership masks are empty matrices, while the
      forehead, cheeks and jaw masks throw from `inRange`'s assertion. */
  lemma RegionMasksOfEmptyMap(l: LabelMap)
    requires l.Shaped() && l.Empty()
    ensures GetEyesMask(l).Empty() && GetMouthMask(l).Empty() && GetNeckMask(l).Empty()
    ensures GetHairMask(l).Empty() && GetEyebrowsMask(l).Empty()
    ensures GetForeheadMask(l) == Threw(EmptySourceAssertion) && GetCheeksMask(l) == Threw(EmptySourceAssertion)
    ensures GetJawMask(l) == Threw(EmptySourceAssertion)
  {
  }

  // ---------------------------------------------------------------------------
  // The parser object.

  /** The opaque part of parsing: resize to the input size, forward pass and
      per-pixel argmax, giving a label map at the network's resolution. `None`
      when any of it throws. */
  type ParsingNet = (Image, int, int) -> Option<LabelMap>

  /** The source index nearest-neighbour resizing reads for destination index
      `i`: i * src / dst rounded down, kept inside the source. */
  function NearestSource(i: nat, dst: nat, src: nat): (s: nat)
    requires i < dst && src > 0
    ensures s < src
  {
    var k := i * src / dst;
    if k < src then k else src - 1
  }

  /** `cv::resize` with nearest-neighbour interpolation to rows x cols. */
  function ResizeNearest(src: LabelMap, rows: nat, cols: nat): (r: LabelMap)
    requires src.Shaped() && !src.Empty()
    ensures r.Shaped() && r.rows == rows && r.cols == cols
    ensures forall y, x | 0 <= y < rows && 0 <= x < cols ::
      r.at[y][x] == src.at[NearestSource(y, rows, src.rows)][NearestSource(x, cols, src.cols)]
  {
    Mat(rows, cols, seq(rows, y requires 0 <= y < rows =>
      seq(cols, x requires 0 <= x < cols => src.at[NearestSource(y, rows, src.rows)][NearestSource(x, cols, src.cols)])))
  }

  /** Resizing only copies labels: every cell of the result holds a label found in the source. */
  lemma ResizeNearestLabels(src: LabelMap, rows: nat, cols: nat, y: nat, x: nat)
    requires src.Shaped() && !src.Empty() && y < rows && x < cols
    ensures exists sy, sx | 0 <= sy < src.rows && 0 <= sx < src.cols ::
      ResizeNearest(src, rows, cols).at[y][x] == src.at[sy][sx]
  {
    var sy := NearestSource(y, rows, src.rows);
    var sx := NearestSource(x, cols, src.cols);
    assert ResizeNearest(src, rows, cols).at[y][x] == src.at[sy][sx];
  }

  lemma DivUnique(a: int, n: int, q: int, r: int)
    requires n > 0 && a == q * n + r && 0 <= r < n
    ensures a / n == q
  {
    var q' := a / n;
    var r' := a % n;
    assert a == q' * n + r';
    var d := q - q';
    assert d * n == r' - r;
    MulBounds(d, n);
  }

  lemma MulBounds(d: int, n: int)
    requires n > 0
    ensures d >= 1 ==> d * n >= n
    ensures d <= -1 ==> d * n <= -n
  {
  }

  /** Resizing to the source's own size is the identity. */
  lemma ResizeNearestSameSize(src: LabelMap)
    requires src.Shaped() && !src.Empty()
    ensures ResizeNearest(src, src.rows, src.cols) == src
  {
    forall i: nat, n: nat | i < n
      ensures NearestSource(i, n, n) == i
    {
      DivUnique(i * n, n, i, 0);
    }
    Extensional(ResizeNearest(src, src.rows, src.cols), src);
  }

  /** Inference returned a non-empty map (resizing an empty one throws). */
  predicate NetMapUsable(out: Option<LabelMap>) {
    out.Some? && out.value.Shaped() && !out.value.Empty()
  }

  class FaceParser {
    var modelLoaded: bool
    var inputWidth: int
    var inputHeight: int

    /** The state the constructor leaves: unloaded, 512 x 512 input. */
    predicate AsConstructed()
      reads this
    {
      !modelLoaded && inputWidth == 512 && inputHeight == 512
    }

    constructor ()
      ensures AsConstructed()
    {
      modelLoaded := false;
      inputWidth := 512;
      inputHeight := 512;
    }

    /** `loadModel`; `netReady` is whether reading the network produced a non-empty net. */
    method LoadModel(netReady: bool) returns (ok: bool)
      modifies this`modelLoaded
      ensures ok == netReady
      ensures modelLoaded == (old(modelLoaded) || netReady)
    {
      ok := netReady;
      if netReady {
        modelLoaded := true;
      }
    }

    /** `parseFace`: an all-zero map of the crop's size without a model, for an
        empty crop, or when inference (or resizing an empty network map) throws;
        otherwise the network's map resized to the crop. Either way the map
        has the crop's size. */
    function ParseFace(crop: Image, net: ParsingNet): (r: LabelMap)
      reads this
      ensures r.Shaped() && r.rows == crop.rows && r.cols == crop.cols
      ensures !modelLoaded || crop.Empty() ==> r == Fill<Byte>(crop.rows, crop.cols, 0)
      ensures modelLoaded && !crop.Empty() && !NetMapUsable(net(crop, inputWidth, inputHeight)) ==>
        r == Fill<Byte>(crop.rows, crop.cols, 0)
      ensures modelLoaded && !crop.Empty() && NetMapUsable(net(crop, inputWidth, inputHeight)) ==>
        r == ResizeNearest(net(crop, inputWidth, inputHeight).value, crop.rows, crop.cols)
    {
      if !modelLoaded || crop.Empty() then Fill<Byte>(crop.rows, crop.cols, 0)
      else
        var out := net(crop, inputWidth, inputHeight);
        if NetMapUsable(out) then ResizeNearest(out.value, crop.rows, crop.cols)
        else Fill<Byte>(crop.rows, crop.cols, 0)
    }

    /** `parseFacesBatch`: one map per crop, in order. */
    method ParseFacesBatch(crops: seq<Image>, net: ParsingNet) returns (results: seq<LabelMap>)
      ensures |results| == |crops|
      ensures forall i | 0 <= i < |crops| :: results[i] == ParseFace(crops[i], net)
    {
      results := [];
      var i := 0;
      while i < |crops|
        invariant 0 <= i <= |crops|
        invariant |results| == i
        invariant forall k | 0 <= k < i :: results[k] == ParseFace(crops[k], net)
      {
        results := results + [ParseFace(crops[i], net)];
        i := i + 1;
      }
    }

    /** `setInputSize`. */
    method SetInputSize(width: int, height: int)
      modifies this`inputWidth, this`inputHeight
      ensures inputWidth == width && inputHeight == height
    {
      inputWidth := width;
      inputHeight := height;
    }
  }
}
