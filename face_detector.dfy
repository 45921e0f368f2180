/** Post-processing of the face detector: confidence filter, corner-to-box
    conversion, the cap on the number of faces, sequential ids and the padded,
    clamped crop rectangle. The network and non-maximum suppression are opaque. */
module FaceDetection {
  import opened Raster
  import opened Wrappers
  import opened Types

  /** One row of the network output: the confidence (column 2) and the
      normalised corners x1, y1, x2, y2 (columns 3 to 6). */
  datatype Detection = Detection(confidence: real, x1: real, y1: real, x2: real, y2: real)

  /** An integer rectangle (`cv::Rect`). */
  datatype Rect = Rect(x: int, y: int, width: int, height: int)

  /** A box that passed the confidence filter, with its confidence. */
  datatype Candidate = Candidate(box: Rect, confidence: real)

  /** The opaque forward pass; `None` when preparing the input or inference throws. */
  type DetectionNet = Image -> Option<seq<Detection>>

  /** The opaque `cv::dnn::NMSBoxes`: the kept candidate indices, given the
      score and overlap thresholds. */
  type Nms = (seq<Candidate>, real, real) -> seq<int>

  /** What `NMSBoxes` guarantees: every index it returns names a candidate. */
  ghost predicate ValidNms(nms: Nms) {
    forall cands: seq<Candidate>, score: real, overlap: real, k: int
      | 0 <= k < |nms(cands, score, overlap)| :: 0 <= nms(cands, score, overlap)[k] < |cands|
  }

  /** Instantiates `ValidNms` for one call. */
  lemma NmsIndicesValid(nms: Nms, cands: seq<Candidate>, score: real, overlap: real)
    requires ValidNms(nms)
    ensures IndicesValid(cands, nms(cands, score, overlap))
  {
  }

  const DefaultConfidenceThreshold := 0.7
  const DefaultNmsThreshold := 0.4
  const DefaultMaxFaces := 10
  const Padding := 50

  /** `static_cast<int>` of a floating value: truncation toward zero. */
  function Trunc(v: real): (n: int)
    ensures v >= 0.0 ==> n as real <= v < n as real + 1.0
    ensures v < 0.0 ==> n as real - 1.0 < v <= n as real
  {
    if v >= 0.0 then v.Floor else -((-v).Floor)
  }

  /** The box of a detection row scaled to the image: truncated corners, then
      width x2 - x1 and height y2 - y1. */
  function BoxOf(d: Detection, cols: int, rows: int): (r: Rect)
    ensures r.x + r.width == Trunc(d.x2 * cols as real) && r.y + r.height == Trunc(d.y2 * rows as real)
  {
    var x1 := Trunc(d.x1 * cols as real);
    var y1 := Trunc(d.y1 * rows as real);
    var x2 := Trunc(d.x2 * cols as real);
    var y2 := Trunc(d.y2 * rows as real);
    Rect(x1, y1, x2 - x1, y2 - y1)
  }

  /** The candidates the filter loop collects from `dets`, in order: the rows
      whose confidence is strictly above `threshold`. */
  function Candidates(dets: seq<Detection>, threshold: real, cols: int, rows: int): seq<Candidate>
  {
    if |dets| == 0 then []
    else
      var last := dets[|dets| - 1];
      Candidates(dets[..|dets| - 1], threshold, cols, rows) +
        (if last.confidence > threshold then [Candidate(BoxOf(last, cols, rows), last.confidence)] else [])
  }

  /** Every candidate comes from a row above the threshold, with that row's box and confidence. */
  lemma {:induction false} CandidatesSound(dets: seq<Detection>, threshold: real, cols: int, rows: int)
    ensures var cands := Candidates(dets, threshold, cols, rows);
      |cands| <= |dets| &&
      forall k | 0 <= k < |cands| :: cands[k].confidence > threshold &&
        exists i | 0 <= i < |dets| :: dets[i].confidence == cands[k].confidence && cands[k].box == BoxOf(dets[i], cols, rows)
  {
    if |dets| > 0 {
      var front := dets[..|dets| - 1];
      CandidatesSound(front, threshold, cols, rows);
      var cands := Candidates(dets, threshold, cols, rows);
      var prev := Candidates(front, threshold, cols, rows);
      forall k | 0 <= k < |cands|
        ensures cands[k].confidence > threshold &&
          exists i | 0 <= i < |dets| :: dets[i].confidence == cands[k].confidence && cands[k].box == BoxOf(dets[i], cols, rows)
      {
        if k < |prev| {
          var i :| 0 <= i < |front| && front[i].confidence == prev[k].confidence && prev[k].box == BoxOf(front[i], cols, rows);
          assert dets[i] == front[i];
        } else {
          assert dets[|dets| - 1].confidence == cands[k].confidence;
        }
      }
    }
  }

  /** Every row strictly above the threshold yields a candidate. */
  lemma {:induction false} CandidatesComplete(dets: seq<Detection>, threshold: real, cols: int, rows: int, i: int)
    requires 0 <= i < |dets| && dets[i].confidence > threshold
    ensures Candidate(BoxOf(dets[i], cols, rows), dets[i].confidence) in Candidates(dets, threshold, cols, rows)
  {
    if i < |dets| - 1 {
      var front := dets[..|dets| - 1];
      assert front[i] == dets[i];
      CandidatesComplete(front, threshold, cols, rows, i);
    }
  }

  /** The crop rectangle: the box grown by `Padding` on every side, its origin
      clamped to 0 and its extent clamped to the image. */
  function CropRect(box: Rect, cols: int, rows: int): (r: Rect)
    ensures r.x >= 0 && r.y >= 0 && r.x + r.width <= cols && r.y + r.height <= rows
  {
    var x0 := if box.x - Padding > 0 then box.x - Padding else 0;
    var y0 := if box.y - Padding > 0 then box.y - Padding else 0;
    var w := if cols - x0 < box.width + 2 * Padding then cols - x0 else box.width + 2 * Padding;
    var h := if rows - y0 < box.height + 2 * Padding then rows - y0 else box.height + 2 * Padding;
    Rect(x0, y0, w, h)
  }

  /** The bounds `cv::Mat`'s region operator asserts before taking a view. */
  predicate ValidRoi(r: Rect, cols: int, rows: int) {
    0 <= r.x && 0 <= r.width && r.x + r.width <= cols &&
    0 <= r.y && 0 <= r.height && r.y + r.height <= rows
  }

  /** The crop rectangle passes the region check exactly when its clamped width
      and height are not negative; otherwise taking the crop throws. */
  lemma CropRectValid(box: Rect, cols: int, rows: int)
    ensures var r := CropRect(box, cols, rows);
      ValidRoi(r, cols, rows) <==> r.width >= 0 && r.height >= 0
  {
  }

  /** A padded box well inside the image is not clamped: its crop is the box grown by 50 on each side. */
  lemma CropRectInterior(box: Rect, cols: int, rows: int)
    requires box.x >= Padding && box.y >= Padding && box.width >= 0 && box.height >= 0
    requires box.x + box.width + Padding <= cols && box.y + box.height + Padding <= rows
    ensures CropRect(box, cols, rows) == Rect(box.x - Padding, box.y - Padding, box.width + 2 * Padding, box.height + 2 * Padding)
  {
  }

  /** The 2 x 3 identity transform (`cv::Mat::eye(2, 3, CV_32F)`). */
  function Eye23(): (m: Mat<real>)
    ensures m.Shaped() && m.rows == 2 && m.cols == 3
    ensures forall y, x | 0 <= y < 2 && 0 <= x < 3 :: m.at[y][x] == if y == x then 1.0 else 0.0
  {
    Mat(2, 3, [[1.0, 0.0, 0.0], [0.0, 1.0, 0.0]])
  }

  /** The face the loop emits at position `i` for candidate `c`. */
  function FaceAt(image: Image, c: Candidate, i: int): Face
    requires image.Shaped() && ValidRoi(CropRect(c.box, image.cols, image.rows), image.cols, image.rows)
  {
    var r := CropRect(c.box, image.cols, image.rows);
    Face(FaceBox(c.box.x as real, c.box.y as real, c.box.width as real, c.box.height as real, c.confidence, i),
         FaceLandmarks([], 0.0),
         Region(image, r.x, r.y, r.width, r.height),
         Eye23(), 0, 0)
  }

  predicate IndicesValid(cands: seq<Candidate>, indices: seq<int>) {
    forall k | 0 <= k < |indices| :: 0 <= indices[k] < |cands|
  }

  /** The crop for position `i` can be taken. */
  predicate Croppable(image: Image, cands: seq<Candidate>, indices: seq<int>, i: int)
    requires IndicesValid(cands, indices) && 0 <= i < |indices|
  {
    var r := CropRect(cands[indices[i]].box, image.cols, image.rows);
    r.width >= 0 && r.height >= 0
  }

  /** The faces positions i .. n - 1 contribute: one per position, stopping at
      the first whose crop throws. */
  function Build(image: Image, cands: seq<Candidate>, indices: seq<int>, i: nat, n: nat): seq<Face>
    requires image.Shaped() && IndicesValid(cands, indices) && n <= |indices|
    decreases n - i
  {
    if i >= n then []
    else if !Croppable(image, cands, indices, i) then []
    else
      CropRectValid(cands[indices[i]].box, image.cols, image.rows);
      [FaceAt(image, cands[indices[i]], i)] + Build(image, cands, indices, i + 1, n)
  }

  /** A C++ `int`. */
  type Int32 = n: int | -0x8000_0000 <= n < 0x8000_0000

  /** `i < max_faces_` with `i` a `size_t`: a negative bound converts to 2^64 plus the bound. */
  function FaceCap(maxFaces: Int32): nat {
    if maxFaces >= 0 then maxFaces else 0x1_0000_0000_0000_0000 + maxFaces
  }

  /** The number of positions the build loop visits. */
  function Visited(indices: seq<int>, maxFaces: Int32): (n: nat)
    ensures n <= |indices| && n <= FaceCap(maxFaces)
    ensures n == |indices| || n == FaceCap(maxFaces)
  {
    if |indices| <= FaceCap(maxFaces) then |indices| else FaceCap(maxFaces)
  }

  /** What `detectFaces` returns for the given settings. */
  function Detect(loaded: bool, threshold: real, nmsThreshold: real, maxFaces: Int32, image: Image, net: DetectionNet, nms: Nms): seq<Face>
    requires image.Shaped() && ValidNms(nms)
  {
    if !loaded || image.Empty() then []
    else match net(image)
      case None => []
      case Some(dets) =>
        var cands := Candidates(dets, threshold, image.cols, image.rows);
        var indices := nms(cands, threshold, nmsThreshold);
        Build(image, cands, indices, 0, Visited(indices, maxFaces))
  }

  /** `fs` holds, at each position k, the face of index i + k, all below n. */
  predicate FacesFrom(image: Image, cands: seq<Candidate>, indices: seq<int>, i: nat, n: nat, fs: seq<Face>)
    requires image.Shaped() && IndicesValid(cands, indices) && n <= |indices|
  {
    |fs| <= n - i &&
    forall k | 0 <= k < |fs| :: i + k < n && Croppable(image, cands, indices, i + k) &&
      fs[k] == FaceAt(image, cands[indices[i + k]], i + k)
  }

  /** Position k of the built list is the face of index k. */
  lemma {:induction false} BuildAt(image: Image, cands: seq<Candidate>, indices: seq<int>, i: nat, n: nat)
    requires image.Shaped() && IndicesValid(cands, indices) && i <= n <= |indices|
    ensures FacesFrom(image, cands, indices, i, n, Build(image, cands, indices, i, n))
    decreases n - i
  {
    var fs := Build(image, cands, indices, i, n);
    if i < n && Croppable(image, cands, indices, i) {
      BuildAt(image, cands, indices, i + 1, n);
      var rest := Build(image, cands, indices, i + 1, n);
      CropRectValid(cands[indices[i]].box, image.cols, image.rows);
      assert fs == [FaceAt(image, cands[indices[i]], i)] + rest;
      forall k | 0 <= k < |fs|
        ensures i + k < n && Croppable(image, cands, indices, i + k) && fs[k] == FaceAt(image, cands[indices[i + k]], i + k)
      {
        if k > 0 {
          assert fs[k] == rest[k - 1];
        }
      }
      assert FacesFrom(image, cands, indices, i, n, fs);
    } else {
      assert fs == [];
    }
  }

  /** When no crop from position i up to n throws, every position yields a face. */
  lemma {:induction false} BuildComplete(image: Image, cands: seq<Candidate>, indices: seq<int>, i: nat, n: nat)
    requires image.Shaped() && IndicesValid(cands, indices) && i <= n <= |indices|
    requires forall j | i <= j < n :: Croppable(image, cands, indices, j)
    ensures |Build(image, cands, indices, i, n)| == n - i
    decreases n - i
  {
    if i < n {
      BuildComplete(image, cands, indices, i + 1, n);
    }
  }

  /** Every candidate is strictly above the threshold. */
  lemma {:induction false} CandidatesAbove(dets: seq<Detection>, threshold: real, cols: int, rows: int)
    ensures forall c | c in Candidates(dets, threshold, cols, rows) :: c.confidence > threshold
  {
    if |dets| > 0 {
      CandidatesAbove(dets[..|dets| - 1], threshold, cols, rows);
    }
  }

  /** The faces built from NMS survivors: no more than the survivors and no
      more than the cap; the face at position k has id k and the k-th
      survivor's box and confidence, its crop is the padded box cut out of the
      image, and its transform is the identity. When every visited survivor's
      crop can be taken, every visited position yields a face. */
  lemma BuildProperties(image: Image, cands: seq<Candidate>, indices: seq<int>, maxFaces: Int32)
    requires image.Shaped() && IndicesValid(cands, indices)
    ensures var faces := Build(image, cands, indices, 0, Visited(indices, maxFaces));
      |faces| <= |indices| && |faces| <= FaceCap(maxFaces) &&
      (forall k | 0 <= k < |faces| ::
        var c := cands[indices[k]]; var r := CropRect(c.box, image.cols, image.rows);
        faces[k].box == FaceBox(c.box.x as real, c.box.y as real, c.box.width as real, c.box.height as real, c.confidence, k) &&
        ValidRoi(r, image.cols, image.rows) &&
        faces[k].alignedCrop == Region(image, r.x, r.y, r.width, r.height) &&
        faces[k].transform == Eye23()) &&
      ((forall j | 0 <= j < Visited(indices, maxFaces) :: Croppable(image, cands, indices, j)) ==>
        |faces| == Visited(indices, maxFaces))
  {
    BuildAt(image, cands, indices, 0, Visited(indices, maxFaces));
    if forall j | 0 <= j < Visited(indices, maxFaces) :: Croppable(image, cands, indices, j) {
      BuildComplete(image, cands, indices, 0, Visited(indices, maxFaces));
    }
    var faces := Build(image, cands, indices, 0, Visited(indices, maxFaces));
    forall k | 0 <= k < |faces|
      ensures ValidRoi(CropRect(cands[indices[k]].box, image.cols, image.rows), image.cols, image.rows)
    {
      var f := faces[k];
      assert Croppable(image, cands, indices, k);
      CropRectValid(cands[indices[k]].box, image.cols, image.rows);
    }
  }

  /** Every returned face has a confidence strictly above the threshold, and
      face ids are the positions 0, 1, 2, ... */
  lemma DetectAboveThreshold(loaded: bool, threshold: real, nmsThreshold: real, maxFaces: Int32, image: Image, net: DetectionNet, nms: Nms)
    requires image.Shaped() && ValidNms(nms)
    ensures var faces := Detect(loaded, threshold, nmsThreshold, maxFaces, image, net, nms);
      forall k | 0 <= k < |faces| :: faces[k].box.confidence > threshold && faces[k].box.faceId == k
  {
    if loaded && !image.Empty() && net(image).Some? {
      var cands := Candidates(net(image).value, threshold, image.cols, image.rows);
      var indices := nms(cands, threshold, nmsThreshold);
      CandidatesAbove(net(image).value, threshold, image.cols, image.rows);
      BuildProperties(image, cands, indices, maxFaces);
      var faces := Detect(loaded, threshold, nmsThreshold, maxFaces, image, net, nms);
      forall k | 0 <= k < |faces|
        ensures faces[k].box.confidence > threshold
      {
        assert cands[indices[k]] in cands;
      }
    }
  }

  /** The filter loop: keeps, in order, the rows strictly above the threshold, as boxes. */
  method CollectCandidates(dets: seq<Detection>, threshold: real, cols: int, rows: int) returns (cands: seq<Candidate>)
    ensures cands == Candidates(dets, threshold, cols, rows)
  {
    cands := [];
    var i := 0;
    while i < |dets|
      invariant 0 <= i <= |dets|
      invariant cands == Candidates(dets[..i], threshold, cols, rows)
    {
      var d := dets[i];
      assert dets[..i + 1][..i] == dets[..i] && dets[..i + 1][i] == d;
      assert Candidates(dets[..i + 1], threshold, cols, rows) ==
        Candidates(dets[..i], threshold, cols, rows) +
        (if d.confidence > threshold then [Candidate(BoxOf(d, cols, rows), d.confidence)] else []);
      if d.confidence > threshold {
        cands := cands + [Candidate(BoxOf(d, cols, rows), d.confidence)];
      }
      i := i + 1;
    }
    assert dets[..|dets|] == dets;
  }

  /** The build loop over the NMS survivors, bounded by the cap; a crop that
      throws ends it and the faces so far are returned. */
  method BuildFaces(image: Image, cands: seq<Candidate>, indices: seq<int>, maxFaces: Int32) returns (faces: seq<Face>)
    requires image.Shaped() && IndicesValid(cands, indices)
    ensures faces == Build(image, cands, indices, 0, Visited(indices, maxFaces))
  {
    faces := [];
    ghost var n := Visited(indices, maxFaces);
    var k := 0;
    while k < |indices| && k < FaceCap(maxFaces)
      invariant 0 <= k <= n
      invariant faces + Build(image, cands, indices, k, n) == Build(image, cands, indices, 0, n)
      decreases |indices| - k
    {
      var c := cands[indices[k]];
      var r := CropRect(c.box, image.cols, image.rows);
      if r.width < 0 || r.height < 0 {
        // the region operator throws; the handler returns the faces so far
        assert faces == faces + Build(image, cands, indices, k, n);
        return;
      }
      var face := Face(FaceBox(c.box.x as real, c.box.y as real, c.box.width as real, c.box.height as real, c.confidence, k),
                       FaceLandmarks([], 0.0), Region(image, r.x, r.y, r.width, r.height), Eye23(), 0, 0);
      assert Build(image, cands, indices, k, n) == [face] + Build(image, cands, indices, k + 1, n);
      assert faces + [face] + Build(image, cands, indices, k + 1, n) == faces + Build(image, cands, indices, k, n);
      faces := faces + [face];
      k := k + 1;
    }
    assert faces == faces + Build(image, cands, indices, k, n);
  }

  class FaceDetector {
    var modelLoaded: bool
    var confidenceThreshold: real
    var nmsThreshold: real
    var maxFaces: Int32

    /** The state the constructor leaves: unloaded, thresholds 0.7 and 0.4, at most 10 faces. */
    predicate AsConstructed()
      reads this
    {
      !modelLoaded && confidenceThreshold == DefaultConfidenceThreshold &&
      nmsThreshold == DefaultNmsThreshold && maxFaces == DefaultMaxFaces
    }

    constructor ()
      ensures AsConstructed()
    {
      modelLoaded := false;
      confidenceThreshold := DefaultConfidenceThreshold;
      nmsThreshold := DefaultNmsThreshold;
      maxFaces := DefaultMaxFaces;
    }

    /** `loadModel`; `netReady` is whether reading the network produced a non-empty net. */
    method LoadModel(netReady: bool) returns (ok: bool)
      modifies this`modelLoaded
      ensures ok == netReady
      ensures modelLoaded == (old(modelLoaded) || netReady)
    {
      ok := netReady;
      if netReady {
        modelLoaded := true;
      }
    }

    /** `detectFaces`: the filter loop over the network rows, NMS, then the
        build loop that stops early when a crop throws. */
    method DetectFaces(image: Image, net: DetectionNet, nms: Nms) returns (faces: seq<Face>)
      requires image.Shaped() && ValidNms(nms)
      ensures faces == Detect(modelLoaded, confidenceThreshold, nmsThreshold, maxFaces, image, net, nms)
    {
      faces := [];
      if !modelLoaded || image.Empty() {
        return;
      }
      var output := net(image);
      if output.None? {
        return;
      }
      var cands := CollectCandidates(output.value, confidenceThreshold, image.cols, image.rows);
      var indices := nms(cands, confidenceThreshold, nmsThreshold);
      NmsIndicesValid(nms, cands, confidenceThreshold, nmsThreshold);
      faces := BuildFaces(image, cands, indices, maxFaces);
    }

    /** `setConfidenceThreshold`. */
    method SetConfidenceThreshold(threshold: real)
      modifies this`confidenceThreshold
      ensures confidenceThreshold == threshold
    {
      confidenceThreshold := threshold;
    }

    /** `setNMSThreshold`. */
    method SetNmsThreshold(threshold: real)
      modifies this`nmsThreshold
      ensures nmsThreshold == threshold
    {
      nmsThreshold := threshold;
    }

    /** `setMaxFaces`. */
    method SetMaxFaces(count: Int32)
      modifies this`maxFaces
      ensures maxFaces == count
    {
      maxFaces := count;
    }
  }

  /** Every returned face's crop is a rectangular image. */
  lemma DetectCropsShaped(loaded: bool, threshold: real, nmsThreshold: real, maxFaces: Int32, image: Image, net: DetectionNet, nms: Nms)
    requires image.Shaped() && ValidNms(nms)
    ensures var faces := Detect(loaded, threshold, nmsThreshold, maxFaces, image, net, nms);
      forall k | 0 <= k < |faces| :: faces[k].alignedCrop.Shaped()
  {
    if loaded && !image.Empty() && net(image).Some? {
      var cands := Candidates(net(image).value, threshold, image.cols, image.rows);
      var indices := nms(cands, threshold, nmsThreshold);
      NmsIndicesValid(nms, cands, threshold, nmsThreshold);
      BuildProperties(image, cands, indices, maxFaces);
    }
  }

  /** Without a model or for an empty image no face is returned; a fresh detector has no model. */
  lemma NoModelNoFaces(threshold: real, nmsThreshold: real, maxFaces: Int32, image: Image, net: DetectionNet, nms: Nms, loaded: bool)
    requires image.Shaped() && ValidNms(nms) && (!loaded || image.Empty())
    ensures Detect(loaded, threshold, nmsThreshold, maxFaces, image, net, nms) == []
  {
  }
}
