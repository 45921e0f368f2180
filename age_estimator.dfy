/** The age estimator around its opaque regression network: zero fallback,
    the clamp to [0, 100] and the length-preserving batch. */
module AgeEstimation {
  import opened Raster
  import opened Wrappers

  /** The opaque inference: resize to the input size, build the blob with the
      given mean, forward, and read element (0, 0). `None` when any step throws. */
  type AgeNet = (Image, int, int, real) -> Option<real>

  const MinAge := 0.0
  const MaxAge := 100.0

  /** `std::max(0.0f, std::min(100.0f, p))`, with `std::min`/`std::max` as the
      standard library defines them. */
  function ClampAge(p: real): (a: real)
    ensures MinAge <= a <= MaxAge
    ensures MinAge <= p <= MaxAge ==> a == p
    ensures p < MinAge ==> a == MinAge
    ensures p > MaxAge ==> a == MaxAge
  {
    var m := if p < MaxAge then p else MaxAge;
    if MinAge < m then m else MinAge
  }

  /** Clamping twice is clamping once. */
  lemma ClampAgeIdempotent(p: real)
    ensures ClampAge(ClampAge(p)) == ClampAge(p)
  {
  }

  /** The clamp never reorders two predictions. */
  lemma ClampAgeMonotone(p: real, q: real)
    requires p <= q
    ensures ClampAge(p) <= ClampAge(q)
  {
  }

  class AgeEstimator {
    var modelLoaded: bool
    var inputWidth: int
    var inputHeight: int
    var mean: real
    var std: real

    /** The state the constructor leaves: unloaded, 224 x 224 input, mean 0.485 and std 0.229. */
    predicate AsConstructed()
      reads this
    {
      !modelLoaded && inputWidth == 224 && inputHeight == 224 && mean == 0.485 && std == 0.229
    }

    constructor ()
      ensures AsConstructed()
    {
      modelLoaded := false;
      inputWidth := 224;
      inputHeight := 224;
      mean := 0.485;
      std := 0.229;
    }

    /** `loadModel`; `netReady` is whether reading the network produced a non-empty net. */
    method LoadModel(netReady: bool) returns (ok: bool)
      modifies this`modelLoaded
      ensures ok == netReady
      ensures modelLoaded == (old(modelLoaded) || netReady)
    {
      ok := netReady;
      if netReady {
        modelLoaded := true;
      }
    }

    /** `estimateAge`: 0 without a model, for an empty crop or when inference
        throws; otherwise the prediction clamped to [0, 100]. The stored `std`
        plays no part. */
    function EstimateAge(crop: Image, net: AgeNet): (age: real)
      reads this
      ensures MinAge <= age <= MaxAge
      ensures !modelLoaded || crop.Empty() ==> age == 0.0
      ensures modelLoaded && !crop.Empty() && net(crop, inputWidth, inputHeight, mean).None? ==> age == 0.0
      ensures (modelLoaded && !crop.Empty() && net(crop, inputWidth, inputHeight, mean).Some? &&
               MinAge <= net(crop, inputWidth, inputHeight, mean).value <= MaxAge) ==>
        age == net(crop, inputWidth, inputHeight, mean).value
    {
      if !modelLoaded || crop.Empty() then 0.0
      else match net(crop, inputWidth, inputHeight, mean)
        case None => 0.0
        case Some(p) => ClampAge(p)
    }

    /** `estimateAgeBatch`: one estimate per crop, in order. */
    method EstimateAgeBatch(crops: seq<Image>, net: AgeNet) returns (ages: seq<real>)
      ensures |ages| == |crops|
      ensures forall i | 0 <= i < |crops| :: ages[i] == EstimateAge(crops[i], net)
      ensures forall i | 0 <= i < |crops| :: MinAge <= ages[i] <= MaxAge
    {
      ages := [];
      for i := 0 to |crops|
        invariant |ages| == i
        invariant forall k | 0 <= k < i :: ages[k] == EstimateAge(crops[k], net)
      {
        ages := ages + [EstimateAge(crops[i], net)];
      }
    }

    /** `setInputSize`. */
    method SetInputSize(width: int, height: int)
      modifies this`inputWidth, this`inputHeight
      ensures inputWidth == width && inputHeight == height
    {
      inputWidth := width;
      inputHeight := height;
    }

    /** `setNormalization`. */
    method SetNormalization(newMean: real, newStd: real)
      modifies this`mean, this`std
      ensures mean == newMean && std == newStd
    {
      mean := newMean;
      std := newStd;
    }
  }
}
