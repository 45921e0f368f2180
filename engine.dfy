/** The full engine (`Engine::Impl`): initialisation, ordered model loading
    with error reporting, the per-frame detect / parse / synthesize / composite
    loop, and the guarded detector and age-estimator entry points. */
module FullEngine {
  import opened Raster
  import opened Wrappers
  import opened Types
  import FaceDetection
  import AgeEstimation
  import FaceParsing
  import FeedforwardGeneration

  /** The collaborators the model has no code for: the detection network and
      NMS, the parsing network, the generator's forward pass, the diffusion
      editor's `generateAgedFace` and the compositor's `compositeFace` (which
      returns the updated frame). The last two may throw. */
  datatype Collaborators = Collaborators(
    detectionNet: FaceDetection.DetectionNet,
    nms: FaceDetection.Nms,
    parsingNet: FaceParsing.ParsingNet,
    forward: FeedforwardGeneration.Forward,
    diffusion: (Image, AgeControls, LabelMap) -> Call<Image>,
    composite: (Image, Image, Face) -> Call<Image>)

  const NotInitializedMessage := "Engine not initialized"
  const GpuFailureMessage := "Failed to initialize GPU memory manager"
  const ProcessingFailedPrefix := "Processing failed: "
  const ProcessingTimeKey := "processing_time_ms"
  const FacesProcessedKey := "faces_processed"

  /** The `what()` of `std::bad_function_call`, thrown by calling an empty `std::function`. */
  const BadFunctionCall := "bad_function_call"

  /** The messages reported when a required model fails to load, in loading
      order: detector, age estimator, parser, feedforward generator. */
  const LoadFailureMessages := [
    "Failed to load face detection model",
    "Failed to load age estimation model",
    "Failed to load face parsing model",
    "Failed to load feedforward generator model"]

  // ---------------------------------------------------------------------------
  // Model loading.

  /** The position of the first failing load, or `|loads|` when all succeed. */
  function FirstFailure(loads: seq<bool>): (k: nat)
    ensures k <= |loads|
    ensures forall i | 0 <= i < k :: loads[i]
    ensures k < |loads| ==> !loads[k]
  {
    if |loads| == 0 then 0
    else if !loads[0] then 0
    else 1 + FirstFailure(loads[1..])
  }

  /** The first failure is the one position before which every load succeeds
      and at which one fails (or the end). */
  lemma {:induction false} FirstFailureIs(loads: seq<bool>, k: nat)
    requires k <= |loads| && (forall i | 0 <= i < k :: loads[i]) && (k < |loads| ==> !loads[k])
    ensures FirstFailure(loads) == k
  {
    if k > 0 {
      FirstFailureIs(loads[1..], k - 1);
    }
  }

  /** What `loadModels` returns or throws, given whether the engine is
      initialised, whether an error callback is set, and the four load results.
      Reporting through an unset callback throws `bad_function_call`; inside
      the `try` the handler then reports again, which throws once more. */
  function LoadOutcome(initialized: bool, hasCallback: bool, loads: seq<bool>): Call<bool>
    requires |loads| == 4
  {
    if !initialized then (if hasCallback then Returned(false) else Threw(BadFunctionCall))
    else if FirstFailure(loads) == 4 then Returned(true)
    else if hasCallback then Returned(false)
    else Threw(BadFunctionCall)
  }

  /** The messages `loadModels` delivers to the error callback. */
  function LoadReports(initialized: bool, hasCallback: bool, loads: seq<bool>): seq<string>
    requires |loads| == 4
  {
    if !hasCallback then []
    else if !initialized then [NotInitializedMessage]
    else if FirstFailure(loads) == 4 then []
    else [LoadFailureMessages[FirstFailure(loads)]]
  }

  /** `loadModels` succeeds exactly when the engine is initialised and all four
      required models load; with a callback set it never throws, and it
      reports one message exactly when it fails. */
  lemma LoadOutcomeProperties(initialized: bool, hasCallback: bool, loads: seq<bool>)
    requires |loads| == 4
    ensures LoadOutcome(initialized, hasCallback, loads) == Returned(true) <==>
      initialized && loads[0] && loads[1] && loads[2] && loads[3]
    ensures hasCallback ==> LoadOutcome(initialized, hasCallback, loads).Returned?
    ensures hasCallback ==> (|LoadReports(initialized, hasCallback, loads)| == 1 <==>
      LoadOutcome(initialized, hasCallback, loads) == Returned(false))
    ensures |LoadReports(initialized, hasCallback, loads)| <= 1
  {
    if initialized && loads[0] && loads[1] && loads[2] && loads[3] {
      FirstFailureIs(loads, 4);
    }
  }

  /** Loading stops at the first failure: its message names that model. */
  lemma LoadReportsNameFirstFailure(loads: seq<bool>, i: nat)
    requires |loads| == 4 && i < 4 && !loads[i] && forall j | 0 <= j < i :: loads[j]
    ensures LoadReports(true, true, loads) == [LoadFailureMessages[i]]
  {
    FirstFailureIs(loads, i);
  }

  /** As written, with no error callback set a failing model load does not
      return false: the exception from the empty callback escapes. */
  lemma LoadModelsThrowsWithoutCallback()
    ensures LoadOutcome(true, false, [false, true, true, true]) == Threw(BadFunctionCall)
    ensures LoadOutcome(false, false, [true, true, true, true]) == Threw(BadFunctionCall)
  {
  }

  /** `loadModels` with every report guarded by a check that the callback is
      set, as the handler in `initialize` does. */
  function GuardedLoadOutcome(initialized: bool, hasCallback: bool, loads: seq<bool>): Call<bool>
    requires |loads| == 4
  {
    if !initialized then Returned(false)
    else Returned(FirstFailure(loads) == 4)
  }

  /** With guarded reports loading never throws, and it returns true exactly when
      the engine is initialised and every required model loads. */
  lemma GuardedLoadNeverThrows(initialized: bool, hasCallback: bool, loads: seq<bool>)
    requires |loads| == 4
    ensures GuardedLoadOutcome(initialized, hasCallback, loads).Returned?
    ensures GuardedLoadOutcome(initialized, hasCallback, loads).value <==>
      initialized && loads[0] && loads[1] && loads[2] && loads[3]
    ensures hasCallback ==> GuardedLoadOutcome(initialized, hasCallback, loads) == LoadOutcome(initialized, hasCallback, loads)
  {
    if initialized && loads[0] && loads[1] && loads[2] && loads[3] {
      FirstFailureIs(loads, 4);
    }
  }

  // ---------------------------------------------------------------------------
  // Frames.

  /** Every raster in the context is rectangular (as every `cv::Mat` is). */
  predicate ContextShaped(context: FrameContext) {
    context.inputFrame.Shaped() &&
    forall i | 0 <= i < |context.detectedFaces| :: context.detectedFaces[i].alignedCrop.Shaped()
  }

  function NotInitializedResult(): (r: ProcessingResult)
    ensures !r.success && r.errorMessage == NotInitializedMessage && r.processedFaces == []
  {
    ProcessingResult(NoMat(), [], map[], false, NotInitializedMessage)
  }

  /** The metrics of a successful frame with faces. */
  function FrameMetrics(elapsedMs: nat, faceCount: nat): (m: map<string, real>)
    ensures m.Keys == {ProcessingTimeKey, FacesProcessedKey}
    ensures m[ProcessingTimeKey] == elapsedMs as real && m[FacesProcessedKey] == faceCount as real
  {
    map[ProcessingTimeKey := elapsedMs as real, FacesProcessedKey := faceCount as real]
  }

  /** The backends a build reports: CPU fallback, then those compiled in, in
      the order CUDA, Metal, DirectML. */
  function GetAvailableBackends(cudaFound: bool, metalFound: bool, directMlFound: bool): (b: seq<GpuBackend>)
    ensures |b| > 0 && b[0] == CpuFallback
    ensures Cuda in b <==> cudaFound
    ensures Metal in b <==> metalFound
    ensures DirectMl in b <==> directMlFound
    ensures forall i, j | 0 <= i < j < |b| :: b[i] != b[j]
  {
    [CpuFallback] + (if cudaFound then [Cuda] else []) + (if metalFound then [Metal] else []) +
      (if directMlFound then [DirectMl] else [])
  }

  class Engine {
    var initialized: bool
    var config: Option<ModelConfig>
    var processingMode: ProcessingMode
    var gpuBackend: GpuBackend
    var detector: FaceDetection.FaceDetector?
    var ageEstimator: AgeEstimation.AgeEstimator?
    var parser: FaceParsing.FaceParser?
    var generator: FeedforwardGeneration.FeedforwardGenerator?
    var hasErrorCallback: bool
    /** The messages delivered to the error callback so far, in order. */
    var reported: seq<string>

    /** The components exist exactly when the engine is initialised. */
    predicate Valid()
      reads this
    {
      (initialized ==> detector != null && ageEstimator != null && parser != null && generator != null) &&
      (!initialized ==> detector == null && ageEstimator == null && parser == null && generator == null)
    }

    constructor ()
      ensures Valid() && !initialized && config == None
      ensures processingMode == Feedforward && gpuBackend == Cuda
      ensures !hasErrorCallback && reported == []
    {
      initialized := false;
      config := None;
      processingMode := Feedforward;
      gpuBackend := Cuda;
      detector := null;
      ageEstimator := null;
      parser := null;
      generator := null;
      hasErrorCallback := false;
      reported := [];
    }

    /** `initialize`: stores the configuration; when the GPU manager fails,
        reports it (an unset callback throws, and the handler then stays
        silent) and returns false, leaving everything else as it was;
        otherwise creates fresh components in their constructed state (default
        thresholds, face cap, input sizes and normalisation) and becomes initialised. */
    method Initialize(cfg: ModelConfig, gpuReady: bool) returns (ok: bool)
      requires Valid()
      modifies this
      ensures Valid() && ok == gpuReady && config == Some(cfg)
      ensures processingMode == old(processingMode) && gpuBackend == old(gpuBackend)
      ensures hasErrorCallback == old(hasErrorCallback)
      ensures gpuReady ==> initialized && reported == old(reported)
      ensures gpuReady ==> fresh(detector) && fresh(ageEstimator) && fresh(parser) && fresh(generator)
      ensures gpuReady ==> detector.AsConstructed() && ageEstimator.AsConstructed() && parser.AsConstructed() && generator.AsConstructed()
      ensures !gpuReady ==> initialized == old(initialized)
      ensures !gpuReady ==> (detector == old(detector) && ageEstimator == old(ageEstimator) &&
                             parser == old(parser) && generator == old(generator))
      ensures !gpuReady ==> reported == old(reported) + (if hasErrorCallback then [GpuFailureMessage] else [])
    {
      config := Some(cfg);
      if !gpuReady {
        if hasErrorCallback {
          reported := reported + [GpuFailureMessage];
        }
        return false;
      }
      detector := new FaceDetection.FaceDetector();
      ageEstimator := new AgeEstimation.AgeEstimator();
      parser := new FaceParsing.FaceParser();
      generator := new FeedforwardGeneration.FeedforwardGenerator();
      initialized := true;
      ok := true;
    }

    /** `loadModels`: detector, age estimator, parser and feedforward generator
        in that order, stopping at the first that fails; `*Ready` is whether
        that component's network reads successfully. The diffusion model's
        result is ignored. Component k is loaded afterwards if it was before or
        it lies before the first failure. */
    method LoadModels(detectorReady: bool, ageReady: bool, parserReady: bool, generatorReady: bool)
      returns (outcome: Call<bool>)
      requires Valid()
      modifies this`reported
      modifies (if initialized then {detector} else {})`modelLoaded, (if initialized then {ageEstimator} else {})`modelLoaded
      modifies (if initialized then {parser} else {})`modelLoaded, (if initialized then {generator} else {})`modelLoaded
      ensures Valid()
      ensures var loads := [detectorReady, ageReady, parserReady, generatorReady];
        outcome == LoadOutcome(initialized, hasErrorCallback, loads) &&
        reported == old(reported) + LoadReports(initialized, hasErrorCallback, loads)
      ensures initialized ==>
        var k := FirstFailure([detectorReady, ageReady, parserReady, generatorReady]);
        detector.modelLoaded == (old(detector.modelLoaded) || 0 < k) &&
        ageEstimator.modelLoaded == (old(ageEstimator.modelLoaded) || 1 < k) &&
        parser.modelLoaded == (old(parser.modelLoaded) || 2 < k) &&
        generator.modelLoaded == (old(generator.modelLoaded) || 3 < k)
    {
      ghost var loads := [detectorReady, ageReady, parserReady, generatorReady];
      if !initialized {
        if !hasErrorCallback {
          return Threw(BadFunctionCall);
        }
        reported := reported + [NotInitializedMessage];
        return Returned(false);
      }
      var ok := detector.LoadModel(detectorReady);
      if !ok {
        FirstFailureIs(loads, 0);
        outcome := ReportLoadFailure(0);
        return;
      }
      ok := ageEstimator.LoadModel(ageReady);
      if !ok {
        FirstFailureIs(loads, 1);
        outcome := ReportLoadFailure(1);
        return;
      }
      ok := parser.LoadModel(parserReady);
      if !ok {
        FirstFailureIs(loads, 2);
        outcome := ReportLoadFailure(2);
        return;
      }
      ok := generator.LoadModel(generatorReady);
      if !ok {
        FirstFailureIs(loads, 3);
        outcome := ReportLoadFailure(3);
        return;
      }
      FirstFailureIs(loads, 4);
      outcome := Returned(true);
    }

    /** Reporting the failure of required model `k` inside the `try` of `loadModels`. */
    method ReportLoadFailure(k: nat) returns (outcome: Call<bool>)
      requires k < 4
      modifies this`reported
      ensures outcome == (if hasErrorCallback then Returned(false) else Threw(BadFunctionCall))
      ensures reported == old(reported) + (if hasErrorCallback then [LoadFailureMessages[k]] else [])
    {
      if !hasErrorCallback {
        // the empty callback throws; the handler's report throws again
        return Threw(BadFunctionCall);
      }
      reported := reported + [LoadFailureMessages[k]];
      outcome := Returned(false);
    }

    /** The faces a frame is processed with: the context's, or the detector's
        when the context has none. */
    function FramesFaces(context: FrameContext, col: Collaborators): (faces: seq<Face>)
      reads this, detector
      requires Valid() && initialized && ContextShaped(context) && FaceDetection.ValidNms(col.nms)
      ensures forall i | 0 <= i < |faces| :: faces[i].alignedCrop.Shaped()
    {
      if |context.detectedFaces| > 0 then context.detectedFaces
      else
        var found := FaceDetection.Detect(detector.modelLoaded, detector.confidenceThreshold, detector.nmsThreshold,
                                          detector.maxFaces, context.inputFrame, col.detectionNet, col.nms);
        FaceDetection.DetectCropsShaped(detector.modelLoaded, detector.confidenceThreshold, detector.nmsThreshold,
                                        detector.maxFaces, context.inputFrame, col.detectionNet, col.nms);
        found
    }

    /** The aged crop for one face: parse it, then synthesize according to the
        context's mode. Hybrid calls neither generator and yields an empty image. */
    function ProcessedFace(face: Face, context: FrameContext, col: Collaborators): Call<Image>
      reads this, parser, generator
      requires Valid() && initialized && face.alignedCrop.Shaped()
    {
      var crop := face.alignedCrop;
      var mask := parser.ParseFace(crop, col.parsingNet);
      match context.mode
      case Feedforward =>
        Returned(FeedforwardGeneration.AgedFace(generator.modelLoaded, generator.inputWidth, generator.inputHeight,
                                                crop, context.controls, mask, col.forward))
      case Auto =>
        Returned(FeedforwardGeneration.AgedFace(generator.modelLoaded, generator.inputWidth, generator.inputHeight,
                                                crop, context.controls, mask, col.forward))
      case Diffusion => col.diffusion(crop, context.controls, mask)
      case Hybrid => Returned(NoMat())
    }

    /** Compositing `faces` one after another, in order, into `output`; the
        first exception ends it. */
    function CompositeAll(output: Image, faces: seq<Face>, context: FrameContext, col: Collaborators): Call<Image>
      reads this, parser, generator
      requires Valid() && initialized && forall i | 0 <= i < |faces| :: faces[i].alignedCrop.Shaped()
      decreases |faces|
    {
      if |faces| == 0 then Returned(output)
      else match ProcessedFace(faces[0], context, col)
        case Threw(e) => Threw(e)
        case Returned(processed) =>
          match col.composite(output, processed, faces[0])
          case Threw(e) => Threw(e)
          case Returned(next) => CompositeAll(next, faces[1..], context, col)
    }

    /** What `processFrame` returns; `elapsedMs` is the measured duration. */
    function FrameOutcome(context: FrameContext, col: Collaborators, elapsedMs: nat): ProcessingResult
      reads this, detector, parser, generator
      requires Valid() && ContextShaped(context) && FaceDetection.ValidNms(col.nms)
    {
      if !initialized then NotInitializedResult()
      else
        var faces := FramesFaces(context, col);
        if |faces| == 0 then ProcessingResult(context.inputFrame, [], map[], true, "")
        else match CompositeAll(context.inputFrame, faces, context, col)
          case Threw(e) => ProcessingResult(NoMat(), [], map[], false, ProcessingFailedPrefix + e)
          case Returned(out) => ProcessingResult(out, faces, FrameMetrics(elapsedMs, |faces|), true, "")
    }

    /** `processFrame`. */
    method ProcessFrame(context: FrameContext, col: Collaborators, elapsedMs: nat) returns (result: ProcessingResult)
      requires Valid() && ContextShaped(context) && FaceDetection.ValidNms(col.nms)
      ensures result == FrameOutcome(context, col, elapsedMs)
    {
      if !initialized {
        return NotInitializedResult();
      }
      var faces := context.detectedFaces;
      if |faces| == 0 {
        faces := detector.DetectFaces(context.inputFrame, col.detectionNet, col.nms);
      }
      assert faces == FramesFaces(context, col);
      if |faces| == 0 {
        return ProcessingResult(context.inputFrame, [], map[], true, "");
      }
      var composed := CompositeFaces(context.inputFrame, faces, context, col);
      if composed.Threw? {
        return ProcessingResult(NoMat(), [], map[], false, ProcessingFailedPrefix + composed.what);
      }
      result := ProcessingResult(composed.value, faces, FrameMetrics(elapsedMs, |faces|), true, "");
    }

    /** The per-face loop of `processFrame`: each face is processed and
        composited into the output in turn; the first exception ends it. */
    method CompositeFaces(input: Image, faces: seq<Face>, context: FrameContext, col: Collaborators) returns (r: Call<Image>)
      requires Valid() && initialized && forall i | 0 <= i < |faces| :: faces[i].alignedCrop.Shaped()
      ensures r == CompositeAll(input, faces, context, col)
    {
      var output := input;
      var i := 0;
      while i < |faces|
        invariant 0 <= i <= |faces|
        invariant CompositeAll(output, faces[i..], context, col) == CompositeAll(input, faces, context, col)
      {
        var face := faces[i];
        assert faces[i..][0] == face && faces[i..][1..] == faces[i + 1..];
        var processed := ProcessFace(face, context, col);
        if processed.Threw? {
          return Threw(processed.what);
        }
        var next := col.composite(output, processed.value, face);
        if next.Threw? {
          return Threw(next.what);
        }
        output := next.value;
        i := i + 1;
      }
      assert faces[i..] == [];
      r := Returned(output);
    }

    /** The body of the per-face loop up to compositing: parse the crop, then
        synthesize with the generator the context's mode selects. */
    method ProcessFace(face: Face, context: FrameContext, col: Collaborators) returns (processed: Call<Image>)
      requires Valid() && initialized && face.alignedCrop.Shaped()
      ensures processed == ProcessedFace(face, context, col)
    {
      var mask := parser.ParseFace(face.alignedCrop, col.parsingNet);
      if context.mode == Feedforward || context.mode == Auto {
        var aged := generator.GenerateAgedFace(face.alignedCrop, context.controls, mask, col.forward);
        processed := Returned(aged);
      } else if context.mode == Diffusion {
        processed := col.diffusion(face.alignedCrop, context.controls, mask);
      } else {
        processed := Returned(NoMat());
      }
    }

    /** `detectFaces` on the engine: nothing before initialisation. */
    method DetectFaces(image: Image, net: FaceDetection.DetectionNet, nms: FaceDetection.Nms) returns (faces: seq<Face>)
      requires Valid() && image.Shaped() && FaceDetection.ValidNms(nms)
      ensures !initialized ==> faces == []
      ensures initialized ==> faces == FaceDetection.Detect(detector.modelLoaded, detector.confidenceThreshold,
        detector.nmsThreshold, detector.maxFaces, image, net, nms)
    {
      if !initialized || detector == null {
        return [];
      }
      faces := detector.DetectFaces(image, net, nms);
    }

    /** `estimateAge` on the engine: 0 before initialisation, otherwise the
        estimator's value for the face's crop. */
    function EstimateAge(face: Face, net: AgeEstimation.AgeNet): (age: real)
      reads this, ageEstimator
      requires Valid()
      ensures AgeEstimation.MinAge <= age <= AgeEstimation.MaxAge
      ensures !initialized ==> age == 0.0
      ensures initialized ==> age == ageEstimator.EstimateAge(face.alignedCrop, net)
    {
      if !initialized || ageEstimator == null then 0.0
      else ageEstimator.EstimateAge(face.alignedCrop, net)
    }

    /** `isInitialized`: whether the components exist. */
    function IsInitialized(): (b: bool)
      reads this
      requires Valid()
      ensures b ==> detector != null && ageEstimator != null && parser != null && generator != null
      ensures !b ==> detector == null && ageEstimator == null && parser == null && generator == null
    {
      initialized
    }

    /** `setProcessingMode`. The stored mode is never consulted by `processFrame`,
        which follows the context's mode. */
    method SetProcessingMode(mode: ProcessingMode)
      modifies this`processingMode
      ensures processingMode == mode
    {
      processingMode := mode;
    }

    /** `getProcessingMode`. */
    function GetProcessingMode(): ProcessingMode
      reads this
    {
      processingMode
    }

    /** `setErrorCallback`; `present` is whether the callback is non-empty. */
    method SetErrorCallback(present: bool)
      modifies this`hasErrorCallback
      ensures hasErrorCallback == present
    {
      hasErrorCallback := present;
    }

    // -------------------------------------------------------------------------
    // Properties of a frame.

    /** Before `initialize`, a frame fails with "Engine not initialized" and
        the engine's `detectFaces` and `estimateAge` answer nothing and 0. */
    lemma NotInitializedFrame(context: FrameContext, col: Collaborators, elapsedMs: nat, face: Face, net: AgeEstimation.AgeNet)
      requires Valid() && !initialized && ContextShaped(context) && FaceDetection.ValidNms(col.nms)
      ensures !FrameOutcome(context, col, elapsedMs).success
      ensures FrameOutcome(context, col, elapsedMs).errorMessage == NotInitializedMessage
      ensures EstimateAge(face, net) == 0.0
    {
    }

    /** Faces supplied with the context are used as they are: the detector
        is not consulted, so its network and NMS do not affect the result. */
    lemma GivenFacesSkipDetector(context: FrameContext, col: Collaborators, elapsedMs: nat,
                                 otherNet: FaceDetection.DetectionNet, otherNms: FaceDetection.Nms)
      requires Valid() && ContextShaped(context) && FaceDetection.ValidNms(col.nms) && FaceDetection.ValidNms(otherNms)
      requires |context.detectedFaces| > 0
      ensures FrameOutcome(context, col, elapsedMs) ==
        FrameOutcome(context, col.(detectionNet := otherNet, nms := otherNms), elapsedMs)
    {
      if initialized {
        var other := col.(detectionNet := otherNet, nms := otherNms);
        assert FramesFaces(context, col) == FramesFaces(context, other);
        CompositeIgnoresDetector(context.inputFrame, context.detectedFaces, context, col, other);
      }
    }

    lemma {:induction false} CompositeIgnoresDetector(output: Image, faces: seq<Face>, context: FrameContext, col: Collaborators, other: Collaborators)
      requires Valid() && initialized && forall i | 0 <= i < |faces| :: faces[i].alignedCrop.Shaped()
      requires other == col.(detectionNet := other.detectionNet, nms := other.nms)
      ensures CompositeAll(output, faces, context, col) == CompositeAll(output, faces, context, other)
      decreases |faces|
    {
      if |faces| > 0 {
        assert ProcessedFace(faces[0], context, col) == ProcessedFace(faces[0], context, other);
        var p := ProcessedFace(faces[0], context, col);
        if p.Returned? && col.composite(output, p.value, faces[0]).Returned? {
          CompositeIgnoresDetector(col.composite(output, p.value, faces[0]).value, faces[1..], context, col, other);
        }
      }
    }

    /** With no faces given and none detected, the frame succeeds with the input
        frame as output, no processed faces and no metrics. */
    lemma NoFacesPassThrough(context: FrameContext, col: Collaborators, elapsedMs: nat)
      requires Valid() && initialized && ContextShaped(context) && FaceDetection.ValidNms(col.nms)
      requires |FramesFaces(context, col)| == 0
      ensures FrameOutcome(context, col, elapsedMs) == ProcessingResult(context.inputFrame, [], map[], true, "")
    {
    }

    /** A successful frame with faces reports exactly those faces, and metrics
        holding exactly the elapsed time and the face count; a failed frame
        from an initialised engine carries the "Processing failed: " prefix. */
    lemma FrameResultShape(context: FrameContext, col: Collaborators, elapsedMs: nat)
      requires Valid() && initialized && ContextShaped(context) && FaceDetection.ValidNms(col.nms)
      ensures var r := FrameOutcome(context, col, elapsedMs); var faces := FramesFaces(context, col);
        (r.success && |faces| > 0 ==>
          r.processedFaces == faces && r.metrics.Keys == {ProcessingTimeKey, FacesProcessedKey} &&
          r.metrics[FacesProcessedKey] == |faces| as real && r.metrics[ProcessingTimeKey] == elapsedMs as real) &&
        (!r.success ==> (|r.errorMessage| >= |ProcessingFailedPrefix| &&
                         r.errorMessage[..|ProcessingFailedPrefix|] == ProcessingFailedPrefix)) &&
        (r.success <==> CompositeAll(context.inputFrame, faces, context, col).Returned? || |faces| == 0)
    {
      var r := FrameOutcome(context, col, elapsedMs);
      var faces := FramesFaces(context, col);
      if |faces| > 0 {
        match CompositeAll(context.inputFrame, faces, context, col)
        case Threw(e) =>
          assert r.errorMessage == ProcessingFailedPrefix + e;
          assert r.errorMessage[..|ProcessingFailedPrefix|] == ProcessingFailedPrefix;
        case Returned(_) =>
      }
    }

    /** In hybrid mode neither generator runs: every face is composited from an
        empty image, whatever the forward pass and the diffusion editor do. */
    lemma HybridIgnoresGenerators(face: Face, context: FrameContext, col: Collaborators,
                                  otherForward: FeedforwardGeneration.Forward, otherDiffusion: (Image, AgeControls, LabelMap) -> Call<Image>)
      requires Valid() && initialized && face.alignedCrop.Shaped() && context.mode == Hybrid
      ensures ProcessedFace(face, context, col) == Returned(NoMat())
      ensures ProcessedFace(face, context, col) == ProcessedFace(face, context, col.(forward := otherForward, diffusion := otherDiffusion))
    {
    }

    /** Auto behaves as Feedforward; Diffusion hands the crop, the controls
        and the parsing map to the diffusion editor. */
    lemma ModeDispatch(face: Face, context: FrameContext, col: Collaborators)
      requires Valid() && initialized && face.alignedCrop.Shaped()
      ensures context.mode == Auto ==> ProcessedFace(face, context, col) == ProcessedFace(face, context.(mode := Feedforward), col)
      ensures context.mode == Diffusion ==>
        (ProcessedFace(face, context, col) ==
         col.diffusion(face.alignedCrop, context.controls, parser.ParseFace(face.alignedCrop, col.parsingNet)))
    {
    }
  }

  /** Initialising and then loading every model leaves all four components
      loaded with the settings their constructors gave them: loading touches
      only the loaded flags. */
  method InitializeThenLoad(e: Engine, cfg: ModelConfig) returns (outcome: Call<bool>)
    requires e.Valid()
    modifies e, e.detector, e.ageEstimator, e.parser, e.generator
    ensures outcome == Returned(true) && e.Valid() && e.initialized
    ensures e.detector.modelLoaded && e.ageEstimator.modelLoaded && e.parser.modelLoaded && e.generator.modelLoaded
    ensures e.detector.confidenceThreshold == FaceDetection.DefaultConfidenceThreshold
    ensures e.detector.nmsThreshold == FaceDetection.DefaultNmsThreshold && e.detector.maxFaces == FaceDetection.DefaultMaxFaces
    ensures e.ageEstimator.inputWidth == 224 && e.ageEstimator.mean == 0.485 && e.ageEstimator.std == 0.229
    ensures e.parser.inputWidth == 512 && e.generator.identityStrength == 0.5
    ensures e.reported == old(e.reported)
  {
    var ok := e.Initialize(cfg, true);
    outcome := e.LoadModels(true, true, true, true);
    FirstFailureIs([true, true, true, true], 4);
  }

  /** `getProcessingMode` after `setProcessingMode` answers the mode just
      set, and nothing else about the engine changes. */
  method ProcessingModeRoundTrip(e: Engine, mode: ProcessingMode) returns (got: ProcessingMode)
    modifies e
    ensures got == mode
    ensures e.initialized == old(e.initialized) && e.config == old(e.config) && e.gpuBackend == old(e.gpuBackend)
    ensures e.detector == old(e.detector) && e.ageEstimator == old(e.ageEstimator)
    ensures e.parser == old(e.parser) && e.generator == old(e.generator)
    ensures e.hasErrorCallback == old(e.hasErrorCallback) && e.reported == old(e.reported)
  {
    e.SetProcessingMode(mode);
    got := e.GetProcessingMode();
  }
}
