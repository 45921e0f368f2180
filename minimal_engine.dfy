/** The engine of the minimal build: no networks, a pass-through frame with
    one synthetic face, and console messages in place of real loading. */
module MinimalEngine {
  import opened MinimalTypes

  const InitializedMessage := "UFRa Engine initialized (minimal build)"
  const LoadingPrefix := "Loading models from: "
  const MissingPathWarning := "Warning: Model path does not exist, using fallback"
  const NotInitializedMessage := "Engine not initialized"
  const EmptyFrameMessage := "Empty input frame"

  /** The fixed metrics of a simulated frame. */
  const SimulatedMetrics: map<string, real> :=
    map["processing_time_ms" := 50.0, "face_count" := 1.0, "confidence" := 0.9]

  /** The synthetic face for a frame: a box covering the middle half of the
      frame in each direction, confidence 0.9, face id 1, track id 1, the
      context's frame number, no landmarks and an empty crop. */
  function MockFace(context: FrameContext): (f: Face)
    ensures f.box.confidence == 0.9 && f.box.faceId == 1 && f.trackId == 1
    ensures f.frameNumber == context.frameNumber && f.landmarks == [] && f.alignedCrop == EmptyImageData
  {
    var w := context.inputFrame.width as real;
    var h := context.inputFrame.height as real;
    DefaultFace(FaceBox(w * 0.25, h * 0.25, w * 0.5, h * 0.5, 0.9, 1)).(trackId := 1, frameNumber := context.frameNumber)
  }

  /** For a frame of non-negative size the synthetic box lies inside the
      frame, centred, with half its width and height. */
  lemma MockFaceCentred(context: FrameContext)
    requires context.inputFrame.width >= 0 && context.inputFrame.height >= 0
    ensures var b := MockFace(context).box; var w := context.inputFrame.width as real; var h := context.inputFrame.height as real;
      0.0 <= b.x && b.x + b.width <= w && 0.0 <= b.y && b.y + b.height <= h &&
      b.x + b.width / 2.0 == w / 2.0 && b.y + b.height / 2.0 == h / 2.0 &&
      b.width * 2.0 == w && b.height * 2.0 == h
  {
  }

  class Engine {
    var config: ModelConfig
    var mode: ProcessingMode
    var initialized: bool
    /** The lines written to standard output, in order. */
    var console: seq<string>

    /** `createEngine` / the constructor. */
    constructor ()
      ensures config == DefaultModelConfig && mode == Feedforward && !initialized && console == []
    {
      config := DefaultModelConfig;
      mode := Feedforward;
      initialized := false;
      console := [];
    }

    /** `initialize`: always succeeds. */
    method Initialize(cfg: ModelConfig) returns (ok: bool)
      modifies this`config, this`initialized, this`console
      ensures ok && initialized && config == cfg
      ensures console == old(console) + [InitializedMessage]
    {
      config := cfg;
      initialized := true;
      console := console + [InitializedMessage];
      ok := true;
    }

    /** `loadModels`: false before `initialize`; otherwise true whether or not
        the path exists (`pathExists` is `fileExists(modelPath)`), warning when
        it does not. */
    method LoadModels(modelPath: string, pathExists: bool) returns (ok: bool)
      modifies this`console
      ensures ok == initialized
      ensures !initialized ==> console == old(console)
      ensures initialized ==>
        console == old(console) + [LoadingPrefix + modelPath] + (if pathExists then [] else [MissingPathWarning])
    {
      if !initialized {
        return false;
      }
      console := console + [LoadingPrefix + modelPath];
      if !pathExists {
        console := console + [MissingPathWarning];
      }
      ok := true;
    }

    /** `processFrame`: the initialisation check comes before the empty-frame
        check; a processed frame is the input frame with one synthetic face
        and the fixed metrics. */
    function ProcessFrame(context: FrameContext): (r: ProcessingResult)
      reads this
      ensures r.success <==> initialized && !context.inputFrame.Empty()
      ensures !initialized ==> r == DefaultProcessingResult.(errorMessage := NotInitializedMessage)
      ensures initialized && context.inputFrame.Empty() ==> r == DefaultProcessingResult.(errorMessage := EmptyFrameMessage)
      ensures r.success ==>
        (r.outputFrame == context.inputFrame && r.processedFaces == [MockFace(context)] &&
         r.metrics == SimulatedMetrics && r.errorMessage == "")
    {
      if !initialized then DefaultProcessingResult.(errorMessage := NotInitializedMessage)
      else if context.inputFrame.Empty() then DefaultProcessingResult.(errorMessage := EmptyFrameMessage)
      else ProcessingResult(context.inputFrame, [MockFace(context)], SimulatedMetrics, true, "")
    }

    /** `setProcessingMode`. The mode is stored but never consulted. */
    method SetProcessingMode(newMode: ProcessingMode)
      modifies this`mode
      ensures mode == newMode
    {
      mode := newMode;
    }

    /** `getProcessingMode`. */
    function GetProcessingMode(): ProcessingMode
      reads this
    {
      mode
    }

    /** `shutdown`: back to the uninitialised state; the configuration is kept. */
    method Shutdown()
      modifies this`initialized
      ensures !initialized
    {
      initialized := false;
    }
  }

  /** A frame is processed successfully exactly when the error message is
      empty, and the result does not depend on the stored mode or the
      context's controls, mode or given faces. */
  lemma ProcessFrameOutcome(e: Engine, context: FrameContext, other: FrameContext)
    requires other.frameNumber == context.frameNumber && other.inputFrame == context.inputFrame
    ensures e.ProcessFrame(context).success <==> e.ProcessFrame(context).errorMessage == ""
    ensures e.ProcessFrame(context) == e.ProcessFrame(other)
  {
  }

  /** After `shutdown` every frame fails with "Engine not initialized" and
      loading fails; `initialize` again makes every non-empty frame succeed. */
  method ShutdownThenProcess(e: Engine, context: FrameContext, cfg: ModelConfig, modelPath: string, pathExists: bool)
    returns (afterShutdown: ProcessingResult, loadedAfterShutdown: bool, afterRestart: ProcessingResult)
    modifies e
    ensures !afterShutdown.success && afterShutdown.errorMessage == NotInitializedMessage
    ensures !loadedAfterShutdown
    ensures afterRestart.success <==> !context.inputFrame.Empty()
  {
    e.Shutdown();
    afterShutdown := e.ProcessFrame(context);
    loadedAfterShutdown := e.LoadModels(modelPath, pathExists);
    var ok := e.Initialize(cfg);
    afterRestart := e.ProcessFrame(context);
  }

  /** `getProcessingMode` after `setProcessingMode` answers the mode just set,
      and what `processFrame` returns for any frame is unchanged. */
  method ProcessingModeRoundTrip(e: Engine, mode: ProcessingMode, context: FrameContext) returns (got: ProcessingMode)
    modifies e
    ensures got == mode
    ensures e.ProcessFrame(context) == old(e.ProcessFrame(context))
    ensures e.initialized == old(e.initialized) && e.config == old(e.config) && e.console == old(e.console)
  {
    e.SetProcessingMode(mode);
    got := e.GetProcessingMode();
  }

  /** `getAvailableBackends` of the minimal build: only the CPU fallback. */
  function GetAvailableBackends(): (b: seq<GpuBackend>)
    ensures b == [CpuFallback]
  {
    [CpuFallback]
  }
}
