/** The record shapes of the full (OpenCV) build. None of these structs has
    default member values in that build. */
module Types {
  import opened Raster

  /** A detected face rectangle with its confidence and per-frame id. */
  datatype FaceBox = FaceBox(x: real, y: real, width: real, height: real, confidence: real, faceId: int)

  datatype Point2 = Point2(x: real, y: real)

  datatype FaceLandmarks = FaceLandmarks(points: seq<Point2>, confidence: real)

  /** A face: its box, landmarks, aligned crop, crop-to-frame transform (a 2 x 3 matrix) and tracking ids. */
  datatype Face = Face(
    box: FaceBox,
    landmarks: FaceLandmarks,
    alignedCrop: Image,
    transform: Mat<real>,
    trackId: int,
    frameNumber: int)

  /** The artist's controls. The per-pixel `age_map` member is not modelled (nothing in the core reads it). */
  datatype AgeControls = AgeControls(
    targetAge: real,
    identityLockStrength: real,
    temporalStability: real,
    textureKeep: real,
    skinClean: real,
    enableHairAging: bool,
    enableBeardAging: bool,
    enableNeckAging: bool,
    grayDensity: real)

  datatype ProcessingMode = Feedforward | Diffusion | Hybrid | Auto

  datatype GpuBackend = Cuda | Metal | DirectMl | CpuFallback

  datatype ModelConfig = ModelConfig(
    modelPath: string,
    backend: GpuBackend,
    batchSize: int,
    useHalfPrecision: bool,
    maxResolution: int)

  /** One frame's input. The optical-flow member is not modelled (nothing in the core reads it). */
  datatype FrameContext = FrameContext(
    frameNumber: int,
    inputFrame: Image,
    detectedFaces: seq<Face>,
    controls: AgeControls,
    mode: ProcessingMode)

  datatype ProcessingResult = ProcessingResult(
    outputFrame: Image,
    processedFaces: seq<Face>,
    metrics: map<string, real>,
    success: bool,
    errorMessage: string)
}
