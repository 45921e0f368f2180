/** The value types of the minimal build: a raw interleaved byte image and the
    face, controls, configuration, context and result records with their
    default member values. */
module MinimalTypes {
  import opened Raster
  import opened Wrappers

  /** A row-major interleaved image: `width * height * channels` bytes. */
  datatype ImageData = ImageData(width: int, height: int, channels: int, data: seq<Byte>)
  {
    /** `empty()`: a zero width or height; channels and data play no part. */
    predicate Empty() {
      width == 0 || height == 0
    }

    /** `size()`: the number of bytes held. */
    function Size(): nat {
      |data|
    }
  }

  /** A default-constructed image: 0 x 0 with 3 channels and no data. */
  const EmptyImageData := ImageData(0, 0, 3, [])

  /** What `std::vector::resize` throws when asked for more than `max_size()`. */
  const LengthError := "vector::_M_default_append"

  /** `ImageData(w, h, c)`: the product `w * h * c` (assumed to fit in an
      `int`) converted to `size_t`; a negative product becomes a size beyond
      `max_size()` and `resize` throws, otherwise the buffer is zero-filled. */
  function NewImageData(w: int, h: int, c: int): (r: Call<ImageData>)
    ensures w * h * c < 0 <==> r.Threw?
    ensures r.Returned? ==>
      (r.value.width == w && r.value.height == h && r.value.channels == c &&
       r.value.Size() == w * h * c && forall i | 0 <= i < r.value.Size() :: r.value.data[i] == 0)
  {
    var n := w * h * c;
    if n < 0 then Threw(LengthError) else Returned(ImageData(w, h, c, seq(n, _ => 0)))
  }

  /** Constructing from non-negative sizes never throws. With channels, the
      image is empty exactly when it holds no bytes, and it holds at least one
      byte per pixel; with no channels it holds no bytes, even when `empty()`
      says it is not empty. */
  lemma NewImageDataEmpty(w: nat, h: nat, c: nat)
    ensures NewImageData(w, h, c).Returned?
    ensures c > 0 ==> (NewImageData(w, h, c).value.Empty() <==> NewImageData(w, h, c).value.Size() == 0)
    ensures c > 0 ==> NewImageData(w, h, c).value.Size() >= w * h
    ensures c == 0 ==> NewImageData(w, h, c).value.Size() == 0
  {
    var r := NewImageData(w, h, c).value;
    if w == 0 || h == 0 {
      assert w * h == 0;
      assert w * h * c == 0;
    } else if c > 0 {
      ProductPositive(w, h, c);
    } else {
      assert w * h * c == 0;
    }
  }

  lemma ProductPositive(w: nat, h: nat, c: nat)
    requires w > 0 && h > 0 && c > 0
    ensures w * h * c >= w * h > 0
  {
    assert w * h >= 1 * h;
    assert (w * h) * c >= (w * h) * 1;
  }

  datatype Point = Point(x: real, y: real)

  datatype Rect = Rect(x: real, y: real, width: real, height: real)

  datatype FaceBox = FaceBox(x: real, y: real, width: real, height: real, confidence: real, faceId: int)

  datatype Face = Face(box: FaceBox, landmarks: seq<Point>, alignedCrop: ImageData, trackId: int, frameNumber: int)

  /** A `Face` with the given box and every other member at its default:
      no landmarks, an empty crop, track id -1 and frame number 0. */
  function DefaultFace(box: FaceBox): (f: Face)
    ensures f.box == box && f.landmarks == [] && f.alignedCrop.Empty() && f.alignedCrop.Size() == 0
    ensures f.trackId == -1 && f.frameNumber == 0
  {
    Face(box, [], EmptyImageData, -1, 0)
  }

  datatype AgeControls = AgeControls(targetAge: real, identityLockStrength: real, temporalStability: real,
                                     textureKeep: real, enableHairAging: bool, grayDensity: real)

  const DefaultAgeControls := AgeControls(25.0, 0.8, 0.9, 0.6, true, 0.5)

  datatype ProcessingMode = Feedforward | Diffusion | Hybrid | Auto

  datatype GpuBackend = Cuda | Metal | DirectMl | CpuFallback

  datatype ModelConfig = ModelConfig(modelPath: string, backend: GpuBackend, batchSize: int,
                                     useHalfPrecision: bool, maxResolution: int)

  const DefaultModelConfig := ModelConfig("", CpuFallback, 1, false, 512)

  datatype FrameContext = FrameContext(frameNumber: int, inputFrame: ImageData, detectedFaces: seq<Face>,
                                       controls: AgeControls, mode: ProcessingMode)

  datatype ProcessingResult = ProcessingResult(outputFrame: ImageData, processedFaces: seq<Face>,
                                               metrics: map<string, real>, success: bool, errorMessage: string)

  /** A default-constructed result: empty image, no faces, no metrics, not successful. */
  const DefaultProcessingResult := ProcessingResult(EmptyImageData, [], map[], false, "")

  /** The declared defaults: a default image is empty with 3 channels and no
      data, a default result is unsuccessful with no message, and the default
      configuration targets the CPU fallback with batch size 1, full precision
      and resolution 512. */
  lemma Defaults()
    ensures EmptyImageData.Empty() && EmptyImageData.channels == 3 && EmptyImageData.Size() == 0
    ensures !DefaultProcessingResult.success && DefaultProcessingResult.errorMessage == ""
    ensures DefaultProcessingResult.processedFaces == [] && DefaultProcessingResult.metrics == map[]
    ensures DefaultModelConfig.backend == CpuFallback && DefaultModelConfig.batchSize == 1
    ensures !DefaultModelConfig.useHalfPrecision && DefaultModelConfig.maxResolution == 512
    ensures DefaultAgeControls.targetAge == 25.0 && DefaultAgeControls.identityLockStrength == 0.8
    ensures DefaultAgeControls.enableHairAging && DefaultAgeControls.grayDensity == 0.5
  {
  }
}
