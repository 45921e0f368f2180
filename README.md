# UFRa core: a Dafny model

This project models the deterministic core of UFRa, a C++ engine that re-ages faces in video frames.
The neural networks do not appear in the model. It covers the integer, label-map and orchestration logic around them:

- **Face parsing** (`FaceParsing`): the region masks derived from a CelebAMask-HQ label map.
  - Membership masks for eyes, mouth, neck, hair and eyebrows.
  - Forehead: skin intersected with a 15 x 15 dilation of the eyebrows.
  - Cheeks: skin minus a 20 x 20 dilation of nose and mouth.
  - Jaw: skin in the lower 40 % of rows.
  - `getRegionMask` is a loop that ORs one `inRange` mask per index.
  - The forehead, cheeks and jaw masks call `inRange` without `getRegionMask`'s empty-map guard, so an empty map makes them throw.
  - `parseFace` returns a zero map as its fallback, and otherwise the network map resized back to the crop by nearest neighbour.
  - `parseFacesBatch` is a loop.
- **Feedforward generation** (`FeedforwardGeneration`): the fallback and the identity blend of `generateAgedFace` around its opaque forward pass.
  - The identity blend is `addWeighted`: round half to even, then saturate.
  - The network output is never resized back to the crop (feedforward_generator.cpp:65-78): unless it already has the crop's size, `addWeighted` throws and the crop is returned unaged.
  - The in-place regional re-blend `blendRegion` is a nested loop over an `array2`; `applyRegionalBlending` runs three such passes.
  - The batch helper and the generator's setters.
- **Face detection** (`FaceDetection`): the post-processing of `detectFaces`.
  - Confidence filter and truncated corner-to-box conversion.
  - NMS survivors, capped by `max_faces_`, with sequential ids.
  - The padded, clamped crop rectangle and the identity transform.
  - Stopping at a crop that throws.
- **Age estimation** (`AgeEstimation`): zero fallback, the clamp to [0, 100] and the batch loop.
- **String utilities** (`StringUtils`): `splitString` with the exact semantics of repeated `std::getline`.
- **Full engine** (`FullEngine.Engine`, `Engine::Impl` of `engine.cpp`):
  - initialisation;
  - ordered model loading, with error reporting through the optional callback;
  - the per-frame detect / parse / synthesize / composite loop, and result assembly;
  - the guarded `detectFaces` and `estimateAge`, and the available backends.
- **Minimal engine** (`MinimalEngine.Engine`, `minimal_engine.cpp`) and its types (`MinimalTypes`, `minimal_types.h`):
  - initialize, load, shutdown, the mode accessors and the simulated frame;
  - `ImageData` with its constructor, `empty()` and `size()`;
  - the declared struct defaults.

Shared modules:

- `Raster` holds the `cv::Mat` stand-in `Mat<T>`: rows, columns and a sequence of rows.
  - `Image` is `Mat<Pixel>` for BGR pixels.
  - `LabelMap` is `Mat<Byte>` and `Mask` is `Mat<bv8>`, so `bitwise_and/or/not` are exact.
- `Types` holds the full build's structs (`types.h`).
- `Wrappers` holds `Option` and `Call`. `Call` is `Returned(value) | Threw(what)` and stands for a C++ call that may throw.

Modelling conventions:

- Opaque code becomes function-typed parameters: the networks, NMS, the diffusion editor and the compositor. `FaceDetection.ValidNms` states the one thing `NMSBoxes` is relied on for: every index it returns names a candidate.
- Reading a network file becomes a boolean `netReady` parameter.
- The measured frame time is a parameter.
- Float constants are exact rationals (`real`).

Where the documented design of the system and its code disagree, the model follows the code:

- The identity lock strength is used unclamped. See "## Findings".
- `HYBRID` hands an empty image to the compositor instead of combining two generators.
- `AUTO` behaves exactly like `FEEDFORWARD`.
- In the full engine, an empty input frame is not an error. The detector returns no faces and the frame succeeds with the input as output; the minimal engine does reject it.
- An exception from the diffusion editor or the compositor aborts the whole frame with "Processing failed: …".
- `convertToParseMask` writes the argmax into `uchar`, so the model takes every label as a byte.

## Model

| member | source | states |
|---|---|---|
| FaceParsing.RegionMask | workspace/core/src/face_parser.cpp:78-92 | no matrix for an empty map; otherwise a binary mask of the map's size, 255 exactly where the label is one of the indices |
| FaceParsing.GetRegionMask | workspace/core/src/face_parser.cpp:78-92 | the OR-accumulating loop over the indices computes `RegionMask` |
| FaceParsing.InRange | workspace/core/src/face_parser.cpp:106-107 | `cv::inRange` on a non-empty map: a binary mask of the map's size, 255 exactly where lo <= label <= hi; an empty source is `inRange`'s assertion failure, which the callers model as a throw (`GetForeheadMask`, `GetCheeksMask`, `GetJawMask`) or exclude by their guard (`GetRegionMask`) |
| FaceParsing.BitAnd | workspace/core/src/face_parser.cpp:115 | `cv::bitwise_and`: the map-sized bitwise AND of two same-size masks, per pixel |
| FaceParsing.BitOr | workspace/core/src/face_parser.cpp:88 | `cv::bitwise_or`: the map-sized bitwise OR of two same-size masks, per pixel |
| FaceParsing.BitNot | workspace/core/src/face_parser.cpp:137 | `~m`: the per-pixel bitwise complement, size kept |
| FaceParsing.Dilate | workspace/core/src/face_parser.cpp:110-112 | rectangular dilation: each cell is the maximum of the in-image cells of its window; size preserved |
| FaceParsing.DilateBinary | workspace/core/src/face_parser.cpp:132-134 | dilating a binary mask gives a binary mask |
| FaceParsing.LowerBand | workspace/core/src/face_parser.cpp:152-154 | the jaw's lower mask: 255 on rows from the start row down, 0 above |
| FaceParsing.JawStartRow | workspace/core/src/face_parser.cpp:153 | the start row never exceeds the row count |
| FaceParsing.GetEyesMask | workspace/core/src/face_parser.cpp:99-101 | the `getRegionMask` guard: no matrix for an empty map, otherwise a binary mask of the map's size (per pixel: `MembershipMasksAt`) |
| FaceParsing.GetMouthMask | workspace/core/src/face_parser.cpp:142-144 | no matrix for an empty map, otherwise a binary mask of the map's size (per pixel: `MembershipMasksAt`) |
| FaceParsing.GetNeckMask | workspace/core/src/face_parser.cpp:162-164 | no matrix for an empty map, otherwise a binary mask of the map's size (per pixel: `MembershipMasksAt`) |
| FaceParsing.GetHairMask | workspace/core/src/face_parser.cpp:166-168 | no matrix for an empty map, otherwise a binary mask of the map's size (per pixel: `MembershipMasksAt`) |
| FaceParsing.GetEyebrowsMask | workspace/core/src/face_parser.cpp:170-172 | no matrix for an empty map, otherwise a binary mask of the map's size (per pixel: `MembershipMasksAt`) |
| FaceParsing.GetForeheadMask | workspace/core/src/face_parser.cpp:103-118 | throws `inRange`'s empty-source assertion exactly when the map is empty (there is no `getRegionMask` guard); otherwise a mask of the map's size (per pixel: `ForeheadMaskAt`) |
| FaceParsing.GetCheeksMask | workspace/core/src/face_parser.cpp:120-140 | throws exactly when the map is empty; otherwise a mask of the map's size (per pixel: `CheeksMaskAt`) |
| FaceParsing.GetJawMask | workspace/core/src/face_parser.cpp:146-160 | throws exactly when the map is empty; otherwise a mask of the map's size (per pixel: `JawMaskAt`) |
| FaceParsing.MembershipMasksAt | workspace/core/src/face_parser.cpp:99-172 | eyes = {4, 5}, mouth = {10, 11, 12}, neck = {17}, hair = {13}, eyebrows = {6, 7}, each as an if-and-only-if per pixel |
| FaceParsing.EyesHairDisjoint | workspace/core/src/face_parser.cpp:99-168 | no pixel is in both the eyes mask and the hair mask |
| FaceParsing.ForeheadMaskAt | workspace/core/src/face_parser.cpp:103-118 | a forehead pixel is set iff it is skin and an eyebrow pixel lies in its 15 x 15 window; the value is binary |
| FaceParsing.CheeksMaskAt | workspace/core/src/face_parser.cpp:120-140 | a cheek pixel is set iff it is skin and no nose or mouth pixel lies in its 20 x 20 window; cheeks never meet the dilated centre |
| FaceParsing.JawMaskAt | workspace/core/src/face_parser.cpp:146-160 | a jaw pixel is set iff it is skin and at or below row floor(0.6 * rows); rows above are 0 |
| FaceParsing.DerivedMasksWithinSkin | workspace/core/src/face_parser.cpp:103-160 | forehead, cheeks and jaw only mark skin pixels |
| FaceParsing.RegionMasksWellFormed | workspace/core/src/face_parser.cpp:83-91 | on a non-empty map all eight named masks have the map's size and only 0/255 values |
| FaceParsing.RegionMasksOfEmptyMap | workspace/core/src/face_parser.cpp:79-160 | on an empty map the five membership masks are empty matrices (the guard at 79-81), while forehead, cheeks and jaw throw from `inRange` (106, 123, 149) |
| FaceParsing.NearestSource | workspace/core/src/face_parser.cpp:57 | the nearest-neighbour source index lies inside the source |
| FaceParsing.ResizeNearest | workspace/core/src/face_parser.cpp:57 | nearest-neighbour resize: the requested size, each cell copied from its nearest source cell |
| FaceParsing.ResizeNearestLabels | workspace/core/src/face_parser.cpp:57 | resizing only copies labels: every result cell holds some source cell's label |
| FaceParsing.ResizeNearestSameSize | workspace/core/src/face_parser.cpp:57 | resizing to the source's own size is the identity |
| FaceParsing.FaceParser.constructor | workspace/core/src/face_parser.cpp:9 | no model, input size 512 x 512 |
| FaceParsing.FaceParser.LoadModel | workspace/core/src/face_parser.cpp:11-29 | returns whether the network read; the model flag becomes set on success and is otherwise kept |
| FaceParsing.FaceParser.ParseFace | workspace/core/src/face_parser.cpp:31-65 | always the crop's size; all zeros without a model, for an empty crop or when inference fails; otherwise the network map resized to the crop |
| FaceParsing.FaceParser.ParseFacesBatch | workspace/core/src/face_parser.cpp:67-76 | one map per crop, in order, each equal to `ParseFace` of that crop |
| FaceParsing.FaceParser.SetInputSize | workspace/core/src/face_parser.cpp:246-249 | stores the input size |
| FeedforwardGeneration.RoundHalfEven | workspace/core/src/feedforward_generator.cpp:76-78 | the rounding lies within 0.5 of its argument |
| FeedforwardGeneration.Saturate | workspace/core/src/feedforward_generator.cpp:76-78 | a byte, equal to its argument whenever that is already in 0..255 |
| FeedforwardGeneration.RoundBetween | workspace/core/src/feedforward_generator.cpp:76-78 | rounding a value between two integers stays between them |
| FeedforwardGeneration.AddWeighted | workspace/core/src/feedforward_generator.cpp:75-78 | the identity blend keeps the crop's size; each pixel is the per-channel blend of crop and synthesized pixels |
| FeedforwardGeneration.IdentityBlendEndpoints | workspace/core/src/feedforward_generator.cpp:75-78 | lock strength 1 gives the crop, lock strength 0 gives the synthesized image |
| FeedforwardGeneration.BlendChannel | workspace/core/src/feedforward_generator.cpp:149-153 | the truncated channel blend lies between the original and the aged value |
| FeedforwardGeneration.ConvexBetween | workspace/core/src/feedforward_generator.cpp:150-152 | the exact blend value lies between its two inputs |
| FeedforwardGeneration.BlendChannelEndpoints | workspace/core/src/feedforward_generator.cpp:149-153 | strength 0 restores the original channel, strength 1 keeps the aged one |
| FeedforwardGeneration.BlendRegionSpec | workspace/core/src/feedforward_generator.cpp:135-159 | `aged`'s size is kept; an empty mask changes nothing; otherwise a pixel whose mask value is above 127 is re-blended with the original, and every other pixel is unchanged |
| FeedforwardGeneration.BlendRegion | workspace/core/src/feedforward_generator.cpp:135-159 | the in-place nested loop leaves exactly `BlendRegionSpec` of the old buffer |
| FeedforwardGeneration.RegionalBlendWith | workspace/core/src/feedforward_generator.cpp:112-133 | the three passes keep the aged image's size |
| FeedforwardGeneration.RegionalBlend | workspace/core/src/feedforward_generator.cpp:117-121 | the regional pass, with the label ranges as written, keeps the aged image's size |
| FeedforwardGeneration.RegionalBlendAt | workspace/core/src/feedforward_generator.cpp:118-132 | with disjoint label ranges, a pixel in the hair range is blended with 0.8 or 0.1 by the hair toggle, in the eyes range with 0.3, in the mouth range with 0.4; any other pixel is unchanged |
| FeedforwardGeneration.PassOrderIrrelevant | workspace/core/src/feedforward_generator.cpp:123-132 | with disjoint ranges the three passes commute |
| FeedforwardGeneration.ApplyRegionalBlending | workspace/core/src/feedforward_generator.cpp:112-133 | the three in-place passes leave exactly `RegionalBlend` of the old buffer |
| FeedforwardGeneration.AgedFace | workspace/core/src/feedforward_generator.cpp:32-91 | the result always has the crop's size |
| FeedforwardGeneration.AgedFaceFallback | workspace/core/src/feedforward_generator.cpp:35-37 | without a model, for an empty crop or when inference fails, the crop comes back unchanged |
| FeedforwardGeneration.AgedFaceIdentityBlend | workspace/core/src/feedforward_generator.cpp:55-85 | with no parsing mask the result is the identity blend of the crop and the network output for target_age / 100 |
| FeedforwardGeneration.FullLockKeepsCrop | workspace/core/src/feedforward_generator.cpp:74-85 | lock strength 1 returns the crop, whatever the network and the mask |
| FeedforwardGeneration.CodeRegionsMisreadParser | workspace/core/src/feedforward_generator.cpp:117-121 | as written, a parser hair pixel (13) is left as blended, a skin pixel (1) is re-blended with the hair strength and a left-eyebrow pixel (6) with the mouth strength |
| FeedforwardGeneration.ParserRegionsBlendGroups | workspace/core/src/feedforward_generator.cpp:117-121 | with the parser's labels, hair, eye and mouth pixels get their group's strength and every other pixel, skin included, is unchanged |
| FeedforwardGeneration.UnclampedIdentityOvershoots | workspace/core/src/feedforward_generator.cpp:76-78 | as written, strength 2 blends channels 100 and 250 to 0, outside both |
| FeedforwardGeneration.WeightsBetween | workspace/core/src/feedforward_generator.cpp:76-78 | a weighting in [0, 1] lies between the two channel values |
| FeedforwardGeneration.SettledBetween | workspace/core/src/feedforward_generator.cpp:76-78 | rounding and saturating a value between two bytes stays between them |
| FeedforwardGeneration.IdentityBetween | workspace/core/src/feedforward_generator.cpp:76-78 | for a strength in [0, 1] the blended channel lies between crop and synthesized values |
| FeedforwardGeneration.ClampedIdentityBetween | workspace/core/src/feedforward_generator.cpp:76-78 | with the strength clamped first, every blended channel lies between crop and synthesized values |
| FeedforwardGeneration.Clamp01 | workspace/core/src/feedforward_generator.cpp:198 | the result lies in [0, 1] and is the argument whenever that already does |
| FeedforwardGeneration.FeedforwardGenerator.constructor | workspace/core/src/feedforward_generator.cpp:9-10 | no model, 512 x 512, stabilisation off, identity strength 0.5 |
| FeedforwardGeneration.FeedforwardGenerator.LoadModel | workspace/core/src/feedforward_generator.cpp:12-30 | returns whether the network read; the model flag becomes set on success and is otherwise kept |
| FeedforwardGeneration.FeedforwardGenerator.GenerateAgedFace | workspace/core/src/feedforward_generator.cpp:32-91 | computes `AgedFace` from the generator's state, the regional pass running in place on a buffer |
| FeedforwardGeneration.FeedforwardGenerator.GenerateAgedFacesBatch | workspace/core/src/feedforward_generator.cpp:93-109 | one result per crop, in order; item i uses its own controls or the first, and its own mask or none |
| FeedforwardGeneration.FeedforwardGenerator.SetInputResolution | workspace/core/src/feedforward_generator.cpp:188-191 | stores the input size |
| FeedforwardGeneration.FeedforwardGenerator.EnableTemporalStabilization | workspace/core/src/feedforward_generator.cpp:193-195 | stores the flag |
| FeedforwardGeneration.FeedforwardGenerator.SetIdentityPreservationStrength | workspace/core/src/feedforward_generator.cpp:197-199 | stores the strength clamped to [0, 1] |
| FaceDetection.NmsIndicesValid | workspace/core/src/face_detector.cpp:123-124 | every NMS index names a candidate |
| FaceDetection.Trunc | workspace/core/src/face_detector.cpp:111-114 | truncation toward zero, for both signs |
| FaceDetection.BoxOf | workspace/core/src/face_detector.cpp:111-116 | the box's far corner is the truncated scaled (x2, y2): width = x2 - x1, height = y2 - y1 |
| FaceDetection.CandidatesSound | workspace/core/src/face_detector.cpp:107-118 | every candidate comes from a row strictly above the threshold, with its box and confidence |
| FaceDetection.CandidatesComplete | workspace/core/src/face_detector.cpp:107-118 | every row strictly above the threshold yields a candidate |
| FaceDetection.CandidatesAbove | workspace/core/src/face_detector.cpp:110 | every candidate's confidence is strictly above the threshold |
| FaceDetection.CollectCandidates | workspace/core/src/face_detector.cpp:104-119 | the filter loop computes `Candidates` |
| FaceDetection.CropRect | workspace/core/src/face_detector.cpp:139-147 | origin >= 0 and far corner inside the image |
| FaceDetection.CropRectValid | workspace/core/src/face_detector.cpp:140-149 | the crop can be taken iff its clamped width and height are non-negative |
| FaceDetection.CropRectInterior | workspace/core/src/face_detector.cpp:139-147 | a box well inside the image is grown by 50 on every side |
| FaceDetection.Eye23 | workspace/core/src/face_detector.cpp:152 | the 2 x 3 identity |
| FaceDetection.Visited | workspace/core/src/face_detector.cpp:127 | the loop visits min(#survivors, cap) positions; a negative cap converts to 2^64 + cap |
| FaceDetection.BuildAt | workspace/core/src/face_detector.cpp:127-155 | output position k is the face of survivor k, and no more faces than visited positions |
| FaceDetection.BuildComplete | workspace/core/src/face_detector.cpp:127-155 | when no crop from a position onwards throws, every visited position yields a face |
| FaceDetection.BuildProperties | workspace/core/src/face_detector.cpp:127-155 | at most #survivors and at most the cap; face k has id k, survivor k's box and confidence, the padded crop and the identity transform |
| FaceDetection.BuildFaces | workspace/core/src/face_detector.cpp:126-155 | the build loop computes `Build`, stopping at the first crop that throws |
| FaceDetection.DetectAboveThreshold | workspace/core/src/face_detector.cpp:107-136 | every returned face is strictly above the threshold and has id equal to its position |
| FaceDetection.DetectCropsShaped | workspace/core/src/face_detector.cpp:149 | every returned crop is a rectangular image |
| FaceDetection.NoModelNoFaces | workspace/core/src/face_detector.cpp:84-86 | without a model or for an empty image no face is returned |
| FaceDetection.FaceDetector.constructor | workspace/core/src/face_detector.cpp:58 | no model, thresholds 0.7 and 0.4, at most 10 faces |
| FaceDetection.FaceDetector.LoadModel | workspace/core/src/face_detector.cpp:60-79 | returns whether the network read; the model flag becomes set on success and is otherwise kept |
| FaceDetection.FaceDetector.DetectFaces | workspace/core/src/face_detector.cpp:81-163 | computes `Detect` from the detector's state |
| FaceDetection.FaceDetector.SetConfidenceThreshold | workspace/core/src/face_detector.cpp:183-185 | stores the threshold |
| FaceDetection.FaceDetector.SetNmsThreshold | workspace/core/src/face_detector.cpp:187-189 | stores the threshold |
| FaceDetection.FaceDetector.SetMaxFaces | workspace/core/src/face_detector.cpp:191-193 | stores the cap |
| AgeEstimation.ClampAge | workspace/core/src/age_estimator.cpp:57 | in [0, 100]; unchanged inside, 0 below, 100 above |
| AgeEstimation.ClampAgeIdempotent | workspace/core/src/age_estimator.cpp:57 | clamping twice is clamping once |
| AgeEstimation.ClampAgeMonotone | workspace/core/src/age_estimator.cpp:57 | the clamp preserves order |
| AgeEstimation.AgeEstimator.constructor | workspace/core/src/age_estimator.cpp:9-10 | no model, 224 x 224, mean 0.485, std 0.229 |
| AgeEstimation.AgeEstimator.LoadModel | workspace/core/src/age_estimator.cpp:12-30 | returns whether the network read; the model flag becomes set on success and is otherwise kept |
| AgeEstimation.AgeEstimator.EstimateAge | workspace/core/src/age_estimator.cpp:32-63 | always in [0, 100]; 0 without a model, for an empty crop or when inference fails; an in-range prediction is returned unchanged |
| AgeEstimation.AgeEstimator.EstimateAgeBatch | workspace/core/src/age_estimator.cpp:65-74 | one estimate per crop, in order, each equal to `EstimateAge` and in [0, 100] |
| AgeEstimation.AgeEstimator.SetInputSize | workspace/core/src/age_estimator.cpp:97-100 | stores the input size |
| AgeEstimation.AgeEstimator.SetNormalization | workspace/core/src/age_estimator.cpp:102-105 | stores mean and std |
| StringUtils.FirstIndex | workspace/core/src/utils.cpp:16 | the first delimiter position, or the length when there is none |
| StringUtils.NonEmptyHasTokens | workspace/core/src/utils.cpp:16-18 | a non-empty input yields at least one token |
| StringUtils.TokensHaveNoDelimiter | workspace/core/src/utils.cpp:16-18 | no token contains the delimiter |
| StringUtils.JoinTokens | workspace/core/src/utils.cpp:16-18 | joining the tokens with the delimiter gives back the input, less one trailing delimiter |
| StringUtils.TokenCount | workspace/core/src/utils.cpp:16-18 | #delimiters + 1 tokens for a non-empty input not ending in the delimiter, otherwise #delimiters |
| StringUtils.SplitExamples | workspace/core/src/utils.cpp:16-18 | "" gives no tokens; ",a" gives ["", "a"]; "a,,b" gives ["a", "", "b"]; "a," gives ["a"]; "," gives [""] |
| StringUtils.SplitString | workspace/core/src/utils.cpp:11-21 | the getline loop computes `Tokens` |
| FullEngine.FirstFailure | workspace/core/src/engine.cpp:64-86 | the first failing load: every earlier load succeeded, this one failed |
| FullEngine.LoadOutcomeProperties | workspace/core/src/engine.cpp:57-97 | true iff initialised and all four required models load; with a callback it never throws and reports exactly one message on failure |
| FullEngine.LoadReportsNameFirstFailure | workspace/core/src/engine.cpp:64-86 | the reported message names the first model that failed |
| FullEngine.LoadModelsThrowsWithoutCallback | workspace/core/src/engine.cpp:57-96 | as written, with no callback a failed load, or a load before initialisation, throws `bad_function_call` |
| FullEngine.GuardedLoadNeverThrows | workspace/core/src/engine.cpp:57-96 | with guarded reports loading never throws, returns true iff initialised and all models load, and agrees with the code when a callback is set |
| FullEngine.NotInitializedResult | workspace/core/src/engine.cpp:100-105 | unsuccessful, "Engine not initialized", no faces |
| FullEngine.FrameMetrics | workspace/core/src/engine.cpp:149-154 | exactly the keys `processing_time_ms` and `faces_processed`, holding the duration and the face count |
| FullEngine.GetAvailableBackends | workspace/core/src/engine.cpp:255-272 | CPU fallback first; CUDA, Metal and DirectML present iff compiled in; no duplicates |
| FullEngine.Engine.constructor | workspace/core/src/engine.cpp:19-20 | not initialised, mode FEEDFORWARD, backend CUDA, no components, no callback |
| FullEngine.Engine.Initialize | workspace/core/src/engine.cpp:22-55 | stores the configuration; GPU failure returns false with initialisation and components unchanged, reporting only through a set callback; success creates fresh components in their constructed state (unloaded; detector 0.7 / 0.4 / 10 faces, parser 512 x 512, estimator 224 x 224 with mean 0.485 and std 0.229, generator 512 x 512 with identity strength 0.5) |
| FullEngine.InitializeThenLoad | workspace/core/src/engine.cpp:22-97 | initialising and loading every model succeeds, with or without an error callback, loads all four components, keeps their constructed settings and reports nothing |
| FullEngine.Engine.LoadModels | workspace/core/src/engine.cpp:57-97 | returns or throws `LoadOutcome`, reports `LoadReports`, and marks loaded exactly the components before the first failure; the frame allows only the components' loaded flags to change, so their settings survive |
| FullEngine.Engine.ReportLoadFailure | workspace/core/src/engine.cpp:65-96 | with a callback, reports the model's message and returns false; without one, throws |
| FullEngine.Engine.FramesFaces | workspace/core/src/engine.cpp:113-116 | the context's faces, or the detector's when there are none; every crop is a rectangular image |
| FullEngine.Engine.ProcessFrame | workspace/core/src/engine.cpp:99-164 | the per-face loop computes `FrameOutcome` |
| FullEngine.Engine.CompositeFaces | workspace/core/src/engine.cpp:125-143 | the loop over the faces, processing and compositing each into the output in order and stopping at the first exception, computes `CompositeAll` |
| FullEngine.Engine.ProcessFace | workspace/core/src/engine.cpp:127-139 | parsing the crop and dispatching on the context's mode gives `ProcessedFace` |
| FullEngine.Engine.DetectFaces | workspace/core/src/engine.cpp:166-171 | nothing before initialisation, the detector's faces after |
| FullEngine.Engine.EstimateAge | workspace/core/src/engine.cpp:173-178 | in [0, 100]; 0 before initialisation, the estimator's value after |
| FullEngine.Engine.SetProcessingMode | workspace/core/src/engine.cpp:230-232 | stores the mode |
| FullEngine.Engine.IsInitialized | workspace/core/src/engine.cpp:214-216 | true exactly when the four components exist |
| FullEngine.ProcessingModeRoundTrip | workspace/core/src/engine.cpp:230-236 | `getProcessingMode` after `setProcessingMode` returns the mode set, and nothing else in the engine changes |
| FullEngine.Engine.SetErrorCallback | workspace/core/src/engine.cpp:238-240 | records whether a callback is set |
| FullEngine.Engine.NotInitializedFrame | workspace/core/src/engine.cpp:99-105 | before initialisation a frame fails with "Engine not initialized" and `estimateAge` answers 0 |
| FullEngine.Engine.GivenFacesSkipDetector | workspace/core/src/engine.cpp:113-116 | with faces in the context, the detector's network and NMS do not affect the result |
| FullEngine.Engine.CompositeIgnoresDetector | workspace/core/src/engine.cpp:126-143 | the per-face loop never consults the detector |
| FullEngine.Engine.NoFacesPassThrough | workspace/core/src/engine.cpp:118-122 | no faces: success, the input frame as output, no faces, no metrics |
| FullEngine.Engine.FrameResultShape | workspace/core/src/engine.cpp:145-162 | on success with faces, exactly those faces and the two metrics; failure carries the "Processing failed: " prefix; success iff no faces or the loop completes |
| FullEngine.Engine.HybridIgnoresGenerators | workspace/core/src/engine.cpp:131-142 | HYBRID composites an empty image, whatever the generators do |
| FullEngine.Engine.ModeDispatch | workspace/core/src/engine.cpp:131-139 | AUTO behaves as FEEDFORWARD; DIFFUSION hands crop, controls and parsing map to the diffusion editor |
| MinimalTypes.NewImageData | workspace/core/include/ufra/minimal_types.h:19-21 | throws iff w * h * c is negative; otherwise the given sizes and a zero buffer of w * h * c bytes |
| MinimalTypes.NewImageDataEmpty | workspace/core/include/ufra/minimal_types.h:19-24 | non-negative sizes never throw; with channels, empty iff no bytes; with no channels, no bytes |
| MinimalTypes.ProductPositive | workspace/core/include/ufra/minimal_types.h:20 | a product of positive sizes is at least the pixel count |
| MinimalTypes.DefaultFace | workspace/core/include/ufra/minimal_types.h:47-53 | no landmarks, an empty crop, track id -1, frame 0 |
| MinimalTypes.Defaults | workspace/core/include/ufra/minimal_types.h:13-105 | the declared defaults of `ImageData`, `ProcessingResult`, `ModelConfig` and `AgeControls` |
| MinimalEngine.MockFace | workspace/core/src/minimal_engine.cpp:52-60 | confidence 0.9, face id 1, track id 1, the context's frame number |
| MinimalEngine.MockFaceCentred | workspace/core/src/minimal_engine.cpp:53-56 | the mock box lies inside the frame, centred, half its width and height |
| MinimalEngine.Engine.constructor | workspace/core/src/minimal_engine.cpp:9-11 | default configuration, FEEDFORWARD, not initialised |
| MinimalEngine.Engine.Initialize | workspace/core/src/minimal_engine.cpp:13-18 | always true; stores the configuration and sets initialised |
| MinimalEngine.Engine.LoadModels | workspace/core/src/minimal_engine.cpp:20-33 | true iff initialised; a missing path only adds the warning line |
| MinimalEngine.Engine.ProcessFrame | workspace/core/src/minimal_engine.cpp:35-72 | success iff initialised and the frame is non-empty; initialisation checked first; on success the input frame, one mock face and the three fixed metrics |
| MinimalEngine.Engine.SetProcessingMode | workspace/core/src/minimal_engine.cpp:91-93 | stores the mode |
| MinimalEngine.ProcessingModeRoundTrip | workspace/core/src/minimal_engine.cpp:91-97 | `getProcessingMode` after `setProcessingMode` returns the mode set, and `processFrame`'s result for any frame is unchanged |
| MinimalEngine.Engine.Shutdown | workspace/core/src/minimal_engine.cpp:103-105 | clears the initialised flag |
| MinimalEngine.ProcessFrameOutcome | workspace/core/src/minimal_engine.cpp:35-72 | success iff the error message is empty; the result ignores the context's controls, mode and faces |
| MinimalEngine.ShutdownThenProcess | workspace/core/src/minimal_engine.cpp:13-105 | after shutdown frames and loading fail; re-initialising makes every non-empty frame succeed |
| MinimalEngine.GetAvailableBackends | workspace/core/src/minimal_engine.cpp:111-113 | only the CPU fallback |

## Left out

- Neural inference and preprocessing are opaque function parameters. This covers `readNet`, `blobFromImage`, resizing to the network size, normalisation, forward passes, `imagesFromBlob`, the argmax of `convertToParseMask` and `cv::dnn::NMSBoxes`. Their C++ code is foreign.
- Model reading (`cv::dnn::readNet` and the backend settings) is a boolean `netReady` parameter. What `readNet` throws is folded into the same `false`.
- The compositor, diffusion editor, optical flow, face tracker, GPU memory manager and model loader are not part of this model; only their headers exist. The compositor and diffusion editor are parameters that may throw. The GPU manager's `initialize` is the `gpuReady` parameter.
- The diffusion model's load at engine.cpp:89 is not modelled. The code ignores its result; a throw from it, which the handler turns into a `"Model loading failed: "` report and `false`, is not modelled either.
- Wall-clock timing is the `elapsedMs` parameter.
- Standard output and error messages are not modelled, except the minimal engine's console lines. Those are the `console` field, because they are how the minimal engine reports a missing path.
- `fileExists` (filesystem I/O) is the `pathExists` parameter. `getVersion`, `getVersionInfo` and `getLibraryVersion` return constant strings and are not modelled.
- Floating point:
  - Weights and coordinates are exact rationals, so C++ `float` rounding (for example of 0.9f or 0.25f * width) is not reproduced.
  - NaN is not modelled. In C++ a NaN age prediction clamps to 100.
- Integer overflow is not modelled: `w * h * c` in `ImageData`, `static_cast<int>` of out-of-range coordinates, and `boxes[idx].width + 2 * padding`.
- FaceDetection.FaceAt: the source leaves the landmarks, `track_id` and `frame_number` of a detected face uninitialised; the model sets them to empty and 0.
- The mock `cv` classes used when OpenCV is absent (face_detector.cpp:4-52) are not modelled.
- What the error callback itself does, and a callback that throws, are not modelled. Only whether one is set matters.
- The `"Model loading failed: "` and `"Engine initialization failed: "` reports are not modelled. They come from exceptions thrown inside the `try` blocks by calls whose code is not part of this model: `gpu_manager_->initialize` (engine.cpp:28), the `ModelLoader`, `FaceTracker`, `DiffusionEditor`, `OpticalFlow` and `Compositor` constructors (engine.cpp:34-44), `diffusion_editor_->loadModel` (engine.cpp:89), and allocation failure. In the model, `gpuReady = false` stands only for `initialize` returning false, never for it throwing.
- Concurrency (several engines in threads) is not modelled.
- FaceParsing.GetForeheadMask, FaceParsing.GetCheeksMask and FaceParsing.GetJawMask: the `cv::Exception` thrown for an empty map carries only the asserted condition `!_src.empty()` in the model; OpenCV's full message (file, line and function) is not reproduced. That `inRange` asserts a non-empty source is taken from OpenCV 4's implementation, whose code is not part of this model.
- FeedforwardGeneration.AgedFace, FeedforwardGeneration.FeedforwardGenerator.GenerateAgedFace and FeedforwardGeneration.FeedforwardGenerator.GenerateAgedFacesBatch require a parsing mask at least as large as the crop, and a non-empty controls list for a non-empty batch. Without them the C++ reads out of bounds (feedforward_generator.cpp:147 and :102), which has no defined result to model.
- `loadModel` of the detector, estimator, parser and generator: a reload that fails after an earlier success leaves `model_loaded_` true while `net_` becomes an empty network (for example face_parser.cpp:13-23). The model keeps the flag, and inference keeps using the caller's network parameter. This is sound only because the networks are free parameters; the empty-net state after such a reload is not captured.
- Raster.Region: a region of zero width or height is an `h x 0` or `0 x w` matrix in the model, whereas OpenCV's region constructor yields a `0 x 0` matrix. Such a crop is empty in both, and every modelled operation takes its empty-crop branch for it; only the dimensions of results copied from the crop's size (for example `parseFace`'s zero map) differ.
- `AgeMap`, the `optical_flow` field of `FrameContext` and the landmark points are carried by no modelled operation and are left out of the datatypes.
- The command-line tool, Python bindings, demo script and plugin adapter are not part of this model.
- The public `Engine::loadModels` and `Engine::shutdown` wrappers that `engine.h` declares have no definitions in `engine.cpp`; `Engine::Impl` is modelled instead.
- The face parser's and generator's `std::cerr` messages on failure are not modelled.

## Findings

| source | as written | input that shows it | evidently intended | confidence | as-written member | corrected member |
|---|---|---|---|---|---|---|
| workspace/core/src/feedforward_generator.cpp:117-121 | the regional pass selects labels 1 (hair), 3-4 (eyes) and 5-6 (mouth), but the parsing map comes from the face parser, whose hair is 13, eyes 4-5 and mouth 10-12 | a parser map with hair (13) at a pixel: the hair pass skips it; a skin pixel (1) is re-blended with the hair strength; a left-eyebrow pixel (6) is re-blended with the mouth strength | select the parser's labels: hair 13, eyes 4-5, mouth 10-12 | high; not executed | FeedforwardGeneration.CodeRegionsMisreadParser | FeedforwardGeneration.ParserRegionsBlendGroups |
| workspace/core/src/feedforward_generator.cpp:76-78 | `identity_lock_strength` weights `addWeighted` unclamped, while the clamped `identity_strength_` (197-199) is never read | strength 2.0, crop channel 100, synthesized channel 250: 2 * 100 - 250 = -50 saturates to 0, outside [100, 250] | clamp the strength to [0, 1] before blending, so every channel lies between crop and synthesized values | medium; not executed | FeedforwardGeneration.UnclampedIdentityOvershoots | FeedforwardGeneration.ClampedIdentityBetween |
| workspace/core/src/engine.cpp:59-94 | `loadModels` calls `error_callback_` without checking that it is set; an empty `std::function` throws, and the handler at 93-95 calls it again, so the exception leaves `loadModels` | an initialised engine with no callback whose detector model is missing: `bad_function_call` escapes instead of `false` being returned | report only when a callback is set, as the handler in `initialize` does (50-52), and return false | medium; not executed | FullEngine.LoadModelsThrowsWithoutCallback | FullEngine.GuardedLoadNeverThrows |
