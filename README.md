# Deblur app core in Dafny

This project models the logic of a browser app that "deblurs" an uploaded photo. It covers five parts of the app:

- `ImageProcessing` (`image_processing.dfy`) is the mock processing service. It contains `applyEnhancement`, which sharpens the RGB bytes of every interior pixel of an RGBA buffer in place, working from a snapshot. It also contains the six-step progress protocol that comes before the enhancement, the step labels and the processing-time estimate.
- `ImageService` (`image_service.dfy`) is the image service. `validateImageFile` builds an ordered list of errors. `processImage` runs a chain of guards, calls the simulation, and turns every failure of the simulation into one message.
- `FileDropZone` (`file_drop_zone.dfy`) is the upload zone. It covers the accept-pattern test, `validateFile`, the choice of the first file on drop or input, and the two drag flags.
- `ImageProcessorView` (`image_processor.dfy`) is the processing panel. It has eight state fields and their handlers, and the name under which a download is saved.
- `ImageProcessorHook` (`use_image_processor.dfy`) is the `useImageProcessor` hook. It has eight state fields and its actions.
- `Common` (`common.dfy`) holds shared pieces: the `File` record, option and result types, bytes, integer printing, `join` and substring search.

Some code changes state step by step. That code is imperative Dafny: `ApplyEnhancement` loops over an `array<Byte>` against a snapshot, and `RunProgressSteps` is the `processStep` counter as a loop. The components and the hook are classes whose methods update their fields. Each method is proved against a specification function, such as `Enhanced`, `ValidationErrors`, `SelectFirst` or `DownloadName`, and lemmas state what the source promises about those functions.

Some inputs come from the browser: object URLs, image dimensions, whether the file could be read, decoded and encoded, and whether a progress callback exists. These are parameters. An asynchronous handler becomes a start method, a progress method and a finish method, split at its `await`.

The code has exactly one pixel transform, `applyEnhancement`, and raises no error for an intensity outside [0, 100].

The accept test of the drop zone is an unanchored regular-expression search. With the default pattern, any type that merely contains `image/` passes, for example `x/image/y` (`DefaultPatternIsSubstring`). The hook's validation rejects an empty file, but the guards of `processImage` let an empty file of a valid type through (`UploadCheckAgreesWithValidation`).

## Model

| member | source | states |
|---|---|---|
| `Common.NatToString` | src/components/molecules/FileDropZone.jsx:15 | an integer prints as decimal digits with no leading zero |
| `Common.DecimalRoundTrip` | src/components/molecules/FileDropZone.jsx:15 | reading a printed integer back gives the same integer |
| `Common.IntToString` | src/hooks/useImageProcessor.js:65 | a negative number prints as `-` followed by its magnitude; any other prints as plain digits |
| `Common.Join` | src/hooks/useImageProcessor.js:21 | no parts give `""`, one part gives that part; the joined string starts with the first part, and its length is the total length of the parts plus one separator between each pair of neighbours |
| `Common.JoinAppend` | src/hooks/useImageProcessor.js:21 | appending a part to a non-empty list appends one separator and that part, which with `Join`'s empty and one-part cases fixes the result for every list |
| `Common.JoinOfFew` | src/hooks/useImageProcessor.js:21 | two parts join to `a + sep + b`, three to `a + sep + b + sep + c` |
| `Common.Contains` | src/components/molecules/FileDropZone.jsx:11 | the search succeeds exactly when the text occurs at some index |
| `ImageProcessing.SharpensAboveTen` | src/services/mockData/imageProcessing.js:82-100 | `intensity / 100 > 0.1` holds exactly for integer intensities above 10 |
| `ImageProcessing.RoundHalfEven` | src/services/mockData/imageProcessing.js:110-112 | the stored value is a nearest integer to the exact value |
| `ImageProcessing.StoreClamped` | src/services/mockData/imageProcessing.js:110-112 | a value at or below 0 is stored as 0, a value at or above 255 as 255, and any other value as a nearest integer |
| `ImageProcessing.SharpenChannel` | src/services/mockData/imageProcessing.js:101-112 | `x + x * sharpenAmount` is stored as a nearest integer to `x * (10000 + 3 * intensity) / 10000` when that lies strictly between 0 and 255; a value reaching 255 is stored as 255, and a non-positive factor stores 0 (the `Math.min`/`Math.max` clamps) |
| `ImageProcessing.SharpenBrightens` | src/services/mockData/imageProcessing.js:101-112 | for intensity ≥ 0 a sharpened channel is at least the original channel |
| `ImageProcessing.SharpenFixesBlackAndZero` | src/services/mockData/imageProcessing.js:109-112 | black stays black; intensity 0 leaves a channel as it is |
| `ImageProcessing.Enhanced` | src/services/mockData/imageProcessing.js:79-115 | the enhanced buffer has the length of the input buffer |
| `ImageProcessing.ApplyEnhancement` | src/services/mockData/imageProcessing.js:79-115 | after the in-place loop the array holds `Enhanced` of its old contents: every RGB byte of an interior pixel is sharpened from the snapshot, and every other byte is unchanged |
| `ImageProcessing.EnhancementKeepsAlpha` | src/services/mockData/imageProcessing.js:110-112 | byte `i + 3` (alpha) of every pixel is unchanged |
| `ImageProcessing.EnhancementKeepsBorder` | src/services/mockData/imageProcessing.js:90-96 | all four bytes of a pixel with `x < 2`, `x >= width - 2`, `y < 2` or `y >= width - 2` are unchanged |
| `ImageProcessing.EnhancementOffAtLowIntensity` | src/services/mockData/imageProcessing.js:100 | at intensity ≤ 10 the whole buffer is unchanged |
| `ImageProcessing.EnhancementBrightens` | src/services/mockData/imageProcessing.js:101-112 | for intensity ≥ 0 no byte decreases |
| `ImageProcessing.EnhancementIsPointwise` | src/services/mockData/imageProcessing.js:86-106 | output byte `i` depends only on snapshot byte `i`, so earlier writes and loop order cannot change it |
| `ImageProcessing.RunProgressSteps` | src/services/mockData/imageProcessing.js:22-36 | with a callback, exactly six events `((k+1)/6*100, k)` for k = 0..5, as many as there are step labels; without one, none |
| `ImageProcessing.ProgressTrace` | src/services/mockData/imageProcessing.js:25-31 | a run with a callback reports six events |
| `ImageProcessing.ProgressTraceShape` | src/services/mockData/imageProcessing.js:25-36 | step indices are 0..5 in order, the percentages strictly increase, and the last event is `(100, 5)` |
| `ImageProcessing.SimulationResult` | src/services/mockData/imageProcessing.js:35-74 | the blob exists exactly when the image loaded and encoding succeeded; it carries the type requested from `toBlob` (the file's type) and the enhanced pixels drawn on the canvas; each failure has its own message |
| `ImageProcessing.SimulationTrace` | src/services/mockData/imageProcessing.js:25-40 | nothing happens exactly when loading fails; otherwise the trace ends with the enhancement and has seven entries with a callback, one without |
| `ImageProcessing.EnhanceRunsOnceAtTheEnd` | src/services/mockData/imageProcessing.js:33-40 | once the image is loaded, the enhancement runs exactly once, last, right after the sixth event `(100, 5)`; if loading fails, nothing runs |
| `ImageProcessing.SimulateDeblurProcessing` | src/services/mockData/imageProcessing.js:1-77 | the result, the callback trace and the new buffer are as `SimulationResult`, `SimulationTrace` and `Enhanced` say; a read or decode failure leaves the buffer untouched |
| `ImageProcessing.ProcessingSteps` | src/services/mockData/imageProcessing.js:117-126 | there are six step labels |
| `ImageProcessing.Round` | src/services/mockData/imageProcessing.js:133 | `Math.round` gives an integer within one half of its argument |
| `ImageProcessing.EstimateProcessingTime` | src/services/mockData/imageProcessing.js:128-134 | an empty file takes 0 ms; a file of 5 MB or more takes 5000 ms at intensity 0 and 7500 ms at intensity 100 |
| `ImageProcessing.EstimateBounds` | src/services/mockData/imageProcessing.js:128-134 | for size ≥ 0 and intensity in [0, 100] the estimate lies in [0, 7500] ms |
| `ImageProcessing.EstimateMonotoneInSize` | src/services/mockData/imageProcessing.js:128-134 | the estimate never decreases as the file size grows |
| `ImageProcessing.EstimateMonotoneInIntensity` | src/services/mockData/imageProcessing.js:128-134 | the estimate never decreases as the intensity grows |
| `ImageService.ValidationErrors` | src/services/api/imageService.js:68-85 | at most three errors, and none exactly when the type is allowed and 0 < size ≤ 10 MB |
| `ImageService.ValidateImageFile` | src/services/api/imageService.js:67-91 | `errors` is the ordered list of failed checks, and `isValid` holds exactly when the list is empty |
| `ImageService.ValidationErrorsMeaning` | src/services/api/imageService.js:68-90 | valid exactly when the type is allowed and 0 < size ≤ 10 MB; each message appears exactly when its check fails; messages come in the order type, size, empty, so there are at most three |
| `ImageService.ValidTypeIsListed` | src/services/api/imageService.js:71-74 | a type is allowed exactly when it is one of `image/jpeg`, `image/jpg`, `image/png`, `image/webp` |
| `ImageService.ValidationBoundaries` | src/services/api/imageService.js:77-85 | exactly 10 MB passes, one byte more fails with the size message only, and an empty file of a valid type fails with the invalid-file message only |
| `ImageService.UploadCheck` | src/services/api/imageService.js:4-18 | the guards pass exactly for a present file with an allowed type and size ≤ 10 MB; a missing file fails with "No file provided" |
| `ImageService.UploadCheckAgreesWithValidation` | src/services/api/imageService.js:8-18 | the guards reject with the first type or size error that validation reports, and an empty file gets through them |
| `ImageService.Rethrown` | src/services/api/imageService.js:20-27 | success passes through unchanged; any failure becomes "Failed to process image. Please try again." |
| `ImageService.ProcessImage` | src/services/api/imageService.js:3-28 | a rejected upload fails with the first failing guard's message, makes no callback and leaves the buffer untouched; otherwise the simulation runs and its failures are rethrown as one message |
| `FileDropZone.RoundedMegabytes` | src/components/molecules/FileDropZone.jsx:15 | `Math.round(maxSize / 2^20)`: the megabyte count is within half a megabyte of `maxSize` |
| `FileDropZone.TooLargeMessage` | src/components/molecules/FileDropZone.jsx:15 | the message is "File too large. Maximum size is ", then the rounded megabyte count printed as decimal digits with no leading zero (reading back as that count), then "MB." |
| `FileDropZone.DefaultTooLargeMessage` | src/components/molecules/FileDropZone.jsx:6-15 | with the default limit the size message says "Maximum size is 10MB." |
| `FileDropZone.TypeMatches` | src/components/molecules/FileDropZone.jsx:11 | the search matches exactly when the pattern admits the type: a literal pattern occurs in the type, or the text before the star occurs and the text after it occurs later |
| `FileDropZone.StarMatchesAtEarliest` | src/components/molecules/FileDropZone.jsx:11 | searching after the earliest occurrence of the text before the star is as good as trying every occurrence |
| `FileDropZone.DefaultPatternIsSubstring` | src/components/molecules/FileDropZone.jsx:6-11 | with the default pattern, a type is accepted exactly when it contains `image/` |
| `FileDropZone.Accepts` | src/components/molecules/FileDropZone.jsx:11 | a type is accepted exactly when some accepted pattern admits it |
| `FileDropZone.HasValidFile` | src/components/molecules/FileDropZone.jsx:24-29 | true exactly when some dragged item has kind `file` and a type some accepted pattern admits |
| `FileDropZone.ValidateFile` | src/components/molecules/FileDropZone.jsx:10-18 | no error exactly when some pattern admits the type and size ≤ maxSize; a type error is returned before size is looked at |
| `FileDropZone.SizeBoundary` | src/components/molecules/FileDropZone.jsx:14-17 | size equal to maxSize passes, one byte more gets the size message |
| `FileDropZone.SelectFirst` | src/components/molecules/FileDropZone.jsx:57-67 | no call for an empty list; otherwise exactly one of file and error is set, the file is the first one and passed validation, and the error is its validation message |
| `FileDropZone.OnlyFirstFileMatters` | src/components/molecules/FileDropZone.jsx:57-59 | two lists with the same first file lead to the same call |
| `FileDropZone.DropZone.constructor` | src/components/molecules/FileDropZone.jsx:6-8 | both drag flags start false |
| `FileDropZone.DropZone.HandleDragEnter` | src/components/molecules/FileDropZone.jsx:20-33 | the zone becomes active, and it rejects exactly when no item is a file of an accepted type |
| `FileDropZone.DropZone.HandleDragLeave` | src/components/molecules/FileDropZone.jsx:35-43 | leaving the zone clears both flags; moving onto a child of the zone keeps them |
| `FileDropZone.DropZone.HandleDrop` | src/components/molecules/FileDropZone.jsx:50-68 | both flags become false, and the call is `SelectFirst` of the dropped files |
| `FileDropZone.DropZone.HandleFileInput` | src/components/molecules/FileDropZone.jsx:70-83 | the call is `SelectFirst` of the chosen files, the input is cleared, and the drag flags are untouched |
| `ImageProcessorView.ExtensionStart` | src/components/organisms/ImageProcessor.jsx:75 | it finds the place where `/\.[^/.]+$/` matches, and when it finds none there is none |
| `ImageProcessorView.ExtensionAtUnique` | src/components/organisms/ImageProcessor.jsx:75 | the regular expression can match at most one place |
| `ImageProcessorView.DownloadName` | src/components/organisms/ImageProcessor.jsx:75 | a trailing `.ext` (at least one character, no `/` or `.`) is replaced by `_deblurred.png`; a name without one is returned unchanged |
| `ImageProcessorView.DownloadNameExamples` | src/components/organisms/ImageProcessor.jsx:75 | `a.tar.gz` → `a.tar_deblurred.png`; `photo`, `photo.` and `v1.2/photo` are kept |
| `ImageProcessorView.ImageProcessor.constructor` | src/components/organisms/ImageProcessor.jsx:9-16 | every field starts at its initial value, with intensity 50 |
| `ImageProcessorView.ImageProcessor.HandleFileSelect` | src/components/organisms/ImageProcessor.jsx:18-32 | an error changes nothing; a file becomes the original with its URL, the processed image is cleared and the comparison hidden, and intensity and progress are kept |
| `ImageProcessorView.ImageProcessor.SetIntensity` | src/components/organisms/ImageProcessor.jsx:137 | the slider value becomes the intensity |
| `ImageProcessorView.ImageProcessor.BeginProcess` | src/components/organisms/ImageProcessor.jsx:34-39 | without an original this is a no-op; otherwise processing starts at 0 with "Initializing..." and requests the original file at the current intensity |
| `ImageProcessorView.ImageProcessor.OnProgress` | src/components/organisms/ImageProcessor.jsx:50-55 | the progress value is always stored; the label changes only for a step below 6 |
| `ImageProcessorView.ImageProcessor.FinishProcess` | src/components/organisms/ImageProcessor.jsx:57-69 | on success the processed URL is set and the comparison shown; on either outcome processing stops with progress 0 and label "" |
| `ImageProcessorView.ImageProcessor.HandleDownload` | src/components/organisms/ImageProcessor.jsx:72-78 | a download starts exactly when a processed URL and an original file both exist, under `DownloadName` of the original's name |
| `ImageProcessorView.ImageProcessor.HandleReset` | src/components/organisms/ImageProcessor.jsx:80-95 | the existing URLs are revoked and every field returns to its initial value, with intensity 50 |
| `ImageProcessorView.ImageProcessor.ToggleComparison` | src/components/organisms/ImageProcessor.jsx:97-101 | the comparison flips only when a processed image exists |
| `ImageProcessorHook.StepLabel` | src/hooks/useImageProcessor.js:65 | the label is "Step ", then step + 1 printed as decimal digits with no leading zero (reading back as step + 1), then "/6" |
| `ImageProcessorHook.StepLabelsOfARun` | src/hooks/useImageProcessor.js:65 | events 0 to 5 are labelled `Step 1/6` to `Step 6/6` |
| `ImageProcessorHook.RejectionMessage` | src/hooks/useImageProcessor.js:21 | the errors joined by single spaces, written out for each of the zero to three errors validation can report |
| `ImageProcessorHook.ImageProcessorState.constructor` | src/hooks/useImageProcessor.js:6-13 | all eight fields start at their initial values |
| `ImageProcessorHook.ImageProcessorState.HandleFileSelect` | src/hooks/useImageProcessor.js:15-35 | no file changes nothing; an invalid file sets only the error, to its validation errors joined by spaces; a valid file clears the error and the processed image and becomes the original |
| `ImageProcessorHook.ImageProcessorState.FinishFileSelect` | src/hooks/useImageProcessor.js:37-51 | the dimensions give the image data; a failure sets the load error |
| `ImageProcessorHook.ImageProcessorState.BeginProcess` | src/hooks/useImageProcessor.js:54-60 | without an original this is a no-op; otherwise processing starts with progress, label and error cleared |
| `ImageProcessorHook.ImageProcessorState.OnProgress` | src/hooks/useImageProcessor.js:63-66 | the progress value is stored, and the label is `Step {k+1}/6` |
| `ImageProcessorHook.ImageProcessorState.FinishProcess` | src/hooks/useImageProcessor.js:68-80 | success stores the processed URL, and failure stores the thrown message as the error; either way processing stops with progress 0 and label "" |
| `ImageProcessorHook.ImageProcessorState.Reset` | src/hooks/useImageProcessor.js:83-98 | the existing URLs are revoked and all eight fields return to their initial values |
| `ImageProcessorHook.ImageProcessorState.Retry` | src/hooks/useImageProcessor.js:100-104 | intensity 50 is used when none is given, and nothing happens without an original; otherwise processing starts as in `BeginProcess`, and the original, its URL, the processed URL and the image data are kept |

## Left out

- Canvas, `Image`, `FileReader`, `putImageData` and `toBlob` are browser calls. They appear only as the outcome they deliver (`LoadOutcome`, `encoded`) and as the pixel array they fill. The synchronous `catch` that prefixes "Processing failed: " is not modelled, because it only catches failures of those browser calls.
- SimulationResult: the blob is described by the type requested from `toBlob` and the pixels drawn. A browser that cannot encode the requested type (for example `image/jpg`, which validation accepts) falls back to PNG, and JPEG or WebP at quality 0.95 is lossy, so the encoded bytes need not hold exactly those pixels. Encoding is a browser call and is not modelled.
- The random 200–500 ms delays between progress steps are not modelled, and neither are timing or interleaving. A step's callback and the next step run in order.
- `getImageDimensions` (its aspect ratio is a float division), `downloadImage`, `URL.createObjectURL`/`revokeObjectURL`, toasts and `console.error` are left out. The model takes the URLs and dimensions as inputs and returns the URLs to revoke and the download to start.
- IEEE-754 arithmetic is replaced by exact arithmetic. The sharpened value is the exact rational `x * (10000 + 3 * intensity) / 10000`, stored with round-half-to-even as `Uint8ClampedArray` does, and the tiny error of `factor * 0.3 * 0.1` is ignored. Progress percentages are exact reals: (k+1)/6*100, not 16.666666666666664 and so on. The estimate uses exact reals with `Math.round` as floor(x + 0.5).
- ApplyEnhancement: requires a square image (`data.length == 4 * width * width`), with the width passed in. For any other length `Math.sqrt` gives a fractional width and the loop's `x` and `y` are not integers.
- TypeMatches: covers only accept patterns of literal text with at most one `*` (`IsLiteralPattern`). It also treats the `.` produced by the rewrite as matching any character, but JavaScript's `.` does not match line terminators; MIME types have none.
- The `!file` check inside `validateImageFile` cannot be reached, because `file.type` is read first. The file is therefore a non-null record.
- `handleDragOver` only calls `preventDefault` and `stopPropagation`, and has no state to model.
- The handlers read `originalFile` and `intensity` from the render they were created in. The model reads them when `BeginProcess` runs, and it allows a reset between `BeginProcess` and `FinishProcess`.
- The page, preview, control panel, slider, progress bar, buttons, cards and the empty, error and loading views are markup and styling only.
- RoundHalfEven: states only that the result is a nearest integer, not which one a tie picks. The tie rule is in its body.
