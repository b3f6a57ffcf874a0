/** The mock deblurring service (src/services/mockData/imageProcessing.js):
    the in-place enhancement of an RGBA pixel buffer, the six-step progress
    protocol that precedes it, the labels of those steps and the processing
    time estimate. Canvas drawing, file reading and the random delays
    between steps are the browser's business and appear here only as the
    outcomes they deliver. */
module ImageProcessing {
  import opened Common

  /** Number of announced processing steps (`const steps = 6`). */
  const StepCount: nat := 6

  const ReadFailedMessage := "Failed to read image file"
  const LoadFailedMessage := "Failed to load image for processing"
  const EncodeFailedMessage := "Failed to create processed image"

  // ---------------------------------------------------------------------------
  // The per-byte enhancement

  /** `factor > 0.1` with `factor = intensity / 100`. */
  predicate Sharpens(intensity: int) {
    intensity as real / 100.0 > 0.1
  }

  lemma SharpensAboveTen(intensity: int)
    ensures Sharpens(intensity) <==> intensity > 10
  {
  }

  /** `num / den` rounded to the nearest integer, ties to the even one. */
  function RoundHalfEven(num: int, den: int): (q: int)
    requires den > 0
    ensures q * den - den <= 2 * num - q * den <= q * den + den
  {
    var q := num / den;
    var rem := num % den;
    if 2 * rem > den then q + 1
    else if 2 * rem < den then q
    else if q % 2 == 0 then q else q + 1
  }

  /** Storing the number `num / den` into a `Uint8ClampedArray` after the
      source's `Math.min(255, Math.max(0, v))`. */
  function StoreClamped(num: int, den: int): (b: Byte)
    requires den > 0
    ensures num <= 0 ==> b == 0
    ensures num >= 255 * den ==> b == 255
    ensures 0 < num < 255 * den ==> b * den - den <= 2 * num - b * den <= b * den + den
  {
    if num <= 0 then 0
    else if num >= 255 * den then 255
    else
      var q := RoundHalfEven(num, den);
      assert 0 <= q <= 255 by { RoundedInRange(num, den); }
      q
  }

  lemma RoundedInRange(num: int, den: int)
    requires 0 < num < 255 * den
    ensures 0 <= RoundHalfEven(num, den) <= 255
  {
    var q := num / den;
    assert q * den <= num;
    assert 0 <= q < 255 by {
      if q >= 255 { MulMono(255, q, den); }
    }
  }

  /** `x + x * sharpenAmount` with `sharpenAmount = (intensity / 100) * 0.3 * 0.1`,
      that is `x * (10000 + 3 * intensity) / 10000`, stored as a byte. */
  function SharpenChannel(x: Byte, intensity: int): (b: Byte)
    ensures x * (10000 + 3 * intensity) >= 255 * 10000 ==> b == 255
    ensures 10000 + 3 * intensity <= 0 ==> b == 0
    ensures 0 < x * (10000 + 3 * intensity) < 255 * 10000 ==>
      b * 10000 - 10000 <= 2 * (x * (10000 + 3 * intensity)) - b * 10000 <= b * 10000 + 10000
  {
    var factor := 10000 + 3 * intensity;
    assert factor <= 0 ==> x * factor <= 0 by {
      if factor <= 0 { MulMono(factor, 0, x); }
    }
    StoreClamped(x * factor, 10000)
  }

  lemma MulMono(a: int, b: int, c: int)
    requires a <= b && c >= 0
    ensures a * c <= b * c
  {
  }

  /** A sharpened channel never gets darker. */
  lemma {:induction false} SharpenBrightens(x: Byte, intensity: int)
    requires intensity >= 0
    ensures x <= SharpenChannel(x, intensity)
  {
    var num := x * (10000 + 3 * intensity);
    assert num == x * 10000 + x * (3 * intensity);
    assert x * (3 * intensity) >= 0;
    if 0 < num < 255 * 10000 {
      var q := num / 10000;
      assert x * 10000 <= num;
      assert x <= q;
    }
  }

  /** Sharpening leaves black pixels black and is the identity at intensity 0. */
  lemma SharpenFixesBlackAndZero(x: Byte, intensity: int)
    ensures SharpenChannel(0, intensity) == 0
    ensures SharpenChannel(x, 0) == x
  {
    assert x * (10000 + 3 * 0) == x * 10000;
  }

  // ---------------------------------------------------------------------------
  // The whole buffer

  /** Pixel `pixel` of a square image `width` pixels wide lies at least two
      pixels away from every edge (the source skips `x < 2`, `x >= width - 2`,
      `y < 2` and `y >= width - 2`). */
  predicate IsInterior(pixel: int, width: nat) {
    width > 0 &&
    var x := pixel % width;
    var y := pixel / width;
    !(x < 2 || x >= width - 2 || y < 2 || y >= width - 2)
  }

  /** What byte `i` of the buffer holds after `applyEnhancement`, given the
      snapshot `orig` taken before the loop. */
  function EnhancedByte(orig: seq<Byte>, width: nat, intensity: int, i: nat): Byte
    requires i < |orig|
  {
    if IsInterior(i / 4, width) && Sharpens(intensity) && i % 4 != 3
    then SharpenChannel(orig[i], intensity)
    else orig[i]
  }

  /** The buffer `applyEnhancement` leaves behind, as a function of the buffer it was given. */
  function Enhanced(orig: seq<Byte>, width: nat, intensity: int): (r: seq<Byte>)
    ensures |r| == |orig|
  {
    seq(|orig|, i requires 0 <= i < |orig| => EnhancedByte(orig, width, intensity, i))
  }

  /** `applyEnhancement(data, intensity)` on a square image `width` pixels wide:
      every RGB byte of an interior pixel is sharpened from the snapshot. */
  method ApplyEnhancement(data: array<Byte>, intensity: int, width: nat)
    requires data.Length == 4 * width * width
    modifies data
    ensures data[..] == Enhanced(old(data[..]), width, intensity)
  {
    var originalData := data[..];
    assert data.Length % 4 == 0 by {
      assert data.Length == 4 * (width * width);
    }
    var i := 0;
    while i < data.Length
      invariant 0 <= i <= data.Length && i % 4 == 0
      invariant forall j :: 0 <= j < i ==> data[j] == EnhancedByte(originalData, width, intensity, j)
      invariant forall j :: i <= j < data.Length ==> data[j] == originalData[j]
    {
      var pixelIndex := i / 4;
      assert width > 0;
      var x := pixelIndex % width;
      var y := pixelIndex / width;
      if x < 2 || x >= width - 2 || y < 2 || y >= width - 2 {
        // border pixel: left as it is
      } else if Sharpens(intensity) {
        var r := originalData[i];
        var g := originalData[i + 1];
        var b := originalData[i + 2];
        data[i] := SharpenChannel(r, intensity);
        data[i + 1] := SharpenChannel(g, intensity);
        data[i + 2] := SharpenChannel(b, intensity);
      }
      assert (i + 1) / 4 == pixelIndex && (i + 2) / 4 == pixelIndex && (i + 3) / 4 == pixelIndex;
      i := i + 4;
    }
  }

  /** The alpha byte of every pixel comes out as it went in. */
  lemma EnhancementKeepsAlpha(orig: seq<Byte>, width: nat, intensity: int, i: nat)
    requires i < |orig| && i % 4 == 3
    ensures Enhanced(orig, width, intensity)[i] == orig[i]
  {
  }

  /** Every byte of a pixel within two pixels of an edge comes out as it went in. */
  lemma {:induction false} EnhancementKeepsBorder(orig: seq<Byte>, width: nat, intensity: int, pixel: nat, channel: nat)
    requires |orig| == 4 * width * width
    requires pixel < width * width && channel < 4
    requires pixel % width < 2 || pixel % width >= width - 2 || pixel / width < 2 || pixel / width >= width - 2
    ensures Enhanced(orig, width, intensity)[4 * pixel + channel] == orig[4 * pixel + channel]
  {
    assert (4 * pixel + channel) / 4 == pixel;
  }

  /** At `intensity / 100 <= 0.1` (integer intensity at most 10) the buffer is unchanged. */
  lemma {:induction false} EnhancementOffAtLowIntensity(orig: seq<Byte>, width: nat, intensity: int)
    requires intensity <= 10
    ensures Enhanced(orig, width, intensity) == orig
  {
    var r := Enhanced(orig, width, intensity);
    forall i | 0 <= i < |orig| ensures r[i] == orig[i] {
      SharpensAboveTen(intensity);
    }
  }

  /** For a non-negative intensity no byte gets smaller. */
  lemma {:induction false} EnhancementBrightens(orig: seq<Byte>, width: nat, intensity: int)
    requires intensity >= 0
    ensures forall i :: 0 <= i < |orig| ==> orig[i] <= Enhanced(orig, width, intensity)[i]
  {
    forall i | 0 <= i < |orig| ensures orig[i] <= Enhanced(orig, width, intensity)[i] {
      SharpenBrightens(orig[i], intensity);
    }
  }

  /** Byte `i` of the result depends on byte `i` of the snapshot alone, so
      neither earlier writes nor the order of the loop can affect it. */
  lemma EnhancementIsPointwise(a: seq<Byte>, b: seq<Byte>, width: nat, intensity: int, i: nat)
    requires |a| == |b| && i < |a| && a[i] == b[i]
    ensures Enhanced(a, width, intensity)[i] == Enhanced(b, width, intensity)[i]
  {
  }

  // ---------------------------------------------------------------------------
  // The progress protocol

  /** One call of the progress callback: `onProgress(progress, stepIndex)`. */
  datatype ProgressEvent = ProgressEvent(percent: real, stepIndex: int)

  /** What the simulation does, in order: progress callbacks and the one
      call of `applyEnhancement`. */
  datatype Action = Progress(event: ProgressEvent) | Enhance

  /** `(currentStep / steps) * 100` after `currentStep` steps. */
  function ProgressPercent(currentStep: nat): real {
    (currentStep as real / StepCount as real) * 100.0
  }

  /** The `processStep` recursion: bump the step counter, report it when a
      callback is given, and go on while fewer than six steps are done.
      Returns the callbacks made, in order. */
  method RunProgressSteps(hasCallback: bool) returns (events: seq<ProgressEvent>)
    ensures hasCallback ==> |events| == StepCount == |ProcessingSteps()|
    ensures !hasCallback ==> events == []
    ensures forall k :: 0 <= k < |events| ==> events[k] == ProgressEvent(ProgressPercent(k + 1), k)
  {
    var currentStep := 0;
    events := [];
    var finished := false;
    while !finished
      invariant 0 <= currentStep <= StepCount
      invariant finished <==> currentStep == StepCount
      invariant |events| == if hasCallback then currentStep else 0
      invariant forall k :: 0 <= k < |events| ==> events[k] == ProgressEvent(ProgressPercent(k + 1), k)
      decreases StepCount - currentStep
    {
      currentStep := currentStep + 1;
      var progress := (currentStep as real / StepCount as real) * 100.0;
      if hasCallback {
        events := events + [ProgressEvent(progress, currentStep - 1)];
      }
      finished := !(currentStep < StepCount);
    }
  }

  /** The events of a run with a callback, as `RunProgressSteps` reports them. */
  function ProgressTrace(): (t: seq<Action>)
    ensures |t| == StepCount
  {
    seq(StepCount, k requires 0 <= k < StepCount => Progress(ProgressEvent(ProgressPercent(k + 1), k)))
  }

  /** Step indices run 0 to 5, percentages strictly increase and the last is 100. */
  lemma {:induction false} ProgressTraceShape()
    ensures forall k :: 0 <= k < StepCount ==> ProgressTrace()[k].Progress? && ProgressTrace()[k].event.stepIndex == k
    ensures forall j, k :: 0 <= j < k < StepCount ==>
      ProgressTrace()[j].event.percent < ProgressTrace()[k].event.percent
    ensures ProgressTrace()[StepCount - 1] == Progress(ProgressEvent(100.0, 5))
  {
    forall j, k | 0 <= j < k < StepCount
      ensures ProgressTrace()[j].event.percent < ProgressTrace()[k].event.percent
    {
      assert (j + 1) as real / 6.0 < (k + 1) as real / 6.0;
    }
  }

  /** How reading and decoding the file went; the browser decides. */
  datatype LoadOutcome = Loaded | ReadFailed | DecodeFailed

  /** The encoded result handed back by `canvas.toBlob`: the type requested
      from the encoder and the pixels drawn on the canvas. */
  datatype Blob = Blob(mimeType: string, pixels: seq<Byte>)

  /** What `simulateDeblurProcessing` resolves or rejects with. */
  function SimulationResult(file: File, pixels: seq<Byte>, width: nat, intensity: int, load: LoadOutcome, encoded: bool): (r: Result<Blob>)
    ensures r.Ok? <==> load == Loaded && encoded
    ensures r.Ok? ==> r.value.mimeType == file.mimeType && r.value.pixels == Enhanced(pixels, width, intensity)
    ensures load == ReadFailed ==> r == Err(ReadFailedMessage)
    ensures load == DecodeFailed ==> r == Err(LoadFailedMessage)
    ensures load == Loaded && !encoded ==> r == Err(EncodeFailedMessage)
  {
    match load
    case ReadFailed => Err(ReadFailedMessage)
    case DecodeFailed => Err(LoadFailedMessage)
    case Loaded =>
      if encoded then Ok(Blob(file.mimeType, Enhanced(pixels, width, intensity)))
      else Err(EncodeFailedMessage)
  }

  /** What `simulateDeblurProcessing` does before it settles. */
  function SimulationTrace(hasCallback: bool, load: LoadOutcome): (t: seq<Action>)
    ensures t == [] <==> load != Loaded
    ensures t != [] ==> |t| == (if hasCallback then StepCount + 1 else 1) && t[|t| - 1] == Enhance
  {
    if load != Loaded then []
    else (if hasCallback then ProgressTrace() else []) + [Enhance]
  }

  /** Once the image is loaded the enhancement runs exactly once, after the
      sixth progress event when there is a callback; otherwise nothing runs. */
  lemma {:induction false} EnhanceRunsOnceAtTheEnd(hasCallback: bool, load: LoadOutcome)
    ensures load != Loaded ==> SimulationTrace(hasCallback, load) == []
    ensures load == Loaded ==>
      var t := SimulationTrace(hasCallback, load);
      |t| == (if hasCallback then StepCount + 1 else 1) &&
      t[|t| - 1] == Enhance &&
      (forall k :: 0 <= k < |t| - 1 ==> t[k].Progress?) &&
      (hasCallback ==> t[|t| - 2] == Progress(ProgressEvent(100.0, 5)))
  {
    ProgressTraceShape();
  }

  /** `simulateDeblurProcessing(file, intensity, onProgress)` once the file
      has been read and drawn into `data`, a square canvas `width` pixels wide. */
  method SimulateDeblurProcessing(file: File, data: array<Byte>, width: nat, intensity: int,
                                  hasCallback: bool, load: LoadOutcome, encoded: bool)
    returns (result: Result<Blob>, trace: seq<Action>)
    requires data.Length == 4 * width * width
    modifies data
    ensures result == SimulationResult(file, old(data[..]), width, intensity, load, encoded)
    ensures trace == SimulationTrace(hasCallback, load)
    ensures data[..] == if load == Loaded then Enhanced(old(data[..]), width, intensity) else old(data[..])
  {
    if load == ReadFailed {
      return Err(ReadFailedMessage), [];
    }
    if load == DecodeFailed {
      return Err(LoadFailedMessage), [];
    }
    var events := RunProgressSteps(hasCallback);
    trace := seq(|events|, k requires 0 <= k < |events| => Progress(events[k]));
    ApplyEnhancement(data, intensity, width);
    trace := trace + [Enhance];
    if encoded {
      result := Ok(Blob(file.mimeType, data[..]));
    } else {
      result := Err(EncodeFailedMessage);
    }
  }

  // ---------------------------------------------------------------------------
  // Labels and the time estimate

  /** `getProcessingSteps()`. */
  function ProcessingSteps(): (labels: seq<string>)
    ensures |labels| == StepCount
  {
    [ "Analyzing image structure...",
      "Detecting blur patterns...",
      "Applying deconvolution filters...",
      "Enhancing edge details...",
      "Optimizing contrast...",
      "Finalizing image..." ]
  }

  /** `Math.round`: the nearest integer, halves upwards. */
  function Round(x: real): (n: int)
    ensures x - 0.5 < n as real <= x + 0.5
  {
    (x + 0.5).Floor
  }

  function MinReal(a: real, b: real): real {
    if a <= b then a else b
  }

  /** `estimateProcessingTime(fileSize, intensity)` in milliseconds: up to
      5000 ms for the size, capped at 5 MB, and up to 50% more for intensity. */
  function EstimateProcessingTime(fileSize: int, intensity: int): (ms: int)
    ensures fileSize == 0 ==> ms == 0
    ensures fileSize >= 5 * 1048576 && intensity == 0 ==> ms == 5000
    ensures fileSize >= 5 * 1048576 && intensity == 100 ==> ms == 7500
  {
    var baseTime := MinReal(fileSize as real / (1024.0 * 1024.0), 5.0) * 1000.0;
    var intensityMultiplier := 1.0 + (intensity as real / 100.0) * 0.5;
    Round(baseTime * intensityMultiplier)
  }

  lemma RoundMono(x: real, y: real)
    requires x <= y
    ensures Round(x) <= Round(y)
  {
    assert (x + 0.5).Floor as real <= x + 0.5 <= y + 0.5 < (y + 0.5).Floor as real + 1.0;
  }

  lemma MulMonoReal(a: real, b: real, c: real)
    requires a <= b && c >= 0.0
    ensures a * c <= b * c
  {
  }

  /** For a non-negative size and an intensity in [0, 100] the estimate lies in [0, 7500]. */
  lemma {:induction false} EstimateBounds(fileSize: int, intensity: int)
    requires fileSize >= 0 && 0 <= intensity <= 100
    ensures 0 <= EstimateProcessingTime(fileSize, intensity) <= 7500
  {
    var baseTime := MinReal(fileSize as real / (1024.0 * 1024.0), 5.0) * 1000.0;
    var m := 1.0 + (intensity as real / 100.0) * 0.5;
    assert 0.0 <= baseTime <= 5000.0;
    assert 1.0 <= m <= 1.5;
    MulMonoReal(baseTime, 5000.0, m);
    MulMonoReal(1.0, m, baseTime);
    assert 0.0 <= baseTime * m <= 7500.0;
    RoundMono(0.0, baseTime * m);
    RoundMono(baseTime * m, 7500.0);
  }

  /** A larger file never gets a smaller estimate (for any intensity that
      keeps the multiplier non-negative, in particular every one in [0, 100]). */
  lemma {:induction false} EstimateMonotoneInSize(size1: int, size2: int, intensity: int)
    requires size1 <= size2 && intensity >= -200
    ensures EstimateProcessingTime(size1, intensity) <= EstimateProcessingTime(size2, intensity)
  {
    var b1 := MinReal(size1 as real / (1024.0 * 1024.0), 5.0) * 1000.0;
    var b2 := MinReal(size2 as real / (1024.0 * 1024.0), 5.0) * 1000.0;
    var m := 1.0 + (intensity as real / 100.0) * 0.5;
    assert b1 <= b2;
    MulMonoReal(b1, b2, m);
    RoundMono(b1 * m, b2 * m);
  }

  /** A higher intensity never gets a smaller estimate (for a non-negative size). */
  lemma {:induction false} EstimateMonotoneInIntensity(fileSize: int, intensity1: int, intensity2: int)
    requires fileSize >= 0 && intensity1 <= intensity2
    ensures EstimateProcessingTime(fileSize, intensity1) <= EstimateProcessingTime(fileSize, intensity2)
  {
    var b := MinReal(fileSize as real / (1024.0 * 1024.0), 5.0) * 1000.0;
    var m1 := 1.0 + (intensity1 as real / 100.0) * 0.5;
    var m2 := 1.0 + (intensity2 as real / 100.0) * 0.5;
    assert b >= 0.0 && m1 <= m2;
    MulMonoReal(m1, m2, b);
    assert b * m1 == m1 * b && b * m2 == m2 * b;
    RoundMono(b * m1, b * m2);
  }
}
