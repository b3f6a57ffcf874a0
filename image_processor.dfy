/** The processing panel (src/components/organisms/ImageProcessor.jsx): its
    eight pieces of state and the handlers that change them, and the name
    under which a processed image is downloaded. Object URLs come from the
    browser and are passed in; a call of `processImage` is split into the
    part before the `await`, the progress callbacks, and the part after it. */
module ImageProcessorView {
  import opened Common

  const DeblurredSuffix := "_deblurred.png"
  const InitialIntensity := 50
  const InitializingLabel := "Initializing..."

  /** The labels this panel shows for progress steps 0 to 5. */
  const StepLabels: seq<string> := [
    "Analyzing image structure...",
    "Detecting blur patterns...",
    "Applying advanced deblur algorithms...",
    "Enhancing edge sharpness...",
    "Optimizing clarity restoration...",
    "Finalizing unblurred image..." ]

  // ---------------------------------------------------------------------------
  // The download name: `name.replace(/\.[^/.]+$/, "_deblurred.png")`

  /** The regular expression matches at `k`: a dot followed by at least one
      character, none of them `/` or `.`, up to the end of the name. */
  ghost predicate ExtensionAt(name: string, k: int) {
    0 <= k < |name| - 1 && name[k] == '.' &&
    forall j :: k < j < |name| ==> name[j] != '.' && name[j] != '/'
  }

  /** Scanning `name[..end]` backwards for the dot of a trailing extension,
      where nothing from `end` on is a `/` or a `.`. */
  function ExtensionStart(name: string, end: nat): (k: Option<nat>)
    requires end <= |name|
    requires forall j :: end <= j < |name| ==> name[j] != '.' && name[j] != '/'
    ensures k.Some? ==> ExtensionAt(name, k.value)
    ensures k.None? ==> forall k' :: !ExtensionAt(name, k')
    decreases end
  {
    if end == 0 then None
    else if name[end - 1] == '/' then None
    else if name[end - 1] == '.' then (if end < |name| then Some(end - 1) else None)
    else ExtensionStart(name, end - 1)
  }

  /** There is at most one place where the regular expression can match. */
  lemma ExtensionAtUnique(name: string, k1: int, k2: int)
    requires ExtensionAt(name, k1) && ExtensionAt(name, k2)
    ensures k1 == k2
  {
  }

  /** The file name offered for download. */
  function DownloadName(name: string): (r: string)
    ensures forall k :: ExtensionAt(name, k) ==> r == name[..k] + DeblurredSuffix
    ensures (forall k :: !ExtensionAt(name, k)) ==> r == name
  {
    match ExtensionStart(name, |name|)
    case Some(k) => name[..k] + DeblurredSuffix
    case None => name
  }

  /** Only the last extension is replaced; a name without one, or whose last
      dot belongs to a directory part, is kept. */
  lemma DownloadNameExamples()
    ensures DownloadName("a.tar.gz") == "a.tar_deblurred.png"
    ensures DownloadName("photo.jpg") == "photo_deblurred.png"
    ensures DownloadName("photo") == "photo"
    ensures DownloadName("photo.") == "photo."
    ensures DownloadName("v1.2/photo") == "v1.2/photo"
  {
    assert ExtensionAt("a.tar.gz", 5);
    assert ExtensionAt("photo.jpg", 5);
    var n1 := "photo";
    forall k ensures !ExtensionAt(n1, k) {
      if 0 <= k < |n1| { assert n1[k] != '.'; }
    }
    var n2 := "photo.";
    forall k ensures !ExtensionAt(n2, k) {
      if 0 <= k < |n2| - 1 { assert n2[k] != '.'; }
    }
    var n3 := "v1.2/photo";
    forall k ensures !ExtensionAt(n3, k) {
      if 0 <= k < |n3| - 1 && n3[k] == '.' { assert k == 2 && n3[4] == '/'; }
    }
  }

  // ---------------------------------------------------------------------------
  // The component's state

  /** What `handleDownload` hands to `downloadImage`: the URL and the file name. */
  datatype Download = Download(url: string, fileName: string)

  class ImageProcessor {
    var originalFile: Option<File>
    var originalImageUrl: Option<string>
    var processedImageUrl: Option<string>
    var intensity: int
    var isProcessing: bool
    var progress: real
    var currentStep: string
    var showComparison: bool

    /** The original file and its URL are set together, and the comparison
        is only ever shown for a processed image. */
    ghost predicate Valid()
      reads this
    {
      (originalFile.Some? <==> originalImageUrl.Some?) &&
      (showComparison ==> processedImageUrl.Some?)
    }

    /** Every field at its `useState` initial value. */
    ghost predicate IsInitial()
      reads this
    {
      originalFile == None && originalImageUrl == None && processedImageUrl == None &&
      intensity == InitialIntensity && !isProcessing && progress == 0.0 &&
      currentStep == "" && !showComparison
    }

    constructor ()
      ensures Valid() && IsInitial()
    {
      originalFile := None;
      originalImageUrl := None;
      processedImageUrl := None;
      intensity := InitialIntensity;
      isProcessing := false;
      progress := 0.0;
      currentStep := "";
      showComparison := false;
    }

    /** `handleFileSelect(file, error)`, with `url` the object URL the browser
        creates for the file. An error (any non-empty message) changes
        nothing; a file becomes the original, drops the processed image and
        hides the comparison. */
    method HandleFileSelect(file: Option<File>, error: Option<string>, url: string)
      requires Valid()
      modifies this
      ensures Valid()
      ensures error.Some? && error.value != "" ==> unchanged(this)
      ensures (error.None? || error.value == "") && file.None? ==> unchanged(this)
      ensures (error.None? || error.value == "") && file.Some? ==>
        && originalFile == file && originalImageUrl == Some(url)
        && processedImageUrl == None && !showComparison
        && intensity == old(intensity) && isProcessing == old(isProcessing)
        && progress == old(progress) && currentStep == old(currentStep)
    {
      if error.Some? && error.value != "" {
        return;
      }
      if file.Some? {
        originalFile := file;
        originalImageUrl := Some(url);
        processedImageUrl := None;
        showComparison := false;
      }
    }

    /** `onIntensityChange` from the slider. */
    method SetIntensity(value: int)
      modifies this`intensity
      ensures intensity == value
    {
      intensity := value;
    }

    /** The start of `handleProcess`: nothing without an original file;
        otherwise processing begins at 0% and the request is issued. */
    method BeginProcess() returns (request: Option<ProcessRequest>)
      requires Valid()
      modifies this
      ensures Valid()
      ensures old(originalFile).None? ==> request == None && unchanged(this)
      ensures old(originalFile).Some? ==>
        && request == Some(ProcessRequest(old(originalFile).value, old(intensity)))
        && isProcessing && progress == 0.0 && currentStep == InitializingLabel
        && originalFile == old(originalFile) && originalImageUrl == old(originalImageUrl)
        && processedImageUrl == old(processedImageUrl) && intensity == old(intensity)
        && showComparison == old(showComparison)
    {
      if originalFile.None? {
        return None;
      }
      isProcessing := true;
      progress := 0.0;
      currentStep := InitializingLabel;
      request := Some(ProcessRequest(originalFile.value, intensity));
    }

    /** The progress callback of `handleProcess`: the value is always stored,
        the label only for a step that has one. */
    method OnProgress(percent: real, step: nat)
      modifies this`progress, this`currentStep
      ensures progress == percent
      ensures step < |StepLabels| ==> currentStep == StepLabels[step]
      ensures step >= |StepLabels| ==> currentStep == old(currentStep)
    {
      progress := percent;
      if step < |StepLabels| {
        currentStep := StepLabels[step];
      }
    }

    /** The end of `handleProcess`, with the object URL of the processed blob
        or the failure: success shows the processed image and the comparison;
        either way processing stops and progress and label are cleared. */
    method FinishProcess(outcome: Result<string>)
      requires Valid()
      modifies this
      ensures Valid()
      ensures !isProcessing && progress == 0.0 && currentStep == ""
      ensures outcome.Ok? ==> processedImageUrl == Some(outcome.value) && showComparison
      ensures outcome.Err? ==> processedImageUrl == old(processedImageUrl) && showComparison == old(showComparison)
      ensures originalFile == old(originalFile) && originalImageUrl == old(originalImageUrl)
      ensures intensity == old(intensity)
    {
      if outcome.Ok? {
        processedImageUrl := Some(outcome.value);
        showComparison := true;
      }
      isProcessing := false;
      progress := 0.0;
      currentStep := "";
    }

    /** `handleDownload`: the download it starts, if any; it needs both the
        processed URL and the original file. */
    method HandleDownload() returns (download: Option<Download>)
      ensures download.Some? <==> processedImageUrl.Some? && originalFile.Some?
      ensures download.Some? ==>
        download.value == Download(processedImageUrl.value, DownloadName(originalFile.value.name))
    {
      if processedImageUrl.None? || originalFile.None? {
        return None;
      }
      var fileName := DownloadName(originalFile.value.name);
      download := Some(Download(processedImageUrl.value, fileName));
    }

    /** `handleReset`: both object URLs that exist are revoked and every field
        returns to its initial value. */
    method HandleReset() returns (revoked: seq<string>)
      modifies this
      ensures Valid() && IsInitial()
      ensures revoked ==
        (if old(originalImageUrl).Some? then [old(originalImageUrl).value] else []) +
        (if old(processedImageUrl).Some? then [old(processedImageUrl).value] else [])
    {
      revoked := [];
      if originalImageUrl.Some? {
        revoked := revoked + [originalImageUrl.value];
      }
      if processedImageUrl.Some? {
        revoked := revoked + [processedImageUrl.value];
      }
      originalFile := None;
      originalImageUrl := None;
      processedImageUrl := None;
      intensity := InitialIntensity;
      showComparison := false;
      isProcessing := false;
      progress := 0.0;
      currentStep := "";
    }

    /** `toggleComparison`: flips the comparison, but only for a processed image. */
    method ToggleComparison()
      requires Valid()
      modifies this`showComparison
      ensures Valid()
      ensures processedImageUrl.Some? ==> showComparison == !old(showComparison)
      ensures processedImageUrl.None? ==> showComparison == old(showComparison)
    {
      if processedImageUrl.Some? {
        showComparison := !showComparison;
      }
    }
  }
}
