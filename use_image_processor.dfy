/** The image-processing hook (src/hooks/useImageProcessor.js): eight pieces
    of state and the actions that change them. Object URLs and image
    dimensions come from the browser and are passed in; each asynchronous
    action is split at its `await` into a start and a completion. */
module ImageProcessorHook {
  import opened Common
  import ImageService

  const DefaultRetryIntensity := 50
  const DimensionsFailedMessage := "Failed to load image. Please try again."

  /** The width and height `getImageDimensions` reports. */
  datatype Dimensions = Dimensions(width: nat, height: nat)

  /** The `imageData` record kept for a loaded file. */
  datatype ImageData = ImageData(fileName: string, fileSize: nat, fileType: string, dimensions: Dimensions)

  /** The label shown for progress step `step`: `Step ${step + 1}/6`. */
  function StepLabel(step: int): (text: string)
    ensures |text| >= 8 && text[..5] == "Step " && text[|text| - 2..] == "/6"
    ensures step >= 0 ==>
      var m := text[5..|text| - 2];
      && (forall i :: 0 <= i < |m| ==> '0' <= m[i] <= '9')
      && m[0] != '0'
      && DecimalValue(m) == step + 1
  {
    var number := IntToString(step + 1);
    var text := "Step " + number + "/6";
    assert text[5..|text| - 2] == number;
    assert step >= 0 ==> DecimalValue(number) == step + 1 by {
      if step >= 0 { DecimalRoundTrip(step + 1); }
    }
    text
  }

  /** The six events of a run are labelled `Step 1/6` to `Step 6/6`. */
  lemma StepLabelsOfARun()
    ensures StepLabel(0) == "Step 1/6" && StepLabel(1) == "Step 2/6" && StepLabel(2) == "Step 3/6"
    ensures StepLabel(3) == "Step 4/6" && StepLabel(4) == "Step 5/6" && StepLabel(5) == "Step 6/6"
  {
  }

  /** The message shown for a rejected file: its validation errors joined by
      one space. Validation reports at most three errors, and the contract
      spells out each of those cases. */
  function RejectionMessage(errors: seq<string>): (message: string)
    ensures errors == [] ==> message == ""
    ensures |errors| == 1 ==> message == errors[0]
    ensures |errors| == 2 ==> message == errors[0] + " " + errors[1]
    ensures |errors| == 3 ==> message == errors[0] + " " + errors[1] + " " + errors[2]
    ensures errors != [] ==> |message| == TotalLength(errors) + |errors| - 1
  {
    JoinOfFew(errors, " ");
    Join(errors, " ")
  }

  class ImageProcessorState {
    var originalFile: Option<File>
    var originalImageUrl: Option<string>
    var processedImageUrl: Option<string>
    var imageData: Option<ImageData>
    var isProcessing: bool
    var progress: real
    var currentStep: string
    var error: Option<string>

    /** The original file and its URL are set together. */
    ghost predicate Valid()
      reads this
    {
      originalFile.Some? <==> originalImageUrl.Some?
    }

    /** Every field at its `useState` initial value. */
    ghost predicate IsInitial()
      reads this
    {
      originalFile == None && originalImageUrl == None && processedImageUrl == None &&
      imageData == None && !isProcessing && progress == 0.0 && currentStep == "" && error == None
    }

    constructor ()
      ensures Valid() && IsInitial()
    {
      originalFile := None;
      originalImageUrl := None;
      processedImageUrl := None;
      imageData := None;
      isProcessing := false;
      progress := 0.0;
      currentStep := "";
      error := None;
    }

    /** The part of `handleFileSelect(file)` before it awaits the dimensions,
        with `url` the object URL the browser creates. No file: nothing
        happens. An invalid file: only the error is set. A valid file: the
        error and the processed image are cleared and the file becomes the
        original; `loading` says that its dimensions are now awaited. */
    method HandleFileSelect(file: Option<File>, url: string) returns (loading: bool)
      requires Valid()
      modifies this
      ensures Valid()
      ensures file.None? ==> !loading && unchanged(this)
      ensures file.Some? && ImageService.ValidationErrors(file.value) != [] ==>
        && !loading
        && error == Some(RejectionMessage(ImageService.ValidationErrors(file.value)))
        && originalFile == old(originalFile) && originalImageUrl == old(originalImageUrl)
        && processedImageUrl == old(processedImageUrl) && imageData == old(imageData)
        && isProcessing == old(isProcessing) && progress == old(progress)
        && currentStep == old(currentStep)
      ensures file.Some? && ImageService.ValidationErrors(file.value) == [] ==>
        && loading
        && error == None && processedImageUrl == None
        && originalFile == file && originalImageUrl == Some(url)
        && imageData == old(imageData) && isProcessing == old(isProcessing)
        && progress == old(progress) && currentStep == old(currentStep)
    {
      if file.None? {
        return false;
      }
      var validation := ImageService.ValidateImageFile(file.value);
      if !validation.isValid {
        error := Some(RejectionMessage(validation.errors));
        return false;
      }
      error := None;
      processedImageUrl := None;
      originalFile := file;
      originalImageUrl := Some(url);
      loading := true;
    }

    /** The rest of `handleFileSelect(file)`, once `getImageDimensions` has
        settled: the image data on success, a load error otherwise. */
    method FinishFileSelect(file: File, dimensions: Option<Dimensions>)
      requires Valid()
      modifies this`imageData, this`error
      ensures Valid()
      ensures dimensions.Some? ==>
        imageData == Some(ImageData(file.name, file.size, file.mimeType, dimensions.value)) && error == old(error)
      ensures dimensions.None? ==> error == Some(DimensionsFailedMessage) && imageData == old(imageData)
    {
      if dimensions.Some? {
        imageData := Some(ImageData(file.name, file.size, file.mimeType, dimensions.value));
      } else {
        error := Some(DimensionsFailedMessage);
      }
    }

    /** The start of `processImageWithIntensity(intensity)`: nothing without
        an original file; otherwise processing begins with progress, label
        and error cleared, and the request is issued. */
    method BeginProcess(intensity: int) returns (request: Option<ProcessRequest>)
      requires Valid()
      modifies this
      ensures Valid()
      ensures old(originalFile).None? ==> request == None && unchanged(this)
      ensures old(originalFile).Some? ==>
        && request == Some(ProcessRequest(old(originalFile).value, intensity))
        && isProcessing && progress == 0.0 && currentStep == "" && error == None
        && originalFile == old(originalFile) && originalImageUrl == old(originalImageUrl)
        && processedImageUrl == old(processedImageUrl) && imageData == old(imageData)
    {
      if originalFile.None? {
        return None;
      }
      isProcessing := true;
      progress := 0.0;
      currentStep := "";
      error := None;
      request := Some(ProcessRequest(originalFile.value, intensity));
    }

    /** The progress callback of `processImageWithIntensity`. */
    method OnProgress(percent: real, step: int)
      modifies this`progress, this`currentStep
      ensures progress == percent && currentStep == StepLabel(step)
    {
      progress := percent;
      currentStep := StepLabel(step);
    }

    /** The end of `processImageWithIntensity`, with the object URL of the
        processed blob or the thrown message: the URL is stored, or the
        message becomes the error; either way processing stops and progress
        and label are cleared. */
    method FinishProcess(outcome: Result<string>)
      requires Valid()
      modifies this
      ensures Valid()
      ensures !isProcessing && progress == 0.0 && currentStep == ""
      ensures outcome.Ok? ==> processedImageUrl == Some(outcome.value) && error == old(error)
      ensures outcome.Err? ==> error == Some(outcome.message) && processedImageUrl == old(processedImageUrl)
      ensures originalFile == old(originalFile) && originalImageUrl == old(originalImageUrl)
      ensures imageData == old(imageData)
    {
      if outcome.Ok? {
        processedImageUrl := Some(outcome.value);
      } else {
        error := Some(outcome.message);
      }
      isProcessing := false;
      progress := 0.0;
      currentStep := "";
    }

    /** `reset`: both object URLs that exist are revoked and all eight fields
        return to their initial values. */
    method Reset() returns (revoked: seq<string>)
      modifies this
      ensures Valid() && IsInitial()
      ensures revoked ==
        (if old(originalImageUrl).Some? then [old(originalImageUrl).value] else []) +
        (if old(processedImageUrl).Some? then [old(processedImageUrl).value] else [])
    {
      revoked := [];
      if originalImageUrl.Some? {
        revoked := revoked + [originalImageUrl.value];
      }
      if processedImageUrl.Some? {
        revoked := revoked + [processedImageUrl.value];
      }
      originalFile := None;
      originalImageUrl := None;
      processedImageUrl := None;
      imageData := None;
      isProcessing := false;
      progress := 0.0;
      currentStep := "";
      error := None;
    }

    /** `retry(intensity = 50)`: processing again, at 50 when no intensity is
        given, and nothing at all without an original file. */
    method Retry(intensity: Option<int>) returns (request: Option<ProcessRequest>)
      requires Valid()
      modifies this
      ensures Valid()
      ensures old(originalFile).None? ==> request == None && unchanged(this)
      ensures old(originalFile).Some? ==>
        && request == Some(ProcessRequest(old(originalFile).value,
                                          if intensity.Some? then intensity.value else DefaultRetryIntensity))
        && isProcessing && progress == 0.0 && currentStep == "" && error == None
        && originalFile == old(originalFile) && originalImageUrl == old(originalImageUrl)
        && processedImageUrl == old(processedImageUrl) && imageData == old(imageData)
    {
      var chosen := if intensity.Some? then intensity.value else DefaultRetryIntensity;
      request := None;
      if originalFile.Some? {
        request := BeginProcess(chosen);
      }
    }
  }
}
