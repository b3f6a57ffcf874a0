/** The image service (src/services/api/imageService.js): the validation
    report for a chosen file and `processImage`, which checks the upload
    before it hands it to the simulated deblurring and turns every failure
    of the simulation into one message. */
module ImageService {
  import opened Common
  import opened ImageProcessing

  const ValidTypes: seq<string> := ["image/jpeg", "image/jpg", "image/png", "image/webp"]

  /** `10 * 1024 * 1024` bytes. */
  const MaxSize: nat := 10 * 1024 * 1024

  const NoFileMessage := "No file provided"
  const TypeMessage := "Invalid file type. Please upload a JPEG, PNG, or WebP image."
  const SizeMessage := "File size too large. Please upload an image smaller than 10MB."
  const EmptyMessage := "Invalid file. Please select a valid image."
  const ProcessingFailedMessage := "Failed to process image. Please try again."

  /** The object `validateImageFile` returns. */
  datatype Validation = Validation(isValid: bool, errors: seq<string>)

  /** The errors `validateImageFile` pushes, in the order it pushes them. */
  function ValidationErrors(file: File): (errors: seq<string>)
    ensures |errors| <= 3
    ensures errors == [] <==> file.mimeType in ValidTypes && 0 < file.size <= MaxSize
  {
    (if file.mimeType !in ValidTypes then [TypeMessage] else [])
    + (if file.size > MaxSize then [SizeMessage] else [])
    + (if file.size == 0 then [EmptyMessage] else [])
  }

  /** `validateImageFile(file)`: collects every failed check into `errors`. */
  method ValidateImageFile(file: File) returns (v: Validation)
    ensures v.errors == ValidationErrors(file)
    ensures v.isValid <==> v.errors == []
  {
    var errors: seq<string> := [];
    if file.mimeType !in ValidTypes {
      errors := errors + [TypeMessage];
    }
    if file.size > MaxSize {
      errors := errors + [SizeMessage];
    }
    if file.size == 0 {
      errors := errors + [EmptyMessage];
    }
    v := Validation(|errors| == 0, errors);
  }

  /** Position of a message in the order of the checks: type, size, empty file. */
  function CheckRank(message: string): int {
    if message == TypeMessage then 0 else if message == SizeMessage then 1 else 2
  }

  lemma MessagesDistinct()
    ensures TypeMessage != SizeMessage && TypeMessage != EmptyMessage && SizeMessage != EmptyMessage
  {
    assert |TypeMessage| != |SizeMessage| && |TypeMessage| != |EmptyMessage| && |SizeMessage| != |EmptyMessage|;
  }

  /** A file passes validation exactly when its type is allowed and its size
      is in [1, 10 MB]; each check reports its own message, and the messages
      come in the order type, size, empty file, so there are at most three. */
  lemma {:induction false} ValidationErrorsMeaning(file: File)
    ensures ValidationErrors(file) == [] <==> file.mimeType in ValidTypes && 0 < file.size <= MaxSize
    ensures TypeMessage in ValidationErrors(file) <==> file.mimeType !in ValidTypes
    ensures SizeMessage in ValidationErrors(file) <==> file.size > MaxSize
    ensures EmptyMessage in ValidationErrors(file) <==> file.size == 0
    ensures |ValidationErrors(file)| <= 3
    ensures forall j, k :: 0 <= j < k < |ValidationErrors(file)| ==>
      CheckRank(ValidationErrors(file)[j]) < CheckRank(ValidationErrors(file)[k])
  {
    MessagesDistinct();
  }

  /** The type check is membership of the four listed MIME types. */
  lemma ValidTypeIsListed(t: string)
    ensures t in ValidTypes <==> t == "image/jpeg" || t == "image/jpg" || t == "image/png" || t == "image/webp"
  {
  }

  /** Exactly 10 MB is accepted and one byte more is not; an empty file of a
      valid type is rejected with the invalid-file message alone. */
  lemma {:induction false} ValidationBoundaries(name: string, t: string)
    requires t in ValidTypes
    ensures ValidationErrors(File(name, t, MaxSize)) == []
    ensures ValidationErrors(File(name, t, MaxSize + 1)) == [SizeMessage]
    ensures ValidationErrors(File(name, t, 0)) == [EmptyMessage]
  {
  }

  /** The guards at the top of `processImage`: the message of the first
      failing check among missing file, type and size. */
  function UploadCheck(file: Option<File>): (failure: Option<string>)
    ensures failure.None? <==> file.Some? && file.value.mimeType in ValidTypes && file.value.size <= MaxSize
    ensures file.None? ==> failure == Some(NoFileMessage)
  {
    if file.None? then Some(NoFileMessage)
    else if file.value.mimeType !in ValidTypes then Some(TypeMessage)
    else if file.value.size > MaxSize then Some(SizeMessage)
    else None
  }

  /** The guards of `processImage` reject a file for the first type or size
      error that `validateImageFile` reports, and for nothing else: an empty
      file of a valid type gets through them. */
  lemma {:induction false} UploadCheckAgreesWithValidation(file: File)
    ensures var errors := ValidationErrors(file);
      UploadCheck(Some(file)) ==
        if errors != [] && errors[0] != EmptyMessage then Some(errors[0]) else None
  {
    MessagesDistinct();
  }

  /** The `catch` of `processImage`: any failure becomes one fixed message. */
  function Rethrown(r: Result<Blob>): (w: Result<Blob>)
    ensures w.Ok? <==> r.Ok?
    ensures r.Ok? ==> w == r
    ensures w.Err? ==> w.message == ProcessingFailedMessage
  {
    match r
    case Ok(_) => r
    case Err(_) => Err(ProcessingFailedMessage)
  }

  /** `processImage(file, intensity, onProgress)`, where `data` is the canvas
      the simulation draws the file into (a square `width` pixels wide) and
      `load` and `encoded` are how the browser's decoding and encoding went.
      A rejected upload never reaches the simulation: no callback is made and
      the buffer is not touched. */
  method ProcessImage(file: Option<File>, data: array<Byte>, width: nat, intensity: int,
                      hasCallback: bool, load: LoadOutcome, encoded: bool)
    returns (result: Result<Blob>, trace: seq<Action>)
    requires data.Length == 4 * width * width
    modifies data
    ensures UploadCheck(file).Some? ==>
      result == Err(UploadCheck(file).value) && trace == [] && data[..] == old(data[..])
    ensures UploadCheck(file).None? ==>
      && result == Rethrown(SimulationResult(file.value, old(data[..]), width, intensity, load, encoded))
      && trace == SimulationTrace(hasCallback, load)
      && data[..] == if load == Loaded then Enhanced(old(data[..]), width, intensity) else old(data[..])
  {
    if file.None? {
      return Err(NoFileMessage), [];
    }
    if file.value.mimeType !in ValidTypes {
      return Err(TypeMessage), [];
    }
    if file.value.size > MaxSize {
      return Err(SizeMessage), [];
    }
    var simulated;
    simulated, trace := SimulateDeblurProcessing(file.value, data, width, intensity, hasCallback, load, encoded);
    result := Rethrown(simulated);
  }
}
