/** The drop zone (src/components/molecules/FileDropZone.jsx): which MIME
    types its accept patterns admit, the check of a chosen file, and the
    drag, drop and file-input handlers with the two drag flags they keep. */
module FileDropZone {
  import opened Common

  const DefaultAcceptedTypes: seq<string> := ["image/*"]

  /** `10 * 1024 * 1024` bytes. */
  const DefaultMaxSize: int := 10 * 1024 * 1024

  const InvalidTypeMessage := "Invalid file type. Please upload an image file."
  const TooLargePrefix := "File too large. Maximum size is "

  /** `Math.round(maxSize / (1024 * 1024))`: whole megabytes, halves upwards. */
  function RoundedMegabytes(maxSize: int): (mb: int)
    ensures mb * 1048576 - 524288 <= maxSize < mb * 1048576 + 524288
  {
    (maxSize + 524288) / 1048576
  }

  /** The size error: the limit in whole megabytes between a fixed prefix and `MB.`. */
  function TooLargeMessage(maxSize: int): (message: string)
    ensures |message| >= |TooLargePrefix| + 4
    ensures message[..|TooLargePrefix|] == TooLargePrefix && message[|message| - 3..] == "MB."
    ensures RoundedMegabytes(maxSize) >= 0 ==>
      var m := message[|TooLargePrefix|..|message| - 3];
      && (forall i :: 0 <= i < |m| ==> '0' <= m[i] <= '9')
      && (m[0] == '0' ==> RoundedMegabytes(maxSize) == 0 && |m| == 1)
      && DecimalValue(m) == RoundedMegabytes(maxSize)
  {
    var mb := RoundedMegabytes(maxSize);
    var number := IntToString(mb);
    var message := TooLargePrefix + number + "MB.";
    assert message[|TooLargePrefix|..|message| - 3] == number;
    assert mb >= 0 ==> DecimalValue(number) == mb by {
      if mb >= 0 { DecimalRoundTrip(mb); }
    }
    message
  }

  lemma DefaultTooLargeMessage()
    ensures TooLargeMessage(DefaultMaxSize) == "File too large. Maximum size is 10MB."
  {
    assert RoundedMegabytes(DefaultMaxSize) == 10;
    assert NatToString(10) == NatToString(1) + [DigitChar(0)];
  }

  // ---------------------------------------------------------------------------
  // Accept patterns

  /** Characters with a meaning of their own in a JavaScript regular expression. */
  predicate IsRegexSpecial(c: char) {
    c in {'.', '^', '$', '\\', '+', '?', '(', ')', '[', ']', '{', '}', '|'}
  }

  /** The patterns this model covers: literal text with at most one `*`. */
  predicate IsLiteralPattern(pattern: string) {
    (forall i :: 0 <= i < |pattern| ==> !IsRegexSpecial(pattern[i])) &&
    (forall i, j :: 0 <= i < j < |pattern| && pattern[i] == '*' ==> pattern[j] != '*')
  }

  /** The star of `pattern` is at `k`, the text before it occurs in `mimeType`
      at `i` and the text after it at `j`, no earlier than the first ends. */
  ghost predicate StarMatch(mimeType: string, pattern: string, k: int, i: int, j: int) {
    0 <= k < |pattern| && pattern[k] == '*' &&
    OccursAt(pattern[..k], mimeType, i) && i + k <= j && OccursAt(pattern[k + 1..], mimeType, j)
  }

  /** What `type.match(pattern.replace("*", ".*"))` means for a literal pattern:
      without a star, the pattern occurs in the type; with one, the text before
      the star occurs and the text after it occurs somewhere later. */
  ghost predicate PatternAdmits(mimeType: string, pattern: string) {
    if '*' in pattern then
      exists k, i, j :: StarMatch(mimeType, pattern, k, i, j)
    else
      exists i :: OccursAt(pattern, mimeType, i)
  }

  /** The search the regular expression performs: find the earliest
      occurrence of the text before the star, then look for the text after it. */
  function TypeMatches(mimeType: string, pattern: string): (b: bool)
    requires IsLiteralPattern(pattern)
    ensures b <==> PatternAdmits(mimeType, pattern)
  {
    match IndexOf("*", pattern)
    case None =>
      assert '*' !in pattern by {
        if '*' in pattern {
          var k :| 0 <= k < |pattern| && pattern[k] == '*';
          assert OccursAt("*", pattern, k);
        }
      }
      Contains(pattern, mimeType)
    case Some(k) =>
      assert pattern[k] == '*' by { assert pattern[k..k + 1] == "*"; }
      var before, after := pattern[..k], pattern[k + 1..];
      match IndexOf(before, mimeType)
      case None => false
      case Some(i) =>
        var found := Contains(after, mimeType[i + k..]);
        assert found <==> PatternAdmits(mimeType, pattern) by {
          StarMatchesAtEarliest(mimeType, pattern, k, i);
        }
        found
  }

  /** Looking for the text after the star past the earliest occurrence of the
      text before it finds a match whenever any occurrence would. */
  lemma {:induction false} StarMatchesAtEarliest(mimeType: string, pattern: string, k: nat, i: nat)
    requires IsLiteralPattern(pattern) && k < |pattern| && pattern[k] == '*'
    requires OccursAt(pattern[..k], mimeType, i)
    requires forall i' :: 0 <= i' < i ==> !OccursAt(pattern[..k], mimeType, i')
    ensures Contains(pattern[k + 1..], mimeType[i + k..]) <==> PatternAdmits(mimeType, pattern)
  {
    var before, after := pattern[..k], pattern[k + 1..];
    assert '*' in pattern;
    assert forall k' :: 0 <= k' < |pattern| && pattern[k'] == '*' ==> k' == k;
    var rest := mimeType[i + k..];
    if Contains(after, rest) {
      var j' :| OccursAt(after, rest, j');
      OccursInSuffix(after, mimeType, i + k, j');
      assert StarMatch(mimeType, pattern, k, i, i + k + j');
    }
    if PatternAdmits(mimeType, pattern) {
      var k1, i1, j :| StarMatch(mimeType, pattern, k1, i1, j);
      assert k1 == k;
      assert i <= i1;
      OccursInSuffix(after, mimeType, i + k, j - (i + k));
      assert OccursAt(after, rest, j - (i + k));
    }
  }

  /** With the default pattern (`image/` followed by a star) a type is
      admitted exactly when it contains `image/`. */
  lemma {:induction false} DefaultPatternIsSubstring(mimeType: string)
    ensures IsLiteralPattern("image/*")
    ensures TypeMatches(mimeType, "image/*") <==> exists i :: OccursAt("image/", mimeType, i)
  {
    var pattern := "image/*";
    assert pattern[..6] == "image/" && pattern[7..] == "";
    assert IndexOf("*", pattern) == Some(6) by {
      assert OccursAt("*", pattern, 6);
      forall j | 0 <= j < 6 ensures !OccursAt("*", pattern, j) {
        assert pattern[j..j + 1] == [pattern[j]];
      }
    }
    if i :| OccursAt("image/", mimeType, i) {
      assert IndexOf("image/", mimeType).Some?;
      var i0 := IndexOf("image/", mimeType).value;
      assert OccursAt("", mimeType[i0 + 6..], 0);
    }
  }

  /** `acceptedTypes.some(type => mimeType.match(...))`. */
  predicate Accepts(acceptedTypes: seq<string>, mimeType: string): (b: bool)
    requires forall p :: p in acceptedTypes ==> IsLiteralPattern(p)
    ensures b <==> exists p :: p in acceptedTypes && PatternAdmits(mimeType, p)
  {
    exists p :: p in acceptedTypes && TypeMatches(mimeType, p)
  }

  // ---------------------------------------------------------------------------
  // validateFile and the choice of a file

  /** `validateFile(file)`: the type error, else the size error, else nothing. */
  function ValidateFile(file: File, acceptedTypes: seq<string>, maxSize: int): (error: Option<string>)
    requires forall p :: p in acceptedTypes ==> IsLiteralPattern(p)
    ensures error.None? <==> Accepts(acceptedTypes, file.mimeType) && file.size <= maxSize
    ensures !Accepts(acceptedTypes, file.mimeType) ==> error == Some(InvalidTypeMessage)
    ensures Accepts(acceptedTypes, file.mimeType) && file.size > maxSize ==> error == Some(TooLargeMessage(maxSize))
  {
    if !Accepts(acceptedTypes, file.mimeType) then Some(InvalidTypeMessage)
    else if file.size > maxSize then Some(TooLargeMessage(maxSize))
    else None
  }

  /** Exactly `maxSize` bytes passes; one byte more does not. */
  lemma {:induction false} SizeBoundary(name: string, mimeType: string, acceptedTypes: seq<string>, maxSize: nat)
    requires forall p :: p in acceptedTypes ==> IsLiteralPattern(p)
    requires Accepts(acceptedTypes, mimeType)
    ensures ValidateFile(File(name, mimeType, maxSize), acceptedTypes, maxSize).None?
    ensures ValidateFile(File(name, mimeType, maxSize + 1), acceptedTypes, maxSize) == Some(TooLargeMessage(maxSize))
  {
  }

  /** The arguments of one `onFileSelect(file, error)` call. */
  datatype Selection = Selection(file: Option<File>, error: Option<string>)

  /** What the drop and file-input handlers pass to `onFileSelect` for a list
      of files: nothing for an empty list, else the verdict on the first file. */
  function SelectFirst(files: seq<File>, acceptedTypes: seq<string>, maxSize: int): (call: Option<Selection>)
    requires forall p :: p in acceptedTypes ==> IsLiteralPattern(p)
    ensures call.None? <==> files == []
    ensures call.Some? ==> (call.value.file.Some? <==> call.value.error.None?)
    ensures call.Some? && call.value.file.Some? ==>
      call.value.file.value == files[0] && ValidateFile(files[0], acceptedTypes, maxSize).None?
    ensures call.Some? && call.value.error.Some? ==> call.value.error == ValidateFile(files[0], acceptedTypes, maxSize)
  {
    if |files| > 0 then
      var file := files[0];
      var error := ValidateFile(file, acceptedTypes, maxSize);
      if error.Some? then Some(Selection(None, error)) else Some(Selection(Some(file), None))
    else None
  }

  /** Only the first file of a list is looked at. */
  lemma OnlyFirstFileMatters(files1: seq<File>, files2: seq<File>, acceptedTypes: seq<string>, maxSize: int)
    requires forall p :: p in acceptedTypes ==> IsLiteralPattern(p)
    requires files1 != [] && files2 != [] && files1[0] == files2[0]
    ensures SelectFirst(files1, acceptedTypes, maxSize) == SelectFirst(files2, acceptedTypes, maxSize)
  {
  }

  /** One entry of `e.dataTransfer.items`: its `kind` and its `type`. */
  datatype DragItem = DragItem(kind: string, mimeType: string)

  /** Some dragged item is a file of an admitted type. */
  predicate HasValidFile(items: seq<DragItem>, acceptedTypes: seq<string>): (b: bool)
    requires forall p :: p in acceptedTypes ==> IsLiteralPattern(p)
    ensures b <==> exists i, p :: 0 <= i < |items| && items[i].kind == "file" && p in acceptedTypes && PatternAdmits(items[i].mimeType, p)
  {
    exists item :: item in items && item.kind == "file" && Accepts(acceptedTypes, item.mimeType)
  }

  /** The component's state: its props and its two flags, plus the value of its hidden file input. */
  class DropZone {
    const acceptedTypes: seq<string>
    const maxSize: int
    var isDragActive: bool
    var isDragReject: bool
    var inputValue: string

    ghost predicate Valid()
      reads this
    {
      forall p :: p in acceptedTypes ==> IsLiteralPattern(p)
    }

    /** A freshly mounted drop zone: neither flag set. */
    constructor (acceptedTypes: seq<string>, maxSize: int)
      requires forall p :: p in acceptedTypes ==> IsLiteralPattern(p)
      ensures Valid()
      ensures this.acceptedTypes == acceptedTypes && this.maxSize == maxSize
      ensures !isDragActive && !isDragReject && inputValue == ""
    {
      this.acceptedTypes := acceptedTypes;
      this.maxSize := maxSize;
      isDragActive := false;
      isDragReject := false;
      inputValue := "";
    }

    /** `handleDragEnter`: active, and rejecting unless some item is an admitted file. */
    method HandleDragEnter(items: seq<DragItem>)
      requires Valid()
      modifies this`isDragActive, this`isDragReject
      ensures isDragActive
      ensures isDragReject <==> !HasValidFile(items, acceptedTypes)
    {
      var hasValidFile := HasValidFile(items, acceptedTypes);
      isDragActive := true;
      isDragReject := !hasValidFile;
    }

    /** `handleDragLeave`: both flags drop unless the pointer moved onto a
        child of the zone (`relatedInside`). */
    method HandleDragLeave(relatedInside: bool)
      modifies this`isDragActive, this`isDragReject
      ensures !relatedInside ==> !isDragActive && !isDragReject
      ensures relatedInside ==> isDragActive == old(isDragActive) && isDragReject == old(isDragReject)
    {
      if !relatedInside {
        isDragActive := false;
        isDragReject := false;
      }
    }

    /** `handleDrop`: both flags drop, then the first dropped file is
        validated and reported. */
    method HandleDrop(files: seq<File>) returns (call: Option<Selection>)
      requires Valid()
      modifies this`isDragActive, this`isDragReject
      ensures !isDragActive && !isDragReject
      ensures call == SelectFirst(files, acceptedTypes, maxSize)
    {
      isDragActive := false;
      isDragReject := false;
      call := None;
      if |files| > 0 {
        var file := files[0];
        var error := ValidateFile(file, acceptedTypes, maxSize);
        if error.Some? {
          call := Some(Selection(None, error));
        } else {
          call := Some(Selection(Some(file), None));
        }
      }
    }

    /** `handleFileInput`: the first chosen file is validated and reported,
        and the input is cleared; the drag flags stay as they are. */
    method HandleFileInput(files: seq<File>) returns (call: Option<Selection>)
      requires Valid()
      modifies this`inputValue
      ensures inputValue == ""
      ensures call == SelectFirst(files, acceptedTypes, maxSize)
    {
      call := None;
      if |files| > 0 {
        var file := files[0];
        var error := ValidateFile(file, acceptedTypes, maxSize);
        if error.Some? {
          call := Some(Selection(None, error));
        } else {
          call := Some(Selection(Some(file), None));
        }
      }
      inputValue := "";
    }
  }
}
