/**
 * The state of `ImageUploader.tsx`: the progress bar and loading flag set
 * around the chain validate -> encode -> extract -> enhance, the error shown
 * and reported, the switch to direct text input, and the progress label.
 * Each awaited call is given as its outcome: the value it resolved with, or
 * the value it threw.
 */
module Uploader {
  import opened Basics
  import opened JsString
  import opened Transport
  import opened ImageInput

  const NoTextInImage: string := "No text could be extracted from this image. Please try another image or enter text directly."
  const UploadFallback: string := "An error occurred during processing"
  const EnterText: string := "Please enter some text to enhance"
  const EnhanceFallback: string := "An error occurred while enhancing the text"

  /** `extractionResult.text || ''`. */
  function ExtractedText(data: OcrData): string {
    OrElse(data.text, [])
  }

  /**
   * What `handleImageUpload` hands to `onResultsReceived` (the enhanced and
   * the extracted text) or throws, given the outcomes of `convertToBase64`,
   * `extractTextFromImage` and `enhanceContent`. Validation runs first and a
   * blank extracted text stops the chain before enhancement.
   */
  function UploadResult(file: ImageFile, converted: Result<string, Thrown>, extraction: Result<OcrData, Thrown>,
                        enhanced: Result<string, Thrown>): Result<(string, string), Thrown> {
    var valid := ValidateImage(file);
    if valid.Failure? then Failure(ErrorValue(valid.error))
    else if converted.Failure? then Failure(converted.error)
    else if extraction.Failure? then Failure(extraction.error)
    else if IsBlank(ExtractedText(extraction.value)) then Failure(ErrorValue(NoTextInImage))
    else if enhanced.Failure? then Failure(enhanced.error)
    else Success((enhanced.value, ExtractedText(extraction.value)))
  }

  /**
   * What the `onResultsReceived` prop is when it is called: a function, or
   * `undefined` when the parent passes no such prop. Calling `undefined`
   * throws a `TypeError`, an `Error` whose message the engine words.
   */
  datatype Callback = Provided | Undefined(typeErrorMessage: string)

  /**
   * The `try` block's outcome once `onResultsReceived` has been called on a
   * successful chain: the call's `TypeError` lands in the same `catch`.
   */
  function Settled(result: Result<(string, string), Thrown>, callback: Callback): Result<(string, string), Thrown> {
    if result.Success? && callback.Undefined? then Failure(ErrorValue(callback.typeErrorMessage)) else result
  }

  /**
   * As written for the dashboard, which passes no `onResultsReceived`: a chain
   * that succeeds reaches 100 and is then shown and reported as the
   * `TypeError`'s message, and no result is delivered.
   */
  lemma UndefinedCallbackTurnsSuccessIntoError(file: ImageFile, converted: Result<string, Thrown>,
                                                extraction: Result<OcrData, Thrown>, enhanced: Result<string, Thrown>,
                                                typeErrorMessage: string)
    requires UploadResult(file, converted, extraction, enhanced).Success?
    ensures Settled(UploadResult(file, converted, extraction, enhanced), Undefined(typeErrorMessage))
         == Failure(ErrorValue(typeErrorMessage))
    ensures Displayed(ErrorValue(typeErrorMessage), UploadFallback) == typeErrorMessage
    ensures UploadProgress(file, converted, extraction, enhanced) == [10, 30, 60, 80, 100, 0]
  {
    SuccessfulUploadProgress(file, converted, extraction, enhanced);
  }

  /**
   * With the prop passed, as the other parents do, the chain's outcome is
   * what the handler settles with: its results are delivered exactly when it
   * succeeds, and its error is the one shown. Without it nothing is ever
   * delivered, and only a failed chain keeps its own error.
   */
  lemma ProvidedCallbackDelivers(result: Result<(string, string), Thrown>)
    ensures Settled(result, Provided) == result
    ensures forall m :: Settled(result, Undefined(m)).Failure?
    ensures result.Failure? ==> forall m :: Settled(result, Undefined(m)) == result
  {
  }

  /** The values the progress bar takes, in order; the last is the `finally` reset. */
  function UploadProgress(file: ImageFile, converted: Result<string, Thrown>, extraction: Result<OcrData, Thrown>,
                          enhanced: Result<string, Thrown>): seq<nat> {
    Reached(file, converted, extraction, enhanced) + [0]
  }

  /** The values the progress bar takes before the `finally` reset. */
  function Reached(file: ImageFile, converted: Result<string, Thrown>, extraction: Result<OcrData, Thrown>,
                   enhanced: Result<string, Thrown>): seq<nat> {
    if ValidateImage(file).Failure? then [10]
    else if converted.Failure? then [10, 30]
    else if extraction.Failure? || IsBlank(ExtractedText(extraction.value)) then [10, 30, 60]
    else if enhanced.Failure? then [10, 30, 60, 80]
    else [10, 30, 60, 80, 100]
  }

  /** Everything that resolves goes all the way: 10, 30, 60, 80, 100 and back to 0. */
  lemma SuccessfulUploadProgress(file: ImageFile, converted: Result<string, Thrown>, extraction: Result<OcrData, Thrown>,
                                 enhanced: Result<string, Thrown>)
    requires UploadResult(file, converted, extraction, enhanced).Success?
    ensures UploadProgress(file, converted, extraction, enhanced) == [10, 30, 60, 80, 100, 0]
  {
  }

  /** The bar starts at 10, only rises while the chain runs, and always ends at 0. */
  lemma ProgressRisesThenResets(file: ImageFile, converted: Result<string, Thrown>, extraction: Result<OcrData, Thrown>,
                                enhanced: Result<string, Thrown>)
    ensures var p := UploadProgress(file, converted, extraction, enhanced);
      && 2 <= |p| <= 6 && p[0] == 10 && p[|p| - 1] == 0
      && (forall i, j :: 0 <= i < j < |p| - 1 ==> p[i] < p[j])
      && (|p| == 6 <==> UploadResult(file, converted, extraction, enhanced).Success?)
  {
  }

  /** An invalid file is refused before encoding or any request: nothing else it could meet matters. */
  lemma ValidationComesFirst(file: ImageFile, converted: Result<string, Thrown>, extraction: Result<OcrData, Thrown>,
                             enhanced: Result<string, Thrown>, converted2: Result<string, Thrown>,
                             extraction2: Result<OcrData, Thrown>, enhanced2: Result<string, Thrown>)
    requires ValidateImage(file).Failure?
    ensures UploadResult(file, converted, extraction, enhanced) == Failure(ErrorValue(ValidateImage(file).error))
    ensures UploadResult(file, converted, extraction, enhanced) == UploadResult(file, converted2, extraction2, enhanced2)
    ensures UploadProgress(file, converted, extraction, enhanced) == [10, 0]
  {
  }

  /** A blank extracted text raises the no-text error and enhancement is never consulted. */
  lemma BlankTextStopsBeforeEnhancement(file: ImageFile, converted: Result<string, Thrown>, data: OcrData,
                                        enhanced: Result<string, Thrown>, enhanced2: Result<string, Thrown>)
    requires ValidateImage(file).Success? && converted.Success? && IsBlank(ExtractedText(data))
    ensures UploadResult(file, converted, Success(data), enhanced) == Failure(ErrorValue(NoTextInImage))
    ensures UploadResult(file, converted, Success(data), enhanced) == UploadResult(file, converted, Success(data), enhanced2)
    ensures UploadProgress(file, converted, Success(data), enhanced) == [10, 30, 60, 0]
  {
  }

  /**
   * With `extractTextFromImage` plugged in, the component's own blank check
   * never fires: the service already refused every blank text.
   */
  lemma ServiceRefusesBlankFirst(base64Image: string, call: Result<Option<OcrData>, Thrown>)
    requires ExtractTextFromImage(base64Image, call).result.Success?
    ensures !IsBlank(ExtractedText(ExtractTextFromImage(base64Image, call).result.value))
  {
  }

  /**
   * The message shown and reported: an `Error`'s message even when empty, the
   * string form of anything else, and the fallback only for a non-`Error`
   * whose string form is empty.
   */
  lemma ShownMessage(e: Thrown)
    ensures e.ErrorValue? ==> Displayed(e, UploadFallback) == e.message
    ensures e.NonErrorValue? && e.text != [] ==> Displayed(e, UploadFallback) == e.text
    ensures e.NonErrorValue? && e.text == [] ==> Displayed(e, UploadFallback) == UploadFallback
    ensures Displayed(ErrorValue([]), UploadFallback) == []
  {
  }

  /** The four progress captions. */
  datatype Caption = Preparing | ExtractingText | Analyzing | Enhancing

  function CaptionText(c: Caption): string {
    match c
    case Preparing => "Preparing image..."
    case ExtractingText => "Extracting text..."
    case Analyzing => "Analyzing content..."
    case Enhancing => "Enhancing content..."
  }

  /** The captions under the bar: one per condition, rendered side by side. */
  function ProgressCaptions(progress: int): seq<Caption> {
    (if progress < 30 then [Preparing] else [])
    + (if progress >= 30 && progress < 60 then [ExtractingText] else [])
    + (if progress >= 60 && progress < 80 then [Analyzing] else [])
    + (if progress >= 80 then [Enhancing] else [])
  }

  /** Exactly one caption shows for every value of the bar. */
  lemma OneCaptionAtATime(progress: int)
    ensures |ProgressCaptions(progress)| == 1
    ensures progress < 30 <==> ProgressCaptions(progress) == [Preparing]
    ensures 30 <= progress < 60 <==> ProgressCaptions(progress) == [ExtractingText]
    ensures 60 <= progress < 80 <==> ProgressCaptions(progress) == [Analyzing]
    ensures 80 <= progress <==> ProgressCaptions(progress) == [Enhancing]
  {
    var c := ProgressCaptions(progress);
    if progress < 30 {
      assert c == [Preparing];
    } else if progress < 60 {
      assert c == [ExtractingText];
      assert c[0] != Preparing;
    } else if progress < 80 {
      assert c == [Analyzing];
      assert c[0] != Preparing && c[0] != ExtractingText;
    } else {
      assert c == [Enhancing];
      assert c[0] != Preparing && c[0] != ExtractingText && c[0] != Analyzing;
    }
  }

  class ImageUploader {
    var isLoading: bool
    var uploadProgress: nat
    var error: Option<string>
    var useDirectInput: bool
    var directText: string

    /** Between two events the uploader is idle with an empty bar. */
    ghost predicate Valid()
      reads this
    {
      !isLoading && uploadProgress == 0
    }

    constructor ()
      ensures Valid()
      ensures error == None && !useDirectInput && directText == []
    {
      isLoading := false;
      uploadProgress := 0;
      error := None;
      useDirectInput := false;
      directText := [];
    }

    /**
     * `handleImageUpload`: `file` is the chosen file, if any; the next three
     * parameters are what the awaited calls did, and `callback` is what the
     * parent passed as `onResultsReceived`. `progress` lists the values the
     * bar takes, `delivered` what `onResultsReceived` receives and `reported`
     * what `onError` receives.
     */
    method HandleImageUpload(file: Option<ImageFile>, converted: Result<string, Thrown>,
                             extraction: Result<OcrData, Thrown>, enhanced: Result<string, Thrown>, callback: Callback)
      returns (progress: seq<nat>, delivered: Option<(string, string)>, reported: Option<string>)
      requires Valid()
      modifies this
      ensures Valid()
      ensures useDirectInput == old(useDirectInput) && directText == old(directText)
      ensures file.None? ==> progress == [] && delivered == None && reported == None && error == old(error)
      ensures file.Some? ==>
        var result := Settled(UploadResult(file.value, converted, extraction, enhanced), callback);
        && progress == UploadProgress(file.value, converted, extraction, enhanced)
        && (result.Success? ==> delivered == Some(result.value) && reported == None && error == None)
        && (result.Failure? ==> delivered == None && reported == Some(Displayed(result.error, UploadFallback)) && error == reported)
    {
      if file.None? {
        return [], None, None;
      }
      isLoading := true;
      uploadProgress := 10;
      progress := [uploadProgress];
      error := None;
      delivered, reported := None, None;
      var caught: Option<Thrown> := None;
      var valid := ValidateImage(file.value);
      if valid.Failure? {
        caught := Some(ErrorValue(valid.error));
        assert progress == [10];
      } else {
        uploadProgress := 30;
        progress := progress + [uploadProgress];
        if converted.Failure? {
          caught := Some(converted.error);
          assert progress == [10, 30];
        } else {
          uploadProgress := 60;
          progress := progress + [uploadProgress];
          if extraction.Failure? {
            caught := Some(extraction.error);
            assert progress == [10, 30, 60];
          } else {
            var extractedText := ExtractedText(extraction.value);
            if IsBlank(extractedText) {
              caught := Some(ErrorValue(NoTextInImage));
              assert progress == [10, 30, 60];
            } else {
              uploadProgress := 80;
              progress := progress + [uploadProgress];
              if enhanced.Failure? {
                caught := Some(enhanced.error);
                assert progress == [10, 30, 60, 80];
              } else {
                uploadProgress := 100;
                progress := progress + [uploadProgress];
                if callback.Provided? {
                  delivered := Some((enhanced.value, extractedText));
                } else {
                  caught := Some(ErrorValue(callback.typeErrorMessage));
                }
                assert progress == [10, 30, 60, 80, 100];
              }
            }
          }
        }
      }
      if caught.Some? {
        var errorMessage := Displayed(caught.value, UploadFallback);
        error := Some(errorMessage);
        reported := Some(errorMessage);
      }
      isLoading := false;
      uploadProgress := 0;
      progress := progress + [uploadProgress];
    }

    /**
     * `handleDirectTextSubmit`: a blank text only sets the error; otherwise
     * `enhanced` is what `processDirectTextInput(directText)` did, and
     * `callback` is what the parent passed as `onResultsReceived`.
     */
    method HandleDirectTextSubmit(enhanced: Result<string, Thrown>, callback: Callback)
      returns (delivered: Option<(string, string)>, reported: Option<string>)
      requires Valid()
      modifies this
      ensures Valid()
      ensures useDirectInput == old(useDirectInput) && directText == old(directText)
      ensures IsBlank(directText) ==> error == Some(EnterText) && delivered == None && reported == None
      ensures !IsBlank(directText) ==>
        var result := Settled(if enhanced.Success? then Success((enhanced.value, directText)) else Failure(enhanced.error), callback);
        && (result.Success? ==> error == None && delivered == Some(result.value) && reported == None)
        && (result.Failure? ==> delivered == None && reported == Some(Displayed(result.error, EnhanceFallback)) && error == reported)
    {
      delivered, reported := None, None;
      if IsBlank(directText) {
        error := Some(EnterText);
        return;
      }
      isLoading := true;
      error := None;
      if enhanced.Success? && callback.Provided? {
        delivered := Some((enhanced.value, directText));
      } else {
        var thrown := if enhanced.Failure? then enhanced.error else ErrorValue(callback.typeErrorMessage);
        var errorMessage := Displayed(thrown, EnhanceFallback);
        error := Some(errorMessage);
        reported := Some(errorMessage);
      }
      isLoading := false;
    }

    /** `toggleInputMethod`: flips the input mode and clears the error. */
    method ToggleInputMethod()
      requires Valid()
      modifies this
      ensures Valid()
      ensures useDirectInput == !old(useDirectInput) && error == None && directText == old(directText)
    {
      useDirectInput := !useDirectInput;
      error := None;
    }

    /** The text area's `onChange`. */
    method SetDirectText(text: string)
      requires Valid()
      modifies this
      ensures Valid()
      ensures directText == text && useDirectInput == old(useDirectInput) && error == old(error)
    {
      directText := text;
    }
  }
}
