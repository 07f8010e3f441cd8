/**
 * The image side of the services: `validateImage`, `convertToBase64` and
 * `extractTextFromImage`, which `api.ts` and `ocrService.ts` define line for
 * line alike. The `FileReader` and the OCR request are parameters: what the
 * reader produced, and what the HTTP client resolved with or threw.
 */
module ImageInput {
  import opened Basics
  import opened JsString
  import opened Transport

  // ------------------------------------------------------------ validation

  const ValidTypes: seq<string> := ["image/jpeg", "image/png", "image/jpg", "image/webp"]
  /** 5 MB: `5 * 1024 * 1024` bytes. */
  const MaxSize: nat := 5 * 1024 * 1024
  const InvalidType: string := "Invalid file type. Please upload a JPEG, PNG, or WebP image."
  const TooLarge: string := "File too large. Maximum size is 5MB."

  /** The two properties of a `File` that `validateImage` reads. */
  datatype ImageFile = ImageFile(mimeType: string, size: nat)

  /** `validateImage(file)`: the type is checked first, then the size; a file of exactly 5 MB passes. */
  function ValidateImage(file: ImageFile): (r: Result<bool, string>)
    ensures r.Success? <==> file.mimeType in ValidTypes && file.size <= MaxSize
    ensures r.Success? ==> r.value
    ensures file.mimeType !in ValidTypes ==> r == Failure(InvalidType)
    ensures file.mimeType in ValidTypes && file.size > MaxSize ==> r == Failure(TooLarge)
  {
    if file.mimeType !in ValidTypes then Failure(InvalidType)
    else if file.size > MaxSize then Failure(TooLarge)
    else Success(true)
  }

  /** The limit is 5242880 bytes inclusive, and any smaller file of an accepted type is accepted too. */
  lemma SizeLimitIsInclusive(file: ImageFile, smaller: nat)
    requires ValidateImage(file).Success? && smaller <= file.size
    ensures MaxSize == 5242880
    ensures ValidateImage(ImageFile(file.mimeType, MaxSize)).Success?
    ensures ValidateImage(ImageFile(file.mimeType, MaxSize + 1)) == Failure(TooLarge)
    ensures ValidateImage(ImageFile(file.mimeType, smaller)).Success?
  {
  }

  // ------------------------------------------------------------- data URLs

  const NoFile: string := "No file provided"
  const NoBase64: string := "Failed to extract base64 data"
  const NotAString: string := "FileReader result is not a string"

  /** `url.split(',')[1]`, refused when it is missing or empty. */
  function DataUrlPayload(url: string): (r: Result<string, string>)
    ensures r.Success? ==> r.value != [] && ',' !in r.value
    ensures r.Failure? ==> r.error == NoBase64
  {
    var parts := Split(url, ',');
    if |parts| >= 2 && parts[1] != [] then Success(parts[1]) else Failure(NoBase64)
  }

  /** The payload is the text between the first comma and the next one (or the end). */
  lemma PayloadIsSecondField(url: string)
    requires DataUrlPayload(url).Success?
    ensures var b := DataUrlPayload(url).value;
      var h := Split(url, ',')[0];
      ',' !in h && |h| + 1 + |b| <= |url|
      && url[..|h|] == h && url[|h|] == ','
      && url[|h| + 1..|h| + 1 + |b|] == b
      && (|h| + 1 + |b| == |url| || url[|h| + 1 + |b|] == ',')
  {
    var parts := Split(url, ',');
    var h, b := parts[0], parts[1];
    assert Join(parts, ',') == h + [','] + Join(parts[1..], ',');
    var tail := Join(parts[1..], ',');
    if |parts| == 2 {
      assert tail == b;
      assert url == h + [','] + b;
    } else {
      assert tail == b + [','] + Join(parts[2..], ',') by {
        assert parts[1..][1..] == parts[2..];
      }
      assert url == h + [','] + b + [','] + Join(parts[2..], ',');
    }
  }

  /** `convertToBase64` returns the payload of `header,payload` whenever neither part has a comma. */
  lemma PayloadRoundTrip(header: string, payload: string)
    requires ',' !in header && ',' !in payload && payload != []
    ensures DataUrlPayload(header + [','] + payload) == Success(payload)
  {
    var parts := [header, payload];
    assert Join(parts, ',') == header + [','] + payload by {
      assert parts[1..] == [payload];
    }
    SplitJoin(parts, ',');
  }

  /** A reader result without a comma, or with nothing after it, has no payload. */
  lemma MissingPayloadRefused(header: string)
    requires ',' !in header
    ensures DataUrlPayload(header) == Failure(NoBase64)
    ensures DataUrlPayload(header + [',']) == Failure(NoBase64)
  {
    SplitOfSeparatorFree(header, ',');
    var parts := [header, []];
    assert Join(parts, ',') == header + [','] by {
      assert parts[1..] == [[]];
    }
    SplitJoin(parts, ',');
  }

  /** How the `FileReader` finished: `onload` with `reader.result` (None when it is not a string), or `onerror`. */
  datatype ReadOutcome = Loaded(result: Option<string>) | ReadFailed(error: Thrown)

  /** `convertToBase64(file)`: what the promise resolves or rejects with. */
  function ConvertToBase64(hasFile: bool, read: ReadOutcome): (r: Result<string, Thrown>)
    ensures !hasFile ==> r == Failure(ErrorValue(NoFile))
    ensures hasFile && read.Loaded? && read.result.Some? ==>
      (r.Success? <==> DataUrlPayload(read.result.value).Success?)
      && (r.Success? ==> r.value == DataUrlPayload(read.result.value).value)
      && (r.Failure? ==> r.error == ErrorValue(NoBase64))
    ensures hasFile && read.Loaded? && read.result.None? ==> r == Failure(ErrorValue(NotAString))
    ensures hasFile && read.ReadFailed? ==> r == Failure(read.error)
  {
    if !hasFile then Failure(ErrorValue(NoFile))
    else match read
      case Loaded(Some(url)) =>
        (match DataUrlPayload(url)
         case Success(b) => Success(b)
         case Failure(m) => Failure(ErrorValue(m)))
      case Loaded(None) => Failure(ErrorValue(NotAString))
      case ReadFailed(e) => Failure(e)
  }

  // ------------------------------------------------------------------- OCR

  const NoImageData: string := "No image data provided"
  const ExtractFailed: string := "Failed to extract text from image"
  const NoTextExtracted: string := "No text could be extracted from the image"

  /** The OCR reply's `data`: its `error` and `text` fields in string form, when present. */
  datatype OcrData = OcrData(error: Option<string>, text: Option<string>)

  /** `response.data?.error`, with an absent `data` giving an absent error. */
  function ErrorField(data: Option<OcrData>): Option<string> {
    if data.None? then None else data.value.error
  }

  /** The reply was usable: data present, no truthy error, and a non-blank text. */
  predicate Usable(data: Option<OcrData>) {
    data.Some? && OrElse(data.value.error, []) == []
    && data.value.text.Some? && !IsBlank(data.value.text.value)
  }

  /** The `try` block of `extractTextFromImage` after the request. */
  function OcrReply(call: Result<Option<OcrData>, Thrown>): (r: Result<OcrData, Thrown>)
    ensures r.Success? <==> call.Success? && Usable(call.value)
    ensures r.Success? ==> r.value == call.value.value
    ensures call.Failure? ==> r == Failure(call.error)
    ensures call.Success? && (call.value.None? || OrElse(ErrorField(call.value), []) != []) ==>
      r == Failure(ErrorValue(OrElse(ErrorField(call.value), ExtractFailed)))
    ensures call.Success? && call.value.Some? && OrElse(ErrorField(call.value), []) == [] && !Usable(call.value) ==>
      r == Failure(ErrorValue(NoTextExtracted))
  {
    if call.Failure? then Failure(call.error)
    else if call.value.None? || OrElse(ErrorField(call.value), []) != [] then
      Failure(ErrorValue(OrElse(ErrorField(call.value), ExtractFailed)))
    else if call.value.value.text.None? || IsBlank(call.value.value.text.value) then
      Failure(ErrorValue(NoTextExtracted))
    else
      Success(call.value.value)
  }

  /**
   * `extractTextFromImage(base64Image)`: an empty image is refused before the
   * request; a usable reply's `data` is returned unchanged; everything thrown
   * inside the `try`, the function's own errors included, leaves through the
   * OCR error mapping.
   */
  function ExtractTextFromImage(base64Image: string, call: Result<Option<OcrData>, Thrown>): (r: Attempt<OcrData>)
    ensures r.requested <==> base64Image != []
    ensures base64Image == [] ==> r.result == Failure(NoImageData)
    ensures r.result.Success? <==> r.requested && call.Success? && Usable(call.value)
    ensures r.result.Success? ==> r.result.value == call.value.value
    ensures r.requested && call.Failure? ==> r.result == Failure(OcrMessage(call.error))
    ensures r.requested && call.Success? && call.value.None? ==> r.result == Failure(ExtractFailed)
    ensures r.requested && call.Success? && OrElse(ErrorField(call.value), []) != [] ==>
      r.result == Failure(ErrorField(call.value).value)
    ensures r.requested && call.Success? && call.value.Some? && OrElse(ErrorField(call.value), []) == [] && !Usable(call.value) ==>
      r.result == Failure(NoTextExtracted)
  {
    OwnErrorsPassThrough(ExtractFailed);
    OwnErrorsPassThrough(NoTextExtracted);
    if base64Image == [] then Attempt(false, Failure(NoImageData))
    else
      match OcrReply(call)
      case Success(data) => Attempt(true, Success(data))
      case Failure(e) => Attempt(true, Failure(OcrMessage(e)))
  }

  /** The service's own errors come out of the OCR mapping with their message unchanged. */
  lemma OwnErrorsPassThrough(message: string)
    requires message != []
    ensures OcrMessage(ErrorValue(message)) == message
  {
  }

  /** A successful extraction always carries text that is not blank once trimmed. */
  lemma ExtractedTextIsNotBlank(base64Image: string, call: Result<Option<OcrData>, Thrown>)
    requires ExtractTextFromImage(base64Image, call).result.Success?
    ensures var data := ExtractTextFromImage(base64Image, call).result.value;
      data.text.Some? && exists i :: 0 <= i < |data.text.value| && !IsWhitespace(data.text.value[i])
  {
    var t := ExtractTextFromImage(base64Image, call).result.value.text.value;
    BlankIffAllWhitespace(t);
  }
}
