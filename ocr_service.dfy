/**
 * `processImage` of `ocrService.ts`: an upload of the image file with
 * `fetch`, which accepts any non-empty text and replaces every failure by
 * one fixed message. The request is a parameter.
 */
module OcrService {
  import opened Basics
  import opened JsString
  import opened Transport
  import opened ImageInput

  const ProcessFailed: string := "Failed to process image. Please try again with a clearer image."

  /**
   * What the upload gave when `fetch` and `response.json()` both resolved:
   * `response.ok`, and `data.text` when `data` is present and its `text` is a string.
   */
  datatype UploadReply = UploadReply(ok: bool, text: Option<string>)

  /** `processImage(file)`: a rejected request is None. */
  function ProcessImage(call: Option<UploadReply>): (r: Result<string, string>)
    ensures r.Success? <==> call.Some? && call.value.ok && call.value.text.Some? && call.value.text.value != []
    ensures r.Success? ==> r.value == call.value.text.value
    ensures r.Failure? ==> r.error == ProcessFailed
  {
    if call.Some? && call.value.ok && call.value.text.Some? && call.value.text.value != [] then
      Success(call.value.text.value)
    else
      Failure(ProcessFailed)
  }

  /**
   * The two OCR paths disagree on text made only of whitespace:
   * `processImage` returns it, `extractTextFromImage` refuses it as no text.
   */
  lemma WhitespaceTextAcceptedOnlyByUpload(text: string, base64Image: string)
    requires text != [] && AllWhitespace(text) && base64Image != []
    ensures ProcessImage(Some(UploadReply(true, Some(text)))) == Success(text)
    ensures ExtractTextFromImage(base64Image, Success(Some(OcrData(None, Some(text))))).result == Failure(NoTextExtracted)
  {
    BlankIffAllWhitespace(text);
    assert !Usable(Some(OcrData(None, Some(text))));
  }

  /** Whatever `extractTextFromImage` accepts, `processImage` accepts too when given the same text. */
  lemma ExtractAcceptsLess(base64Image: string, call: Result<Option<OcrData>, Thrown>)
    requires ExtractTextFromImage(base64Image, call).result.Success?
    ensures var t := ExtractTextFromImage(base64Image, call).result.value.text.value;
      ProcessImage(Some(UploadReply(true, Some(t)))) == Success(t)
  {
    var t := ExtractTextFromImage(base64Image, call).result.value.text.value;
    BlankIffAllWhitespace(t);
    assert t != [];
  }
}
