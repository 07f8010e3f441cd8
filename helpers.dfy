/** The two pure helpers of src/utils/helpers.ts. */
module Helpers {

  /** The `maxLength` that `truncateText` uses when its caller gives none. */
  const DefaultMaxLength: int := 100

  const Ellipsis: string := "..."

  /**
   * `truncateText`: text that fits is returned as is; longer text is cut to its
   * first `maxLength` characters and followed by an ellipsis. `substring`
   * clamps a negative bound to 0, so a negative `maxLength` keeps nothing.
   */
  function TruncateText(text: string, maxLength: int): (r: string)
    ensures |text| <= maxLength ==> r == text
    ensures |text| > maxLength ==> |r| == (if maxLength < 0 then 0 else maxLength) + |Ellipsis|
    ensures |text| > maxLength ==> r == text[..|r| - |Ellipsis|] + Ellipsis
  {
    if |text| <= maxLength then text
    else (if maxLength < 0 then [] else text[..maxLength]) + Ellipsis
  }

  /** Truncating twice with the same bound is the same as truncating once. */
  lemma TruncateIdempotent(text: string, maxLength: int)
    ensures TruncateText(TruncateText(text, maxLength), maxLength) == TruncateText(text, maxLength)
  {
    var once := TruncateText(text, maxLength);
    if |text| > maxLength {
      var keep := if maxLength < 0 then 0 else maxLength;
      assert once[..keep] == text[..keep];
    }
  }

  /** A truncated text never exceeds the bound by more than the ellipsis. */
  lemma TruncateBound(text: string, maxLength: nat)
    ensures |TruncateText(text, maxLength)| <= maxLength + |Ellipsis|
    ensures |TruncateText(text, DefaultMaxLength)| <= 103
  {
  }

  const Emerald: string := "text-emerald-600"
  const Amber: string := "text-amber-600"
  const Red: string := "text-red-600"

  /** `getConfidenceColor`: three bands of the score, split at 0.8 and 0.6. */
  function ConfidenceColor(score: real): (r: string)
    ensures r == Emerald <==> score >= 0.8
    ensures r == Amber <==> 0.6 <= score < 0.8
    ensures r == Red <==> score < 0.6
  {
    if score >= 0.8 then Emerald else if score >= 0.6 then Amber else Red
  }

  /** The bands ordered from low to high confidence. */
  function ColorRank(color: string): nat {
    if color == Red then 0 else if color == Amber then 1 else 2
  }

  /** A higher score never gets a lower band. */
  lemma ConfidenceColorMonotone(a: real, b: real)
    requires a <= b
    ensures ColorRank(ConfidenceColor(a)) <= ColorRank(ConfidenceColor(b))
  {
  }
}
