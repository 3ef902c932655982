/**
  `load_and_preprocess_text` of shakespeare.py with the file read turned into
  a parameter: the text is cut after the first occurrence of a start marker
  (when there is one) and then normalised exactly like `preprocess_text`.
 */
module Loader {
  import opened Splitting
  import opened Tokenizer

  /** The default start marker: the first line of the first sonnet. */
  const StartMarker: string := "From fairest creatures we desire increase,"

  /** What reading the file produced; the two failures stand for the two exception handlers. */
  datatype FileRead = Contents(text: string) | NotFound | ReadFailed

  /** `marker` occurs in `text` starting at index `i`. */
  predicate OccursAt(text: string, marker: string, i: int) {
    0 <= i && i + |marker| <= |text| && text[i..i + |marker|] == marker
  }

  /** `i` is the first index at which `marker` occurs in `text`. */
  predicate IsFirstOccurrence(text: string, marker: string, i: int) {
    OccursAt(text, marker, i) && forall j :: 0 <= j < i ==> !OccursAt(text, marker, j)
  }

  lemma OccursAtShift(text: string, marker: string, j: int)
    requires text != [] && 0 <= j
    ensures OccursAt(text[1..], marker, j) <==> OccursAt(text, marker, j + 1)
  {
    if j + |marker| <= |text[1..]| {
      assert text[1..][j..j + |marker|] == text[j + 1..j + 1 + |marker|];
    }
  }

  /** `text.find(marker)`: the first index where `marker` occurs, or -1 when it does not occur. */
  function Find(text: string, marker: string): (r: int)
    ensures r == -1 || IsFirstOccurrence(text, marker, r)
    ensures r == -1 <==> forall j :: !OccursAt(text, marker, j)
    decreases |text|
  {
    if marker <= text then
      assert text[..|marker|] == marker;
      0
    else if text == [] then
      assert marker != [];
      -1
    else
      var r := Find(text[1..], marker);
      assert !OccursAt(text, marker, 0);
      forall j | 0 <= j ensures OccursAt(text[1..], marker, j) <==> OccursAt(text, marker, j + 1) {
        OccursAtShift(text, marker, j);
      }
      if r == -1 then
        assert forall j :: !OccursAt(text, marker, j) by {
          forall j ensures !OccursAt(text, marker, j) {
            if j > 0 {
              assert !OccursAt(text[1..], marker, j - 1);
            }
          }
        }
        -1
      else
        assert forall j :: 0 <= j < r + 1 ==> !OccursAt(text, marker, j) by {
          forall j | 0 <= j < r + 1 ensures !OccursAt(text, marker, j) {
            if j > 0 {
              assert !OccursAt(text[1..], marker, j - 1);
            }
          }
        }
        r + 1
  }

  /** The marker-skipping step: the text after the first occurrence of `marker`, or all of it. */
  function SkipToMarker(text: string, marker: string): (r: string)
    ensures forall i :: IsFirstOccurrence(text, marker, i) ==> r == text[i + |marker|..]
    ensures (forall j :: !OccursAt(text, marker, j)) ==> r == text
  {
    var start := Find(text, marker);
    if start != -1 then text[start + |marker|..] else text
  }

  /** `load_and_preprocess_text` on what the file read produced. */
  function LoadAndPreprocessText(file: FileRead, marker: string): (tokens: seq<string>)
    ensures file.Contents? ==> tokens == PreprocessText(SkipToMarker(file.text, marker))
    ensures !file.Contents? ==> tokens == []
  {
    match file
    case Contents(text) =>
      var kept := SkipToMarker(text, marker);
      var lowered := Lower(kept);
      var stripped := StripPunctuation(lowered);
      Split(stripped)
    case NotFound => []
    case ReadFailed => []
  }

  /** Only the first occurrence of the marker counts: what follows it is kept, later occurrences included. */
  lemma SkipAfterFirstMarker(prefix: string, marker: string, rest: string)
    requires forall j :: 0 <= j < |prefix| ==> !OccursAt(prefix + marker + rest, marker, j)
    ensures SkipToMarker(prefix + marker + rest, marker) == rest
  {
    var text := prefix + marker + rest;
    assert text[|prefix|..|prefix| + |marker|] == marker;
    assert IsFirstOccurrence(text, marker, |prefix|);
    assert text[|prefix| + |marker|..] == rest;
  }

  /** Python's `"".find("")` and `text.find("")` are 0, so an empty marker keeps the whole text. */
  lemma EmptyMarkerKeepsAll(text: string)
    ensures SkipToMarker(text, "") == text
  {
    assert IsFirstOccurrence(text, "", 0);
  }
}
