/**
  The tokenizer `preprocess_text` of shakespeare.py: lowercase the text,
  delete every character that is not a word character, whitespace or an
  apostrophe, then split on whitespace.
 */
module Tokenizer {
  import opened Chars
  import opened Splitting

  /** `text.lower()`. */
  function Lower(s: string): (r: string)
    ensures |r| == |s|
    ensures forall i :: 0 <= i < |s| ==> r[i] == ToLower(s[i])
  {
    if s == [] then [] else [ToLower(s[0])] + Lower(s[1..])
  }

  /** `re.sub(r"[^\w\s']", "", text)`: every character outside `[\w\s']` is deleted. */
  function StripPunctuation(s: string): (r: string)
    ensures |r| <= |s|
    ensures forall i :: 0 <= i < |r| ==> IsKept(r[i]) && r[i] in s
  {
    if s == [] then []
    else (if IsKept(s[0]) then [s[0]] else []) + StripPunctuation(s[1..])
  }

  /** `preprocess_text(text)`. */
  function PreprocessText(text: string): (tokens: seq<string>)
    ensures forall k :: 0 <= k < |tokens| ==> tokens[k] != [] && NoSpace(tokens[k])
    ensures forall k, i :: 0 <= k < |tokens| && 0 <= i < |tokens[k]| ==> IsTokenChar(tokens[k][i])
  {
    var lowered := Lower(text);
    var stripped := StripPunctuation(lowered);
    var tokens := Split(stripped);
    assert forall c :: c in lowered ==> !IsAsciiUpper(c);
    assert forall c :: c in stripped ==> IsKept(c) && !IsAsciiUpper(c);
    tokens
  }

  /** The characters that end up in tokens: word characters and apostrophes, in order. */
  function TokenCharsOf(s: string): string {
    if s == [] then []
    else (if IsWordChar(s[0]) || s[0] == '\'' then [s[0]] else []) + TokenCharsOf(s[1..])
  }

  /** The number of occurrences of `c` in `s`. */
  function Count(c: char, s: string): nat {
    if s == [] then 0 else (if s[0] == c then 1 else 0) + Count(c, s[1..])
  }

  /** Lowercasing twice is lowercasing once. */
  lemma {:induction false} LowerIdempotent(s: string)
    ensures Lower(Lower(s)) == Lower(s)
  {
    var once := Lower(s);
    var twice := Lower(once);
    assert forall i :: 0 <= i < |s| ==> twice[i] == ToLower(ToLower(s[i]));
  }

  /** The filter works character by character: it distributes over concatenation. */
  lemma {:induction false} StripAppend(a: string, b: string)
    ensures StripPunctuation(a + b) == StripPunctuation(a) + StripPunctuation(b)
    decreases |a|
  {
    if a == [] {
      assert a + b == b;
    } else {
      assert (a + b)[1..] == a[1..] + b;
      StripAppend(a[1..], b);
    }
  }

  /** A text made only of kept characters passes through the filter unchanged. */
  lemma {:induction false} StripKeepsKept(s: string)
    requires forall i :: 0 <= i < |s| ==> IsKept(s[i])
    ensures StripPunctuation(s) == s
    decreases |s|
  {
    if s != [] {
      StripKeepsKept(s[1..]);
      assert s == [s[0]] + s[1..];
    }
  }

  /** Filtering twice is filtering once. */
  lemma StripIdempotent(s: string)
    ensures StripPunctuation(StripPunctuation(s)) == StripPunctuation(s)
  {
    StripKeepsKept(StripPunctuation(s));
  }

  /** A character survives both the filter and the split exactly when it is a word character or an apostrophe. */
  lemma SurvivesIffTokenChar(c: char)
    ensures (IsKept(c) && !IsSpace(c)) == (IsWordChar(c) || c == '\'')
  {
  }

  /** Deleting the whitespace of the filtered text leaves exactly its word characters and apostrophes. */
  lemma {:induction false} RemoveSpacesOfStrip(s: string)
    ensures RemoveSpaces(StripPunctuation(s)) == TokenCharsOf(s)
    decreases |s|
  {
    if s != [] {
      RemoveSpacesOfStrip(s[1..]);
      SurvivesIffTokenChar(s[0]);
      var tail := StripPunctuation(s[1..]);
      if IsKept(s[0]) {
        assert StripPunctuation(s) == [s[0]] + tail;
        assert ([s[0]] + tail)[1..] == tail;
        assert RemoveSpaces([s[0]] + tail) == (if IsSpace(s[0]) then [] else [s[0]]) + RemoveSpaces(tail);
      } else {
        assert StripPunctuation(s) == tail;
      }
    }
  }

  /**
    The tokens, glued together, are the lowercased text with everything but
    word characters and apostrophes deleted: no such character is lost and
    nothing else survives.
   */
  lemma ConcatPreprocessText(text: string)
    ensures Concat(PreprocessText(text)) == TokenCharsOf(Lower(text))
  {
    ConcatSplit(StripPunctuation(Lower(text)));
    RemoveSpacesOfStrip(Lower(text));
  }

  lemma {:induction false} CountTokenChars(c: char, s: string)
    requires IsTokenChar(c)
    ensures Count(c, TokenCharsOf(s)) == Count(c, s)
    decreases |s|
  {
    if s != [] {
      CountTokenChars(c, s[1..]);
      var tail := TokenCharsOf(s[1..]);
      if IsWordChar(s[0]) || s[0] == '\'' {
        assert TokenCharsOf(s) == [s[0]] + tail;
        assert ([s[0]] + tail)[1..] == tail;
      } else {
        assert TokenCharsOf(s) == tail;
        assert s[0] != c;
      }
    }
  }

  lemma {:induction false} CountApostrophesLower(s: string)
    ensures Count('\'', Lower(s)) == Count('\'', s)
    decreases |s|
  {
    if s != [] {
      CountApostrophesLower(s[1..]);
      assert Lower(s)[1..] == Lower(s[1..]);
    }
  }

  /** Apostrophes are never removed: the tokens hold every apostrophe of the text. */
  lemma ApostrophesKept(text: string)
    ensures Count('\'', Concat(PreprocessText(text))) == Count('\'', text)
  {
    ConcatPreprocessText(text);
    CountTokenChars('\'', Lower(text));
    CountApostrophesLower(text);
  }

  /** Text that is already lowercase, word characters and single spaces splits back into its words. */
  lemma PreprocessJoined(tokens: seq<string>)
    requires forall k :: 0 <= k < |tokens| ==> tokens[k] != []
    requires forall k, i :: 0 <= k < |tokens| && 0 <= i < |tokens[k]| ==> IsTokenChar(tokens[k][i])
    ensures PreprocessText(JoinWithSpaces(tokens)) == tokens
  {
    var s := JoinWithSpaces(tokens);
    JoinedChars(tokens);
    LowerOfLower(s);
    StripKeepsKept(s);
    SplitJoin(tokens);
  }

  lemma {:induction false} JoinedChars(tokens: seq<string>)
    requires forall k, i :: 0 <= k < |tokens| && 0 <= i < |tokens[k]| ==> IsTokenChar(tokens[k][i])
    ensures forall i :: 0 <= i < |JoinWithSpaces(tokens)| ==>
      IsTokenChar(JoinWithSpaces(tokens)[i]) || JoinWithSpaces(tokens)[i] == ' '
    decreases |tokens|
  {
    if |tokens| > 1 {
      JoinedChars(tokens[1..]);
      var rest := JoinWithSpaces(tokens[1..]);
      var s := tokens[0] + " " + rest;
      assert forall i :: 0 <= i < |s| ==>
        (i < |tokens[0]| ==> s[i] == tokens[0][i]) &&
        (i > |tokens[0]| ==> s[i] == rest[i - |tokens[0]| - 1]);
    }
  }

  lemma LowerOfLower(s: string)
    requires forall i :: 0 <= i < |s| ==> IsTokenChar(s[i]) || s[i] == ' '
    ensures Lower(s) == s
  {
  }
}
