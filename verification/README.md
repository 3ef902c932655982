# Text front end of the Shakespeare n-gram toolkit, in Dafny

This project models the text front end of `shakespeare.py`, which turns a corpus into tokens and bigrams.

- `preprocess_text` lowercases a text. It deletes every character that is not a word character, whitespace or an apostrophe (`re.sub(r"[^\w\s']", "", text)`). It then splits the rest on runs of whitespace (`str.split()`).
- `load_and_preprocess_text` finds the first occurrence of a start marker (`str.find`). If the marker is there, it keeps only the text after it. It then normalises that text the same way. If reading the file fails, it returns no tokens.
- `create_bigrams` lists the overlapping pairs of adjacent tokens.

All three are pure, so the model is written as functions over sequences, with lemmas about them:

- `chars.dfy` (module `Chars`): the character classes `\w` and `\s`, and single-character lowercasing.
- `split.dfy` (module `Splitting`): `str.split()`. It proves that the tokens are exactly the maximal whitespace-free runs of the text, in order (existence and uniqueness of the layout).
- `tokenizer.dfy` (module `Tokenizer`): `str.lower()`, the punctuation filter and `preprocess_text`, with lemmas about the characters that survive.
- `loader.dfy` (module `Loader`): `str.find`, the marker skip and `load_and_preprocess_text`. The file read is a parameter of type `FileRead`.
- `bigrams.dfy` (module `Bigrams`): `create_bigrams`, and the two-way correspondence between token lists and chains of pairs.
- `samples.dfy` (modules `SampleText` and `Samples`): the test suite's sample sentence, its tokens and its bigrams.

Character classes:
- Whitespace is Python's full whitespace set: the characters for which `str.isspace()` holds. For `str` patterns, this is also what the regular-expression class `\s` matches.
- Word characters (`\w`) are the ASCII letters, ASCII digits and `_`.
- Lowercasing maps `A`..`Z` to `a`..`z`.

The filter keeps every apostrophe, wherever it stands, not only those inside a word. For example, `"'tis"` stays `"'tis"` and a lone `"'"` is a token. `Tokenizer.ApostrophesKept` states that no apostrophe is ever removed.

## Model

| member | source | states |
|---|---|---|
| `Chars.ToLower` | shakespeare.py:29 | the result is never an upper-case letter; an upper-case letter becomes the lower-case letter at the same alphabet offset, and every other character is unchanged |
| `Tokenizer.Lower` | shakespeare.py:29 | lowercasing keeps the length and lowercases each character in place |
| `Tokenizer.LowerIdempotent` | shakespeare.py:29 | lowercasing an already lowercased text changes nothing |
| `Tokenizer.StripPunctuation` | shakespeare.py:30 | the filtered text is no longer than the input; every character of it is a word character, whitespace or an apostrophe taken from the input |
| `Tokenizer.StripAppend` | shakespeare.py:30 | the filter works character by character: filtering `a + b` is filtering `a` and then `b` |
| `Tokenizer.StripKeepsKept` | shakespeare.py:30 | a text made only of word characters, whitespace and apostrophes passes the filter unchanged |
| `Tokenizer.StripIdempotent` | shakespeare.py:30 | filtering twice is filtering once |
| `Splitting.Word` | shakespeare.py:31 | the first token candidate is the longest whitespace-free prefix: it is followed by the end or by whitespace |
| `Splitting.Split` | shakespeare.py:31 | `str.split()` yields no empty token and no token containing whitespace; every token character comes from the text |
| `Splitting.Gaps` | shakespeare.py:31 | there is one whitespace-only gap more than there are tokens |
| `Splitting.SplitIsLayout` | shakespeare.py:31 | the text is its gaps interleaved with its tokens; the gaps between tokens are non-empty, so each token is a maximal whitespace-free run |
| `Splitting.LayoutIsSplit` | shakespeare.py:31 | any division of the text into whitespace gaps and maximal whitespace-free runs has exactly the tokens of `str.split()`, in order |
| `Splitting.SplitJoin` | shakespeare.py:31 | splitting the single-space join of non-empty, whitespace-free tokens gives those tokens back |
| `Splitting.ConcatSplit` | shakespeare.py:31 | the tokens glued together equal the text with all whitespace deleted |
| `Tokenizer.PreprocessText` | shakespeare.py:28-32 | every token is non-empty, holds no whitespace, and consists of lower-case word characters and apostrophes only |
| `Tokenizer.RemoveSpacesOfStrip` | shakespeare.py:30-31 | removing whitespace from the filtered text leaves exactly its word characters and apostrophes, in order |
| `Tokenizer.ConcatPreprocessText` | shakespeare.py:28-32 | the tokens glued together are the lowercased text with everything except word characters and apostrophes deleted: no such character is lost and nothing else survives |
| `Tokenizer.ApostrophesKept` | shakespeare.py:29-31 | the tokens hold exactly as many apostrophes as the input text |
| `Tokenizer.PreprocessJoined` | shakespeare.py:28-32 | a text made of lower-case token words joined by single spaces is tokenized back into those words |
| `Samples.SampleSentence` | test_shakespeare_gpt.py:13-22 | "to be or not to be that is the question" is tokenized into its ten words |
| `Loader.Find` | shakespeare.py:9 | `str.find` returns the first index where the marker occurs, or -1 exactly when it occurs nowhere |
| `Loader.SkipToMarker` | shakespeare.py:9-13 | if the marker occurs, the kept text starts right after its first occurrence; otherwise the text is kept whole |
| `Loader.SkipAfterFirstMarker` | shakespeare.py:9-11 | for a text `prefix + marker + rest` in which the marker does not start inside `prefix`, exactly `rest` is kept, even if `rest` contains the marker again |
| `Loader.EmptyMarkerKeepsAll` | shakespeare.py:9-11 | an empty marker is found at index 0, so the whole text is kept |
| `Loader.LoadAndPreprocessText` | shakespeare.py:3-26 | after a successful read, the tokens are exactly `preprocess_text` of the text after the marker; after a failed read (file not found or any other error), there are no tokens |
| `Bigrams.CreateBigrams` | shakespeare.py:38-39 | there are `len(tokens) - 1` pairs for a non-empty token list and none for an empty one |
| `Bigrams.BigramAt` | shakespeare.py:39 | pair `i` is exactly `(tokens[i], tokens[i + 1])`, in input order |
| `Bigrams.BigramsChained` | shakespeare.py:39 | consecutive pairs overlap: the second token of pair `i` is the first token of pair `i + 1` |
| `Bigrams.UnpairCreateBigrams` | shakespeare.py:39 | a token list of two or more tokens can be rebuilt from its pairs, so no token is lost or reordered |
| `Bigrams.CreateBigramsUnpair` | shakespeare.py:39 | every non-empty overlapping chain of pairs is the pair list of the token list it walks through |
| `Samples.SampleBigrams` | test_shakespeare_gpt.py:25-30 | the ten sample tokens give the nine expected pairs, including the repeated `("to", "be")` |

## Left out

- File reading (`open`/`read` in `load_and_preprocess_text`, and all of `load_text`): this is I/O. The content of a successful read, or the kind of failure, is the `FileRead` parameter.
- The `print` warnings and error messages (the missing-marker warning, the file-not-found message, the generic error message): console output with no effect on the result.
- The module-level script at the end of `shakespeare.py` (fixed file path, loading, and printing counts and prefixes): console reporting only.
- Unicode: the model does not include `\w` and `str.lower()` beyond ASCII. A non-ASCII letter or digit, which Python keeps, is treated as punctuation and deleted. Case mappings that change length or map a non-ASCII character to an ASCII one (such as the Kelvin sign becoming `k`) are not modelled. Whitespace is modelled in full.
- `Loader.LoadAndPreprocessText`: the generic exception handler also covers failures other than reading the file. The only ones the model has are the two read failures, because nothing after the read can raise on a `str`.
- Counting next tokens per context, turning counts into probabilities, weighted sampling and text generation (`build_bigram_next_token_counts`, `calculate_bigram_next_token_probs`, `sample_next_token`, `generate_text_from_bigram`): the test file imports them, but `shakespeare.py` does not define them. There is no code to model them against, and they would also involve floating point and randomness.
