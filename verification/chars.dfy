/**
  Character classes used by the tokenizer of shakespeare.py.

  Python's `str.lower()`, the regular-expression class `\w` and the class `\s`
  (which, for `str` patterns, is the same set that `str.split()` splits on)
  are Unicode-aware. This module instantiates them as follows:
  - whitespace is exactly Python's whitespace set (all of it is listed below);
  - word characters are the ASCII letters, the ASCII digits and `_`;
  - lowercasing maps `A`..`Z` to `a`..`z` and leaves every other character alone.
 */
module Chars {

  predicate IsAsciiUpper(c: char) {
    'A' <= c <= 'Z'
  }

  predicate IsAsciiLower(c: char) {
    'a' <= c <= 'z'
  }

  predicate IsAsciiDigit(c: char) {
    '0' <= c <= '9'
  }

  /** The `\w` class: letters, digits and the underscore (ASCII instantiation). */
  predicate IsWordChar(c: char) {
    IsAsciiUpper(c) || IsAsciiLower(c) || IsAsciiDigit(c) || c == '_'
  }

  /** Python's whitespace: the characters for which `str.isspace()` holds. */
  predicate IsSpace(c: char) {
    || '\t' <= c <= '\r'                  // tab, line feed, vertical tab, form feed, carriage return
    || '\U{1C}' <= c <= '\U{1F}'          // file, group, record and unit separators
    || c == ' '
    || c == '\U{85}'                      // next line
    || c == '\U{A0}'                      // no-break space
    || c == '\U{1680}'                    // ogham space mark
    || '\U{2000}' <= c <= '\U{200A}'      // en quad .. hair space
    || c == '\U{2028}' || c == '\U{2029}' // line and paragraph separators
    || c == '\U{202F}' || c == '\U{205F}' || c == '\U{3000}'
  }

  /** `str.lower()` on one character (ASCII instantiation). */
  function ToLower(c: char): (r: char)
    ensures !IsAsciiUpper(r)
    ensures IsAsciiUpper(c) ==> IsAsciiLower(r) && r as int - c as int == 'a' as int - 'A' as int
    ensures !IsAsciiUpper(c) ==> r == c
  {
    if IsAsciiUpper(c) then (c as int - 'A' as int + 'a' as int) as char else c
  }

  /** The characters the punctuation filter keeps: `[\w\s']`. */
  predicate IsKept(c: char) {
    IsWordChar(c) || IsSpace(c) || c == '\''
  }

  /** The characters a token may consist of: a lowercase word character or an apostrophe. */
  predicate IsTokenChar(c: char) {
    (IsWordChar(c) && !IsAsciiUpper(c)) || c == '\''
  }
}
