/**
  Python's `str.split()` called without a separator: the string is cut at runs
  of whitespace, leading and trailing whitespace is dropped and no empty piece
  is produced.
 */
module Splitting {
  import opened Chars

  predicate NoSpace(s: string) {
    forall i :: 0 <= i < |s| ==> !IsSpace(s[i])
  }

  predicate AllSpace(s: string) {
    forall i :: 0 <= i < |s| ==> IsSpace(s[i])
  }

  /** The longest prefix of `s` holding no whitespace. */
  function Word(s: string): (w: string)
    ensures |w| <= |s| && w == s[..|w|]
    ensures NoSpace(w)
    ensures |w| == |s| || IsSpace(s[|w|])
  {
    if s == [] || IsSpace(s[0]) then [] else [s[0]] + Word(s[1..])
  }

  /** `s.split()`. */
  function Split(s: string): (tokens: seq<string>)
    ensures forall k :: 0 <= k < |tokens| ==> tokens[k] != [] && NoSpace(tokens[k])
    ensures forall k, i :: 0 <= k < |tokens| && 0 <= i < |tokens[k]| ==> tokens[k][i] in s
    decreases |s|
  {
    if s == [] then []
    else if IsSpace(s[0]) then Split(s[1..])
    else
      var w := Word(s);
      assert forall i :: 0 <= i < |w| ==> w[i] == s[i];
      [w] + Split(s[|w|..])
  }

  /** The tokens glued back together, with nothing between them. */
  function Concat(tokens: seq<string>): string {
    if tokens == [] then [] else tokens[0] + Concat(tokens[1..])
  }

  /** `s` with every whitespace character deleted. */
  function RemoveSpaces(s: string): (r: string)
    ensures NoSpace(r)
  {
    if s == [] then []
    else (if IsSpace(s[0]) then [] else [s[0]]) + RemoveSpaces(s[1..])
  }

  /** The tokens joined by single spaces: `" ".join(tokens)`. */
  function JoinWithSpaces(tokens: seq<string>): string {
    if tokens == [] then []
    else if |tokens| == 1 then tokens[0]
    else tokens[0] + " " + JoinWithSpaces(tokens[1..])
  }

  lemma JoinCons(tokens: seq<string>)
    requires |tokens| > 1
    ensures JoinWithSpaces(tokens) == tokens[0] + " " + JoinWithSpaces(tokens[1..])
  {
  }

  /** `gaps[0] + tokens[0] + gaps[1] + ... + tokens[n-1] + gaps[n]`. */
  function Interleave(gaps: seq<string>, tokens: seq<string>): string
    requires |gaps| == |tokens| + 1
  {
    if tokens == [] then gaps[0]
    else gaps[0] + tokens[0] + Interleave(gaps[1..], tokens[1..])
  }

  /**
    `s` is laid out as whitespace gaps alternating with tokens: every token is a
    non-empty run without whitespace, every gap is whitespace only, and the gaps
    between two tokens are non-empty, so each token is a maximal run.
   */
  predicate IsLayout(s: string, tokens: seq<string>, gaps: seq<string>) {
    && |gaps| == |tokens| + 1
    && (forall k :: 0 <= k < |tokens| ==> tokens[k] != [] && NoSpace(tokens[k]))
    && (forall k :: 0 <= k < |gaps| ==> AllSpace(gaps[k]))
    && (forall k :: 0 < k < |tokens| ==> gaps[k] != [])
    && s == Interleave(gaps, tokens)
  }

  /** The whitespace runs of `s` around and between its tokens. */
  function Gaps(s: string): (gaps: seq<string>)
    ensures |gaps| == |Split(s)| + 1
    ensures forall k :: 0 <= k < |gaps| ==> AllSpace(gaps[k])
    decreases |s|
  {
    if s == [] then [[]]
    else if IsSpace(s[0]) then
      var g := Gaps(s[1..]);
      [[s[0]] + g[0]] + g[1..]
    else
      [[]] + Gaps(s[|Word(s)|..])
  }

  lemma {:induction false} GapsAfterWord(s: string)
    requires s == [] || IsSpace(s[0])
    ensures |Split(s)| > 0 ==> Gaps(s)[0] != []
  {
  }

  /** A layout stays a layout when one more whitespace character is put in front. */
  lemma {:induction false} LayoutConsSpace(c: char, s: string, tokens: seq<string>, gaps: seq<string>)
    requires IsSpace(c) && IsLayout(s, tokens, gaps)
    ensures IsLayout([c] + s, tokens, [[c] + gaps[0]] + gaps[1..])
  {
    var gaps' := [[c] + gaps[0]] + gaps[1..];
    assert gaps'[1..] == gaps[1..];
    if tokens != [] {
      assert Interleave(gaps', tokens) == ([c] + gaps[0]) + tokens[0] + Interleave(gaps[1..], tokens[1..]);
    }
  }

  /** A layout stays a layout when a new token is put in front of a whitespace gap. */
  lemma {:induction false} LayoutConsWord(w: string, s: string, tokens: seq<string>, gaps: seq<string>)
    requires w != [] && NoSpace(w) && IsLayout(s, tokens, gaps)
    requires tokens != [] ==> gaps[0] != []
    ensures IsLayout(w + s, [w] + tokens, [[]] + gaps)
  {
    assert ([w] + tokens)[1..] == tokens;
    assert ([[]] + gaps)[1..] == gaps;
    assert Interleave([[]] + gaps, [w] + tokens) == [] + w + Interleave(gaps, tokens);
  }

  /** Existence: `Split(s)` and `Gaps(s)` are a layout of `s`. */
  lemma {:induction false} SplitIsLayout(s: string)
    ensures IsLayout(s, Split(s), Gaps(s))
    decreases |s|
  {
    if s == [] {
    } else if IsSpace(s[0]) {
      SplitIsLayout(s[1..]);
      LayoutConsSpace(s[0], s[1..], Split(s[1..]), Gaps(s[1..]));
      assert s == [s[0]] + s[1..];
    } else {
      var w := Word(s);
      var rest := s[|w|..];
      SplitIsLayout(rest);
      GapsAfterWord(rest);
      LayoutConsWord(w, rest, Split(rest), Gaps(rest));
      assert s == w + rest;
    }
  }

  /** Whitespace in front of a string does not change how it splits. */
  lemma {:induction false} SplitSkipsSpace(sp: string, s: string)
    requires AllSpace(sp)
    ensures Split(sp + s) == Split(s)
    decreases |sp|
  {
    if sp != [] {
      assert (sp + s)[1..] == sp[1..] + s;
      SplitSkipsSpace(sp[1..], s);
    } else {
      assert sp + s == s;
    }
  }

  /** A run without whitespace followed by the end or by whitespace is the first token. */
  lemma {:induction false} SplitTakesWord(w: string, s: string)
    requires w != [] && NoSpace(w)
    requires s == [] || IsSpace(s[0])
    ensures Split(w + s) == [w] + Split(s)
  {
    WordOfRun(w, s);
    assert (w + s)[|w|..] == s;
  }

  lemma {:induction false} WordOfRun(w: string, s: string)
    requires NoSpace(w)
    requires s == [] || IsSpace(s[0])
    ensures Word(w + s) == w
    decreases |w|
  {
    if w == [] {
      assert w + s == s;
    } else {
      assert (w + s)[1..] == w[1..] + s;
      WordOfRun(w[1..], s);
    }
  }

  /** Peeling the first gap and token off a layout leaves a layout of the rest, which starts with whitespace or is empty. */
  lemma {:induction false} LayoutTail(s: string, tokens: seq<string>, gaps: seq<string>)
    requires IsLayout(s, tokens, gaps) && tokens != []
    ensures s == gaps[0] + (tokens[0] + Interleave(gaps[1..], tokens[1..]))
    ensures IsLayout(Interleave(gaps[1..], tokens[1..]), tokens[1..], gaps[1..])
    ensures var rest := Interleave(gaps[1..], tokens[1..]); rest == [] || IsSpace(rest[0])
  {
    var rest := Interleave(gaps[1..], tokens[1..]);
    if |tokens| > 1 {
      assert rest == gaps[1] + tokens[1] + Interleave(gaps[2..], tokens[2..]);
      assert gaps[1] != [] && AllSpace(gaps[1]);
      assert rest[0] == gaps[1][0];
    } else {
      assert rest == gaps[1];
    }
  }

  /**
    Uniqueness: whatever layout `s` has, its tokens are `Split(s)`. Together
    with SplitIsLayout this says that `Split(s)` is exactly the list of maximal
    whitespace-free runs of `s`, in order.
   */
  lemma {:induction false} LayoutIsSplit(s: string, tokens: seq<string>, gaps: seq<string>)
    requires IsLayout(s, tokens, gaps)
    ensures Split(s) == tokens
    decreases |tokens|
  {
    if tokens == [] {
      SplitSkipsSpace(gaps[0], []);
      assert gaps[0] + [] == gaps[0];
    } else {
      var rest := Interleave(gaps[1..], tokens[1..]);
      LayoutTail(s, tokens, gaps);
      LayoutIsSplit(rest, tokens[1..], gaps[1..]);
      SplitTakesWord(tokens[0], rest);
      SplitSkipsSpace(gaps[0], tokens[0] + rest);
      assert [tokens[0]] + tokens[1..] == tokens;
    }
  }

  /** Splitting undoes joining with single spaces. */
  lemma {:induction false} SplitJoin(tokens: seq<string>)
    requires forall k :: 0 <= k < |tokens| ==> tokens[k] != [] && NoSpace(tokens[k])
    ensures Split(JoinWithSpaces(tokens)) == tokens
    decreases |tokens|
  {
    if |tokens| == 1 {
      SplitTakesWord(tokens[0], []);
      assert tokens[0] + [] == tokens[0];
    } else if |tokens| > 1 {
      SplitJoin(tokens[1..]);
      assert JoinWithSpaces(tokens) == tokens[0] + (" " + JoinWithSpaces(tokens[1..]));
      SplitTakesWord(tokens[0], " " + JoinWithSpaces(tokens[1..]));
      SplitSkipsSpace(" ", JoinWithSpaces(tokens[1..]));
    }
  }

  /** The tokens, glued together, are the text with its whitespace deleted. */
  lemma {:induction false} ConcatSplit(s: string)
    ensures Concat(Split(s)) == RemoveSpaces(s)
    decreases |s|
  {
    if s == [] {
    } else if IsSpace(s[0]) {
      ConcatSplit(s[1..]);
    } else {
      var w := Word(s);
      ConcatSplit(s[|w|..]);
      RemoveSpacesOfRun(w, s[|w|..]);
      assert s == w + s[|w|..];
      assert ([w] + Split(s[|w|..]))[1..] == Split(s[|w|..]);
    }
  }

  lemma {:induction false} RemoveSpacesOfRun(w: string, s: string)
    requires NoSpace(w)
    ensures RemoveSpaces(w + s) == w + RemoveSpaces(s)
    decreases |w|
  {
    if w == [] {
      assert w + s == s;
    } else {
      assert (w + s)[1..] == w[1..] + s;
      RemoveSpacesOfRun(w[1..], s);
    }
  }
}
