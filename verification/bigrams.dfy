/**
  `create_bigrams` of shakespeare.py: the overlapping pairs of adjacent tokens.
 */
module Bigrams {

  type Bigram = (string, string)

  /**
    `[(tokens[i], tokens[i + 1]) for i in range(len(tokens) - 1)]`; `range` of a
    negative bound is empty, so no token and one token both give no pair.
   */
  function CreateBigrams(tokens: seq<string>): (bigrams: seq<Bigram>)
    ensures |bigrams| == if |tokens| == 0 then 0 else |tokens| - 1
  {
    seq(if |tokens| == 0 then 0 else |tokens| - 1, i requires 0 <= i < |tokens| - 1 => (tokens[i], tokens[i + 1]))
  }

  /** Consecutive pairs share a token: the second of pair `i` is the first of pair `i + 1`. */
  predicate IsChained(bigrams: seq<Bigram>) {
    forall i :: 0 <= i < |bigrams| - 1 ==> bigrams[i].1 == bigrams[i + 1].0
  }

  /** The second components of the pairs, in order. */
  function Seconds(bigrams: seq<Bigram>): (r: seq<string>)
    ensures |r| == |bigrams|
    ensures forall i :: 0 <= i < |bigrams| ==> r[i] == bigrams[i].1
  {
    if bigrams == [] then [] else [bigrams[0].1] + Seconds(bigrams[1..])
  }

  /** The token sequence a chain of pairs walks through: the first token, then every second component. */
  function Unpair(bigrams: seq<Bigram>): seq<string> {
    if bigrams == [] then [] else [bigrams[0].0] + Seconds(bigrams)
  }

  /** The i-th pair is exactly `(tokens[i], tokens[i + 1])`, in input order. */
  lemma BigramAt(tokens: seq<string>, i: nat)
    requires i + 1 < |tokens|
    ensures CreateBigrams(tokens)[i] == (tokens[i], tokens[i + 1])
  {
  }

  /** The pairs always form a chain. */
  lemma BigramsChained(tokens: seq<string>)
    ensures IsChained(CreateBigrams(tokens))
  {
  }

  /** Every token sequence of length two or more is recovered from its pairs. */
  lemma UnpairCreateBigrams(tokens: seq<string>)
    requires |tokens| >= 2
    ensures Unpair(CreateBigrams(tokens)) == tokens
  {
    var b := CreateBigrams(tokens);
    var u := Unpair(b);
    assert u == [b[0].0] + Seconds(b);
    assert forall i :: 0 < i < |u| ==> u[i] == b[i - 1].1 == tokens[i];
  }

  /** Every non-empty chain of pairs is the pairs of some token sequence, namely the one it walks through. */
  lemma CreateBigramsUnpair(bigrams: seq<Bigram>)
    requires bigrams != [] && IsChained(bigrams)
    ensures CreateBigrams(Unpair(bigrams)) == bigrams
  {
    var u := Unpair(bigrams);
    var b := CreateBigrams(u);
    assert u == [bigrams[0].0] + Seconds(bigrams);
    forall i | 0 <= i < |bigrams| ensures b[i] == bigrams[i] {
      if i > 0 {
        assert u[i] == bigrams[i - 1].1 == bigrams[i].0;
      }
    }
  }
}
