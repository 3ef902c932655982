/**
  The sample sentence of the test suite, run through the model.
 */
module SampleText {
  import opened Splitting

  // The sample sentence is the single-space join of its words, shown one suffix at a time.
  // SampleGlue<k> glues word k to the text of the words after it, and SampleSuffix<k>
  // joins words k.. into that text. Each step is a lemma of its own, so every proof
  // obligation compares only a few short literals.

  lemma SampleGlue8()
    ensures "the" + " " + "question" == "the question"
  {
  }

  lemma SampleSuffix8()
    ensures JoinWithSpaces(["the", "question"])
         == "the question"
  {
    JoinCons(["the", "question"]);
    SampleGlue8();
  }

  lemma SampleGlue7()
    ensures "is" + " " + "the question" == "is the question"
  {
  }

  lemma SampleSuffix7()
    ensures JoinWithSpaces(["is", "the", "question"])
         == "is the question"
  {
    SampleSuffix8();
    JoinCons(["is", "the", "question"]);
    SampleGlue7();
  }

  lemma SampleGlue6()
    ensures "that" + " " + "is the question" == "that is the question"
  {
  }

  lemma SampleSuffix6()
    ensures JoinWithSpaces(["that", "is", "the", "question"])
         == "that is the question"
  {
    SampleSuffix7();
    JoinCons(["that", "is", "the", "question"]);
    SampleGlue6();
  }

  lemma SampleGlue5()
    ensures "be" + " " + "that is the question" == "be that is the question"
  {
  }

  lemma SampleSuffix5()
    ensures JoinWithSpaces(["be", "that", "is", "the", "question"])
         == "be that is the question"
  {
    SampleSuffix6();
    JoinCons(["be", "that", "is", "the", "question"]);
    SampleGlue5();
  }

  lemma SampleGlue4()
    ensures "to" + " " + "be that is the question" == "to be that is the question"
  {
  }

  lemma SampleSuffix4()
    ensures JoinWithSpaces(["to", "be", "that", "is", "the", "question"])
         == "to be that is the question"
  {
    SampleSuffix5();
    JoinCons(["to", "be", "that", "is", "the", "question"]);
    SampleGlue4();
  }

  lemma SampleGlue3()
    ensures "not" + " " + "to be that is the question" == "not to be that is the question"
  {
  }

  lemma SampleSuffix3()
    ensures JoinWithSpaces(["not", "to", "be", "that", "is", "the", "question"])
         == "not to be that is the question"
  {
    SampleSuffix4();
    JoinCons(["not", "to", "be", "that", "is", "the", "question"]);
    SampleGlue3();
  }

  lemma SampleGlue2()
    ensures "or" + " " + "not to be that is the question" == "or not to be that is the question"
  {
  }

  lemma SampleSuffix2()
    ensures JoinWithSpaces(["or", "not", "to", "be", "that", "is", "the", "question"])
         == "or not to be that is the question"
  {
    SampleSuffix3();
    JoinCons(["or", "not", "to", "be", "that", "is", "the", "question"]);
    SampleGlue2();
  }

  lemma SampleGlue1()
    ensures "be" + " " + "or not to be that is the question" == "be or not to be that is the question"
  {
  }

  lemma SampleSuffix1()
    ensures JoinWithSpaces(["be", "or", "not", "to", "be", "that", "is", "the", "question"])
         == "be or not to be that is the question"
  {
    SampleSuffix2();
    JoinCons(["be", "or", "not", "to", "be", "that", "is", "the", "question"]);
    SampleGlue1();
  }

  lemma SampleGlue0()
    ensures "to" + " " + "be or not to be that is the question" == "to be or not to be that is the question"
  {
  }

  lemma SampleSuffix0()
    ensures JoinWithSpaces(["to", "be", "or", "not", "to", "be", "that", "is", "the", "question"])
         == "to be or not to be that is the question"
  {
    SampleSuffix1();
    JoinCons(["to", "be", "or", "not", "to", "be", "that", "is", "the", "question"]);
    SampleGlue0();
  }
}

module Samples {
  import SampleText
  import opened Chars
  import opened Splitting
  import opened Tokenizer
  import opened Bigrams

  lemma SampleWordsWellFormed(words: seq<string>)
    requires words == ["to", "be", "or", "not", "to", "be", "that", "is", "the", "question"]
    ensures forall k :: 0 <= k < |words| ==> words[k] != []
    ensures forall k, i :: 0 <= k < |words| && 0 <= i < |words[k]| ==> IsTokenChar(words[k][i])
  {
  }

  /** "to be or not to be that is the question" is tokenized into its ten words. */
  lemma SampleSentence()
    ensures PreprocessText("to be or not to be that is the question")
         == ["to", "be", "or", "not", "to", "be", "that", "is", "the", "question"]
  {
    SampleText.SampleSuffix0();
    SampleWordsWellFormed(["to", "be", "or", "not", "to", "be", "that", "is", "the", "question"]);
    PreprocessJoined(["to", "be", "or", "not", "to", "be", "that", "is", "the", "question"]);
  }

  /** The ten sample tokens give the nine expected pairs. */
  lemma SampleBigrams()
    ensures CreateBigrams(["to", "be", "or", "not", "to", "be", "that", "is", "the", "question"])
         == [("to", "be"), ("be", "or"), ("or", "not"), ("not", "to"),
             ("to", "be"), ("be", "that"), ("that", "is"), ("is", "the"), ("the", "question")]
  {
  }
}
