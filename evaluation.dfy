/**
 * What test reports for a tagged corpus: the predictions, the number of
 * predicted tokens equal to the gold tokens, the token accuracy; and the
 * choice tune makes between the two smoothing techniques it tries.
 */
module Evaluation {
  import opened Tokens
  import opened FreqTables
  import opened ProbTables
  import opened Smoothing
  import opened ArgMax
  import opened Viterbi
  import opened Decoder
  import opened Reals

  /** The distinct words of a corpus: the keys of testWordsFreq. */
  function CorpusWords(corpus: Corpus): set<string> {
    set i, k | 0 <= i < |corpus| && 0 <= k < |corpus[i]| :: corpus[i][k]
  }

  /**
   * The first loop of test's Witten-Bell case: counts every word of the
   * untagged corpus, so its keys are exactly the words the corpus holds.
   */
  method CountTestWords(corpus: Corpus) returns (testWordsFreq: map<string, nat>)
    ensures testWordsFreq.Keys == CorpusWords(corpus)
    ensures Positive(testWordsFreq)
  {
    testWordsFreq := map[];
    for i := 0 to |corpus|
      invariant testWordsFreq.Keys == CorpusWords(corpus[..i])
      invariant Positive(testWordsFreq)
    {
      var sentence := corpus[i];
      for k := 0 to |sentence|
        invariant testWordsFreq.Keys == CorpusWords(corpus[..i]) + set j | 0 <= j < k :: sentence[j]
        invariant Positive(testWordsFreq)
      {
        IncSpec(testWordsFreq, sentence[k]);
        PositiveInc(testWordsFreq, sentence[k]);
        testWordsFreq := Inc(testWordsFreq, sentence[k]);
      }
      CorpusWordsSnoc(corpus, i);
    }
    assert corpus[..|corpus|] == corpus;
  }

  /** Adding sentence i to the prefix before it adds exactly its words. */
  lemma CorpusWordsSnoc(corpus: Corpus, i: nat)
    requires i < |corpus|
    ensures CorpusWords(corpus[..i + 1]) ==
      CorpusWords(corpus[..i]) + set j | 0 <= j < |corpus[i]| :: corpus[i][j]
  {
    var prefix := corpus[..i + 1];
    forall w | w in CorpusWords(prefix)
      ensures w in CorpusWords(corpus[..i]) + set j | 0 <= j < |corpus[i]| :: corpus[i][j]
    {
      var a, k :| 0 <= a < |prefix| && 0 <= k < |prefix[a]| && prefix[a][k] == w;
      if a < i {
        assert corpus[..i][a][k] == w;
      }
    }
    forall w | w in CorpusWords(corpus[..i])
      ensures w in CorpusWords(prefix)
    {
      var a, k :| 0 <= a < i && 0 <= k < |corpus[..i][a]| && corpus[..i][a][k] == w;
      assert prefix[a][k] == w;
    }
    forall j | 0 <= j < |corpus[i]|
      ensures corpus[i][j] in CorpusWords(prefix)
    {
      assert prefix[i][j] == corpus[i][j];
    }
  }

  /** The test corpus with its tags removed when it is tagged, as it is otherwise. */
  function Untagged(testCorpus: Corpus, isTagged: bool): Corpus
    requires isTagged ==> TaggedCorpus(testCorpus)
  {
    if isTagged then StripCorpus(testCorpus) else testCorpus
  }

  /** The smoother test builds for a technique and the untagged test corpus. */
  function TestSmoother(technique: Technique, c: Counts, untagged: Corpus): Smoother {
    SmootherFor(technique, c, CorpusWords(untagged))
  }

  /** The predictions test stores in results: one decoded sentence per sentence. */
  function Predictions(tb: Tables, sm: Smoother, corpus: Corpus): (r: seq<seq<string>>)
    requires Decodable(tb)
    ensures |r| == |corpus|
    ensures forall i :: 0 <= i < |corpus| ==> |r[i]| == |corpus[i]|
  {
    seq(|corpus|, i requires 0 <= i < |corpus| => Decode(tb, sm, corpus[i]))
  }

  /** How many of the first n predicted tokens equal the gold tokens. */
  function Matches(prediction: seq<string>, gold: seq<string>, n: nat): (r: nat)
    requires n <= |prediction| && n <= |gold|
    ensures r <= n
  {
    if n == 0 then 0
    else Matches(prediction, gold, n - 1) + (if prediction[n - 1] == gold[n - 1] then 1 else 0)
  }

  /** All n tokens are counted correct exactly when each of them matches. */
  lemma {:induction false} MatchesAll(prediction: seq<string>, gold: seq<string>, n: nat)
    requires n <= |prediction| && n <= |gold|
    ensures Matches(prediction, gold, n) == n <==> forall k :: 0 <= k < n ==> prediction[k] == gold[k]
  {
    if n > 0 {
      var m: nat := n - 1;
      MatchesAll(prediction, gold, m);
      assert Matches(prediction, gold, m + 1) ==
        Matches(prediction, gold, m) + (if prediction[m] == gold[m] then 1 else 0);
    }
  }

  /** One prediction per gold sentence, each as long as its sentence. */
  predicate Aligned(predictions: seq<seq<string>>, gold: Corpus) {
    |predictions| == |gold| && forall i :: 0 <= i < |gold| ==> |predictions[i]| == |gold[i]|
  }

  /** The correct count of test over a whole corpus, sentence after sentence. */
  function CorpusMatches(predictions: seq<seq<string>>, gold: Corpus): (r: nat)
    requires Aligned(predictions, gold)
    ensures r <= TokenCount(gold)
  {
    if gold == [] then 0
    else
      var m := |gold| - 1;
      CorpusMatches(predictions[..m], gold[..m]) + Matches(predictions[m], gold[m], |gold[m]|)
  }

  /** correct / total. */
  function Accuracy(correct: nat, total: nat): real
    requires total > 0
  {
    correct as real / total as real
  }

  /** An accuracy lies in [0, 1] when correct <= total, and is 1 exactly when every token is correct. */
  lemma AccuracyBounds(correct: nat, total: nat)
    requires 0 < total && correct <= total
    ensures 0.0 <= Accuracy(correct, total) <= 1.0
    ensures Accuracy(correct, total) == 1.0 <==> correct == total
  {
    var t := total as real;
    DivideMonotone(0.0, correct as real, t);
    DivideMonotone(correct as real, t, t);
    DivideSelf(t);
    if Accuracy(correct, total) == 1.0 {
      DivideExact(correct as real, t);
    }
  }


  /**
   * The accuracy test returns for a tagged corpus: the decoder's predictions
   * on the stripped corpus compared token by token with the gold tokens.
   */
  function TestAccuracy(tb: Tables, technique: Technique, corpus: Corpus): real
    requires Decodable(tb) && TaggedCorpus(corpus) && TokenCount(corpus) > 0
  {
    var untagged := StripCorpus(corpus);
    var sm := TestSmoother(technique, tb.counts, untagged);
    StripRoundTrip(corpus);
    Accuracy(CorpusMatches(Predictions(tb, sm, untagged), corpus), TokenCount(corpus))
  }

  /** A test accuracy lies in [0, 1]. */
  lemma TestAccuracyBounds(tb: Tables, technique: Technique, corpus: Corpus)
    requires Decodable(tb) && TaggedCorpus(corpus) && TokenCount(corpus) > 0
    ensures 0.0 <= TestAccuracy(tb, technique, corpus) <= 1.0
  {
    var untagged := StripCorpus(corpus);
    StripRoundTrip(corpus);
    var preds := Predictions(tb, TestSmoother(technique, tb.counts, untagged), untagged);
    AccuracyBounds(CorpusMatches(preds, corpus), TokenCount(corpus));
  }

  /**
   * A decoded token is counted correct exactly when its tag is the gold tag:
   * the words agree by construction and tags hold no separator.
   */
  lemma CorrectIffTagMatches(tb: Tables, sm: Smoother, corpus: Corpus, i: nat, k: nat)
    requires Decodable(tb) && TaggedCorpus(corpus) && i < |corpus| && k < |corpus[i]|
    requires forall t :: t in tb.uniqueTags ==> Separator !in t
    ensures var s := StripCorpus(corpus)[i];
      k < |s| &&
      (Decode(tb, sm, s)[k] == corpus[i][k] <==> tb.uniqueTags[State(tb, sm, s, k)] == TagOf(corpus[i][k]))
  {
    var s := StripCorpus(corpus)[i];
    var token := corpus[i][k];
    StripRoundTrip(corpus);
    var tag := tb.uniqueTags[State(tb, sm, s, k)];
    assert Decode(tb, sm, s)[k] == Join(WordOf(token), tag);
    assert token == Join(WordOf(token), TagOf(token));
    JoinInjective(WordOf(token), tag, WordOf(token), TagOf(token));
  }

  /** The techniques tune tries, in order. */
  const Techniques: seq<Technique> := [Laplace, WittenBell]

  /** The index tune settles on: the last of the maximal accuracies. */
  function TuneIndex(accuracies: seq<real>): (r: nat)
    requires |accuracies| == |Techniques|
    ensures r < |Techniques|
  {
    ScanArgMax(accuracies, NoMask(|Techniques|), |Techniques|).1
  }

  /**
   * With non-negative accuracies, tune picks a technique of maximal accuracy,
   * and Witten-Bell exactly when it does at least as well as Laplace.
   */
  lemma TuneIndexSpec(accuracies: seq<real>)
    requires |accuracies| == |Techniques|
    requires forall j :: 0 <= j < |accuracies| ==> accuracies[j] >= 0.0
    ensures forall j :: 0 <= j < |accuracies| ==> accuracies[j] <= accuracies[TuneIndex(accuracies)]
    ensures Techniques[TuneIndex(accuracies)] == WittenBell <==> accuracies[1] >= accuracies[0]
  {
    var n := |Techniques|;
    ScanArgMaxSpec(accuracies, NoMask(n), n);
    assert SomeUnmasked(NoMask(n), n) by {
      assert !NoMask(n)[0];
    }
  }

  /** The accuracies test reports for each technique tune tries. */
  function TuneAccuracies(tb: Tables, corpus: Corpus): (r: seq<real>)
    requires Decodable(tb) && TaggedCorpus(corpus) && TokenCount(corpus) > 0
    ensures |r| == |Techniques|
  {
    seq(|Techniques|, j requires 0 <= j < |Techniques| => TestAccuracy(tb, Techniques[j], corpus))
  }

  /** Entry j of the accuracies is the test accuracy of technique j. */
  lemma TuneAccuraciesAt(tb: Tables, corpus: Corpus, j: nat)
    requires Decodable(tb) && TaggedCorpus(corpus) && TokenCount(corpus) > 0 && j < |Techniques|
    ensures TuneAccuracies(tb, corpus)[j] == TestAccuracy(tb, Techniques[j], corpus)
  {
  }

  /** The technique tune leaves in smoothingMode. */
  function TunedTechnique(tb: Tables, corpus: Corpus): Technique
    requires Decodable(tb) && TaggedCorpus(corpus) && TokenCount(corpus) > 0
  {
    Techniques[TuneIndex(TuneAccuracies(tb, corpus))]
  }

  /**
   * What tune holds after testing the first j techniques: the best accuracy
   * and the technique of the scan over their accuracies (no technique yet
   * when j is 0).
   */
  ghost predicate TuneProgress(tb: Tables, corpus: Corpus, j: nat, best: real, mode: Technique) {
    && Decodable(tb) && TaggedCorpus(corpus) && TokenCount(corpus) > 0 && j <= |Techniques|
    && var scan := ScanArgMax(TuneAccuracies(tb, corpus), NoMask(|Techniques|), j);
       && best == scan.0
       && (j > 0 ==> mode == Techniques[scan.1])
  }

  /** Before any test, the best accuracy is 0. */
  lemma TuneProgressStart(tb: Tables, corpus: Corpus, mode: Technique)
    requires Decodable(tb) && TaggedCorpus(corpus) && TokenCount(corpus) > 0
    ensures TuneProgress(tb, corpus, 0, 0.0, mode)
  {
  }

  /**
   * Testing technique j and taking it when its accuracy reaches the best so
   * far is one more step of the scan.
   */
  lemma TuneProgressStep(tb: Tables, corpus: Corpus, j: nat, best: real, mode: Technique,
                         accuracy: real, newBest: real, newMode: Technique)
    requires TuneProgress(tb, corpus, j, best, mode) && j < |Techniques|
    requires accuracy == TestAccuracy(tb, Techniques[j], corpus)
    requires accuracy >= best ==> newBest == accuracy && newMode == Techniques[j]
    requires accuracy < best ==> newBest == best && newMode == mode
    ensures TuneProgress(tb, corpus, j + 1, newBest, newMode)
  {
    TuneAccuraciesAt(tb, corpus, j);
    TestAccuracyBounds(tb, Techniques[j], corpus);
    ScanArgMaxStep(TuneAccuracies(tb, corpus), NoMask(|Techniques|), j);
  }

  /** After every technique, the technique held is the tuned one. */
  lemma TuneProgressDone(tb: Tables, corpus: Corpus, best: real, mode: Technique)
    requires TuneProgress(tb, corpus, |Techniques|, best, mode)
    ensures mode == TunedTechnique(tb, corpus)
  {
  }

  /**
   * The tuned technique scores at least as well as every technique tried,
   * and it is Witten-Bell exactly when that ties or beats Laplace.
   */
  lemma TunedTechniqueBest(tb: Tables, corpus: Corpus)
    requires Decodable(tb) && TaggedCorpus(corpus) && TokenCount(corpus) > 0
    ensures forall j :: 0 <= j < |Techniques| ==>
      TestAccuracy(tb, Techniques[j], corpus) <= TestAccuracy(tb, TunedTechnique(tb, corpus), corpus)
    ensures TunedTechnique(tb, corpus) == WittenBell <==>
      TestAccuracy(tb, WittenBell, corpus) >= TestAccuracy(tb, Laplace, corpus)
  {
    var accs := TuneAccuracies(tb, corpus);
    forall j | 0 <= j < |accs| ensures accs[j] >= 0.0 {
      TestAccuracyBounds(tb, Techniques[j], corpus);
    }
    TuneIndexSpec(accs);
  }

  /**
   * A model trained on a corpus with at least one token can decode: it lists
   * a tag (every sentence contributes `<s>`), and its tables hold only
   * positive ratios.
   */
  lemma TrainedDecodable(corpus: Corpus)
    requires TaggedCorpus(corpus) && TokenCount(corpus) > 0
    ensures Decodable(Trained(corpus))
  {
    var tb := Trained(corpus);
    IndexSums(corpus);
    assert tb.counts.tagFreq != map[];
    var t :| t in tb.counts.tagFreq;
    TrainedLists(corpus);
    assert t in tb.uniqueTags;
    forall k | k in tb.transitionProb ensures tb.transitionProb[k] >= 0.0 {
      TrainedTransition(corpus, k.0, k.1);
    }
    forall k | k in tb.emissionProb ensures tb.emissionProb[k] >= 0.0 {
      TrainedEmission(corpus, k.0, k.1);
    }
  }

  /**
   * For a trained model, the smoother test builds from the words of the
   * corpus it decodes is defined wherever the decoder consults it.
   */
  lemma TrainedSmootherCovers(training: Corpus, technique: Technique, untagged: Corpus, i: nat)
    requires TaggedCorpus(training) && i < |untagged|
    ensures SmootherCovers(Trained(training), TestSmoother(technique, Trained(training).counts, untagged), untagged[i])
  {
    var tb := Trained(training);
    var s := untagged[i];
    IndexAgrees(training);
    TrainedLists(training);
    forall k | 0 <= k < |s| ensures SmoothableWord(tb, TestSmoother(technique, tb.counts, untagged), s[k]) {
      if CountWord(tb.counts, s[k]) == 0 {
        assert s[k] in CorpusWords(untagged) by {
          assert untagged[i][k] == s[k];
        }
        forall t | t in tb.uniqueTags ensures Smoothable(TestSmoother(technique, tb.counts, untagged), tb.counts, t) {
          SmootherForApplies(technique, tb.counts, CorpusWords(untagged), s[k], t);
        }
      }
    }
  }
}
