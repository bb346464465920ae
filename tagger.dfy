/**
 * The Model object: the frequency tables, probability tables and key lists
 * that train fills in place, and the entry points test, tune, crossValidate
 * and tag that decode with them.
 */
module Tagger {
  import opened Tokens
  import opened Ordering
  import opened FreqTables
  import opened ProbTables
  import opened Smoothing
  import opened ArgMax
  import opened Viterbi
  import opened Decoder
  import opened Evaluation
  import opened Folds

  // ---------------------------------------------------------------------
  // Progress of buildTransitionMatrix: rows run over the current tag,
  // columns over the previous tag.
  // ---------------------------------------------------------------------

  /** (p, t) was visited once `row` rows, and `col` columns of the next row, are done. */
  predicate TransitionVisited(tags: seq<string>, row: nat, col: nat, p: string, t: string)
    requires row <= |tags| && col <= |tags|
  {
    t in tags[..row] || (row < |tags| && t == tags[row] && p in tags[..col])
  }

  /** The transition table restricted to the visited pairs. */
  function TransitionPart(c: Counts, tags: seq<string>, row: nat, col: nat): map<(string, string), real>
    requires CountedTags(c, tags) && row <= |tags| && col <= |tags|
  {
    map k | k in c.prevCurrTagFreq && k.0 in tags && k.1 in tags && TransitionVisited(tags, row, col, k.0, k.1)
      && Ratio(CountPrevCurrTag(c, k.0, k.1), CountTag(c, k.0)) > 0.0
      :: Ratio(CountPrevCurrTag(c, k.0, k.1), CountTag(c, k.0))
  }

  lemma TransitionPartStart(c: Counts, tags: seq<string>)
    requires CountedTags(c, tags)
    ensures TransitionPart(c, tags, 0, 0) == map[]
  {
    assert forall k :: k !in TransitionPart(c, tags, 0, 0);
  }

  /** Visiting (tags[col], tags[row]) stores its ratio exactly when it is positive. */
  lemma TransitionPartStep(c: Counts, tags: seq<string>, row: nat, col: nat)
    requires CountedTags(c, tags) && row < |tags| && col < |tags|
    ensures var p := tags[col];
      var t := tags[row];
      var r := Ratio(CountPrevCurrTag(c, p, t), CountTag(c, p));
      TransitionPart(c, tags, row, col + 1) ==
        if r > 0.0 then TransitionPart(c, tags, row, col)[(p, t) := r] else TransitionPart(c, tags, row, col)
  {
    var p := tags[col];
    var t := tags[row];
    RatioBounds(CountPrevCurrTag(c, p, t), CountTag(c, p));
    assert tags[..col + 1] == tags[..col] + [p];
  }

  /** A finished row is the start of the next one. */
  lemma TransitionPartRow(c: Counts, tags: seq<string>, row: nat)
    requires CountedTags(c, tags) && row < |tags|
    ensures TransitionPart(c, tags, row, |tags|) == TransitionPart(c, tags, row + 1, 0)
  {
    assert tags[..row + 1] == tags[..row] + [tags[row]];
    assert tags[..|tags|] == tags;
  }

  /** With every row done, the part is the whole table. */
  lemma TransitionPartDone(c: Counts, tags: seq<string>)
    requires CountedTags(c, tags)
    ensures TransitionPart(c, tags, |tags|, 0) == TransitionTable(c, tags)
  {
    assert tags[..|tags|] == tags;
  }

  // ---------------------------------------------------------------------
  // Progress of buildEmissionMatrix: rows run over the words, columns over
  // the tags.
  // ---------------------------------------------------------------------

  /** (w, t) was visited once `row` rows, and `col` columns of the next row, are done. */
  predicate EmissionVisited(words: seq<string>, tags: seq<string>, row: nat, col: nat, w: string, t: string)
    requires row <= |words| && col <= |tags|
  {
    w in words[..row] || (row < |words| && w == words[row] && t in tags[..col])
  }

  /** The emission table restricted to the visited pairs. */
  function EmissionPart(c: Counts, words: seq<string>, tags: seq<string>, row: nat, col: nat): map<(string, string), real>
    requires CountedTags(c, tags) && row <= |words| && col <= |tags|
  {
    map k | k in c.wordTagFreq && k.0 in words && k.1 in tags && EmissionVisited(words, tags, row, col, k.0, k.1)
      && Ratio(CountWordTag(c, k.0, k.1), CountTag(c, k.1)) > 0.0
      :: Ratio(CountWordTag(c, k.0, k.1), CountTag(c, k.1))
  }

  lemma EmissionPartStart(c: Counts, words: seq<string>, tags: seq<string>)
    requires CountedTags(c, tags)
    ensures EmissionPart(c, words, tags, 0, 0) == map[]
  {
    assert forall k :: k !in EmissionPart(c, words, tags, 0, 0);
  }

  /** Visiting (words[row], tags[col]) stores its ratio exactly when it is positive. */
  lemma EmissionPartStep(c: Counts, words: seq<string>, tags: seq<string>, row: nat, col: nat)
    requires CountedTags(c, tags) && row < |words| && col < |tags|
    ensures var w := words[row];
      var t := tags[col];
      var r := Ratio(CountWordTag(c, w, t), CountTag(c, t));
      EmissionPart(c, words, tags, row, col + 1) ==
        if r > 0.0 then EmissionPart(c, words, tags, row, col)[(w, t) := r] else EmissionPart(c, words, tags, row, col)
  {
    var w := words[row];
    var t := tags[col];
    RatioBounds(CountWordTag(c, w, t), CountTag(c, t));
    assert tags[..col + 1] == tags[..col] + [t];
  }

  lemma EmissionPartRow(c: Counts, words: seq<string>, tags: seq<string>, row: nat)
    requires CountedTags(c, tags) && row < |words|
    ensures EmissionPart(c, words, tags, row, |tags|) == EmissionPart(c, words, tags, row + 1, 0)
  {
    assert words[..row + 1] == words[..row] + [words[row]];
    assert tags[..|tags|] == tags;
  }

  lemma EmissionPartDone(c: Counts, words: seq<string>, tags: seq<string>)
    requires CountedTags(c, tags)
    ensures EmissionPart(c, words, tags, |words|, 0) == EmissionTable(c, words, tags)
  {
    assert words[..|words|] == words;
  }

  // ---------------------------------------------------------------------
  // Progress of the scoring loop of test.
  // ---------------------------------------------------------------------

  /** Every sentence can be handed to the decoder: it is not empty and the smoother covers its words. */
  ghost predicate DecodableCorpus(tb: Tables, smoother: Smoother, corpus: Corpus) {
    forall i :: 0 <= i < |corpus| ==> |corpus[i]| > 0 && SmootherCovers(tb, smoother, corpus[i])
  }

  /** After i sentences: the predictions line up with the first i gold sentences and are scored against them. */
  ghost predicate Scored(predictions: seq<seq<string>>, gold: Corpus, i: nat, correct: nat, total: nat) {
    && i <= |gold| && Aligned(predictions, gold[..i])
    && correct == CorpusMatches(predictions, gold[..i]) && total == TokenCount(gold[..i])
  }

  /** Scoring one more sentence adds its matches to the correct count and its length to the total. */
  lemma ScoredStep(predictions: seq<seq<string>>, gold: Corpus, i: nat, correct: nat, total: nat,
                   prediction: seq<string>, sentenceCorrect: nat, sentenceTotal: nat)
    requires Scored(predictions, gold, i, correct, total) && i < |gold| && |prediction| == |gold[i]|
    requires sentenceCorrect == Evaluation.Matches(prediction, gold[i], |gold[i]|) && sentenceTotal == |gold[i]|
    ensures Scored(predictions + [prediction], gold, i + 1, correct + sentenceCorrect, total + sentenceTotal)
  {
    assert (predictions + [prediction])[..i] == predictions;
    assert gold[..i + 1][..i] == gold[..i];
  }

  /** The predictions for one more sentence extend those for the sentences before it. */
  lemma PredictionsStep(tb: Tables, smoother: Smoother, corpus: Corpus, i: nat)
    requires Decodable(tb) && i < |corpus|
    ensures Predictions(tb, smoother, corpus[..i + 1]) ==
      Predictions(tb, smoother, corpus[..i]) + [Decode(tb, smoother, corpus[i])]
  {
    assert corpus[..i + 1][i] == corpus[i];
  }

  /**
   * The loop of test: decode every sentence and, for a tagged corpus,
   * count the predicted tokens equal to the gold tokens and all tokens.
   */
  method TestLoop(tb: Tables, smoother: Smoother, untagged: Corpus, gold: Corpus, isTagged: bool)
    returns (predictions: seq<seq<string>>, correct: nat, total: nat)
    requires Decodable(tb) && DecodableCorpus(tb, smoother, untagged)
    requires isTagged ==> Aligned(untagged, gold)
    ensures predictions == Predictions(tb, smoother, untagged)
    ensures isTagged ==> Scored(predictions, gold, |gold|, correct, total)
  {
    predictions, correct, total := [], 0, 0;
    for sentenceIndex := 0 to |untagged|
      invariant predictions == Predictions(tb, smoother, untagged[..sentenceIndex])
      invariant isTagged ==> Scored(predictions, gold, sentenceIndex, correct, total)
    {
      var prediction := DecodeSentence(tb, smoother, untagged[sentenceIndex]);
      if isTagged {
        var sentenceCorrect, sentenceTotal := ScoreSentence(prediction, gold[sentenceIndex]);
        ScoredStep(predictions, gold, sentenceIndex, correct, total, prediction, sentenceCorrect, sentenceTotal);
        correct, total := correct + sentenceCorrect, total + sentenceTotal;
      }
      PredictionsStep(tb, smoother, untagged, sentenceIndex);
      predictions := predictions + [prediction];
    }
    assert untagged[..|untagged|] == untagged;
  }

  /** The scoring loop of test for one sentence: matching tokens, and tokens. */
  method ScoreSentence(prediction: seq<string>, taggedSentence: Sentence) returns (correct: nat, total: nat)
    requires |prediction| == |taggedSentence|
    ensures correct == Evaluation.Matches(prediction, taggedSentence, |taggedSentence|)
    ensures total == |taggedSentence|
  {
    correct, total := 0, 0;
    for predictionIndex := 0 to |prediction|
      invariant correct == Evaluation.Matches(prediction, taggedSentence, predictionIndex)
      invariant total == predictionIndex
    {
      if prediction[predictionIndex] == taggedSentence[predictionIndex] {
        correct := correct + 1;
      }
      total := total + 1;
    }
  }

  /**
   * A model trained on a tagged corpus can decode the (stripped) test
   * corpus with the smoother built from it, and a stripped corpus lines up
   * with its gold corpus.
   */
  lemma TestCovered(training: Corpus, technique: Technique, testCorpus: Corpus, isTagged: bool)
    requires TaggedCorpus(training) && NoEmptySentence(testCorpus)
    requires isTagged ==> TaggedCorpus(testCorpus)
    ensures var untagged := Untagged(testCorpus, isTagged);
      && DecodableCorpus(Trained(training), TestSmoother(technique, Trained(training).counts, untagged), untagged)
      && (isTagged ==> Aligned(untagged, testCorpus))
  {
    var untagged := Untagged(testCorpus, isTagged);
    if isTagged {
      StripRoundTrip(testCorpus);
    }
    forall i | 0 <= i < |untagged|
      ensures |untagged[i]| > 0
      ensures SmootherCovers(Trained(training), TestSmoother(technique, Trained(training).counts, untagged), untagged[i])
    {
      TrainedSmootherCovers(training, technique, untagged, i);
    }
  }

  /** Scores counted over a whole tagged corpus give its test accuracy. */
  lemma ScoredAccuracy(tb: Tables, technique: Technique, corpus: Corpus,
                       predictions: seq<seq<string>>, correct: nat, total: nat)
    requires Decodable(tb) && TaggedCorpus(corpus) && TokenCount(corpus) > 0
    requires predictions ==
      Predictions(tb, TestSmoother(technique, tb.counts, StripCorpus(corpus)), StripCorpus(corpus))
    requires Scored(predictions, corpus, |corpus|, correct, total)
    ensures total > 0 && TestAccuracy(tb, technique, corpus) == correct as real / total as real
  {
    assert corpus[..|corpus|] == corpus;
  }

  /**
   * The first half of a round of crossValidate's loop: cut the fold at
   * `start` and train the model on everything before and after it.
   */
  method TrainFold(cvModel: Model, corpus: Corpus, intervalSize: nat, start: nat) returns (end: nat)
    requires TaggedCorpus(corpus) && NoEmptySentence(corpus)
    requires 1 <= intervalSize < |corpus| && start < |corpus|
    modifies cvModel
    ensures start < end <= |corpus| && end == FoldEnd(|corpus|, start, intervalSize)
    ensures cvModel.Ready() && cvModel.trainedOn == FoldTraining(corpus, start, end)
  {
    end := start + intervalSize;
    end := if end <= |corpus| then end else |corpus|;
    var trainingCorpus := corpus[..start];
    if end < |corpus| {
      trainingCorpus := trainingCorpus + corpus[end..];
    } else {
      assert corpus[end..] == [];
    }
    assert end == FoldEnd(|corpus|, start, intervalSize);
    assert trainingCorpus == FoldTraining(corpus, start, end);
    FoldWellFormed(corpus, intervalSize, start);
    TrainedDecodable(trainingCorpus);
    cvModel.Train(trainingCorpus);
  }

  /**
   * The second half of a round of crossValidate's loop: test the model
   * trained on everything but the fold on the fold itself.
   */
  method TestFold(cvModel: Model, corpus: Corpus, intervalSize: nat, start: nat, end: nat, technique: Technique)
    returns (accuracy: real)
    requires TaggedCorpus(corpus) && NoEmptySentence(corpus)
    requires 1 <= intervalSize < |corpus| && start < |corpus|
    requires start < end <= |corpus| && end == FoldEnd(|corpus|, start, intervalSize)
    requires cvModel.Ready() && cvModel.trainedOn == FoldTraining(corpus, start, end)
    modifies cvModel`results
    ensures FoldSum(corpus, intervalSize, start, technique) ==
      accuracy + FoldSum(corpus, intervalSize, end, technique)
    ensures accuracy == FoldAccuracy(corpus, intervalSize, start, technique)
  {
    FoldReady(corpus, intervalSize, start, technique);
    accuracy := cvModel.Test(corpus[start..end], technique, true);
  }

  /**
   * One round of crossValidate's loop: train the model on everything but
   * the fold at `start`, and test it on the fold.
   */
  method ValidateFold(cvModel: Model, corpus: Corpus, intervalSize: nat, start: nat, technique: Technique)
    returns (end: nat, accuracy: real)
    requires TaggedCorpus(corpus) && NoEmptySentence(corpus)
    requires 1 <= intervalSize < |corpus| && start < |corpus|
    modifies cvModel
    ensures start < end <= |corpus| && end == FoldEnd(|corpus|, start, intervalSize)
    ensures FoldSum(corpus, intervalSize, start, technique) ==
      accuracy + FoldSum(corpus, intervalSize, end, technique)
    ensures accuracy == FoldAccuracy(corpus, intervalSize, start, technique)
    ensures cvModel.Ready() && cvModel.trainedOn == FoldTraining(corpus, start, end)
  {
    end := TrainFold(cvModel, corpus, intervalSize, start);
    accuracy := TestFold(cvModel, corpus, intervalSize, start, end, technique);
  }

  /** Tables that training on a corpus with at least one token leaves behind, with which one can decode. */
  ghost predicate TrainedOn(tb: Tables, corpus: Corpus) {
    && TaggedCorpus(corpus) && TokenCount(corpus) > 0
    && tb == Trained(corpus) && Decodable(tb)
  }

  /** The model. Before training its tables are empty and it holds no corpus. */
  class Model {
    var smoothingMode: Technique
    var wordFreq: map<string, nat>
    var tagFreq: map<string, nat>
    var wordTagFreq: map<(string, string), nat>
    var prevCurrTagFreq: map<(string, string), nat>
    var transitionProbMatrix: map<(string, string), real>
    var emissionProbMatrix: map<(string, string), real>
    var uniqueWords: seq<string>
    var uniqueTags: seq<string>
    var results: seq<seq<string>>
    /** The corpus the model was last trained on. */
    ghost var trainedOn: Corpus

    function AsCounts(): Counts
      reads this`wordFreq, this`tagFreq, this`wordTagFreq, this`prevCurrTagFreq
    {
      Counts(wordFreq, tagFreq, wordTagFreq, prevCurrTagFreq)
    }

    function AsTables(): Tables
      reads this`wordFreq, this`tagFreq, this`wordTagFreq, this`prevCurrTagFreq
      reads this`transitionProbMatrix, this`emissionProbMatrix, this`uniqueWords, this`uniqueTags
    {
      Tables(AsCounts(), transitionProbMatrix, emissionProbMatrix, uniqueWords, uniqueTags)
    }

    /**
     * The model holds exactly what training on a corpus with at least one
     * token leaves behind, with which it can decode.
     */
    ghost predicate Ready()
      reads this`wordFreq, this`tagFreq, this`wordTagFreq, this`prevCurrTagFreq
      reads this`transitionProbMatrix, this`emissionProbMatrix, this`uniqueWords, this`uniqueTags
      reads this`trainedOn
    {
      TrainedOn(AsTables(), trainedOn)
    }

    constructor ()
      ensures smoothingMode == Laplace && AsCounts() == NoCounts
      ensures transitionProbMatrix == map[] && emissionProbMatrix == map[]
      ensures uniqueWords == [] && uniqueTags == [] && results == [] && trainedOn == []
    {
      smoothingMode := Laplace;
      wordFreq, tagFreq := map[], map[];
      wordTagFreq, prevCurrTagFreq := map[], map[];
      transitionProbMatrix, emissionProbMatrix := map[], map[];
      uniqueWords, uniqueTags := [], [];
      results := [];
      trainedOn := [];
    }

    /** train: index the corpus, then build both probability tables. */
    method Train(trainingCorpus: Corpus)
      requires TaggedCorpus(trainingCorpus)
      modifies this`wordFreq, this`tagFreq, this`wordTagFreq, this`prevCurrTagFreq
      modifies this`transitionProbMatrix, this`emissionProbMatrix, this`uniqueWords, this`uniqueTags
      modifies this`trainedOn
      ensures AsTables() == Trained(trainingCorpus) && trainedOn == trainingCorpus
    {
      IndexCorpus(trainingCorpus);
      SortedTagsCounted(trainingCorpus);
      BuildTransitionMatrix();
      BuildEmissionMatrix();
      TrainedFrom(trainingCorpus, AsTables());
      trainedOn := trainingCorpus;
    }

    /**
     * indexCorpus: reset the four tables, count every token of every
     * sentence, then list the words and tags in sorted order.
     */
    method IndexCorpus(corpus: Corpus)
      requires TaggedCorpus(corpus)
      modifies this`wordFreq, this`tagFreq, this`wordTagFreq, this`prevCurrTagFreq
      modifies this`uniqueWords, this`uniqueTags
      ensures AsCounts() == Index(corpus)
      ensures uniqueWords == SortedKeys(wordFreq.Keys) && uniqueTags == SortedKeys(tagFreq.Keys)
    {
      wordFreq, tagFreq := map[], map[];
      wordTagFreq, prevCurrTagFreq := map[], map[];
      for i := 0 to |corpus|
        invariant AsCounts() == Index(corpus[..i])
      {
        CountSentence(corpus[i]);
        assert corpus[..i + 1][..i] == corpus[..i];
      }
      assert corpus[..|corpus|] == corpus;
      uniqueWords := SortKeys(wordFreq.Keys);
      uniqueTags := SortKeys(tagFreq.Keys);
    }

    /** The inner loop of indexCorpus: count every token of one sentence. */
    method CountSentence(sentence: Sentence)
      requires TaggedSentence(sentence)
      modifies this`wordFreq, this`tagFreq, this`wordTagFreq, this`prevCurrTagFreq
      ensures AsCounts() == IndexTokens(old(AsCounts()), sentence, |sentence|)
    {
      ghost var before := AsCounts();
      for index := 0 to |sentence|
        invariant AsCounts() == IndexTokens(before, sentence, index)
      {
        CountToken(sentence, index);
      }
    }

    /**
     * The body of that loop: split the token, count its word, its tag (and
     * the start tag before a first token), the token itself and the bigram
     * of the previous tag and its tag.
     */
    method CountToken(sentence: Sentence, index: nat)
      requires TaggedSentence(sentence) && index < |sentence|
      modifies this`wordFreq, this`tagFreq, this`wordTagFreq, this`prevCurrTagFreq
      ensures AsCounts() == AddToken(old(AsCounts()), sentence, index)
    {
      var currWordTag := SplitElement(sentence[index]);
      var currWord := currWordTag.0;
      var currTag := currWordTag.1;
      wordFreq := Inc(wordFreq, currWord);
      tagFreq := Inc(tagFreq, currTag);
      wordTagFreq := Inc(wordTagFreq, (currWord, currTag));
      var prevTag;
      if index == 0 {
        tagFreq := Inc(tagFreq, StartTag);
        prevTag := StartTag;
      } else {
        prevTag := SplitElement(sentence[index - 1]).1;
      }
      prevCurrTagFreq := Inc(prevCurrTagFreq, (prevTag, currTag));
    }

    /**
     * buildTransitionMatrix: for every current tag and previous tag of the
     * list, store count(prev, curr) / count(prev) when it is positive.
     */
    method BuildTransitionMatrix()
      requires CountedTags(AsCounts(), uniqueTags)
      modifies this`transitionProbMatrix
      ensures transitionProbMatrix == TransitionTable(AsCounts(), uniqueTags)
    {
      var c, tags := AsCounts(), uniqueTags;
      TransitionPartStart(c, tags);
      transitionProbMatrix := map[];
      for row := 0 to |tags|
        invariant transitionProbMatrix == TransitionPart(c, tags, row, 0)
      {
        var currTag := tags[row];
        for col := 0 to |tags|
          invariant transitionProbMatrix == TransitionPart(c, tags, row, col)
        {
          var prevTag := tags[col];
          var probability := Ratio(CountPrevCurrTag(c, prevTag, currTag), CountTag(c, prevTag));
          TransitionPartStep(c, tags, row, col);
          if probability > 0.0 {
            transitionProbMatrix := transitionProbMatrix[(prevTag, currTag) := probability];
          }
        }
        TransitionPartRow(c, tags, row);
      }
      TransitionPartDone(c, tags);
    }

    /**
     * buildEmissionMatrix: for every word and tag of the lists, store
     * count(word, tag) / count(tag) when it is positive.
     */
    method BuildEmissionMatrix()
      requires CountedTags(AsCounts(), uniqueTags)
      modifies this`emissionProbMatrix
      ensures emissionProbMatrix == EmissionTable(AsCounts(), uniqueWords, uniqueTags)
    {
      var c, words, tags := AsCounts(), uniqueWords, uniqueTags;
      EmissionPartStart(c, words, tags);
      emissionProbMatrix := map[];
      for row := 0 to |words|
        invariant emissionProbMatrix == EmissionPart(c, words, tags, row, 0)
      {
        var currWord := words[row];
        for col := 0 to |tags|
          invariant emissionProbMatrix == EmissionPart(c, words, tags, row, col)
        {
          var currTag := tags[col];
          var probability := Ratio(CountWordTag(c, currWord, currTag), CountTag(c, currTag));
          EmissionPartStep(c, words, tags, row, col);
          if probability > 0.0 {
            emissionProbMatrix := emissionProbMatrix[(currWord, currTag) := probability];
          }
        }
        EmissionPartRow(c, words, tags, row);
      }
      EmissionPartDone(c, words, tags);
    }

    /**
     * test: strip the corpus when it is tagged, build the smoother of the
     * scheme, decode every sentence into results, and return the share of
     * predicted tokens equal to the gold tokens (0 for an untagged corpus).
     */
    method Test(testCorpus: Corpus, smoothingScheme: Technique, isTagged: bool) returns (accuracy: real)
      requires Ready() && NoEmptySentence(testCorpus)
      requires isTagged ==> TaggedCorpus(testCorpus) && TokenCount(testCorpus) > 0
      modifies this`results
      ensures results == Predictions(AsTables(),
        TestSmoother(smoothingScheme, AsCounts(), Untagged(testCorpus, isTagged)), Untagged(testCorpus, isTagged))
      ensures accuracy == if isTagged then TestAccuracy(AsTables(), smoothingScheme, testCorpus) else 0.0
    {
      var untaggedTestCorpus;
      if isTagged {
        untaggedTestCorpus := GetStrippedCorpus(testCorpus);
      } else {
        untaggedTestCorpus := testCorpus;
      }
      var smoother := BuildSmoother(smoothingScheme, untaggedTestCorpus);
      TestCovered(trainedOn, smoothingScheme, testCorpus, isTagged);
      var predictions, correct, total := TestLoop(AsTables(), smoother, untaggedTestCorpus, testCorpus, isTagged);
      results := predictions;
      if isTagged {
        ScoredAccuracy(AsTables(), smoothingScheme, testCorpus, predictions, correct, total);
        accuracy := correct as real / total as real;
      } else {
        accuracy := 0.0;
      }
    }

    /**
     * The smoother test uses: Witten-Bell with the number of seen words and
     * of test words not seen in training, else Laplace with factor 1.
     */
    method BuildSmoother(smoothingScheme: Technique, untaggedTestCorpus: Corpus) returns (smoother: Smoother)
      ensures smoother == TestSmoother(smoothingScheme, AsCounts(), untaggedTestCorpus)
    {
      match smoothingScheme {
        case WittenBell =>
          var testWordsFreq := CountTestWords(untaggedTestCorpus);
          smoother := WittenBellSmoother(|wordFreq.Keys|, |testWordsFreq.Keys - wordFreq.Keys|);
        case _ =>
          smoother := LaplaceSmoother(1);
      }
    }

    /**
     * tune: test the tagged corpus with each technique in turn and keep the
     * last one whose accuracy reaches the best so far (starting from 0).
     */
    method Tune(testCorpus: Corpus)
      requires Ready() && TaggedCorpus(testCorpus) && NoEmptySentence(testCorpus) && TokenCount(testCorpus) > 0
      modifies this`smoothingMode, this`results
      ensures smoothingMode == TunedTechnique(AsTables(), testCorpus)
      ensures results == Predictions(AsTables(),
        TestSmoother(WittenBell, AsCounts(), StripCorpus(testCorpus)), StripCorpus(testCorpus))
    {
      var techniques := Techniques;
      var bestAccuracy := 0.0;
      ghost var tb := AsTables();
      TuneProgressStart(tb, testCorpus, smoothingMode);
      for j := 0 to |techniques|
        invariant AsTables() == tb
        invariant TuneProgress(tb, testCorpus, j, bestAccuracy, smoothingMode)
        invariant j > 0 ==> results == Predictions(tb,
          TestSmoother(Techniques[j - 1], tb.counts, Untagged(testCorpus, true)), Untagged(testCorpus, true))
      {
        bestAccuracy := TuneRound(testCorpus, techniques[j], bestAccuracy, j, tb);
      }
      TuneProgressDone(tb, testCorpus, bestAccuracy, smoothingMode);
    }

    /**
     * One round of tune's loop: test technique j, and take it when its
     * accuracy reaches the best so far.
     */
    method TuneRound(testCorpus: Corpus, technique: Technique, bestAccuracy: real, j: nat, ghost tb: Tables)
      returns (newBest: real)
      requires Ready() && AsTables() == tb && NoEmptySentence(testCorpus)
      requires j < |Techniques| && technique == Techniques[j]
      requires TuneProgress(tb, testCorpus, j, bestAccuracy, smoothingMode)
      modifies this`smoothingMode, this`results
      ensures TuneProgress(tb, testCorpus, j + 1, newBest, smoothingMode)
      ensures results == Predictions(tb,
        TestSmoother(technique, tb.counts, Untagged(testCorpus, true)), Untagged(testCorpus, true))
    {
      var currentAccuracy := Test(testCorpus, technique, true);
      newBest := bestAccuracy;
      if currentAccuracy >= bestAccuracy {
        newBest := currentAccuracy;
        smoothingMode := technique;
      }
      TuneProgressStep(tb, testCorpus, j, bestAccuracy, old(smoothingMode), currentAccuracy, newBest, smoothingMode);
    }

    /**
     * crossValidate: 0 for n <= 0; otherwise cut the corpus into contiguous
     * folds of the ceiling of size / n sentences, train a fresh model on all
     * but each fold and test it on the fold with this model's technique, and
     * return the sum of the accuracies divided by n.
     */
    method CrossValidate(corpus: Corpus, n: int) returns (averageAccuracy: real)
      requires CrossValidatable(corpus, n)
      ensures averageAccuracy == CrossValidation(corpus, n, smoothingMode)
    {
      if n <= 0 {
        return 0.0;
      }
      averageAccuracy := 0.0;
      var intervalSize := IntervalSize(|corpus|, n);
      if |corpus| > 0 {
        IntervalFits(corpus, n);
      }
      var cvModel := new Model();
      var start: nat := 0;
      while start < |corpus|
        invariant start <= |corpus|
        invariant |corpus| == 0 ==> averageAccuracy == 0.0
        invariant |corpus| > 0 ==> 1 <= intervalSize < |corpus|
        invariant |corpus| > 0 ==>
          averageAccuracy + FoldSum(corpus, intervalSize, start, smoothingMode)
            == FoldSum(corpus, intervalSize, 0, smoothingMode)
        decreases |corpus| - start
      {
        var end, accuracy := ValidateFold(cvModel, corpus, intervalSize, start, smoothingMode);
        averageAccuracy := averageAccuracy + accuracy;
        start := end;
      }
      averageAccuracy := averageAccuracy / n as real;
    }

    /** tag: decode an untagged corpus with the chosen technique and return the predictions. */
    method Tag(corpus: Corpus) returns (tagged: seq<seq<string>>)
      requires Ready() && NoEmptySentence(corpus)
      modifies this`results
      ensures tagged == results
      ensures results == Predictions(AsTables(), TestSmoother(smoothingMode, AsCounts(), corpus), corpus)
    {
      var _ := Test(corpus, smoothingMode, false);
      tagged := results;
    }
  }
}
