/**
 * The contiguous folds crossValidate cuts a corpus into, what each fold
 * trains on, and the average accuracy it reports.
 */
module Folds {
  import opened Tokens
  import opened FreqTables
  import opened ProbTables
  import opened Smoothing
  import opened Viterbi
  import opened Evaluation
  import opened Reals

  /** intervalSize: the ceiling of size / n. */
  function IntervalSize(size: nat, n: nat): (r: nat)
    requires n > 0
    ensures size > 0 ==> r >= 1
  {
    (size + n - 1) / n
  }

  /**
   * The interval size is the ceiling of size / n: n intervals cover the
   * corpus and n intervals one shorter do not; it is positive for a
   * non-empty corpus and shorter than a corpus of two or more sentences
   * split at least twice.
   */
  lemma IntervalSizeSpec(size: nat, n: nat)
    requires n > 0
    ensures IntervalSize(size, n) * n >= size
    ensures (IntervalSize(size, n) - 1) * n < size
    ensures size > 0 ==> IntervalSize(size, n) >= 1
    ensures size >= 2 && n >= 2 ==> IntervalSize(size, n) < size
  {
    var q := IntervalSize(size, n);
    var r := (size + n - 1) % n;
    assert size + n - 1 == q * n + r;
    if size >= 2 && n >= 2 {
      assert (size - 1) * (n - 1) >= 1 by {
        MulPositive(size - 1, n - 1);
      }
      assert q * n < size * n;
      MulMonotoneLeft(size, q, n);
    }
  }

  lemma MulPositive(a: nat, b: nat)
    requires a >= 1 && b >= 1
    ensures a * b >= 1
  {
    if a > 1 {
      MulPositive(a - 1, b);
    }
  }

  /** From q * n < a * n follows q < a. */
  lemma MulMonotoneLeft(a: nat, q: nat, n: nat)
    requires n > 0 && q * n < a * n
    ensures q < a
  {
    MulMonotoneRight(a, q, n);
  }

  /** end: start plus the interval size, capped at the corpus size. */
  function FoldEnd(size: nat, start: nat, intervalSize: nat): (r: nat)
    ensures r <= size || r == start + intervalSize
  {
    if start + intervalSize <= size then start + intervalSize else size
  }

  /**
   * The training corpus as the code builds it: the part after the fold when
   * the fold starts at 0, else the part before it; then the part after the
   * fold is appended whenever some of the corpus follows the fold.
   */
  function FoldTrainingAsWritten(corpus: Corpus, start: nat, end: nat): Corpus
    requires start <= end <= |corpus|
  {
    var trainingCorpus := if start == 0 then corpus[end..] else corpus[..start];
    if end < |corpus| then trainingCorpus + corpus[end..] else trainingCorpus
  }

  /** The training corpus of a fold: everything before it and everything after it. */
  function FoldTraining(corpus: Corpus, start: nat, end: nat): Corpus
    requires start <= end <= |corpus|
  {
    corpus[..start] + corpus[end..]
  }

  /**
   * As written, the first fold trains on the rest of the corpus twice over
   * whenever the rest is not empty, unlike the corrected training corpus.
   */
  lemma FirstFoldTrainsTwice(corpus: Corpus, end: nat)
    requires 0 < end < |corpus|
    ensures FoldTrainingAsWritten(corpus, 0, end) == corpus[end..] + corpus[end..]
    ensures |FoldTrainingAsWritten(corpus, 0, end)| == 2 * (|corpus| - end)
    ensures FoldTrainingAsWritten(corpus, 0, end) != FoldTraining(corpus, 0, end)
  {
    assert |FoldTraining(corpus, 0, end)| == |corpus| - end;
  }

  /** Concrete instance: two sentences, folds of one; the first fold trains on the second sentence twice. */
  lemma FirstFoldTrainsTwiceExample()
    ensures FoldTrainingAsWritten([["a/X"], ["b/Y"]], 0, 1) == [["b/Y"], ["b/Y"]]
    ensures FoldTraining([["a/X"], ["b/Y"]], 0, 1) == [["b/Y"]]
  {
    var corpus: Corpus := [["a/X"], ["b/Y"]];
    assert corpus[1..] == [["b/Y"]];
    assert corpus[..0] == [];
  }

  /** Every other fold is built as intended. */
  lemma LaterFoldsAsIntended(corpus: Corpus, start: nat, end: nat)
    requires 0 < start <= end <= |corpus|
    ensures FoldTrainingAsWritten(corpus, start, end) == FoldTraining(corpus, start, end)
  {
    if end == |corpus| {
      assert corpus[end..] == [];
    }
  }

  /** A fold and its training corpus together hold every sentence of the corpus exactly once. */
  lemma FoldTrainingComplement(corpus: Corpus, start: nat, end: nat)
    requires start <= end <= |corpus|
    ensures multiset(corpus[start..end]) + multiset(FoldTraining(corpus, start, end)) == multiset(corpus)
    ensures |corpus[start..end]| + |FoldTraining(corpus, start, end)| == |corpus|
  {
    assert corpus == corpus[..start] + corpus[start..end] + corpus[end..];
  }

  /** The validation folds from `start` on: contiguous slices of intervalSize, the last one possibly shorter. */
  function ValidationFolds(corpus: Corpus, intervalSize: nat, start: nat): (r: seq<Corpus>)
    requires intervalSize >= 1 && start <= |corpus|
    decreases |corpus| - start
  {
    if start == |corpus| then []
    else
      var end := FoldEnd(|corpus|, start, intervalSize);
      [corpus[start..end]] + ValidationFolds(corpus, intervalSize, end)
  }

  function Flatten(folds: seq<Corpus>): Corpus {
    if folds == [] then [] else folds[0] + Flatten(folds[1..])
  }

  /**
   * The validation folds cover the corpus from `start` exactly once,
   * contiguously and in order; none is empty and none is longer than the
   * interval size.
   */
  lemma {:induction false} FoldsPartition(corpus: Corpus, intervalSize: nat, start: nat)
    requires intervalSize >= 1 && start <= |corpus|
    ensures Flatten(ValidationFolds(corpus, intervalSize, start)) == corpus[start..]
    ensures forall j :: 0 <= j < |ValidationFolds(corpus, intervalSize, start)| ==>
      0 < |ValidationFolds(corpus, intervalSize, start)[j]| <= intervalSize
    decreases |corpus| - start
  {
    if start < |corpus| {
      var end := FoldEnd(|corpus|, start, intervalSize);
      var folds := ValidationFolds(corpus, intervalSize, start);
      FoldsPartition(corpus, intervalSize, end);
      assert folds[1..] == ValidationFolds(corpus, intervalSize, end);
      assert corpus[start..] == corpus[start..end] + corpus[end..];
    }
  }

  /** The folds from `start` number the ceiling of the remaining size over the interval size. */
  lemma {:induction false} FoldCount(corpus: Corpus, intervalSize: nat, start: nat)
    requires intervalSize >= 1 && start <= |corpus|
    ensures |ValidationFolds(corpus, intervalSize, start)| * intervalSize >= |corpus| - start
    ensures start < |corpus| ==>
      (|ValidationFolds(corpus, intervalSize, start)| - 1) * intervalSize < |corpus| - start
    decreases |corpus| - start
  {
    if start < |corpus| {
      var end := FoldEnd(|corpus|, start, intervalSize);
      FoldCount(corpus, intervalSize, end);
      var k := |ValidationFolds(corpus, intervalSize, end)|;
      assert |ValidationFolds(corpus, intervalSize, start)| == k + 1;
      assert (k + 1) * intervalSize == k * intervalSize + intervalSize;
      if end == |corpus| {
        assert k == 0;
      }
    }
  }

  /** crossValidate produces at most n folds, so dividing by n never overcounts. */
  lemma FoldsAtMostN(corpus: Corpus, n: nat)
    requires n > 0 && |corpus| > 0
    ensures |ValidationFolds(corpus, IntervalSize(|corpus|, n), 0)| <= n
  {
    var width := IntervalSize(|corpus|, n);
    IntervalSizeSpec(|corpus|, n);
    FoldCount(corpus, width, 0);
    var k := |ValidationFolds(corpus, width, 0)|;
    assert k > 0;
    MulMonotoneLeft(n, k - 1, width);
  }

  /** From a <= b follows a * c <= b * c. */
  lemma MulMonotoneRight(a: nat, b: nat, c: nat)
    ensures a <= b ==> a * c <= b * c
  {
    if a <= b {
      assert b * c == a * c + (b - a) * c;
    }
  }

  /**
   * What crossValidate demands once n is positive (for n <= 0 it returns at
   * once): tokens it can split, no empty sentence, and a fold split that
   * leaves something to train on.
   */
  predicate CrossValidatable(corpus: Corpus, n: int) {
    n > 0 ==>
      && TaggedCorpus(corpus) && NoEmptySentence(corpus)
      && (|corpus| == 0 || (|corpus| >= 2 && n >= 2))
  }

  /** A corpus of at least one sentence, none empty, holds a token. */
  lemma {:induction false} TokensPresent(corpus: Corpus)
    requires NoEmptySentence(corpus) && |corpus| > 0
    ensures TokenCount(corpus) > 0
  {
    assert |corpus[|corpus| - 1]| > 0;
  }

  /** Slices and concatenations of a tagged corpus without empty sentences keep both properties. */
  lemma SliceWellFormed(corpus: Corpus, a: nat, b: nat)
    requires TaggedCorpus(corpus) && NoEmptySentence(corpus) && a <= b <= |corpus|
    ensures TaggedCorpus(corpus[a..b]) && NoEmptySentence(corpus[a..b])
  {
    forall i | 0 <= i < b - a ensures TaggedSentence(corpus[a..b][i]) && |corpus[a..b][i]| > 0 {
      assert corpus[a..b][i] == corpus[a + i];
    }
  }

  lemma ConcatWellFormed(x: Corpus, y: Corpus)
    requires TaggedCorpus(x) && NoEmptySentence(x) && TaggedCorpus(y) && NoEmptySentence(y)
    ensures TaggedCorpus(x + y) && NoEmptySentence(x + y)
  {
    forall i | 0 <= i < |x + y| ensures TaggedSentence((x + y)[i]) && |(x + y)[i]| > 0 {
      if i >= |x| {
        assert (x + y)[i] == y[i - |x|];
      }
    }
  }

  /**
   * A fold starting before the end of the corpus validates on a non-empty
   * tagged slice and trains on a non-empty tagged corpus, when the interval
   * is shorter than the corpus.
   */
  lemma FoldWellFormed(corpus: Corpus, intervalSize: nat, start: nat)
    requires TaggedCorpus(corpus) && NoEmptySentence(corpus)
    requires 1 <= intervalSize < |corpus| && start < |corpus|
    ensures var end := FoldEnd(|corpus|, start, intervalSize);
      && start < end <= |corpus|
      && TaggedCorpus(corpus[start..end]) && TokenCount(corpus[start..end]) > 0
      && TaggedCorpus(FoldTraining(corpus, start, end)) && TokenCount(FoldTraining(corpus, start, end)) > 0
  {
    var end := FoldEnd(|corpus|, start, intervalSize);
    SliceWellFormed(corpus, start, end);
    TokensPresent(corpus[start..end]);
    SliceWellFormed(corpus, 0, start);
    SliceWellFormed(corpus, end, |corpus|);
    assert corpus[end..] == corpus[end..|corpus|];
    ConcatWellFormed(corpus[..start], corpus[end..]);
    FoldTrainingComplement(corpus, start, end);
    TokensPresent(FoldTraining(corpus, start, end));
  }

  /** The accuracy of the fold at `start`: train on the rest, test on the fold. */
  ghost function FoldAccuracy(corpus: Corpus, intervalSize: nat, start: nat, technique: Technique): real
    requires TaggedCorpus(corpus) && NoEmptySentence(corpus)
    requires 1 <= intervalSize < |corpus| && start < |corpus|
  {
    var end := FoldEnd(|corpus|, start, intervalSize);
    FoldWellFormed(corpus, intervalSize, start);
    var training := FoldTraining(corpus, start, end);
    TrainedDecodable(training);
    TestAccuracy(Trained(training), technique, corpus[start..end])
  }

  /** The sum of the fold accuracies from `start` on. */
  ghost function FoldSum(corpus: Corpus, intervalSize: nat, start: nat, technique: Technique): real
    requires TaggedCorpus(corpus) && NoEmptySentence(corpus)
    requires 1 <= intervalSize < |corpus| && start <= |corpus|
    decreases |corpus| - start
  {
    if start == |corpus| then 0.0
    else
      FoldAccuracy(corpus, intervalSize, start, technique)
        + FoldSum(corpus, intervalSize, FoldEnd(|corpus|, start, intervalSize), technique)
  }

  /**
   * Everything one round of crossValidate needs: the training corpus of the
   * fold trains a model that can decode, the fold is a tagged corpus with
   * tokens and no empty sentence, and the fold's accuracy is the first term
   * of the sum from the fold on.
   */
  lemma FoldReady(corpus: Corpus, intervalSize: nat, start: nat, technique: Technique)
    requires TaggedCorpus(corpus) && NoEmptySentence(corpus)
    requires 1 <= intervalSize < |corpus| && start < |corpus|
    ensures var end := FoldEnd(|corpus|, start, intervalSize);
      var training := FoldTraining(corpus, start, end);
      && start < end <= |corpus|
      && TaggedCorpus(training) && TokenCount(training) > 0 && Decodable(Trained(training))
      && TaggedCorpus(corpus[start..end]) && NoEmptySentence(corpus[start..end])
      && TokenCount(corpus[start..end]) > 0
      && FoldSum(corpus, intervalSize, start, technique) ==
           TestAccuracy(Trained(training), technique, corpus[start..end])
             + FoldSum(corpus, intervalSize, end, technique)
  {
    var end := FoldEnd(|corpus|, start, intervalSize);
    FoldWellFormed(corpus, intervalSize, start);
    SliceWellFormed(corpus, start, end);
    TrainedDecodable(FoldTraining(corpus, start, end));
  }

  /** Every fold accuracy lies in [0, 1], so the sum is at most the number of folds. */
  lemma {:induction false} FoldSumBounds(corpus: Corpus, intervalSize: nat, start: nat, technique: Technique)
    requires TaggedCorpus(corpus) && NoEmptySentence(corpus)
    requires 1 <= intervalSize < |corpus| && start <= |corpus|
    ensures 0.0 <= FoldSum(corpus, intervalSize, start, technique)
      <= |ValidationFolds(corpus, intervalSize, start)| as real
    decreases |corpus| - start
  {
    if start < |corpus| {
      var end := FoldEnd(|corpus|, start, intervalSize);
      FoldSumBounds(corpus, intervalSize, end, technique);
      FoldWellFormed(corpus, intervalSize, start);
      var training := FoldTraining(corpus, start, end);
      TrainedDecodable(training);
      TestAccuracyBounds(Trained(training), technique, corpus[start..end]);
    }
  }

  /** The interval size of a corpus crossValidate can split leaves every fold something to train on. */
  lemma IntervalFits(corpus: Corpus, n: int)
    requires CrossValidatable(corpus, n) && n > 0 && |corpus| > 0
    ensures 1 <= IntervalSize(|corpus|, n) < |corpus|
  {
    IntervalSizeSpec(|corpus|, n);
  }

  /** The result of crossValidate: 0 when n <= 0, else the sum of the fold accuracies divided by n. */
  ghost function CrossValidation(corpus: Corpus, n: int, technique: Technique): real
    requires CrossValidatable(corpus, n)
  {
    if n <= 0 || |corpus| == 0 then 0.0
    else
      IntervalFits(corpus, n);
      FoldSum(corpus, IntervalSize(|corpus|, n), 0, technique) / n as real
  }

  /**
   * The reported average lies in [0, 1]; it is at most the share of folds
   * among the n it divides by, so it never reaches 1 with fewer than n folds.
   */
  lemma CrossValidationBounds(corpus: Corpus, n: int, technique: Technique)
    requires CrossValidatable(corpus, n) && n > 0 && |corpus| > 0
    ensures 0.0 <= CrossValidation(corpus, n, technique) <= 1.0
    ensures CrossValidation(corpus, n, technique) <=
      |ValidationFolds(corpus, IntervalSize(|corpus|, n), 0)| as real / n as real
  {
    IntervalFits(corpus, n);
    var width := IntervalSize(|corpus|, n);
    FoldSumBounds(corpus, width, 0, technique);
    FoldsAtMostN(corpus, n);
    DivideBounds(FoldSum(corpus, width, 0, technique), |ValidationFolds(corpus, width, 0)|, n);
  }

  /** A sum between 0 and a fold count k <= n, divided by n, lies between 0 and k / n <= 1. */
  lemma DivideBounds(sum: real, k: nat, n: nat)
    requires n > 0 && k <= n && 0.0 <= sum <= k as real
    ensures 0.0 <= sum / n as real <= k as real / n as real <= 1.0
  {
    DivideMonotone(0.0, sum, n as real);
    DivideMonotone(sum, k as real, n as real);
    DivideMonotone(k as real, n as real, n as real);
  }
}
