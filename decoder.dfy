/**
 * The imperative Viterbi pass test runs for one sentence: it fills the
 * (tags + 1) x L path-probability and backpointer matrices column by column,
 * scans the last column for the best end state, stores it in the extra row,
 * and backtraces into the prediction. Each step is proved to compute the
 * recurrence of module Viterbi.
 */
module Decoder {
  import opened Tokens
  import opened FreqTables
  import opened ProbTables
  import opened Smoothing
  import opened ArgMax
  import opened Viterbi

  /** When a word was never seen in training, the smoother is defined for every listed tag. */
  predicate SmoothableWord(tb: Tables, sm: Smoother, w: string) {
    CountWord(tb.counts, w) == 0 ==> forall t :: t in tb.uniqueTags ==> Smoothable(sm, tb.counts, t)
  }

  /** The smoother can be asked about every word of the sentence the decoder may ask it about. */
  predicate SmootherCovers(tb: Tables, sm: Smoother, s: Sentence) {
    forall k :: 0 <= k < |s| ==> SmoothableWord(tb, sm, s[k])
  }

  /** Column j of the path matrix holds the recurrence's scores in its tag rows. */
  ghost predicate ScoresStored(tb: Tables, sm: Smoother, s: Sentence, pathProb: array2<real>, j: nat)
    reads pathProb
  {
    && j < |s| && j < pathProb.Length1 && |tb.uniqueTags| < pathProb.Length0
    && forall r :: 0 <= r < |tb.uniqueTags| ==> pathProb[r, j] == Column(tb, sm, s, j)[r]
  }

  /**
   * The emission lookup of test: the stored entry, else the smoother for a
   * never-seen word, else 0; it agrees with the decoder's Emission.
   */
  function LookupEmission(tb: Tables, sm: Smoother, w: string, t: string): (r: real)
    requires t in tb.uniqueTags && SmoothableWord(tb, sm, w)
    ensures r == Emission(tb, sm, w, t)
  {
    if (w, t) in tb.emissionProb then tb.emissionProb[(w, t)]
    else if CountWord(tb.counts, w) == 0 then SmoothedEmission(sm, tb.counts, w, t)
    else 0.0
  }

  /**
   * The innermost loop of test for a later column: the scan over every
   * previous tag that keeps the last index whose score is at least the best so far.
   */
  method BestPrevious(tb: Tables, pathProb: array2<real>, i: nat, c: nat, ghost prev: seq<real>)
    returns (maxPathValue: real, bestPrevTagIndex: nat)
    requires 0 < i < pathProb.Length1 && |tb.uniqueTags| < pathProb.Length0
    requires |prev| == |tb.uniqueTags| && c < |tb.uniqueTags|
    requires forall p :: 0 <= p < |tb.uniqueTags| ==> pathProb[p, i - 1] == prev[p]
    ensures (maxPathValue, bestPrevTagIndex) == BestPrev(tb, prev, c)
  {
    var n := |tb.uniqueTags|;
    var currentTag := tb.uniqueTags[c];
    bestPrevTagIndex := 0;
    maxPathValue := 0.0;
    for prevTagIndex := 0 to n
      invariant (maxPathValue, bestPrevTagIndex) == ScanArgMax(Candidates(tb, prev, c), NoMask(n), prevTagIndex)
    {
      var prevTag := tb.uniqueTags[prevTagIndex];
      var alpha := if (prevTag, currentTag) in tb.transitionProb then tb.transitionProb[(prevTag, currentTag)] else 0.0;
      var value := Product(pathProb[prevTagIndex, i - 1], alpha);
      if value >= maxPathValue {
        maxPathValue := value;
        bestPrevTagIndex := prevTagIndex;
      }
    }
  }

  /** One cell of a column, by the recurrence, for the loop of FillColumn. */
  lemma CellValues(tb: Tables, sm: Smoother, s: Sentence, i: nat, c: nat)
    requires i < |s| && c < |tb.uniqueTags|
    ensures tb.uniqueTags[c] == StartTag ==> Column(tb, sm, s, i)[c] == 0.0 && Back(tb, sm, s, i, c) == 0
    ensures tb.uniqueTags[c] != StartTag && i == 0 ==>
      Column(tb, sm, s, i)[c] == Product(Transition(tb, StartTag, tb.uniqueTags[c]), Emission(tb, sm, s[0], tb.uniqueTags[c]))
      && Back(tb, sm, s, i, c) == -1
    ensures tb.uniqueTags[c] != StartTag && i > 0 ==>
      Column(tb, sm, s, i)[c] == Product(BestPrev(tb, Column(tb, sm, s, i - 1), c).0, Emission(tb, sm, s[i], tb.uniqueTags[c]))
      && Back(tb, sm, s, i, c) == BestPrev(tb, Column(tb, sm, s, i - 1), c).1
  {
    ColumnCell(tb, sm, s, i, c);
  }

  /**
   * The tag loop of test for word `i`: every row other than `<s>` gets its
   * score and backpointer; the `<s>` rows and the extra row keep their zeros,
   * and every other column is left as it was.
   */
  method FillColumn(tb: Tables, sm: Smoother, s: Sentence, i: nat,
                    pathProb: array2<real>, backpointer: array2<int>)
    requires i < |s| && SmootherCovers(tb, sm, s)
    requires pathProb.Length0 == |tb.uniqueTags| + 1 && pathProb.Length1 == |s|
    requires backpointer.Length0 == |tb.uniqueTags| + 1 && backpointer.Length1 == |s|
    requires i > 0 ==> ScoresStored(tb, sm, s, pathProb, i - 1)
    requires forall r :: 0 <= r <= |tb.uniqueTags| ==> pathProb[r, i] == 0.0 && backpointer[r, i] == 0
    modifies pathProb, backpointer
    ensures forall r, j :: 0 <= r <= |tb.uniqueTags| && 0 <= j < |s| && j != i ==>
      pathProb[r, j] == old(pathProb[r, j]) && backpointer[r, j] == old(backpointer[r, j])
    ensures forall r :: 0 <= r < |tb.uniqueTags| ==>
      pathProb[r, i] == Column(tb, sm, s, i)[r] && backpointer[r, i] == Back(tb, sm, s, i, r)
    ensures pathProb[|tb.uniqueTags|, i] == 0.0 && backpointer[|tb.uniqueTags|, i] == 0
  {
    var n := |tb.uniqueTags|;
    var currentWord := s[i];
    ghost var prev := if i > 0 then Column(tb, sm, s, i - 1) else [];
    for tagIndex := 0 to n
      invariant forall r, j :: 0 <= r <= n && 0 <= j < |s| && j != i ==>
        pathProb[r, j] == old(pathProb[r, j]) && backpointer[r, j] == old(backpointer[r, j])
      invariant forall r :: 0 <= r < tagIndex ==>
        pathProb[r, i] == Column(tb, sm, s, i)[r] && backpointer[r, i] == Back(tb, sm, s, i, r)
      invariant forall r :: tagIndex <= r <= n ==> pathProb[r, i] == 0.0 && backpointer[r, i] == 0
    {
      var currentTag := tb.uniqueTags[tagIndex];
      CellValues(tb, sm, s, i, tagIndex);
      if currentTag == StartTag {
        continue;
      } else if i == 0 {
        var alpha := if (StartTag, currentTag) in tb.transitionProb then tb.transitionProb[(StartTag, currentTag)] else 0.0;
        var beta := LookupEmission(tb, sm, currentWord, currentTag);
        pathProb[tagIndex, i] := Product(alpha, beta);
        backpointer[tagIndex, i] := -1;
      } else {
        var maxPathValue, bestPrevTagIndex := BestPrevious(tb, pathProb, i, tagIndex, prev);
        var beta := LookupEmission(tb, sm, currentWord, currentTag);
        pathProb[tagIndex, i] := Product(maxPathValue, beta);
        backpointer[tagIndex, i] := bestPrevTagIndex;
      }
    }
  }

  /**
   * The scan of test over the last column: the last row other than `<s>`
   * whose score is at least the best so far.
   */
  method BestEnd(tb: Tables, sm: Smoother, s: Sentence, pathProb: array2<real>)
    returns (maxPathValue: real, bestEndIndex: nat)
    requires Decodable(tb) && |s| > 0
    requires pathProb.Length0 == |tb.uniqueTags| + 1 && pathProb.Length1 == |s|
    requires ScoresStored(tb, sm, s, pathProb, |s| - 1)
    ensures (maxPathValue, bestEndIndex) == EndScan(tb, sm, s)
  {
    var n := |tb.uniqueTags|;
    ghost var last := Column(tb, sm, s, |s| - 1);
    ghost var mask := StartMask(tb.uniqueTags);
    bestEndIndex := 0;
    maxPathValue := 0.0;
    for tagIndex := 0 to n
      invariant (maxPathValue, bestEndIndex) == ScanArgMax(last, mask, tagIndex)
    {
      var tag := tb.uniqueTags[tagIndex];
      if tag == StartTag {
        continue;
      }
      var pathValue := pathProb[tagIndex, |s| - 1];
      if pathValue >= maxPathValue {
        maxPathValue := pathValue;
        bestEndIndex := tagIndex;
      }
    }
  }

  /**
   * Fills both matrices for a sentence: zero-initialised, one column per
   * word, and the best end score and state in the extra row at the last word.
   */
  method FillMatrices(tb: Tables, sm: Smoother, s: Sentence)
    returns (pathProb: array2<real>, backpointer: array2<int>, bestEndIndex: nat)
    requires Decodable(tb) && |s| > 0 && SmootherCovers(tb, sm, s)
    ensures fresh(pathProb) && fresh(backpointer)
    ensures pathProb.Length0 == |tb.uniqueTags| + 1 && pathProb.Length1 == |s|
    ensures backpointer.Length0 == |tb.uniqueTags| + 1 && backpointer.Length1 == |s|
    ensures forall r, i :: 0 <= r < |tb.uniqueTags| && 0 <= i < |s| ==>
      pathProb[r, i] == Column(tb, sm, s, i)[r] && backpointer[r, i] == Back(tb, sm, s, i, r)
    ensures BackStored(tb, sm, s, backpointer)
    ensures pathProb[|tb.uniqueTags|, |s| - 1] == EndScan(tb, sm, s).0
    ensures backpointer[|tb.uniqueTags|, |s| - 1] == bestEndIndex == EndScan(tb, sm, s).1
  {
    var n := |tb.uniqueTags|;
    pathProb := new real[n + 1, |s|]((_, _) => 0.0);
    backpointer := new int[n + 1, |s|]((_, _) => 0);
    for wordIndex := 0 to |s|
      invariant forall r, i :: 0 <= r < n && 0 <= i < wordIndex ==>
        pathProb[r, i] == Column(tb, sm, s, i)[r] && backpointer[r, i] == Back(tb, sm, s, i, r)
      invariant forall r, i :: 0 <= r <= n && wordIndex <= i < |s| ==>
        pathProb[r, i] == 0.0 && backpointer[r, i] == 0
    {
      FillColumn(tb, sm, s, wordIndex, pathProb, backpointer);
    }
    var maxPathValue;
    maxPathValue, bestEndIndex := BestEnd(tb, sm, s, pathProb);
    pathProb[n, |s| - 1] := maxPathValue;
    backpointer[n, |s| - 1] := bestEndIndex;
  }

  /** The tokens the backtrace has prepended once it has reached position k. */
  function DecodedFrom(tb: Tables, sm: Smoother, s: Sentence, k: nat): (r: seq<string>)
    requires Decodable(tb) && k <= |s|
    ensures |r| == |s| - k
    decreases |s| - k
  {
    if k == |s| then [] else [Join(s[k], tb.uniqueTags[State(tb, sm, s, k)])] + DecodedFrom(tb, sm, s, k + 1)
  }

  /** Prepending from position k on yields exactly the suffix of the decoded sentence. */
  lemma {:induction false} DecodedFromSuffix(tb: Tables, sm: Smoother, s: Sentence, k: nat)
    requires Decodable(tb) && k <= |s|
    ensures DecodedFrom(tb, sm, s, k) == Decode(tb, sm, s)[k..]
    decreases |s| - k
  {
    if k < |s| {
      DecodedFromSuffix(tb, sm, s, k + 1);
      DecodeAt(tb, sm, s, k);
      SuffixCons(Decode(tb, sm, s), k);
    }
  }

  /** Position k of the prediction joins word k with the tag of state k. */
  lemma DecodeAt(tb: Tables, sm: Smoother, s: Sentence, k: nat)
    requires Decodable(tb) && k < |s|
    ensures Decode(tb, sm, s)[k] == Join(s[k], tb.uniqueTags[State(tb, sm, s, k)])
  {
  }

  /** The backpointer of a later state is the state before it. */
  lemma BackStep(tb: Tables, sm: Smoother, s: Sentence, k: nat)
    requires Decodable(tb) && 0 < k < |s|
    ensures Back(tb, sm, s, k, State(tb, sm, s, k)) == State(tb, sm, s, k - 1)
  {
  }

  /** Every tag row of the backpointer matrix holds the recurrence's backpointers. */
  ghost predicate BackStored(tb: Tables, sm: Smoother, s: Sentence, backpointer: array2<int>)
    reads backpointer
  {
    && backpointer.Length0 == |tb.uniqueTags| + 1 && backpointer.Length1 == |s|
    && forall r, i :: 0 <= r < |tb.uniqueTags| && 0 <= i < |s| ==> backpointer[r, i] == Back(tb, sm, s, i, r)
  }

  /**
   * The backtrace of test: from the end state, prepend each word joined with
   * the tag of its state, and follow the backpointer, until the first word.
   */
  method Backtrace(tb: Tables, sm: Smoother, s: Sentence, backpointer: array2<int>, bestEndIndex: nat)
    returns (prediction: seq<string>)
    requires Decodable(tb) && |s| > 0
    requires BackStored(tb, sm, s, backpointer)
    requires bestEndIndex == EndScan(tb, sm, s).1
    ensures prediction == Decode(tb, sm, s)
  {
    var prevStateIndex: int := bestEndIndex;
    var prevSequenceIndex: int := |s| - 1;
    ghost var pos: nat := |s|;
    prediction := [];
    while prevStateIndex != -1 && prevSequenceIndex >= 0
      invariant pos <= |s| && prevSequenceIndex == pos - 1
      invariant pos > 0 ==> prevStateIndex == State(tb, sm, s, pos - 1)
      invariant prediction == DecodedFrom(tb, sm, s, pos)
      decreases pos
    {
      var k: nat := pos - 1;
      var tag := tb.uniqueTags[prevStateIndex];
      var word := s[prevSequenceIndex];
      assert k + 1 == pos && word == s[k] && tag == tb.uniqueTags[State(tb, sm, s, k)];
      prediction := [Join(word, tag)] + prediction;
      assert prediction == DecodedFrom(tb, sm, s, k);
      if k > 0 {
        BackStep(tb, sm, s, k);
      }
      prevStateIndex := backpointer[prevStateIndex, prevSequenceIndex];
      prevSequenceIndex := prevSequenceIndex - 1;
      pos := k;
    }
    DecodedFromSuffix(tb, sm, s, 0);
  }

  /** The per-sentence work of test: both matrices, then the backtrace. */
  method DecodeSentence(tb: Tables, sm: Smoother, s: Sentence) returns (prediction: seq<string>)
    requires Decodable(tb) && |s| > 0 && SmootherCovers(tb, sm, s)
    ensures prediction == Decode(tb, sm, s)
  {
    var pathProb, backpointer, bestEndIndex := FillMatrices(tb, sm, s);
    prediction := Backtrace(tb, sm, s, backpointer, bestEndIndex);
  }
}
