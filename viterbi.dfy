/**
 * The Viterbi recurrence test runs over a sentence of words: one column of
 * path scores and backpointers per word, one row per tag of uniqueTags, the
 * best end state, and the backtrace into a tagged prediction. Scores are
 * exact reals; a missing table entry counts as 0.
 */
module Viterbi {
  import opened Tokens
  import opened FreqTables
  import opened ProbTables
  import opened Smoothing
  import opened ArgMax
  import opened Reals

  /** Every stored probability is non-negative. */
  ghost predicate NonNegativeTables(tb: Tables) {
    && (forall k :: k in tb.transitionProb ==> tb.transitionProb[k] >= 0.0)
    && (forall k :: k in tb.emissionProb ==> tb.emissionProb[k] >= 0.0)
  }

  /** What decoding needs of the model: a tag to index, and non-negative tables. */
  ghost predicate Decodable(tb: Tables) {
    |tb.uniqueTags| > 0 && NonNegativeTables(tb)
  }

  /** transitionProbMatrix.get(p/t), or 0 when absent. */
  function Transition(tb: Tables, p: string, t: string): real {
    if (p, t) in tb.transitionProb then tb.transitionProb[(p, t)] else 0.0
  }

  /**
   * The emission the decoder uses: the table entry, else the smoother for a
   * never-seen word, else 0. A smoother whose denominator is 0 gives 0 here.
   */
  function Emission(tb: Tables, sm: Smoother, w: string, t: string): real {
    if (w, t) in tb.emissionProb then tb.emissionProb[(w, t)]
    else if CountWord(tb.counts, w) == 0 && Smoothable(sm, tb.counts, t) then SmoothedEmission(sm, tb.counts, w, t)
    else 0.0
  }

  lemma TransitionNonNegative(tb: Tables, p: string, t: string)
    requires NonNegativeTables(tb)
    ensures Transition(tb, p, t) >= 0.0
  {
  }

  lemma EmissionNonNegative(tb: Tables, sm: Smoother, w: string, t: string)
    requires NonNegativeTables(tb)
    ensures Emission(tb, sm, w, t) >= 0.0
  {
    if (w, t) !in tb.emissionProb && CountWord(tb.counts, w) == 0 && Smoothable(sm, tb.counts, t) {
      SmoothedEmissionBounds(sm, tb.counts, w, t);
    }
  }

  /** The product of two scores (a float multiplication in the source, exact here). */
  function Product(a: real, b: real): real {
    a * b
  }

  /** Column 0: transition from `<s>` times emission; the `<s>` row is left at 0. */
  function FirstCell(tb: Tables, sm: Smoother, w: string, c: nat): real
    requires c < |tb.uniqueTags|
  {
    var t := tb.uniqueTags[c];
    if t == StartTag then 0.0 else Product(Transition(tb, StartTag, t), Emission(tb, sm, w, t))
  }

  /** Column 0's backpointers: -1, except the `<s>` row, left at 0. */
  function FirstBack(tb: Tables, c: nat): int
    requires c < |tb.uniqueTags|
  {
    if tb.uniqueTags[c] == StartTag then 0 else -1
  }

  /** The scores of reaching tag c from each previous tag p in the previous column. */
  function Candidates(tb: Tables, prev: seq<real>, c: nat): (r: seq<real>)
    requires |prev| == |tb.uniqueTags| && c < |tb.uniqueTags|
    ensures |r| == |tb.uniqueTags|
  {
    seq(|tb.uniqueTags|, p requires 0 <= p < |tb.uniqueTags| =>
      Product(prev[p], Transition(tb, tb.uniqueTags[p], tb.uniqueTags[c])))
  }

  /** The best predecessor scan of a later column: every previous tag, `<s>` included. */
  function BestPrev(tb: Tables, prev: seq<real>, c: nat): (r: (real, nat))
    requires |prev| == |tb.uniqueTags| && c < |tb.uniqueTags|
    ensures |tb.uniqueTags| > 0 ==> r.1 < |tb.uniqueTags|
  {
    var n := |tb.uniqueTags|;
    ScanArgMax(Candidates(tb, prev, c), NoMask(n), n)
  }

  /** A later column's score: best predecessor score times emission; the `<s>` row stays 0. */
  function NextCell(tb: Tables, sm: Smoother, w: string, prev: seq<real>, c: nat): real
    requires |prev| == |tb.uniqueTags| && c < |tb.uniqueTags|
  {
    var t := tb.uniqueTags[c];
    if t == StartTag then 0.0 else Product(BestPrev(tb, prev, c).0, Emission(tb, sm, w, t))
  }

  /** A later column's backpointer: the best predecessor; the `<s>` row stays 0. */
  function NextBack(tb: Tables, prev: seq<real>, c: nat): (r: nat)
    requires |prev| == |tb.uniqueTags| && c < |tb.uniqueTags|
    ensures r < |tb.uniqueTags|
  {
    if tb.uniqueTags[c] == StartTag then 0 else BestPrev(tb, prev, c).1
  }

  /** Column 0 of the path scores. */
  function FirstColumn(tb: Tables, sm: Smoother, w: string): (r: seq<real>)
    ensures |r| == |tb.uniqueTags|
  {
    seq(|tb.uniqueTags|, c requires 0 <= c < |tb.uniqueTags| => FirstCell(tb, sm, w, c))
  }

  /** A later column of path scores, from the previous one. */
  function NextColumn(tb: Tables, sm: Smoother, w: string, prev: seq<real>): (r: seq<real>)
    requires |prev| == |tb.uniqueTags|
    ensures |r| == |tb.uniqueTags|
  {
    seq(|tb.uniqueTags|, c requires 0 <= c < |tb.uniqueTags| => NextCell(tb, sm, w, prev, c))
  }

  /** pathProbMatrix[.][i] for the tag rows. */
  function Column(tb: Tables, sm: Smoother, s: Sentence, i: nat): (r: seq<real>)
    requires i < |s|
    ensures |r| == |tb.uniqueTags|
    decreases i
  {
    if i == 0 then FirstColumn(tb, sm, s[0])
    else NextColumn(tb, sm, s[i], Column(tb, sm, s, i - 1))
  }

  /** backpointerMatrix[c][i] for the tag rows. */
  function Back(tb: Tables, sm: Smoother, s: Sentence, i: nat, c: nat): int
    requires i < |s| && c < |tb.uniqueTags|
  {
    if i == 0 then FirstBack(tb, c) else NextBack(tb, Column(tb, sm, s, i - 1), c)
  }

  /** `true` at the rows of `<s>`, which the end scan passes over. */
  function StartMask(tags: seq<string>): (r: seq<bool>)
    ensures |r| == |tags| && forall p :: 0 <= p < |tags| ==> (r[p] <==> tags[p] == StartTag)
  {
    seq(|tags|, p requires 0 <= p < |tags| => tags[p] == StartTag)
  }

  /** The end scan over the last column: (maxPathValue, bestEndIndex). */
  function EndScan(tb: Tables, sm: Smoother, s: Sentence): (r: (real, nat))
    requires Decodable(tb) && |s| > 0
    ensures r.1 < |tb.uniqueTags|
  {
    var n := |tb.uniqueTags|;
    ScanArgMax(Column(tb, sm, s, |s| - 1), StartMask(tb.uniqueTags), n)
  }

  /** The row the backtrace visits at position k: the end state, then backpointer after backpointer. */
  function State(tb: Tables, sm: Smoother, s: Sentence, k: nat): (r: nat)
    requires Decodable(tb) && k < |s|
    ensures r < |tb.uniqueTags|
    decreases |s| - k
  {
    if k == |s| - 1 then EndScan(tb, sm, s).1
    else
      NextBack(tb, Column(tb, sm, s, k), State(tb, sm, s, k + 1))
  }

  /** The prediction for a sentence: each word joined with the tag of its state. */
  function Decode(tb: Tables, sm: Smoother, s: Sentence): (r: seq<string>)
    requires Decodable(tb)
    ensures |r| == |s|
  {
    seq(|s|, k requires 0 <= k < |s| => Join(s[k], tb.uniqueTags[State(tb, sm, s, k)]))
  }

  /** The states of the backtrace, position by position. */
  function States(tb: Tables, sm: Smoother, s: Sentence): (r: seq<nat>)
    requires Decodable(tb)
    ensures |r| == |s|
  {
    seq(|s|, k requires 0 <= k < |s| => State(tb, sm, s, k))
  }

  /** A sequence of tag rows, one per word. */
  predicate ValidPath(tb: Tables, s: Sentence, q: seq<nat>) {
    |q| == |s| && forall j :: 0 <= j < |q| ==> q[j] < |tb.uniqueTags|
  }

  /**
   * The score the recurrence gives the first i+1 steps of a path: the
   * product of transitions and emissions along it, and 0 for a path that
   * visits `<s>`, whose rows the decoder never fills.
   */
  function PathScore(tb: Tables, sm: Smoother, s: Sentence, q: seq<nat>, i: nat): real
    requires ValidPath(tb, s, q) && i < |s|
    decreases i
  {
    var t := tb.uniqueTags[q[i]];
    if t == StartTag then 0.0
    else if i == 0 then Product(Transition(tb, StartTag, t), Emission(tb, sm, s[0], t))
    else Product(Product(PathScore(tb, sm, s, q, i - 1), Transition(tb, tb.uniqueTags[q[i - 1]], t)), Emission(tb, sm, s[i], t))
  }

  /** The candidate scores from a non-negative column are non-negative. */
  lemma CandidatesNonNegative(tb: Tables, prev: seq<real>, c: nat)
    requires NonNegativeTables(tb)
    requires |prev| == |tb.uniqueTags| && c < |tb.uniqueTags|
    requires forall p :: 0 <= p < |prev| ==> prev[p] >= 0.0
    ensures forall p :: 0 <= p < |prev| ==> Candidates(tb, prev, c)[p] >= 0.0
  {
    forall p | 0 <= p < |prev| ensures Candidates(tb, prev, c)[p] >= 0.0 {
      TransitionNonNegative(tb, tb.uniqueTags[p], tb.uniqueTags[c]);
      ProductNonNegative(prev[p], Transition(tb, tb.uniqueTags[p], tb.uniqueTags[c]));
    }
  }

  /** One cell of a column, by the recurrence. */
  lemma ColumnCell(tb: Tables, sm: Smoother, s: Sentence, i: nat, c: nat)
    requires i < |s| && c < |tb.uniqueTags|
    ensures i == 0 ==> Column(tb, sm, s, i)[c] == FirstCell(tb, sm, s[0], c)
    ensures i > 0 ==> Column(tb, sm, s, i)[c] == NextCell(tb, sm, s[i], Column(tb, sm, s, i - 1), c)
  {
  }

  lemma FirstCellNonNegative(tb: Tables, sm: Smoother, w: string, c: nat)
    requires NonNegativeTables(tb) && c < |tb.uniqueTags|
    ensures FirstCell(tb, sm, w, c) >= 0.0
  {
    var t := tb.uniqueTags[c];
    if t != StartTag {
      EmissionNonNegative(tb, sm, w, t);
      TransitionNonNegative(tb, StartTag, t);
      ProductNonNegative(Transition(tb, StartTag, t), Emission(tb, sm, w, t));
    }
  }

  /** The best predecessor of a non-negative column has the maximal candidate score, the last index attaining it. */
  lemma BestPrevSpec(tb: Tables, prev: seq<real>, c: nat)
    requires NonNegativeTables(tb)
    requires |prev| == |tb.uniqueTags| && 0 <= c < |tb.uniqueTags|
    requires forall p :: 0 <= p < |prev| ==> prev[p] >= 0.0
    ensures var r := BestPrev(tb, prev, c); var cand := Candidates(tb, prev, c);
      && r.0 >= 0.0
      && r.1 < |prev|
      && r.0 == cand[r.1]
      && (forall p :: 0 <= p < |prev| ==> cand[p] <= r.0)
      && (forall p :: r.1 < p < |prev| ==> cand[p] < r.0)
  {
    var n := |tb.uniqueTags|;
    var cand := Candidates(tb, prev, c);
    CandidatesNonNegative(tb, prev, c);
    ScanArgMaxSpec(cand, NoMask(n), n);
    assert SomeUnmasked(NoMask(n), n) by {
      assert !NoMask(n)[0];
    }
  }

  lemma NextCellNonNegative(tb: Tables, sm: Smoother, w: string, prev: seq<real>, c: nat)
    requires NonNegativeTables(tb)
    requires |prev| == |tb.uniqueTags| && c < |tb.uniqueTags|
    requires forall p :: 0 <= p < |prev| ==> prev[p] >= 0.0
    ensures NextCell(tb, sm, w, prev, c) >= 0.0
  {
    var t := tb.uniqueTags[c];
    var n := |tb.uniqueTags|;
    if t != StartTag {
      EmissionNonNegative(tb, sm, w, t);
      BestPrevSpec(tb, prev, c);
      ProductNonNegative(BestPrev(tb, prev, c).0, Emission(tb, sm, w, t));
    }
  }

  /** Every path score of every column is non-negative. */
  lemma {:induction false} ColumnNonNegative(tb: Tables, sm: Smoother, s: Sentence, i: nat)
    requires Decodable(tb) && i < |s|
    ensures forall c :: 0 <= c < |tb.uniqueTags| ==> Column(tb, sm, s, i)[c] >= 0.0
    decreases i
  {
    var n := |tb.uniqueTags|;
    if i > 0 {
      var m: nat := i - 1;
      ColumnNonNegative(tb, sm, s, m);
    }
    forall c | 0 <= c < n ensures Column(tb, sm, s, i)[c] >= 0.0 {
      ColumnCell(tb, sm, s, i, c);
      if i == 0 {
        FirstCellNonNegative(tb, sm, s[0], c);
      } else {
        NextCellNonNegative(tb, sm, s[i], Column(tb, sm, s, i - 1), c);
      }
    }
  }

  /** The backpointer of a later cell other than `<s>` is the last index of a maximal candidate. */
  lemma BestPrevMaximal(tb: Tables, prev: seq<real>, c: nat)
    requires NonNegativeTables(tb)
    requires |prev| == |tb.uniqueTags| && c < |tb.uniqueTags|
    requires forall p :: 0 <= p < |prev| ==> prev[p] >= 0.0
    requires tb.uniqueTags[c] != StartTag
    ensures var b := NextBack(tb, prev, c); var cand := Candidates(tb, prev, c);
      && (forall p :: 0 <= p < |prev| ==> cand[p] <= cand[b])
      && (forall p :: b < p < |prev| ==> cand[p] < cand[b])
  {
    BestPrevSpec(tb, prev, c);
  }

  /** A later cell other than `<s>` scores its backpointer's candidate times the emission. */
  lemma BestPrevValue(tb: Tables, sm: Smoother, w: string, prev: seq<real>, c: nat)
    requires NonNegativeTables(tb)
    requires |prev| == |tb.uniqueTags| && c < |tb.uniqueTags|
    requires forall p :: 0 <= p < |prev| ==> prev[p] >= 0.0
    requires tb.uniqueTags[c] != StartTag
    ensures NextCell(tb, sm, w, prev, c) == Product(Candidates(tb, prev, c)[NextBack(tb, prev, c)], Emission(tb, sm, w, tb.uniqueTags[c]))
  {
    BestPrevSpec(tb, prev, c);
    assert BestPrev(tb, prev, c).0 == Candidates(tb, prev, c)[NextBack(tb, prev, c)];
  }

  /**
   * For a later word and a tag other than `<s>`, the backpointer is the
   * LARGEST previous row maximising previous score times transition.
   */
  lemma BackpointerMaximises(tb: Tables, sm: Smoother, s: Sentence, i: nat, c: nat)
    requires Decodable(tb) && 0 < i < |s| && c < |tb.uniqueTags|
    requires tb.uniqueTags[c] != StartTag
    ensures var b := Back(tb, sm, s, i, c);
      var cand := Candidates(tb, Column(tb, sm, s, i - 1), c);
      && 0 <= b < |tb.uniqueTags|
      && (forall p :: 0 <= p < |tb.uniqueTags| ==> cand[p] <= cand[b])
      && (forall p :: b < p < |tb.uniqueTags| ==> cand[p] < cand[b])
  {
    ColumnNonNegative(tb, sm, s, i - 1);
    BestPrevMaximal(tb, Column(tb, sm, s, i - 1), c);
  }

  /**
   * For a later word and a tag other than `<s>`, the path score is the score
   * through the chosen backpointer times the emission.
   */
  lemma PathProbRecurrence(tb: Tables, sm: Smoother, s: Sentence, i: nat, c: nat)
    requires Decodable(tb) && 0 < i < |s| && c < |tb.uniqueTags|
    requires tb.uniqueTags[c] != StartTag
    ensures Back(tb, sm, s, i, c) >= 0
    ensures Column(tb, sm, s, i)[c] ==
      Product(Candidates(tb, Column(tb, sm, s, i - 1), c)[Back(tb, sm, s, i, c)], Emission(tb, sm, s[i], tb.uniqueTags[c]))
  {
    ColumnCell(tb, sm, s, i, c);
    ColumnNonNegative(tb, sm, s, i - 1);
    BestPrevValue(tb, sm, s[i], Column(tb, sm, s, i - 1), c);
  }

  /**
   * The `<s>` rows keep their zero score and their zero backpointer, and the
   * other rows of column 0 point nowhere (-1).
   */
  lemma StartRows(tb: Tables, sm: Smoother, s: Sentence, i: nat, c: nat)
    requires i < |s| && c < |tb.uniqueTags|
    ensures tb.uniqueTags[c] == StartTag ==> Column(tb, sm, s, i)[c] == 0.0 && Back(tb, sm, s, i, c) == 0
    ensures tb.uniqueTags[c] != StartTag && i == 0 ==> Back(tb, sm, s, i, c) == -1
  {
    ColumnCell(tb, sm, s, i, c);
  }

  /**
   * The end state is the LARGEST row other than `<s>` that maximises the last
   * column, whenever some listed tag is not `<s>`.
   */
  lemma EndStateChoice(tb: Tables, sm: Smoother, s: Sentence)
    requires Decodable(tb) && |s| > 0
    requires exists p :: 0 <= p < |tb.uniqueTags| && tb.uniqueTags[p] != StartTag
    ensures var e := EndScan(tb, sm, s).1;
      var last := Column(tb, sm, s, |s| - 1);
      && tb.uniqueTags[e] != StartTag
      && EndScan(tb, sm, s).0 == last[e]
      && (forall p :: 0 <= p < |tb.uniqueTags| && tb.uniqueTags[p] != StartTag ==> last[p] <= last[e])
      && (forall p :: e < p < |tb.uniqueTags| && tb.uniqueTags[p] != StartTag ==> last[p] < last[e])
  {
    var n := |tb.uniqueTags|;
    var mask := StartMask(tb.uniqueTags);
    ColumnNonNegative(tb, sm, s, |s| - 1);
    ScanArgMaxSpec(Column(tb, sm, s, |s| - 1), mask, n);
    var p :| 0 <= p < n && tb.uniqueTags[p] != StartTag;
    assert !mask[p];
  }

  /**
   * Decoding yields one token per word: the word itself joined with a listed
   * tag, which splits back into that word and tag when tags hold no
   * separator; the last tag is not `<s>` whenever some listed tag is not.
   */
  lemma DecodeShape(tb: Tables, sm: Smoother, s: Sentence)
    requires Decodable(tb) && |s| > 0
    requires forall t :: t in tb.uniqueTags ==> Separator !in t
    ensures |Decode(tb, sm, s)| == |s|
    ensures forall k :: 0 <= k < |s| ==>
      HasSeparator(Decode(tb, sm, s)[k])
      && WordOf(Decode(tb, sm, s)[k]) == s[k]
      && TagOf(Decode(tb, sm, s)[k]) in tb.uniqueTags
    ensures (exists p :: 0 <= p < |tb.uniqueTags| && tb.uniqueTags[p] != StartTag) ==>
      TagOf(Decode(tb, sm, s)[|s| - 1]) != StartTag
  {
    var d := Decode(tb, sm, s);
    forall k | 0 <= k < |s|
      ensures HasSeparator(d[k]) && SplitElement(d[k]) == (s[k], tb.uniqueTags[State(tb, sm, s, k)])
    {
      SplitJoin(s[k], tb.uniqueTags[State(tb, sm, s, k)]);
    }
    if exists p :: 0 <= p < |tb.uniqueTags| && tb.uniqueTags[p] != StartTag {
      EndStateChoice(tb, sm, s);
    }
  }

  /** Extending a path whose score is bounded by its previous cell stays bounded by the next cell. */
  lemma StepDominates(tb: Tables, sm: Smoother, w: string, prev: seq<real>, c: nat, p: nat, x: real)
    requires NonNegativeTables(tb)
    requires |prev| == |tb.uniqueTags| && c < |tb.uniqueTags| && p < |tb.uniqueTags|
    requires forall j :: 0 <= j < |prev| ==> prev[j] >= 0.0
    requires tb.uniqueTags[c] != StartTag
    requires 0.0 <= x <= prev[p]
    ensures var y := Product(Product(x, Transition(tb, tb.uniqueTags[p], tb.uniqueTags[c])),
                             Emission(tb, sm, w, tb.uniqueTags[c]));
      0.0 <= y <= NextCell(tb, sm, w, prev, c)
  {
    var tr := Transition(tb, tb.uniqueTags[p], tb.uniqueTags[c]);
    var em := Emission(tb, sm, w, tb.uniqueTags[c]);
    TransitionNonNegative(tb, tb.uniqueTags[p], tb.uniqueTags[c]);
    EmissionNonNegative(tb, sm, w, tb.uniqueTags[c]);
    BestPrevSpec(tb, prev, c);
    ProductMonotone(x, prev[p], tr);
    ProductNonNegative(x, tr);
    assert Product(prev[p], tr) == Candidates(tb, prev, c)[p];
    ProductMonotone(Product(x, tr), BestPrev(tb, prev, c).0, em);
    ProductNonNegative(Product(x, tr), em);
  }

  /** The next cell is attained by extending through its backpointer. */
  lemma StepAttains(tb: Tables, sm: Smoother, w: string, prev: seq<real>, c: nat)
    requires NonNegativeTables(tb)
    requires |prev| == |tb.uniqueTags| && c < |tb.uniqueTags|
    requires forall j :: 0 <= j < |prev| ==> prev[j] >= 0.0
    requires tb.uniqueTags[c] != StartTag
    ensures var b := NextBack(tb, prev, c);
      NextCell(tb, sm, w, prev, c) ==
        Product(Product(prev[b], Transition(tb, tb.uniqueTags[b], tb.uniqueTags[c])), Emission(tb, sm, w, tb.uniqueTags[c]))
  {
    BestPrevValue(tb, sm, w, prev, c);
  }

  /** Column 0 bounds every path's first step. */
  lemma DominatesFirst(tb: Tables, sm: Smoother, s: Sentence, q: seq<nat>)
    requires Decodable(tb) && ValidPath(tb, s, q) && 0 < |s|
    ensures 0.0 <= PathScore(tb, sm, s, q, 0) <= Column(tb, sm, s, 0)[q[0]]
  {
    ColumnCell(tb, sm, s, 0, q[0]);
    FirstCellNonNegative(tb, sm, s[0], q[0]);
  }

  /** A bound on the first m+1 steps of a path carries over to the first m+2. */
  lemma DominatesStep(tb: Tables, sm: Smoother, s: Sentence, q: seq<nat>, m: nat)
    requires Decodable(tb) && ValidPath(tb, s, q) && m + 1 < |s|
    requires 0.0 <= PathScore(tb, sm, s, q, m) <= Column(tb, sm, s, m)[q[m]]
    ensures 0.0 <= PathScore(tb, sm, s, q, m + 1) <= Column(tb, sm, s, m + 1)[q[m + 1]]
  {
    var c := q[m + 1];
    var prev := Column(tb, sm, s, m);
    ColumnCell(tb, sm, s, m + 1, c);
    if tb.uniqueTags[c] != StartTag {
      ColumnNonNegative(tb, sm, s, m);
      StepDominates(tb, sm, s[m + 1], prev, c, q[m], PathScore(tb, sm, s, q, m));
    }
  }

  /** Every path scores at most the column cell it ends in, and never below 0. */
  lemma {:induction false} ColumnDominates(tb: Tables, sm: Smoother, s: Sentence, q: seq<nat>, i: nat)
    requires Decodable(tb) && ValidPath(tb, s, q) && i < |s|
    ensures 0.0 <= PathScore(tb, sm, s, q, i) <= Column(tb, sm, s, i)[q[i]]
    decreases i
  {
    if i == 0 {
      DominatesFirst(tb, sm, s, q);
    } else {
      var m: nat := i - 1;
      ColumnDominates(tb, sm, s, q, m);
      DominatesStep(tb, sm, s, q, m);
    }
  }

  /** A path that follows the backpointers from k-1 to k keeps its score equal to its cell. */
  lemma AttainsStep(tb: Tables, sm: Smoother, s: Sentence, q: seq<nat>, k: nat)
    requires Decodable(tb) && ValidPath(tb, s, q) && 0 < k < |s|
    requires q[k - 1] == NextBack(tb, Column(tb, sm, s, k - 1), q[k])
    requires PathScore(tb, sm, s, q, k - 1) == Column(tb, sm, s, k - 1)[q[k - 1]]
    ensures PathScore(tb, sm, s, q, k) == Column(tb, sm, s, k)[q[k]]
  {
    var c := q[k];
    var prev := Column(tb, sm, s, k - 1);
    ColumnCell(tb, sm, s, k, c);
    if tb.uniqueTags[c] != StartTag {
      ColumnNonNegative(tb, sm, s, k - 1);
      StepAttains(tb, sm, s[k], prev, c);
    }
  }

  /** The states of the backtrace form a path over the tag rows. */
  lemma StatesValid(tb: Tables, sm: Smoother, s: Sentence)
    requires Decodable(tb)
    ensures ValidPath(tb, s, States(tb, sm, s))
  {
    var q := States(tb, sm, s);
    forall j | 0 <= j < |q| ensures q[j] < |tb.uniqueTags| {
      assert q[j] == State(tb, sm, s, j);
    }
  }

  /** Each state of the backtrace is the backpointer of the next. */
  lemma StatesFollowBack(tb: Tables, sm: Smoother, s: Sentence, k: nat)
    requires Decodable(tb) && 0 < k < |s|
    ensures States(tb, sm, s)[k - 1] == NextBack(tb, Column(tb, sm, s, k - 1), States(tb, sm, s)[k])
  {
    StatesAt(tb, sm, s, k - 1);
    StatesAt(tb, sm, s, k);
    StateStep(tb, sm, s, k);
  }

  /** Position k of the state sequence is the state at k. */
  lemma StatesAt(tb: Tables, sm: Smoother, s: Sentence, k: nat)
    requires Decodable(tb) && k < |s|
    ensures States(tb, sm, s)[k] == State(tb, sm, s, k)
  {
  }

  /** Before the last position, the state is the backpointer of the next state. */
  lemma StateStep(tb: Tables, sm: Smoother, s: Sentence, k: nat)
    requires Decodable(tb) && 0 < k < |s|
    ensures State(tb, sm, s, k - 1) == NextBack(tb, Column(tb, sm, s, k - 1), State(tb, sm, s, k))
  {
  }

  /** The backtraced path scores exactly its cell, position by position. */
  lemma {:induction false} DecodedScore(tb: Tables, sm: Smoother, s: Sentence, k: nat)
    requires Decodable(tb) && k < |s|
    ensures ValidPath(tb, s, States(tb, sm, s))
    ensures PathScore(tb, sm, s, States(tb, sm, s), k) == Column(tb, sm, s, k)[State(tb, sm, s, k)]
    decreases k
  {
    var q := States(tb, sm, s);
    StatesValid(tb, sm, s);
    assert q[k] == State(tb, sm, s, k);
    if k == 0 {
      ColumnCell(tb, sm, s, 0, q[0]);
    } else {
      var m: nat := k - 1;
      DecodedScore(tb, sm, s, m);
      StatesValid(tb, sm, s);
      StatesFollowBack(tb, sm, s, m + 1);
      AttainsStep(tb, sm, s, q, m + 1);
    }
  }

  /** No row of the last column, `<s>` or not, scores more than the end state. */
  lemma EndDominates(tb: Tables, sm: Smoother, s: Sentence, p: nat)
    requires Decodable(tb) && |s| > 0 && p < |tb.uniqueTags|
    ensures Column(tb, sm, s, |s| - 1)[p] <= Column(tb, sm, s, |s| - 1)[State(tb, sm, s, |s| - 1)]
  {
    if tb.uniqueTags[p] != StartTag {
      EndStateChoice(tb, sm, s);
    } else {
      StartRows(tb, sm, s, |s| - 1, p);
      ColumnNonNegative(tb, sm, s, |s| - 1);
    }
  }

  /**
   * The decoder is optimal: no tag path scores more than the backtraced one.
   * Paths through `<s>` score 0, the `<s>` rows of the recurrence.
   */
  lemma DecodeOptimal(tb: Tables, sm: Smoother, s: Sentence, q: seq<nat>)
    requires Decodable(tb) && |s| > 0 && ValidPath(tb, s, q)
    ensures ValidPath(tb, s, States(tb, sm, s))
    ensures PathScore(tb, sm, s, q, |s| - 1) <= PathScore(tb, sm, s, States(tb, sm, s), |s| - 1)
  {
    DecodedScore(tb, sm, s, |s| - 1);
    ColumnDominates(tb, sm, s, q, |s| - 1);
    EndDominates(tb, sm, s, q[|s| - 1]);
  }
}
