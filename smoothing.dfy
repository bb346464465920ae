/**
 * The smoothing schemes test falls back on for a word never seen in
 * training: Laplace (add-one with a factor) and Witten-Bell, as closed-form
 * estimates over the counts, and the choice test makes between them.
 */
module Smoothing {
  import opened FreqTables
  import opened Reals

  /** The smoothing techniques (KNESERNEY is a stub that test replaces by Laplace). */
  datatype Technique = Laplace | WittenBell | KneserNey

  /** A constructed smoother with its parameters. */
  datatype Smoother =
    | LaplaceSmoother(laplaceFactor: nat)
    | WittenBellSmoother(seen: nat, unseen: nat)

  /**
   * The smoother's denominator for a conditioning tag is positive (for
   * Laplace, count + factor * number of tags over naturals is positive).
   */
  predicate Smoothable(sm: Smoother, c: Counts, tag: string) {
    match sm
    case LaplaceSmoother(k) => CountTag(c, tag) > 0 || (k > 0 && |c.tagFreq| > 0)
    case WittenBellSmoother(seen, unseen) => unseen > 0 && CountTag(c, tag) + seen > 0
  }

  lemma LaplaceDenominator(c: Counts, k: nat, tag: string)
    requires CountTag(c, tag) > 0 || (k > 0 && |c.tagFreq| > 0)
    ensures CountTag(c, tag) + k * |c.tagFreq| > 0
  {
    if CountTag(c, tag) == 0 {
      MulAtLeastOne(k, |c.tagFreq|);
    }
  }

  /** Laplace: (count + 1) / (count of the conditioning tag + factor * number of tags). */
  function LaplaceEstimate(c: Counts, k: nat, count: nat, tag: string): real
    requires CountTag(c, tag) > 0 || (k > 0 && |c.tagFreq| > 0)
  {
    LaplaceDenominator(c, k, tag);
    (count + 1) as real / (CountTag(c, tag) + k * |c.tagFreq|) as real
  }

  /** Witten-Bell: seen / (unseen * (count of the conditioning tag + seen)). */
  function WittenBellEstimate(c: Counts, seen: nat, unseen: nat, tag: string): real
    requires unseen > 0 && CountTag(c, tag) + seen > 0
  {
    seen as real / (unseen as real * (CountTag(c, tag) + seen) as real)
  }

  /** getBigramTransition(prevTag, currTag). */
  function SmoothedTransition(sm: Smoother, c: Counts, prevTag: string, currTag: string): real
    requires Smoothable(sm, c, prevTag)
  {
    match sm
    case LaplaceSmoother(k) => LaplaceEstimate(c, k, CountPrevCurrTag(c, prevTag, currTag), prevTag)
    case WittenBellSmoother(seen, unseen) => WittenBellEstimate(c, seen, unseen, prevTag)
  }

  /** getBigramEmission(word, tag). */
  function SmoothedEmission(sm: Smoother, c: Counts, word: string, tag: string): real
    requires Smoothable(sm, c, tag)
  {
    match sm
    case LaplaceSmoother(k) => LaplaceEstimate(c, k, CountWordTag(c, word, tag), tag)
    case WittenBellSmoother(seen, unseen) => WittenBellEstimate(c, seen, unseen, tag)
  }

  /**
   * The smoother test builds: Laplace with factor 1 for LAPLACE and for the
   * default branch, and for WITTENBELL the size of the whole training
   * vocabulary as `seen` and the number of test words outside it as `unseen`.
   */
  function SmootherFor(technique: Technique, c: Counts, testWords: set<string>): Smoother {
    match technique
    case WittenBell => WittenBellSmoother(|c.wordFreq.Keys|, |testWords - c.wordFreq.Keys|)
    case _ => LaplaceSmoother(1)
  }

  /**
   * Laplace estimates are strictly positive, and at most 1 when the counted
   * event is no more frequent than its conditioning tag and there is a tag.
   */
  lemma LaplaceBounds(c: Counts, k: nat, count: nat, tag: string)
    requires CountTag(c, tag) > 0 || (k > 0 && |c.tagFreq| > 0)
    ensures LaplaceEstimate(c, k, count, tag) > 0.0
    ensures count <= CountTag(c, tag) && k >= 1 && |c.tagFreq| >= 1 ==> LaplaceEstimate(c, k, count, tag) <= 1.0
  {
    var den := CountTag(c, tag) + k * |c.tagFreq|;
    LaplaceDenominator(c, k, tag);
    assert LaplaceEstimate(c, k, count, tag) == (count + 1) as real / den as real;
    DividePositive((count + 1) as real, den as real);
    if count <= CountTag(c, tag) && k >= 1 && |c.tagFreq| >= 1 {
      assert k * |c.tagFreq| >= 1 by {
        MulAtLeastOne(k, |c.tagFreq|);
      }
      assert count + 1 <= den;
      DivideMonotone((count + 1) as real, den as real, den as real);
      DivideSelf(den as real);
    }
  }

  lemma MulAtLeastOne(a: nat, b: nat)
    requires a >= 1 && b >= 1
    ensures a * b >= 1
  {
  }

  /** Witten-Bell estimates lie in [0, 1], and are positive exactly when a word was seen in training. */
  lemma WittenBellBounds(c: Counts, seen: nat, unseen: nat, tag: string)
    requires unseen > 0 && CountTag(c, tag) + seen > 0
    ensures 0.0 <= WittenBellEstimate(c, seen, unseen, tag) <= 1.0
    ensures WittenBellEstimate(c, seen, unseen, tag) > 0.0 <==> seen > 0
  {
    var t := (CountTag(c, tag) + seen) as real;
    var den := unseen as real * t;
    ScaleAtLeast(unseen as real, t);
    assert 0.0 <= seen as real <= t <= den && den > 0.0;
    DivideMonotone(0.0, seen as real, den);
    DivideMonotone(seen as real, den, den);
    DivideSelf(den);
    if seen > 0 {
      DividePositive(seen as real, den);
    }
  }

  /**
   * A smoothed emission is never negative; Laplace's is positive and, with a
   * factor of at least 1, at most 1 when the pair is no more frequent than its
   * tag; Witten-Bell's is at most 1.
   */
  lemma SmoothedEmissionBounds(sm: Smoother, c: Counts, word: string, tag: string)
    requires Smoothable(sm, c, tag)
    ensures SmoothedEmission(sm, c, word, tag) >= 0.0
    ensures sm.LaplaceSmoother? ==> SmoothedEmission(sm, c, word, tag) > 0.0
    ensures (sm.LaplaceSmoother? && sm.laplaceFactor >= 1 && |c.tagFreq| >= 1
      && CountWordTag(c, word, tag) <= CountTag(c, tag)) ==> SmoothedEmission(sm, c, word, tag) <= 1.0
    ensures sm.WittenBellSmoother? ==> SmoothedEmission(sm, c, word, tag) <= 1.0
  {
    match sm
    case LaplaceSmoother(k) => LaplaceBounds(c, k, CountWordTag(c, word, tag), tag);
    case WittenBellSmoother(seen, unseen) => WittenBellBounds(c, seen, unseen, tag);
  }

  /** The transition estimate obeys the same bounds. */
  lemma SmoothedTransitionBounds(sm: Smoother, c: Counts, prevTag: string, currTag: string)
    requires Smoothable(sm, c, prevTag)
    ensures SmoothedTransition(sm, c, prevTag, currTag) >= 0.0
    ensures sm.LaplaceSmoother? ==> SmoothedTransition(sm, c, prevTag, currTag) > 0.0
    ensures (sm.LaplaceSmoother? && sm.laplaceFactor >= 1 && |c.tagFreq| >= 1
      && CountPrevCurrTag(c, prevTag, currTag) <= CountTag(c, prevTag))
      ==> SmoothedTransition(sm, c, prevTag, currTag) <= 1.0
    ensures sm.WittenBellSmoother? ==> SmoothedTransition(sm, c, prevTag, currTag) <= 1.0
  {
    match sm
    case LaplaceSmoother(k) => LaplaceBounds(c, k, CountPrevCurrTag(c, prevTag, currTag), prevTag);
    case WittenBellSmoother(seen, unseen) => WittenBellBounds(c, seen, unseen, prevTag);
  }

  /**
   * The smoother test builds can be applied to every counted tag whenever the
   * word it is asked about is a test word never seen in training: Laplace
   * always, Witten-Bell because that word makes `unseen` at least 1.
   */
  lemma SmootherForApplies(technique: Technique, c: Counts, testWords: set<string>, word: string, tag: string)
    requires CountTag(c, tag) >= 1
    requires word in testWords && word !in c.wordFreq
    ensures Smoothable(SmootherFor(technique, c, testWords), c, tag)
  {
    if technique == WittenBell {
      assert word in testWords - c.wordFreq.Keys;
    }
  }
}
