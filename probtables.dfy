/**
 * The sparse maximum-likelihood tables that buildTransitionMatrix and
 * buildEmissionMatrix fill from the counts, and the tables a model holds
 * after training on a corpus.
 */
module ProbTables {
  import opened Tokens
  import opened Ordering
  import opened FreqTables
  import opened Reals

  /** A count divided by a positive count, exactly. */
  function Ratio(num: nat, den: nat): real
    requires den >= 1
  {
    num as real / den as real
  }

  /** A ratio is positive exactly when its numerator is, and at most 1 when the numerator is at most the denominator. */
  lemma RatioBounds(num: nat, den: nat)
    requires den >= 1
    ensures Ratio(num, den) >= 0.0
    ensures Ratio(num, den) > 0.0 <==> num > 0
    ensures num <= den ==> Ratio(num, den) <= 1.0
  {
    var n, d := num as real, den as real;
    DivideMonotone(0.0, n, d);
    if num > 0 {
      DividePositive(n, d);
    }
    if num <= den {
      DivideMonotone(n, d, d);
      DivideSelf(d);
    }
  }

  /** Every tag of the list has a count of at least 1: the denominators of the tables. */
  predicate CountedTags(c: Counts, tags: seq<string>) {
    forall t :: t in tags ==> CountTag(c, t) >= 1
  }

  /**
   * transitionProbMatrix: for every previous tag p and current tag t of the
   * list, count(p, t) / count(p), stored only when positive.
   */
  function TransitionTable(c: Counts, tags: seq<string>): map<(string, string), real>
    requires CountedTags(c, tags)
  {
    map k | k in c.prevCurrTagFreq && k.0 in tags && k.1 in tags
      && Ratio(CountPrevCurrTag(c, k.0, k.1), CountTag(c, k.0)) > 0.0
      :: Ratio(CountPrevCurrTag(c, k.0, k.1), CountTag(c, k.0))
  }

  /**
   * emissionProbMatrix: for every word w of the word list and tag t of the
   * tag list, count(w, t) / count(t), stored only when positive.
   */
  function EmissionTable(c: Counts, words: seq<string>, tags: seq<string>): map<(string, string), real>
    requires CountedTags(c, tags)
  {
    map k | k in c.wordTagFreq && k.0 in words && k.1 in tags
      && Ratio(CountWordTag(c, k.0, k.1), CountTag(c, k.1)) > 0.0
      :: Ratio(CountWordTag(c, k.0, k.1), CountTag(c, k.1))
  }

  /**
   * The transition table holds (p, t) for tags of the list exactly when the
   * bigram was counted, with the ratio of counts as its value, and nothing else.
   */
  lemma TransitionTableSpec(c: Counts, tags: seq<string>, p: string, t: string)
    requires CountedTags(c, tags)
    ensures (p, t) in TransitionTable(c, tags) <==>
      p in tags && t in tags && CountPrevCurrTag(c, p, t) > 0
    ensures (p, t) in TransitionTable(c, tags) ==>
      TransitionTable(c, tags)[(p, t)] == Ratio(CountPrevCurrTag(c, p, t), CountTag(c, p))
  {
    if p in tags && t in tags {
      RatioBounds(CountPrevCurrTag(c, p, t), CountTag(c, p));
    }
  }

  /**
   * The emission table holds (w, t) for words and tags of the lists exactly
   * when the pair was counted, with the ratio of counts as its value.
   */
  lemma EmissionTableSpec(c: Counts, words: seq<string>, tags: seq<string>, w: string, t: string)
    requires CountedTags(c, tags)
    ensures (w, t) in EmissionTable(c, words, tags) <==>
      w in words && t in tags && CountWordTag(c, w, t) > 0
    ensures (w, t) in EmissionTable(c, words, tags) ==>
      EmissionTable(c, words, tags)[(w, t)] == Ratio(CountWordTag(c, w, t), CountTag(c, t))
  {
    if w in words && t in tags {
      RatioBounds(CountWordTag(c, w, t), CountTag(c, t));
    }
  }

  /** Everything a model holds after train: the counts, the two tables and the sorted key lists. */
  datatype Tables = Tables(
    counts: Counts,
    transitionProb: map<(string, string), real>,
    emissionProb: map<(string, string), real>,
    uniqueWords: seq<string>,
    uniqueTags: seq<string>)

  /** Every tag of the sorted tag list was counted at least once: no denominator is 0. */
  lemma SortedTagsCounted(corpus: Corpus)
    requires TaggedCorpus(corpus)
    ensures CountedTags(Index(corpus), SortedKeys(Index(corpus).tagFreq.Keys))
  {
    var c := Index(corpus);
    IndexAgrees(corpus);
    forall t | t in SortedKeys(c.tagFreq.Keys) ensures CountTag(c, t) >= 1 {
      assert t in c.tagFreq;
    }
  }

  /** The state train leaves behind: indexCorpus, then the two table builders. */
  ghost function Trained(corpus: Corpus): Tables
    requires TaggedCorpus(corpus)
  {
    var c := Index(corpus);
    var words := SortedKeys(c.wordFreq.Keys);
    var tags := SortedKeys(c.tagFreq.Keys);
    SortedTagsCounted(corpus);
    Tables(c, TransitionTable(c, tags), EmissionTable(c, words, tags), words, tags)
  }

  /** Tables assembled from the index of a corpus by the two builders and the sorted key lists are the trained tables. */
  lemma TrainedFrom(corpus: Corpus, tb: Tables)
    requires TaggedCorpus(corpus) && tb.counts == Index(corpus)
    requires tb.uniqueWords == SortedKeys(tb.counts.wordFreq.Keys) && tb.uniqueTags == SortedKeys(tb.counts.tagFreq.Keys)
    requires CountedTags(tb.counts, tb.uniqueTags)
    requires tb.transitionProb == TransitionTable(tb.counts, tb.uniqueTags)
    requires tb.emissionProb == EmissionTable(tb.counts, tb.uniqueWords, tb.uniqueTags)
    ensures tb == Trained(corpus)
  {
  }

  /**
   * After training, a transition entry exists for two tags exactly when the
   * bigram occurred; its value count(p, t) / count(p) lies in (0, 1].
   */
  lemma TrainedTransition(corpus: Corpus, p: string, t: string)
    requires TaggedCorpus(corpus)
    ensures var tb := Trained(corpus);
      ((p, t) in tb.transitionProb <==> CountPrevCurrTag(tb.counts, p, t) > 0)
      && ((p, t) in tb.transitionProb ==>
            && CountTag(tb.counts, p) >= 1
            && tb.transitionProb[(p, t)] == Ratio(CountPrevCurrTag(tb.counts, p, t), CountTag(tb.counts, p))
            && 0.0 < tb.transitionProb[(p, t)] <= 1.0)
  {
    var c := Index(corpus);
    var tags := SortedKeys(c.tagFreq.Keys);
    SortedTagsCounted(corpus);
    CountBounds(corpus, "", p, t);
    TransitionTableSpec(c, tags, p, t);
    if CountPrevCurrTag(c, p, t) > 0 {
      RatioBounds(CountPrevCurrTag(c, p, t), CountTag(c, p));
    }
  }

  /**
   * After training, an emission entry exists exactly when the word occurred
   * with the tag; its value count(w, t) / count(t) lies in (0, 1].
   */
  lemma TrainedEmission(corpus: Corpus, w: string, t: string)
    requires TaggedCorpus(corpus)
    ensures var tb := Trained(corpus);
      ((w, t) in tb.emissionProb <==> CountWordTag(tb.counts, w, t) > 0)
      && ((w, t) in tb.emissionProb ==>
            && CountTag(tb.counts, t) >= 1
            && tb.emissionProb[(w, t)] == Ratio(CountWordTag(tb.counts, w, t), CountTag(tb.counts, t))
            && 0.0 < tb.emissionProb[(w, t)] <= 1.0)
  {
    var c := Index(corpus);
    var words := SortedKeys(c.wordFreq.Keys);
    var tags := SortedKeys(c.tagFreq.Keys);
    SortedTagsCounted(corpus);
    CountBounds(corpus, w, "", t);
    EmissionTableSpec(c, words, tags, w, t);
    if CountWordTag(c, w, t) > 0 {
      RatioBounds(CountWordTag(c, w, t), CountTag(c, t));
    }
  }

  /**
   * The key lists of a trained model are sorted, duplicate-free and hold
   * exactly the keys of wordFreq and tagFreq; no listed tag holds a separator.
   */
  lemma TrainedLists(corpus: Corpus)
    requires TaggedCorpus(corpus)
    ensures var tb := Trained(corpus);
      && StrictlySorted(tb.uniqueWords) && StrictlySorted(tb.uniqueTags)
      && (forall w :: w in tb.uniqueWords <==> w in tb.counts.wordFreq)
      && (forall t :: t in tb.uniqueTags <==> t in tb.counts.tagFreq)
      && (forall t :: t in tb.uniqueTags ==> Separator !in t && CountTag(tb.counts, t) >= 1)
  {
    IndexedTagsPlain(corpus);
    SortedTagsCounted(corpus);
  }
}
