/**
 * The four frequency tables that indexCorpus fills in one pass over a tagged
 * corpus (word, tag, word/tag pair, previous-tag/current-tag bigram), the
 * counter lookups, and what the filled tables count.
 */
module FreqTables {
  import opened Tokens

  /** A table lookup that reads a missing key as 0 (the count* helpers). */
  function Get<K>(m: map<K, nat>, k: K): nat {
    if k in m then m[k] else 0
  }

  /** incrementFreqTable: put key -> old count + 1, a fresh key getting 1. */
  function Inc<K>(m: map<K, nat>, k: K): map<K, nat> {
    m[k := Get(m, k) + 1]
  }

  /** The key is added, its count goes up by one, and no other count changes. */
  lemma IncSpec<K>(m: map<K, nat>, k: K)
    ensures Inc(m, k).Keys == m.Keys + {k}
    ensures Get(Inc(m, k), k) == Get(m, k) + 1
    ensures forall k' :: k' != k ==> Get(Inc(m, k), k') == Get(m, k')
  {
  }

  /** Every stored count is at least 1. */
  predicate Positive<K>(m: map<K, nat>) {
    forall k :: k in m ==> m[k] >= 1
  }

  /** The four count tables; pair keys stand for the source's `a/b` string keys. */
  datatype Counts = Counts(
    wordFreq: map<string, nat>,
    tagFreq: map<string, nat>,
    wordTagFreq: map<(string, string), nat>,
    prevCurrTagFreq: map<(string, string), nat>)

  const NoCounts: Counts := Counts(map[], map[], map[], map[])

  function CountWord(c: Counts, word: string): nat {
    Get(c.wordFreq, word)
  }

  function CountTag(c: Counts, tag: string): nat {
    Get(c.tagFreq, tag)
  }

  function CountWordTag(c: Counts, word: string, tag: string): nat {
    Get(c.wordTagFreq, (word, tag))
  }

  function CountPrevCurrTag(c: Counts, prevTag: string, currTag: string): nat {
    Get(c.prevCurrTagFreq, (prevTag, currTag))
  }

  /** The tag before position `index`: the start sentinel at position 0. */
  function PrevTag(sentence: Sentence, index: nat): string
    requires TaggedSentence(sentence) && index < |sentence|
  {
    if index == 0 then StartTag else TagOf(sentence[index - 1])
  }

  /** One token of a sentence: its word, its tag, the tag before it, and whether it opens the sentence. */
  datatype Event = Event(word: string, tag: string, prevTag: string, first: bool)

  function EventAt(sentence: Sentence, index: nat): Event
    requires TaggedSentence(sentence) && index < |sentence|
  {
    Event(WordOf(sentence[index]), TagOf(sentence[index]), PrevTag(sentence, index), index == 0)
  }

  /** The tables after counting one event. */
  function AddEvent(c: Counts, e: Event): Counts {
    var tagFreq := Inc(c.tagFreq, e.tag);
    Counts(
      Inc(c.wordFreq, e.word),
      if e.first then Inc(tagFreq, StartTag) else tagFreq,
      Inc(c.wordTagFreq, (e.word, e.tag)),
      Inc(c.prevCurrTagFreq, (e.prevTag, e.tag)))
  }

  /**
   * The body of indexCorpus's inner loop for the token at `index`: split it,
   * count its word, its tag (and the start tag before the first token), its
   * word/tag pair and its previous-tag/tag bigram.
   */
  function AddToken(c: Counts, sentence: Sentence, index: nat): Counts
    requires TaggedSentence(sentence) && index < |sentence|
  {
    AddEvent(c, EventAt(sentence, index))
  }

  /** The counts after the first `n` tokens of `sentence` were added to `c`. */
  function IndexTokens(c: Counts, sentence: Sentence, n: nat): Counts
    requires TaggedSentence(sentence) && n <= |sentence|
  {
    if n == 0 then c else AddToken(IndexTokens(c, sentence, n - 1), sentence, n - 1)
  }

  /** The counts indexCorpus builds from the whole corpus, sentence after sentence. */
  function Index(corpus: Corpus): Counts
    requires TaggedCorpus(corpus)
  {
    if corpus == [] then NoCounts
    else
      var last := corpus[|corpus| - 1];
      IndexTokens(Index(corpus[..|corpus| - 1]), last, |last|)
  }

  function TokenCount(corpus: Corpus): nat {
    if corpus == [] then 0 else TokenCount(corpus[..|corpus| - 1]) + |corpus[|corpus| - 1]|
  }

  function NonEmptyCount(corpus: Corpus): nat {
    if corpus == [] then 0
    else NonEmptyCount(corpus[..|corpus| - 1]) + (if |corpus[|corpus| - 1]| > 0 then 1 else 0)
  }

  // ---------------------------------------------------------------------
  // Reference definition: the corpus as a flat sequence of events, and
  // the number of events a key matches.
  // ---------------------------------------------------------------------

  function SentenceEvents(sentence: Sentence, n: nat): (es: seq<Event>)
    requires TaggedSentence(sentence) && n <= |sentence|
    ensures |es| == n
  {
    if n == 0 then [] else SentenceEvents(sentence, n - 1) + [EventAt(sentence, n - 1)]
  }

  function Events(corpus: Corpus): (es: seq<Event>)
    requires TaggedCorpus(corpus)
  {
    if corpus == [] then []
    else
      var last := corpus[|corpus| - 1];
      Events(corpus[..|corpus| - 1]) + SentenceEvents(last, |last|)
  }

  /** What a table entry counts. */
  datatype Key =
    | WordKey(w: string)
    | TagKey(t: string)
    | WordTagKey(w: string, t: string)
    | BigramKey(p: string, t: string)
    | PrevKey(p: string)
    | FirstKey

  predicate Matches(e: Event, k: Key) {
    match k
    case WordKey(w) => e.word == w
    case TagKey(t) => e.tag == t
    case WordTagKey(w, t) => e.word == w && e.tag == t
    case BigramKey(p, t) => e.prevTag == p && e.tag == t
    case PrevKey(p) => e.prevTag == p
    case FirstKey => e.first
  }

  /** The number of events that `k` matches. */
  function Occurrences(es: seq<Event>, k: Key): nat {
    if es == [] then 0
    else Occurrences(es[..|es| - 1], k) + (if Matches(es[|es| - 1], k) then 1 else 0)
  }

  lemma {:induction false} OccurrencesAppend(a: seq<Event>, b: seq<Event>, k: Key)
    ensures Occurrences(a + b, k) == Occurrences(a, k) + Occurrences(b, k)
    decreases |b|
  {
    if b == [] {
      assert a + b == a;
    } else {
      OccurrencesAppend(a, b[..|b| - 1], k);
      assert (a + b)[..|a + b| - 1] == a + b[..|b| - 1];
    }
  }

  /** A key that matches whenever `k1` does counts at least as often. */
  lemma {:induction false} OccurrencesMonotone(es: seq<Event>, k1: Key, k2: Key)
    requires forall e :: Matches(e, k1) ==> Matches(e, k2)
    ensures Occurrences(es, k1) <= Occurrences(es, k2)
    decreases |es|
  {
    if es != [] {
      OccurrencesMonotone(es[..|es| - 1], k1, k2);
    }
  }

  /** wordFreq[w] is the number of events with word w. */
  ghost predicate WordsAgree(m: map<string, nat>, es: seq<Event>) {
    forall w :: Get(m, w) == Occurrences(es, WordKey(w))
  }

  /** tagFreq[t] is the number of events tagged t, plus the sentence openings for the start tag. */
  ghost predicate TagsAgree(m: map<string, nat>, es: seq<Event>) {
    forall t :: Get(m, t) ==
      Occurrences(es, TagKey(t)) + (if t == StartTag then Occurrences(es, FirstKey) else 0)
  }

  /** wordTagFreq[(w, t)] is the number of events w/t. */
  ghost predicate PairsAgree(m: map<(string, string), nat>, es: seq<Event>) {
    forall w, t :: Get(m, (w, t)) == Occurrences(es, WordTagKey(w, t))
  }

  /** prevCurrTagFreq[(p, t)] is the number of events tagged t after a p. */
  ghost predicate BigramsAgree(m: map<(string, string), nat>, es: seq<Event>) {
    forall p, t :: Get(m, (p, t)) == Occurrences(es, BigramKey(p, t))
  }

  /** The four tables count exactly the events, and store only positive counts. */
  ghost predicate Agrees(c: Counts, es: seq<Event>) {
    && WordsAgree(c.wordFreq, es)
    && TagsAgree(c.tagFreq, es)
    && PairsAgree(c.wordTagFreq, es)
    && BigramsAgree(c.prevCurrTagFreq, es)
    && Positive(c.wordFreq) && Positive(c.tagFreq)
    && Positive(c.wordTagFreq) && Positive(c.prevCurrTagFreq)
  }

  lemma OccurrencesSnoc(es: seq<Event>, e: Event, k: Key)
    ensures Occurrences(es + [e], k) == Occurrences(es, k) + (if Matches(e, k) then 1 else 0)
  {
    assert (es + [e])[..|es|] == es;
  }

  lemma PositiveInc<K(!new)>(m: map<K, nat>, k: K)
    requires Positive(m)
    ensures Positive(Inc(m, k))
  {
    var r := Inc(m, k);
    forall k' | k' in r ensures r[k'] >= 1 {
      assert Get(r, k') == r[k'];
    }
  }

  lemma WordsSnoc(m: map<string, nat>, es: seq<Event>, e: Event)
    requires WordsAgree(m, es)
    ensures WordsAgree(Inc(m, e.word), es + [e])
  {
    forall w ensures Get(Inc(m, e.word), w) == Occurrences(es + [e], WordKey(w)) {
      OccurrencesSnoc(es, e, WordKey(w));
    }
  }

  lemma TagsSnoc(m: map<string, nat>, es: seq<Event>, e: Event)
    requires TagsAgree(m, es)
    ensures TagsAgree(if e.first then Inc(Inc(m, e.tag), StartTag) else Inc(m, e.tag), es + [e])
  {
    var r := if e.first then Inc(Inc(m, e.tag), StartTag) else Inc(m, e.tag);
    OccurrencesSnoc(es, e, FirstKey);
    forall t ensures Get(r, t) ==
      Occurrences(es + [e], TagKey(t)) + (if t == StartTag then Occurrences(es + [e], FirstKey) else 0)
    {
      OccurrencesSnoc(es, e, TagKey(t));
    }
  }

  lemma PairsSnoc(m: map<(string, string), nat>, es: seq<Event>, e: Event)
    requires PairsAgree(m, es)
    ensures PairsAgree(Inc(m, (e.word, e.tag)), es + [e])
  {
    forall w, t ensures Get(Inc(m, (e.word, e.tag)), (w, t)) == Occurrences(es + [e], WordTagKey(w, t)) {
      OccurrencesSnoc(es, e, WordTagKey(w, t));
    }
  }

  lemma BigramsSnoc(m: map<(string, string), nat>, es: seq<Event>, e: Event)
    requires BigramsAgree(m, es)
    ensures BigramsAgree(Inc(m, (e.prevTag, e.tag)), es + [e])
  {
    forall p, t ensures Get(Inc(m, (e.prevTag, e.tag)), (p, t)) == Occurrences(es + [e], BigramKey(p, t)) {
      OccurrencesSnoc(es, e, BigramKey(p, t));
    }
  }

  /** The tables after counting the events `es`, one after the other, on top of `c`. */
  function Tally(c: Counts, es: seq<Event>): Counts {
    if es == [] then c else AddEvent(Tally(c, es[..|es| - 1]), es[|es| - 1])
  }

  /** Counting one more event keeps the tables in agreement with the events. */
  lemma AddEventAgrees(c: Counts, es: seq<Event>, e: Event)
    requires Agrees(c, es)
    ensures Agrees(AddEvent(c, e), es + [e])
  {
    WordsSnoc(c.wordFreq, es, e);
    TagsSnoc(c.tagFreq, es, e);
    PairsSnoc(c.wordTagFreq, es, e);
    BigramsSnoc(c.prevCurrTagFreq, es, e);
    PositiveInc(c.wordFreq, e.word);
    PositiveInc(c.tagFreq, e.tag);
    PositiveInc(Inc(c.tagFreq, e.tag), StartTag);
    PositiveInc(c.wordTagFreq, (e.word, e.tag));
    PositiveInc(c.prevCurrTagFreq, (e.prevTag, e.tag));
  }

  lemma {:induction false} TallyAgrees(es: seq<Event>)
    ensures Agrees(Tally(NoCounts, es), es)
    decreases |es|
  {
    if es != [] {
      var init := es[..|es| - 1];
      TallyAgrees(init);
      AddEventAgrees(Tally(NoCounts, init), init, es[|es| - 1]);
      assert init + [es[|es| - 1]] == es;
    }
  }

  /** Tallying a concatenation is tallying its two parts in turn. */
  lemma {:induction false} TallyAppend(c: Counts, a: seq<Event>, b: seq<Event>)
    ensures Tally(c, a + b) == Tally(Tally(c, a), b)
    decreases |b|
  {
    if b == [] {
      assert a + b == a;
    } else {
      TallyAppend(c, a, b[..|b| - 1]);
      assert (a + b)[..|a + b| - 1] == a + b[..|b| - 1];
    }
  }

  lemma {:induction false} IndexTokensTally(c: Counts, sentence: Sentence, n: nat)
    requires TaggedSentence(sentence) && n <= |sentence|
    ensures IndexTokens(c, sentence, n) == Tally(c, SentenceEvents(sentence, n))
  {
    if n > 0 {
      var m: nat := n - 1;
      IndexTokensTally(c, sentence, m);
      var es := SentenceEvents(sentence, m + 1);
      assert es == SentenceEvents(sentence, m) + [EventAt(sentence, m)];
      assert es[..m] == SentenceEvents(sentence, m);
      assert IndexTokens(c, sentence, m + 1) == AddToken(IndexTokens(c, sentence, m), sentence, m);
    }
  }

  /** Indexing sentence after sentence is tallying the flattened event sequence. */
  lemma {:induction false} IndexTally(corpus: Corpus)
    requires TaggedCorpus(corpus)
    ensures Index(corpus) == Tally(NoCounts, Events(corpus))
  {
    if corpus != [] {
      var init := corpus[..|corpus| - 1];
      var last := corpus[|corpus| - 1];
      IndexTally(init);
      IndexTokensTally(Index(init), last, |last|);
      TallyAppend(NoCounts, Events(init), SentenceEvents(last, |last|));
    }
  }

  /**
   * The index counts what it is meant to: wordFreq[w] is the number of tokens
   * with word w, wordTagFreq[(w, t)] of tokens w/t, prevCurrTagFreq[(p, t)] of
   * tokens tagged t whose predecessor is tagged p (or is the start), and
   * tagFreq[t] the number of tokens tagged t plus, for the start tag, one per
   * non-empty sentence. Every stored count is positive.
   */
  lemma IndexAgrees(corpus: Corpus)
    requires TaggedCorpus(corpus)
    ensures Agrees(Index(corpus), Events(corpus))
  {
    IndexTally(corpus);
    TallyAgrees(Events(corpus));
  }

  lemma {:induction false} SentenceEventsShape(sentence: Sentence, n: nat)
    requires TaggedSentence(sentence) && n <= |sentence|
    ensures Occurrences(SentenceEvents(sentence, n), FirstKey) == (if n > 0 then 1 else 0)
    ensures n > 0 ==>
      Occurrences(SentenceEvents(sentence, n), PrevKey(StartTag)) >= 1
  {
    if n > 0 {
      var m: nat := n - 1;
      SentenceEventsShape(sentence, m);
      assert SentenceEvents(sentence, m + 1) == SentenceEvents(sentence, m) + [EventAt(sentence, m)];
      OccurrencesSnoc(SentenceEvents(sentence, m), EventAt(sentence, m), FirstKey);
      OccurrencesSnoc(SentenceEvents(sentence, m), EventAt(sentence, m), PrevKey(StartTag));
    }
  }

  /** There is one event per token and one sentence-opening event per non-empty sentence. */
  lemma {:induction false} EventsShape(corpus: Corpus)
    requires TaggedCorpus(corpus)
    ensures |Events(corpus)| == TokenCount(corpus)
    ensures Occurrences(Events(corpus), FirstKey) == NonEmptyCount(corpus)
  {
    if corpus != [] {
      var init := corpus[..|corpus| - 1];
      var last := corpus[|corpus| - 1];
      EventsShape(init);
      SentenceEventsShape(last, |last|);
      OccurrencesAppend(Events(init), SentenceEvents(last, |last|), FirstKey);
    }
  }

  /**
   * Within one sentence every token but the last is the predecessor of the
   * next one, and the start tag is the predecessor of the first.
   */
  lemma {:induction false} SentencePrevBalance(sentence: Sentence, n: nat, p: string)
    requires TaggedSentence(sentence) && n <= |sentence|
    ensures var es := SentenceEvents(sentence, n);
      Occurrences(es, PrevKey(p)) + (if n > 0 && TagOf(sentence[n - 1]) == p then 1 else 0)
      == Occurrences(es, TagKey(p)) + (if n > 0 && p == StartTag then 1 else 0)
  {
    if n > 0 {
      var m: nat := n - 1;
      SentencePrevBalance(sentence, m, p);
      var es := SentenceEvents(sentence, m);
      assert SentenceEvents(sentence, m + 1) == es + [EventAt(sentence, m)];
      OccurrencesSnoc(es, EventAt(sentence, m), PrevKey(p));
      OccurrencesSnoc(es, EventAt(sentence, m), TagKey(p));
    }
  }

  /** A tag is a predecessor no more often than it occurs (the start tag once per sentence). */
  lemma {:induction false} PrevBound(corpus: Corpus, p: string)
    requires TaggedCorpus(corpus)
    ensures Occurrences(Events(corpus), PrevKey(p)) <=
      Occurrences(Events(corpus), TagKey(p)) +
      (if p == StartTag then Occurrences(Events(corpus), FirstKey) else 0)
  {
    if corpus != [] {
      var init := corpus[..|corpus| - 1];
      var last := corpus[|corpus| - 1];
      PrevBound(init, p);
      var se := SentenceEvents(last, |last|);
      SentencePrevBalance(last, |last|, p);
      SentenceEventsShape(last, |last|);
      OccurrencesAppend(Events(init), se, PrevKey(p));
      OccurrencesAppend(Events(init), se, TagKey(p));
      OccurrencesAppend(Events(init), se, FirstKey);
    }
  }

  /**
   * The bounds the probability tables rely on: a bigram (p, t) is counted no
   * more often than p, and a pair (w, t) no more often than t; a counted pair
   * has both parts in the tables.
   */
  lemma CountBounds(corpus: Corpus, w: string, p: string, t: string)
    requires TaggedCorpus(corpus)
    ensures CountPrevCurrTag(Index(corpus), p, t) <= CountTag(Index(corpus), p)
    ensures CountWordTag(Index(corpus), w, t) <= CountTag(Index(corpus), t)
    ensures CountPrevCurrTag(Index(corpus), p, t) > 0 ==>
      p in Index(corpus).tagFreq && t in Index(corpus).tagFreq
    ensures CountWordTag(Index(corpus), w, t) > 0 ==>
      w in Index(corpus).wordFreq && t in Index(corpus).tagFreq
  {
    var es := Events(corpus);
    IndexAgrees(corpus);
    PrevBound(corpus, p);
    OccurrencesMonotone(es, BigramKey(p, t), PrevKey(p));
    OccurrencesMonotone(es, BigramKey(p, t), TagKey(t));
    OccurrencesMonotone(es, WordTagKey(w, t), TagKey(t));
    OccurrencesMonotone(es, WordTagKey(w, t), WordKey(w));
  }

  /** No key of the table holds a separator. */
  ghost predicate PlainKeys(m: map<string, nat>) {
    forall t :: t in m ==> Plain(t)
  }

  predicate Plain(t: string) {
    Separator !in t
  }

  lemma {:induction false} IndexTokensPlain(c: Counts, sentence: Sentence, n: nat)
    requires TaggedSentence(sentence) && n <= |sentence|
    requires PlainKeys(c.tagFreq)
    ensures PlainKeys(IndexTokens(c, sentence, n).tagFreq)
  {
    if n > 0 {
      var m: nat := n - 1;
      IndexTokensPlain(c, sentence, m);
      var d := IndexTokens(c, sentence, m);
      AddTokenTags(d, sentence, m);
      assert IndexTokens(c, sentence, m + 1) == AddToken(d, sentence, m);
      PlainKeysAdd(d.tagFreq, AddToken(d, sentence, m).tagFreq, TagOf(sentence[m]));
    }
  }

  /** A token adds its own tag and, at the start of a sentence, the start tag. */
  lemma AddTokenTags(c: Counts, sentence: Sentence, index: nat)
    requires TaggedSentence(sentence) && index < |sentence|
    ensures AddToken(c, sentence, index).tagFreq.Keys <= c.tagFreq.Keys + {TagOf(sentence[index]), StartTag}
  {
  }

  lemma PlainKeysAdd(d: map<string, nat>, r: map<string, nat>, tag: string)
    requires PlainKeys(d) && Plain(tag)
    requires r.Keys <= d.Keys + {tag, StartTag}
    ensures PlainKeys(r)
  {
    assert Plain(StartTag);
  }

  /**
   * Every indexed tag came out of SplitElement or is the start tag, so none
   * holds a separator: `p/t` string keys and (p, t) pairs determine each other.
   */
  lemma {:induction false} IndexedTagsPlain(corpus: Corpus)
    requires TaggedCorpus(corpus)
    ensures PlainKeys(Index(corpus).tagFreq)
  {
    if corpus != [] {
      var init := corpus[..|corpus| - 1];
      var last := corpus[|corpus| - 1];
      IndexedTagsPlain(init);
      IndexTokensPlain(Index(init), last, |last|);
    }
  }

  // ---------------------------------------------------------------------
  // Totals: the sum of a table's counts.
  // ---------------------------------------------------------------------

  /** A fixed element of a non-empty set. */
  ghost function Pick<K>(keys: set<K>): K
    requires keys != {}
  {
    var k :| k in keys; k
  }

  /** The sum of the counts stored under `keys`. */
  ghost function SumOn<K>(m: map<K, nat>, keys: set<K>): nat
    requires keys <= m.Keys
    decreases keys
  {
    if keys == {} then 0
    else
      var k := Pick(keys);
      m[k] + SumOn(m, keys - {k})
  }

  /** The sum of all counts in a table. */
  ghost function MapSum<K>(m: map<K, nat>): nat {
    SumOn(m, m.Keys)
  }

  lemma {:induction false} SumOnRemove<K>(m: map<K, nat>, keys: set<K>, k: K)
    requires keys <= m.Keys && k in keys
    ensures SumOn(m, keys) == m[k] + SumOn(m, keys - {k})
    decreases keys
  {
    var j := Pick(keys);
    if j != k {
      SumOnRemove(m, keys - {j}, k);
      SumOnRemove(m, keys - {k}, j);
      assert keys - {j} - {k} == keys - {k} - {j};
    }
  }

  lemma {:induction false} SumOnAgree<K>(m1: map<K, nat>, m2: map<K, nat>, keys: set<K>)
    requires keys <= m1.Keys && keys <= m2.Keys
    requires forall k :: k in keys ==> m1[k] == m2[k]
    ensures SumOn(m1, keys) == SumOn(m2, keys)
    decreases keys
  {
    if keys != {} {
      SumOnAgree(m1, m2, keys - {Pick(keys)});
    }
  }

  /** One increment raises the total by one. */
  lemma MapSumInc<K(!new)>(m: map<K, nat>, k: K)
    ensures MapSum(Inc(m, k)) == MapSum(m) + 1
  {
    var m' := Inc(m, k);
    SumOnRemove(m', m'.Keys, k);
    assert m'.Keys - {k} == m.Keys - {k};
    SumOnAgree(m', m, m.Keys - {k});
    if k in m {
      SumOnRemove(m, m.Keys, k);
    } else {
      assert m.Keys - {k} == m.Keys;
    }
  }

  ghost predicate SumsAre(c: Counts, tokens: nat, sentences: nat) {
    && MapSum(c.wordFreq) == tokens
    && MapSum(c.wordTagFreq) == tokens
    && MapSum(c.prevCurrTagFreq) == tokens
    && MapSum(c.tagFreq) == tokens + sentences
  }

  lemma {:induction false} IndexTokensSums(c: Counts, sentence: Sentence, n: nat, tokens: nat, sentences: nat)
    requires TaggedSentence(sentence) && n <= |sentence|
    requires SumsAre(c, tokens, sentences)
    ensures SumsAre(IndexTokens(c, sentence, n), tokens + n, sentences + (if n > 0 then 1 else 0))
  {
    if n > 0 {
      var m: nat := n - 1;
      IndexTokensSums(c, sentence, m, tokens, sentences);
      var d := IndexTokens(c, sentence, m);
      assert IndexTokens(c, sentence, m + 1) == AddToken(d, sentence, m);
      var (word, tag) := SplitElement(sentence[m]);
      MapSumInc(d.wordFreq, word);
      MapSumInc(d.wordTagFreq, (word, tag));
      MapSumInc(d.prevCurrTagFreq, (PrevTag(sentence, m), tag));
      MapSumInc(d.tagFreq, tag);
      MapSumInc(Inc(d.tagFreq, tag), StartTag);
    }
  }

  /**
   * Totals over the whole index: wordFreq, wordTagFreq and prevCurrTagFreq each
   * sum to the number of tokens, tagFreq to that plus one start tag per
   * non-empty sentence.
   */
  lemma {:induction false} IndexSums(corpus: Corpus)
    requires TaggedCorpus(corpus)
    ensures SumsAre(Index(corpus), TokenCount(corpus), NonEmptyCount(corpus))
  {
    if corpus != [] {
      var init := corpus[..|corpus| - 1];
      var last := corpus[|corpus| - 1];
      IndexSums(init);
      IndexTokensSums(Index(init), last, |last|, TokenCount(init), NonEmptyCount(init));
    } else {
      assert NoCounts.wordFreq == map[];
    }
  }

  /**
   * The start tag is counted once per non-empty sentence (plus any token that
   * carries "<s>" as its own tag), and the other tags sum to the tokens not
   * tagged "<s>".
   */
  lemma StartTagCount(corpus: Corpus)
    requires TaggedCorpus(corpus)
    ensures CountTag(Index(corpus), StartTag) ==
      NonEmptyCount(corpus) + Occurrences(Events(corpus), TagKey(StartTag))
    ensures SumOn(Index(corpus).tagFreq, Index(corpus).tagFreq.Keys - {StartTag}) +
      Occurrences(Events(corpus), TagKey(StartTag)) == TokenCount(corpus)
  {
    var c := Index(corpus);
    IndexAgrees(corpus);
    EventsShape(corpus);
    IndexSums(corpus);
    if StartTag in c.tagFreq {
      SumOnRemove(c.tagFreq, c.tagFreq.Keys, StartTag);
    } else {
      assert c.tagFreq.Keys - {StartTag} == c.tagFreq.Keys;
    }
  }
}
