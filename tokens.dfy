/**
 * Tokens of a tagged corpus: a token is `word/tag`, split at the LAST
 * separator. A sentence is a sequence of tokens and a corpus a sequence
 * of sentences.
 */
module Tokens {

  /** The separator between a word and its tag. */
  const Separator: char := '/'

  /** The sentinel tag that precedes the first token of every sentence. */
  const StartTag: string := "<s>"

  type Sentence = seq<string>
  type Corpus = seq<Sentence>

  predicate HasSeparator(token: string) {
    Separator in token
  }

  /** Every token of the sentence can be split into a word and a tag. */
  predicate TaggedSentence(sentence: Sentence) {
    forall k :: 0 <= k < |sentence| ==> HasSeparator(sentence[k])
  }

  predicate TaggedCorpus(corpus: Corpus) {
    forall i :: 0 <= i < |corpus| ==> TaggedSentence(corpus[i])
  }

  /** Every sentence holds at least one token. */
  predicate NoEmptySentence(corpus: Corpus) {
    forall i :: 0 <= i < |corpus| ==> |corpus[i]| > 0
  }

  /** Position of the last occurrence of `c` in `s`, or -1 (String.lastIndexOf). */
  function LastIndexOf(s: string, c: char): (r: int)
    ensures -1 <= r < |s|
  {
    if |s| == 0 then -1
    else if s[|s| - 1] == c then |s| - 1
    else LastIndexOf(s[..|s| - 1], c)
  }

  /** The position found holds `c`, no later position does, and -1 means `c` is absent. */
  lemma {:induction false} LastIndexOfSpec(s: string, c: char)
    ensures LastIndexOf(s, c) >= 0 ==> s[LastIndexOf(s, c)] == c
    ensures forall k :: LastIndexOf(s, c) < k < |s| ==> s[k] != c
    ensures LastIndexOf(s, c) == -1 <==> c !in s
    decreases |s|
  {
    if |s| > 0 && s[|s| - 1] != c {
      var init := s[..|s| - 1];
      LastIndexOfSpec(init, c);
      if c in s {
        var k :| 0 <= k < |s| && s[k] == c;
        assert init[k] == c;
      }
    }
  }

  /** `s` with every occurrence of `c` removed (String.replace(c, "")). */
  function RemoveAll(s: string, c: char): (r: string)
    ensures |r| <= |s|
  {
    if |s| == 0 then []
    else if s[0] == c then RemoveAll(s[1..], c)
    else [s[0]] + RemoveAll(s[1..], c)
  }

  /** Nothing is removed from a string without `c`. */
  lemma {:induction false} RemoveAllAbsent(s: string, c: char)
    requires c !in s
    ensures RemoveAll(s, c) == s
    decreases |s|
  {
    if |s| > 0 {
      assert c !in s[1..];
      RemoveAllAbsent(s[1..], c);
    }
  }

  /** No `c` survives the removal. */
  lemma {:induction false} RemoveAllRemoves(s: string, c: char)
    ensures c !in RemoveAll(s, c)
    decreases |s|
  {
    if |s| > 0 {
      RemoveAllRemoves(s[1..], c);
    }
  }

  /** The token `word/tag` built from its two parts. */
  function Join(word: string, tag: string): string {
    word + [Separator] + tag
  }

  /**
   * The facts about a token that splitting relies on: it has a last separator,
   * nothing after it is a separator (so removing separators from the suffix
   * that starts there just drops the separator itself), and the token is the
   * part before, the separator and the part after.
   */
  lemma SplitParts(token: string)
    requires HasSeparator(token)
    ensures var i := LastIndexOf(token, Separator);
      && 0 <= i
      && Separator !in token[i + 1..]
      && RemoveAll(token[i..], Separator) == token[i + 1..]
      && token == token[..i] + [Separator] + token[i + 1..]
  {
    var i := LastIndexOf(token, Separator);
    LastIndexOfSpec(token, Separator);
    AbsentAfter(token, i, Separator);
    SuffixCons(token, i);
    SplitAt(token, i);
    RemoveAllAbsent(token[i + 1..], Separator);
  }

  /** A non-empty suffix is its first element followed by the next suffix. */
  lemma SuffixCons<T>(d: seq<T>, k: nat)
    requires k < |d|
    ensures d[k..] == [d[k]] + d[k + 1..]
  {
  }

  /** A sequence is the part before position k, the element at k, and the part after. */
  lemma SplitAt<T>(d: seq<T>, k: nat)
    requires k < |d|
    ensures d == d[..k] + [d[k]] + d[k + 1..]
  {
  }

  /** A character absent from every position after i is absent from the suffix after i. */
  lemma AbsentAfter(s: string, i: int, c: char)
    requires -1 <= i < |s|
    requires forall k :: i < k < |s| ==> s[k] != c
    ensures c !in s[i + 1..]
  {
    var rest := s[i + 1..];
    forall k | 0 <= k < |rest| ensures rest[k] != c {
      assert rest[k] == s[i + 1 + k];
    }
  }

  /**
   * Splits a token at its last separator into (word, tag): the word is
   * everything before it, the tag is the rest with the separator removed.
   */
  function SplitElement(token: string): (r: (string, string))
    requires HasSeparator(token)
    ensures Join(r.0, r.1) == token
    ensures Separator !in r.1
  {
    SplitParts(token);
    var index := LastIndexOf(token, Separator);
    (token[..index], RemoveAll(token[index..], Separator))
  }

  function WordOf(token: string): string
    requires HasSeparator(token)
  {
    SplitElement(token).0
  }

  function TagOf(token: string): string
    requires HasSeparator(token)
  {
    SplitElement(token).1
  }

  /**
   * Joining a word with a separator-free tag and splitting the result gives
   * the two parts back: the pair and its joined string determine each other.
   */
  lemma SplitJoin(word: string, tag: string)
    requires Separator !in tag
    ensures HasSeparator(Join(word, tag))
    ensures SplitElement(Join(word, tag)) == (word, tag)
  {
    var token := Join(word, tag);
    assert token[|word|] == Separator;
    var index := LastIndexOf(token, Separator);
    LastIndexOfSpec(token, Separator);
    assert index == |word|;
    assert token[..index] == word;
    assert token[index + 1..] == tag;
  }

  /** Two tokens with separator-free tags are equal exactly when both parts are. */
  lemma JoinInjective(w1: string, t1: string, w2: string, t2: string)
    requires Separator !in t1 && Separator !in t2
    ensures Join(w1, t1) == Join(w2, t2) <==> w1 == w2 && t1 == t2
  {
    if Join(w1, t1) == Join(w2, t2) {
      SplitJoin(w1, t1);
      SplitJoin(w2, t2);
    }
  }

  /** The corpus with every token replaced by its word (getStrippedCorpus). */
  function StripCorpus(corpus: Corpus): (r: Corpus)
    requires TaggedCorpus(corpus)
  {
    seq(|corpus|, i requires 0 <= i < |corpus| =>
      seq(|corpus[i]|, k requires 0 <= k < |corpus[i]| => WordOf(corpus[i][k])))
  }

  /**
   * Stripping keeps the number of sentences and each sentence's length, and
   * putting each token's tag back onto its stripped word restores the corpus.
   */
  lemma StripRoundTrip(corpus: Corpus)
    requires TaggedCorpus(corpus)
    ensures |StripCorpus(corpus)| == |corpus|
    ensures forall i :: 0 <= i < |corpus| ==> |StripCorpus(corpus)[i]| == |corpus[i]|
    ensures forall i, k :: 0 <= i < |corpus| && 0 <= k < |corpus[i]| ==>
      Join(StripCorpus(corpus)[i][k], TagOf(corpus[i][k])) == corpus[i][k]
  {
  }

  /** getStrippedCorpus: a nested loop that fills one stripped sentence at a time. */
  method GetStrippedCorpus(taggedCorpus: Corpus) returns (untagged: Corpus)
    requires TaggedCorpus(taggedCorpus)
    ensures untagged == StripCorpus(taggedCorpus)
  {
    untagged := [];
    for i := 0 to |taggedCorpus|
      invariant |untagged| == i
      invariant forall j :: 0 <= j < i ==> untagged[j] == StripCorpus(taggedCorpus)[j]
    {
      var sentence := taggedCorpus[i];
      var stripped: Sentence := [];
      for index := 0 to |sentence|
        invariant |stripped| == index
        invariant forall k :: 0 <= k < index ==> stripped[k] == WordOf(sentence[k])
      {
        stripped := stripped + [SplitElement(sentence[index]).0];
      }
      untagged := untagged + [stripped];
    }
  }
}
