# A verified model of the bigram HMM part-of-speech tagger

This project models `Model.java` of the nlp-tagging repository in Dafny. It is a
bigram hidden-Markov-model part-of-speech tagger with these parts:

- **Training** counts words, tags, word/tag pairs and previous-tag/tag bigrams over a
  corpus of `word/tag` tokens. Every sentence opens with the start tag `<s>`. Training
  then sorts the distinct words and tags and builds the transition and emission
  probability tables from the counts.
- **Testing** decodes each sentence with the Viterbi algorithm. Unknown words are
  handled by a Laplace or a Witten–Bell smoother. For a tagged corpus, testing also
  scores the predictions token by token.
- **Tuning** keeps the smoothing technique with the best test accuracy.
- **n-fold cross-validation** trains and tests on each fold in turn and averages the
  accuracies.
- **Tagging** decodes an untagged corpus.

The model follows the shape of the source:

- `class Model` (module `Tagger`) has the source's fields. Its methods update them in
  place: `Train`, `IndexCorpus`, `BuildTransitionMatrix`, `BuildEmissionMatrix`,
  `Test`, `Tune`, `CrossValidate` and `Tag`.
- The Viterbi decoder (module `Decoder`) fills a two-dimensional path-probability
  array and a backpointer array column by column, then reads the tags back by
  following the backpointers.
- Each of these methods is proved against a pure specification:
  - `FreqTables.Index` specifies the counts, and `Ordering.SortedKeys` the sorted lists;
  - `ProbTables.TransitionTable` and `EmissionTable` specify the probability tables;
  - `Viterbi.Column`, `State` and `Decode` specify the decoder;
  - `Evaluation.TestAccuracy` and `TunedTechnique` specify the scores;
  - `Folds.CrossValidation` specifies the average.
- The properties proved about those functions are:
  - token splitting round-trips;
  - the counts equal the numbers of occurrences;
  - the tables hold exactly the positive ratios;
  - probabilities lie in [0, 1];
  - the decoded path scores at least as high as every other tag path;
  - tuning picks a technique of maximal accuracy;
  - the folds partition the corpus;
  - the cross-validated accuracy lies in [0, 1].

Modelling choices:

- The source keys its tables by strings `a/b`. The model keys them by pairs `(a, b)`.
  This is sound because a tag never contains `/` (`Tokens.JoinInjective`).
- Probabilities are exact rationals (`real`). Counts are unbounded naturals.
- The source's `>=` comparisons in the Viterbi scans are kept. So are the
  zero-initialised `<s>` rows, the `-1` backpointer of the first column and the `0`
  start values of the maximum scans. Ties therefore go to the last maximal tag in list
  order, as in the source.

## Model

| member | source | states |
|---|---|---|
| Tokens.LastIndexOfSpec | Model.java:478 | `lastIndexOf` gives a position holding the separator with no separator after it, and -1 exactly when the token has no separator |
| Tokens.RemoveAllRemoves | Model.java:480 | `replace(separator, "")` leaves no separator in the tag |
| Tokens.RemoveAllAbsent | Model.java:480 | removing the separator from a string without one changes nothing |
| Tokens.SplitParts | Model.java:477-480 | the tag part is exactly the text after the last separator and holds none, and the token is word + separator + tag |
| Tokens.SplitElement | Model.java:477-483 | splitting a token and rejoining word and tag with `/` gives the token back, and the tag holds no `/` |
| Tokens.SplitJoin | Model.java:477-483 | splitting `word/tag` gives back exactly `(word, tag)` whenever the tag holds no `/` (round trip in the other direction) |
| Tokens.JoinInjective | Model.java:497-507 | the `word/tag` and `prev/curr` keys are equal exactly when both parts are equal, so pair keys are a faithful stand-in for the string keys |
| Tokens.StripRoundTrip | Model.java:457-467 | the stripped corpus has the same sentences and lengths, and each stripped word rejoined with its gold tag is the gold token |
| Tokens.GetStrippedCorpus | Model.java:457-467 | the loop builds the corpus with every token replaced by its word |
| Ordering.UnitRankOrder | Model.java:402-405 | two characters' ranks compare exactly as their UTF-16 code units do, which is how `String.compareTo` compares them |
| Ordering.SupplementaryBeforeHighBmp | Model.java:402-405 | U+1F600 sorts before U+FF21 although its code point is larger, because its high surrogate 0xD83D is below 0xFF21 |
| Ordering.UnitsDiverge | Model.java:402-405 | two different characters have UTF-16 encodings that differ at a position both have, so neither is a prefix of the other |
| Ordering.DivergeAppend | Model.java:402-405 | once two unit sequences differ, what follows them does not change their order |
| Ordering.CommonPrefix | Model.java:402-405 | a common prefix does not change the order of two unit sequences |
| Ordering.LexLessEncode | Model.java:402-405 | the string order is exactly the lexicographic order of the strings' UTF-16 encodings, the order `Collections.sort` uses through `String.compareTo` |
| Ordering.LexIrreflexive | Model.java:402-405 | the string order `Collections.sort` uses is irreflexive |
| Ordering.LexTransitive | Model.java:402-405 | that order is transitive |
| Ordering.LexTotal | Model.java:402-405 | any two different strings are ordered one way or the other |
| Ordering.LexAsymmetric | Model.java:402-405 | the order is asymmetric |
| Ordering.LeastExists | Model.java:402-405 | every non-empty key set has a least element |
| Ordering.StrictlySortedDistinct | Model.java:402-405 | a strictly sorted list has no repeated element |
| Ordering.SortedKeys | Model.java:402-405 | the sorted list of a key set is strictly ascending, holds exactly the keys, and has one entry per key |
| Ordering.SortedUnique | Model.java:402-405 | two strictly sorted lists with the same members are equal, so the sorted key list is unique |
| Ordering.SortKeys | Model.java:402-405 | sorting the key set of a table yields the unique sorted list of its keys |
| FreqTables.IncSpec | Model.java:509-513 | `incrementFreqTable` adds the key if absent, raises its count by one and leaves every other count unchanged |
| FreqTables.PositiveInc | Model.java:509-513 | incrementing keeps every stored count at least 1 |
| FreqTables.MapSumInc | Model.java:509-513 | incrementing raises the total of a table by exactly one |
| FreqTables.IndexTally | Model.java:382-401 | indexing the corpus sentence by sentence equals counting its flat sequence of token events |
| FreqTables.IndexAgrees | Model.java:374-401 | after indexing, each of the four tables maps every key to the number of tokens (and, for `<s>`, sentence starts) it counts, and stores only positive counts |
| FreqTables.EventsShape | Model.java:382-395 | one event per token, and one sentence-start event per non-empty sentence |
| FreqTables.SentencePrevBalance | Model.java:391-398 | within a sentence, the bigrams with previous tag p balance the occurrences of p as a tag, corrected for the sentence start and the last token |
| FreqTables.PrevBound | Model.java:382-401 | a tag occurs as previous tag at most as often as it is counted as a tag, plus the sentence starts for `<s>` |
| FreqTables.CountBounds | Model.java:382-401 | count(prev, curr) <= count(prev) and count(word, tag) <= count(tag), and a positive pair count implies both parts are in the tables |
| FreqTables.IndexedTagsPlain | Model.java:386-393 | no indexed tag contains the separator |
| FreqTables.IndexSums | Model.java:382-401 | the word, word/tag and bigram tables each sum to the number of tokens; the tag table sums to tokens plus non-empty sentences |
| FreqTables.StartTagCount | Model.java:391-393 | count(`<s>`) is the number of non-empty sentences plus the tokens literally tagged `<s>`, and the other tag counts make up the tokens |
| ProbTables.RatioBounds | Model.java:420 | a count ratio with a positive denominator is non-negative, positive exactly when the numerator is, and at most 1 when numerator <= denominator |
| ProbTables.TransitionTableSpec | Model.java:412-426 | a key (p, t) is in the transition table exactly when both tags are listed and count(p, t) > 0, and its value is count(p, t) / count(p) |
| ProbTables.EmissionTableSpec | Model.java:432-446 | a key (w, t) is in the emission table exactly when w and t are listed and count(w, t) > 0, and its value is count(w, t) / count(t) |
| ProbTables.SortedTagsCounted | Model.java:402-405 | every tag of the sorted tag list has a count of at least 1, so no table entry divides by zero |
| ProbTables.TrainedFrom | Model.java:40-44 | tables built from the corpus counts in the three training steps are the trained tables |
| ProbTables.TrainedTransition | Model.java:40-44 | after training, (p, t) has a transition probability iff the bigram was seen; it is count(p, t) / count(p), in (0, 1] |
| ProbTables.TrainedEmission | Model.java:40-44 | after training, (w, t) has an emission probability iff the pair was seen; it is count(w, t) / count(t), in (0, 1] |
| ProbTables.TrainedLists | Model.java:402-405 | the trained word and tag lists are strictly sorted, list exactly the table keys, and every listed tag has no separator and a positive count |
| Smoothing.LaplaceDenominator | Model.java:316-322 | the Laplace denominator is positive whenever the tag is counted or there is any tag |
| Smoothing.LaplaceBounds | Model.java:316-322 | the Laplace estimate is strictly positive, and at most 1 when the counted event is no more frequent than its tag |
| Smoothing.WittenBellBounds | Model.java:339-346 | the Witten–Bell estimate lies in [0, 1] and is positive exactly when the training vocabulary is not empty |
| Smoothing.SmoothedEmissionBounds | Model.java:320-346 | the smoothed emission of either smoother is non-negative, Laplace's is positive, and both are at most 1 under the stated count bounds |
| Smoothing.SmoothedTransitionBounds | Model.java:316-341 | the same bounds for the smoothed transition |
| Smoothing.SmootherForApplies | Model.java:65-84 | for an unseen test word and a counted tag, the smoother `test` builds for any technique has a positive denominator |
| ArgMax.ScanArgMaxStep | Model.java:117-120 | one step of a `>=` scan replaces the best value and index when the new value is at least the best so far |
| ArgMax.ScanArgMaxSpec | Model.java:131-145 | the `>=` scan (starting from 0) returns a maximum of the unskipped values and its index, with every later unskipped value strictly smaller, and returns (0, 0) when all are skipped |
| Viterbi.TransitionNonNegative | Model.java:101-102 | a looked-up transition probability (0 when absent) is non-negative |
| Viterbi.EmissionNonNegative | Model.java:103-106 | a looked-up or smoothed emission (0 for a known word with no entry) is non-negative |
| Viterbi.StartMask | Model.java:135 | the mask skips exactly the rows of `<s>` |
| Viterbi.CandidatesNonNegative | Model.java:112-116 | candidate values over non-negative scores are non-negative |
| Viterbi.ColumnCell | Model.java:100-128 | each cell is its first-column or later-column value |
| Viterbi.FirstCellNonNegative | Model.java:100-108 | first-column scores are non-negative |
| Viterbi.BestPrevSpec | Model.java:110-121 | the best-previous scan returns the maximum candidate and its index, with every later candidate strictly smaller |
| Viterbi.NextCellNonNegative | Model.java:109-128 | later-column scores are non-negative |
| Viterbi.ColumnNonNegative | Model.java:93-129 | every score in every column is non-negative |
| Viterbi.BestPrevMaximal | Model.java:110-127 | the stored backpointer selects a maximal candidate, the last one among ties |
| Viterbi.BestPrevValue | Model.java:122-127 | a cell's score is its best candidate times the emission |
| Viterbi.BackpointerMaximises | Model.java:109-128 | in the decoder's matrices, the backpointer of a non-`<s>` cell points to a previous tag maximising score × transition, the last such among ties |
| Viterbi.PathProbRecurrence | Model.java:109-128 | a later cell's score is the candidate its backpointer selects times the emission of the word under the tag |
| Viterbi.StartRows | Model.java:89-99 | `<s>` rows keep score 0 and backpointer 0, and first-column backpointers are -1 |
| Viterbi.EndStateChoice | Model.java:131-145 | the chosen final tag is not `<s>` (when another tag exists), its score is the best last-column score among non-`<s>` tags, and later such tags score strictly less |
| Viterbi.DecodeShape | Model.java:146-155 | each predicted token is `word/tag` for the sentence's own word and a listed tag, and the final tag is not `<s>` when another tag exists |
| Viterbi.StepDominates | Model.java:109-128 | extending any prefix score by one step scores at most the cell |
| Viterbi.StepAttains | Model.java:109-128 | extending the backpointer's prefix score attains the cell exactly |
| Viterbi.DominatesFirst | Model.java:100-108 | any path's first step scores at most its first-column cell |
| Viterbi.DominatesStep | Model.java:109-128 | domination of the cell carries from one column to the next |
| Viterbi.ColumnDominates | Model.java:93-129 | every tag path's score up to column i is at most the cell of its last tag |
| Viterbi.AttainsStep | Model.java:146-155 | following a backpointer preserves attaining the cell's score |
| Viterbi.StatesValid | Model.java:146-155 | the backtraced states form a valid tag path |
| Viterbi.StatesFollowBack | Model.java:150-153 | each backtraced state is the backpointer of the state after it |
| Viterbi.StatesAt | Model.java:146-155 | the state path holds the decoded state at each position |
| Viterbi.StateStep | Model.java:150-153 | the state before position k is the backpointer stored for the state at k |
| Viterbi.DecodedScore | Model.java:146-155 | the decoded path attains exactly the recurrence's score at every position |
| Viterbi.EndDominates | Model.java:131-145 | no last-column score exceeds the score of the chosen final state |
| Viterbi.DecodeOptimal | Model.java:86-155 | the decoded tag path scores at least as high as every other tag path through the sentence (Viterbi optimality) |
| Decoder.LookupEmission | Model.java:122-125 | the emission lookup with its smoothing fallback is the emission of the recurrence |
| Decoder.BestPrevious | Model.java:110-121 | the inner loop over previous tags returns the best-previous value and index of the recurrence |
| Decoder.CellValues | Model.java:98-127 | the values one column of the loop writes: 0/0 for `<s>`, alpha·beta/-1 in the first column, best·beta/backpointer later |
| Decoder.FillColumn | Model.java:93-129 | filling column i stores the recurrence's scores and backpointers in every tag row and changes no other column |
| Decoder.BestEnd | Model.java:131-145 | the end scan over the last column skipping `<s>` returns the best final score and tag |
| Decoder.FillMatrices | Model.java:88-145 | the filled matrices hold the recurrence's scores and backpointers, and the extra row holds the best final score and tag |
| Decoder.DecodedFromSuffix | Model.java:146-155 | the tokens backtraced from position k on are the suffix of the decoded sentence |
| Decoder.DecodeAt | Model.java:147-149 | the k-th predicted token joins the k-th word with the tag of the k-th state |
| Decoder.BackStep | Model.java:152 | the stored backpointer of a decoded state is the previous decoded state |
| Decoder.Backtrace | Model.java:146-155 | the backtrace loop yields exactly the decoded prediction |
| Decoder.DecodeSentence | Model.java:88-155 | decoding one sentence with the matrices yields the Viterbi prediction |
| Evaluation.CountTestWords | Model.java:70-75 | the test-word table holds exactly the words of the untagged test corpus, each with a positive count |
| Evaluation.CorpusWordsSnoc | Model.java:71-75 | adding a sentence adds exactly its words to the test words |
| Evaluation.MatchesAll | Model.java:156-163 | a sentence scores all its tokens exactly when every predicted token equals the gold token |
| Evaluation.AccuracyBounds | Model.java:166 | correct/total lies in [0, 1] and is 1 exactly when every token is correct |
| Evaluation.TestAccuracyBounds | Model.java:59-167 | the accuracy `test` returns on a tagged corpus lies in [0, 1] |
| Evaluation.CorrectIffTagMatches | Model.java:156-163 | a predicted token is correct exactly when the decoded tag equals the gold tag |
| Evaluation.TuneIndexSpec | Model.java:176-186 | tune's choice has maximal accuracy, and it is Witten–Bell exactly when Witten–Bell scores at least as high as Laplace |
| Evaluation.TuneAccuraciesAt | Model.java:179-180 | the j-th accuracy is the test accuracy of the j-th technique |
| Evaluation.TuneProgressStart | Model.java:178 | before any technique is tried, the best accuracy is 0 |
| Evaluation.TuneProgressStep | Model.java:179-185 | one round of the `>=` update keeps the best accuracy and chosen technique equal to the scan over the techniques tried so far |
| Evaluation.TuneProgressDone | Model.java:176-186 | after both rounds the smoothing mode is the tuned technique |
| Evaluation.TunedTechniqueBest | Model.java:176-186 | no technique scores higher than the tuned one, and Witten–Bell is chosen exactly when it scores at least Laplace's accuracy |
| Evaluation.TrainedDecodable | Model.java:40-44 | a model trained on a non-empty tagged corpus has a tag and non-negative tables |
| Evaluation.TrainedSmootherCovers | Model.java:65-106 | every smoothing fallback the decoder can reach on a test sentence has a positive denominator |
| Folds.IntervalSizeSpec | Model.java:207 | the interval size is the ceiling of size/n: n intervals cover the corpus, n−1 do not, and it is below the size when both size and n are at least 2 |
| Folds.FirstFoldTrainsTwice | Model.java:213-219 | as written, the first fold's training corpus is the rest of the corpus twice over, twice its length, and differs from the complement of the fold |
| Folds.FirstFoldTrainsTwiceExample | Model.java:213-219 | on two one-token sentences the first fold trains on the second sentence twice |
| Folds.LaterFoldsAsIntended | Model.java:213-219 | every later fold trains, as written, on exactly the complement of its validation slice |
| Folds.FoldTrainingComplement | Model.java:212-219 | a validation slice and its corrected training corpus together make up the corpus as a multiset, and their lengths add up to its length |
| Folds.FoldsPartition | Model.java:209-212 | the validation folds concatenate to the corpus, and each is non-empty and at most one interval long |
| Folds.FoldCount | Model.java:209-212 | the number of folds is the ceiling of the remaining size over the interval size |
| Folds.FoldsAtMostN | Model.java:207-212 | there are at most n folds |
| Folds.TokensPresent | Model.java:209-222 | a non-empty corpus of non-empty sentences has a token |
| Folds.SliceWellFormed | Model.java:211-212 | a slice of a well-formed corpus is well formed |
| Folds.ConcatWellFormed | Model.java:213-219 | the concatenation of well-formed corpora is well formed |
| Folds.FoldWellFormed | Model.java:209-221 | each fold's validation slice and its corrected training corpus (everything before and after the slice) are tagged and hold tokens |
| Folds.FoldReady | Model.java:209-222 | the model trained on each fold's corrected training corpus can be decoded, and the fold sum from a start is that fold's accuracy plus the sum from its end |
| Folds.FoldSumBounds | Model.java:209-222 | the summed fold accuracies lie between 0 and the number of folds |
| Folds.IntervalFits | Model.java:207 | for a corpus that can be cross-validated, 1 <= interval size < corpus size |
| Folds.CrossValidationBounds | Model.java:200-226 | the average accuracy lies in [0, 1] and is at most the share of folds over n |
| Folds.DivideBounds | Model.java:224 | dividing a sum of at most k accuracies by n >= k gives a value in [0, k/n] within [0, 1] |
| Tagger.TransitionPartStart | Model.java:414 | the transition table starts empty |
| Tagger.TransitionPartStep | Model.java:417-423 | one inner step stores count(prev, curr)/count(prev) under (prev, curr) when it is positive, and nothing otherwise |
| Tagger.TransitionPartRow | Model.java:415-425 | finishing a row of the loop is starting the next |
| Tagger.TransitionPartDone | Model.java:412-426 | after all rows, the partial table is the transition table |
| Tagger.EmissionPartStart | Model.java:434 | the emission table starts empty |
| Tagger.EmissionPartStep | Model.java:437-443 | one inner step stores count(word, tag)/count(tag) under (word, tag) when it is positive, and nothing otherwise |
| Tagger.EmissionPartRow | Model.java:435-445 | finishing a row of the loop is starting the next |
| Tagger.EmissionPartDone | Model.java:432-446 | after all rows, the partial table is the emission table |
| Tagger.ScoredStep | Model.java:156-164 | scoring one more sentence adds its correct and total token counts to the running totals |
| Tagger.PredictionsStep | Model.java:164 | appending a sentence's prediction extends the predictions of the first i sentences |
| Tagger.TestLoop | Model.java:85-165 | the sentence loop stores every sentence's Viterbi prediction and, on a tagged corpus, counts the correct and total tokens |
| Tagger.ScoreSentence | Model.java:156-163 | the scoring loop counts the tokens equal to the gold tokens and the sentence's length |
| Tagger.TestCovered | Model.java:64-84 | every test sentence can be decoded with the smoother `test` builds, and a stripped corpus lines up with its gold corpus |
| Tagger.ScoredAccuracy | Model.java:166 | the totals counted over the whole corpus give exactly its test accuracy |
| Tagger.TrainFold | Model.java:210-220 | cutting the fold at `start` ends it one interval later or at the corpus end, and leaves the model trained on the corrected training corpus of the fold |
| Tagger.TestFold | Model.java:221-222 | testing the trained model on the fold gives that fold's accuracy, and the fold sum is that accuracy plus the sum of the later folds |
| Tagger.ValidateFold | Model.java:210-222 | one round trains the model on the fold's corrected training corpus, leaving it trained on exactly that corpus, and returns the fold's accuracy on its slice; the fold sum is that accuracy plus the sum of the later folds |
| Tagger.Model.constructor | Model.java:20-30 | a new model has Laplace smoothing and empty tables and lists |
| Tagger.Model.Train | Model.java:40-44 | training leaves exactly the trained counts, sorted lists and probability tables of the corpus |
| Tagger.Model.IndexCorpus | Model.java:374-406 | the counting loops leave the counts of the corpus, and the sorted key lists of the word and tag tables |
| Tagger.Model.CountSentence | Model.java:383-400 | counting a sentence counts each of its tokens in order |
| Tagger.Model.CountToken | Model.java:384-399 | counting one token increments its word, tag, word/tag and bigram counts, and the `<s>` count for a first token |
| Tagger.Model.BuildTransitionMatrix | Model.java:412-426 | the nested loops leave the transition table of the counts |
| Tagger.Model.BuildEmissionMatrix | Model.java:432-446 | the nested loops leave the emission table of the counts |
| Tagger.Model.Test | Model.java:59-167 | `results` holds the Viterbi prediction of every sentence under the chosen smoother, and the result is the test accuracy for a tagged corpus and 0 otherwise |
| Tagger.Model.BuildSmoother | Model.java:65-84 | the smoother is Laplace with factor 1 for Laplace and Kneser–Ney, and Witten–Bell with the training vocabulary size and the number of unseen test words |
| Tagger.Model.Tune | Model.java:176-186 | the smoothing mode becomes the technique of best accuracy (the last among ties), and `results` holds the Witten–Bell predictions |
| Tagger.Model.TuneRound | Model.java:179-185 | one round tests a technique and keeps the best accuracy and its technique |
| Tagger.Model.CrossValidate | Model.java:200-226 | the result is 0 for n <= 0, and otherwise the sum of the fold accuracies divided by n |
| Tagger.Model.Tag | Model.java:237-240 | tagging returns and stores the Viterbi predictions under the current smoothing mode |

## Left out

- Floating point. The source computes in `float` and `double`; the model uses exact rationals, so rounding, overflow and the exact float tie behaviour are not modelled.
- `Math.ceil` over a `float` quotient (Model.java:207) is modelled as an exact integer ceiling. They differ only for corpora too large for a `float` to hold the quotient exactly.
- Folds.IntervalSize: states the exact ceiling, not the `float` rounding of the quotient.
- Integer counts are unbounded; Java's 32-bit `int` overflow is not modelled.
- Java compares `currentTag == startTag` by reference (Model.java:98, 135). The model compares values. The two agree as far as the tag list goes, because `<s>` reaches the tag table only through the interned constant, unless a corpus token is literally tagged `<s>`.
- Tagger.Model.Test: requires every test sentence to be non-empty. On an empty sentence the source indexes `sentence.length - 1 = -1` and throws, and the model does not describe the exception.
- Tokens.SplitElement: requires the token to contain `/`. Without one, the source's `substring(0, -1)` throws; that exception is not modelled.
- Tagger.Model.Test: requires a trained model with at least one tag (`Ready`). On an untrained model the source dereferences null tables and throws; that is not modelled.
- Tagger.Model.CrossValidate: requires, when n > 0, a tagged corpus without empty sentences, and n >= 2 and at least two sentences if the corpus is non-empty (for n <= 0 any corpus is accepted and the result is 0, as in the source). With n == 1 or a single sentence, the training corpus is empty and the source throws on the empty tag list.
- Tagger.Model.CrossValidate: uses the corrected training corpus (see Findings). The corpus as written is modelled by `Folds.FoldTrainingAsWritten`.
- Tagger.ValidateFold: trains every fold on the corrected training corpus `corpus[..start] + corpus[end..]`, so the first fold trains on `corpus[end..]` once, not twice as Model.java:213-219 does; so do Tagger.TrainFold, Folds.FoldWellFormed and Folds.FoldReady. Folds.FirstFoldTrainsTwice states what the code as written trains on.
- Tagger.Model.Test: when the tagged test corpus has no token, the source returns 0/0 = NaN; the model requires a token.
- Emission and transition tables with a zero denominator (Inf or NaN in Java) cannot arise for a trained model (`ProbTables.SortedTagsCounted`). The model's lookups return 0 there instead.
- Kneser–Ney smoothing (Model.java:348-366) is an unfinished stub that `test` never constructs; the switch's default branch uses Laplace, and that is modelled.
- The Laplace constructor without a factor (Model.java:306-309) is never called and is not modelled.
- `results` is assigned once, after the sentence loop. This is equivalent to the source's reset followed by one append per sentence.
- `System.err.println` in `crossValidate` is output only and is not modelled.
- Serialisation (`writeObject`/`readObject`), the accessors, and the constants `equate`, `entrySeparator`, `keyValueSeparator` and `segmentSeparator` of `initConstants` are not modelled. They concern storing the model, not tagging.
- FileHandler.java, build_tagger.java and run_tagger.java (file I/O and command-line entry points) are not part of this model.
- The string keys of the source's `HashMap`s are replaced by pairs. `Tokens.JoinInjective` shows the two key schemes identify the same entries.

## Findings

| source | as written | input that shows it | evidently intended | confidence | as-written member | corrected member |
|---|---|---|---|---|---|---|
| Model.java:213-219 | for the first fold (start == 0), the training corpus is `corpus[end..]`, and then `corpus[end..]` is appended again because `end < size`, so the rest of the corpus is trained on twice, doubling every count | corpus `[["a/X"], ["b/Y"]]`, n = 2: the first fold trains on `[["b/Y"], ["b/Y"]]` | train on the complement `corpus[..start] + corpus[end..]`, which is `[["b/Y"]]` here | not executed | Folds.FirstFoldTrainsTwice | Folds.FoldTrainingComplement |
