# Tweet cleaning and LDA glue of `topic_modeling`, modelled in Dafny

This project models two deterministic pieces of the `topic_modeling` repository.
That repository cleans a corpus of tweets and fits gensim LDA topic models to it.

- **The tweet cleaner** (`Preprocessing.clean_tweets`). Each tweet goes through six rewrites in a fixed order:
  1. ASCII lower-casing;
  2. deleting `@` and the alphanumeric run after it;
  3. deleting `#` and turning `_` into a space;
  4. deleting `RT`, a whitespace character and the rest of the line;
  5. deleting `http://` or `https://` and the non-whitespace run after it;
  6. deleting `pic.twitter.com`, one more character and exactly ten alphanumerics.

  Every `re.sub` is an instance of one generic function, `RegexSub.Substitute`. It is a leftmost, non-overlapping scan: a matcher gives the length of the match at the head of the remaining text, or 0 for no match.
- **The LDA utilities** (`utils/lda_utils.py`):
  - `process_words`: stopword filter, then bigram twice, then trigram, then the part-of-speech filter on spaCy's tokens.
  - `compute_coherence_values`: one model and one coherence score per topic count in `range(start, limit, step)`.
  - `format_topics_sentences`: the dominant topic of each non-empty topic-distribution row, taken as the head of a stable descending sort. The texts are attached by position.

  Python's `range` and `sorted(..., reverse=True)` have their own modules, `PyRange` and `PySorted`.

The gensim, spaCy and NLTK objects are parameters of the model. They appear as opaque functions, with nothing assumed about their internals:
- the tokenizer, the phrase models and the spaCy pipeline;
- LDA training and the c_v coherence score;
- `show_topic`;
- the per-document topic rows that `ldamodel[corpus]` yields.

Modules:

| file | module | contents |
|---|---|---|
| results.dfy | `Results` | `Result`, `Option`, `Error` (`ValueError`) |
| chars.dfy | `Chars` | ASCII character classes, the whitespace set of `\s`, ASCII lower-casing of one character |
| seqs.dfy | `Seqs` | subsequences, prefixes, greedy runs, `Filter`, `MapEach` (the append loop), `sep.join` |
| regex_sub.dfy | `RegexSub` | the generic `re.sub` scan and its general facts |
| preprocessing.dfy | `Preprocessing` | the six matchers and steps, `CleanTweet`, `CleanTweets` and the properties of the pipeline |
| py_range.dfy | `PyRange` | `range(start, stop, step)` |
| py_sorted.dfy | `PySorted` | the stable descending sort and its head |
| lda_utils.dfy | `LdaUtils` | `process_words`, `compute_coherence_values`, `format_topics_sentences` |

Behaviour worth knowing:
- **The cleaner is not idempotent.** `"@#abc"` cleans to `"@abc"`, which cleans to `""`; see `CleanTweetNotIdempotent`. Cleaning a cleaned tweet again can therefore change it.
- **An empty topic-distribution row shifts later rows.**
  - The row yields no record, but the texts are attached by position. Every later record is therefore paired with the previous document's text, and the last text gets no record; see `SkippedRowShiftsRecords`.
  - So an empty row at position k misaligns every record after k with its document.
- **No records raises `ValueError`.** If every row is empty, or there are no rows, naming the three columns of the empty table raises a length-mismatch `ValueError`. The model returns `Err`.
- **The retweet step never fires.** `CleanTweet` follows the code. `CleanTweetRetweetFirst` is the corrected pipeline, which removes retweets before lower-casing; it agrees with `CleanTweet` on every tweet without a retweet marker. See "Findings".
- **A zero step raises `ValueError`.** `range` rejects a zero step, so the sweep returns `Err`. A negative step is modelled as Python does it.

## Model

| member | source | states |
|---|---|---|
| Preprocessing.CleanTweets | src/0-preprocessing.py:120-147 | one cleaned string per tweet, in the same order; entry i is tweet i put through the six rewrites |
| Preprocessing.Lower | src/0-preprocessing.py:126 | lower-casing keeps the length, turns each ASCII capital into its lower-case letter (code point plus 32) and keeps every other character in place; so no capital remains and a lower-case string comes back unchanged |
| Preprocessing.MentionLen | src/0-preprocessing.py:129 | a mention match is `@`, then an alphanumeric, then the whole alphanumeric run: every character after the `@` is alphanumeric, the match ends at a non-alphanumeric or at the end of the text, and it exists whenever `@` is followed by an alphanumeric |
| Preprocessing.MentionStepLeavesNoMention | src/0-preprocessing.py:129 | after the mention step, no `@` is directly followed by an ASCII letter or digit |
| Preprocessing.MentionsKeepNonAlnumHead | src/0-preprocessing.py:129 | a text starting with a non-alphanumeric still starts with one after the mention step |
| Preprocessing.RemoveHashesLeavesNone | src/0-preprocessing.py:132 | `replace("#", "")` leaves no `#` |
| Preprocessing.ReplaceUnderscores | src/0-preprocessing.py:132 | `replace("_", " ")` turns each `_` into a space and keeps every other character in place, so no `_` remains and a text without `_` is unchanged |
| Preprocessing.CleanTweetHasNoHashOrUnderscore | src/0-preprocessing.py:132-141 | the cleaned tweet contains neither `#` nor `_`, whatever the later steps delete |
| Preprocessing.RetweetLen | src/0-preprocessing.py:135 | a retweet match starts with upper-case `RT`, needs a whitespace character and at least one more non-newline character, and runs to the end of the line; it exists whenever the text starts that way |
| Preprocessing.RetweetStepIdentityOnLowercase | src/0-preprocessing.py:135 | the retweet step returns any text without upper-case letters unchanged |
| Preprocessing.RetweetStepInputIsLowercase | src/0-preprocessing.py:126-132 | the text that reaches the retweet step never has an upper-case letter |
| Preprocessing.CleanTweetSkipsRetweetStep | src/0-preprocessing.py:126-141 | cleaning equals the same pipeline with the retweet step removed: the step is dead code |
| Preprocessing.SchemeLen | src/0-preprocessing.py:138 | the scheme is 7 characters exactly when the text starts with `http://`, 8 exactly when it starts with `https://`, and absent otherwise |
| Preprocessing.LinkLen | src/0-preprocessing.py:138 | a link match is a scheme followed by the whole, non-empty non-whitespace run: it ends at a whitespace character or the end of the text, and it exists whenever the scheme is followed by a non-whitespace character |
| Preprocessing.LinkStepLeavesNoLinkMatch | src/0-preprocessing.py:138 | no position of the link step's output starts a match of the link pattern |
| Preprocessing.LinkStepLeavesNoLink | src/0-preprocessing.py:138 | after the link step, every `http://` or `https://` left is followed by whitespace or by the end of the text |
| Preprocessing.ImageStepRemovesWholeLinks | src/0-preprocessing.py:141 | the image step shortens the text by a whole multiple of 26 characters |
| Preprocessing.ImageStepWithoutLink | src/0-preprocessing.py:141 | text where no image link starts anywhere passes through the image step unchanged |
| Preprocessing.ImageStepKeepsTextBeforeLink | src/0-preprocessing.py:141 | the text before the first image link is kept verbatim; the link, exactly 26 characters (`pic.twitter.com`, one non-newline character, ten alphanumerics), is deleted; the step resumes right after it |
| Preprocessing.ImageStepKeepsShortTail | src/0-preprocessing.py:141 | `pic.twitter.com/abc`, with a tail shorter than ten characters, survives the image step intact |
| Preprocessing.ImageStepDropsLeadingLink | src/0-preprocessing.py:141 | a complete image link at the head of the text is deleted and the scan resumes right after it |
| Preprocessing.CleanTweetNotLonger | src/0-preprocessing.py:126-141 | a cleaned tweet is never longer than the raw tweet |
| Preprocessing.CleanTweetUnchanged | src/0-preprocessing.py:126-141 | a lower-case tweet with no `@`, `#`, `_`, `http` or `pic.twitter.com` is returned unchanged |
| Preprocessing.CleanTweetIgnoresCase | src/0-preprocessing.py:126-141 | cleaning a lower-cased tweet gives the same result as cleaning the original |
| Preprocessing.CleanTweetNotIdempotent | src/0-preprocessing.py:126-141 | for any non-empty lower-case alphanumeric word w, `@#w` cleans to `@w`, and `@w` cleans to the empty string |
| Preprocessing.CleanTweetKeepsRetweet | src/0-preprocessing.py:126-135 | a one-line retweet `RT <text>` is not removed: its cleaned form still starts with `rt`, while the corrected pipeline empties it |
| Preprocessing.RetweetFirstDropsRetweet | src/0-preprocessing.py:134-135 | with the retweet step before lower-casing, a one-line retweet cleans to the empty string |
| Preprocessing.RetweetFirstAgreesWithoutRetweet | src/0-preprocessing.py:126-141 | on tweets with no retweet marker, the corrected pipeline agrees with the original one |
| RegexSub.Substitute | src/0-preprocessing.py:129-141 | `re.sub(pattern, "", s)` never lengthens the text and keeps the first character when no match starts there |
| RegexSub.SubstituteIsSubsequence | src/0-preprocessing.py:129-141 | deleting matches yields a subsequence of the input |
| RegexSub.SubstituteWithoutMatch | src/0-preprocessing.py:129-141 | a substitution whose pattern matches nowhere returns its input unchanged |
| RegexSub.SubstituteKeepsMatchFreePrefix | src/0-preprocessing.py:129-141 | a prefix in which no match starts is copied to the output unchanged, and the scan continues on the rest |
| RegexSub.SubstituteAtFirstMatch | src/0-preprocessing.py:129-141 | up to the first match the input is kept verbatim; that match is deleted and the scan resumes right after it |
| RegexSub.SubstituteKeepsPrefix | src/0-preprocessing.py:129-141 | a prefix of the output made of characters that neither start nor end a match was already a prefix of the input, and the scan resumes right after it |
| Seqs.MapEach | utils/lda_utils.py:39-44 | the append loop returns one result per element, in input order, entry i being f of element i |
| Seqs.Filter | utils/lda_utils.py:36 | a comprehension with an `if` keeps order and keeps exactly the elements that pass, each with its full multiplicity |
| LdaUtils.RemoveStopwords | utils/lda_utils.py:36 | the filtered document is an order-preserving subsequence of the tokens, contains no stopword and keeps every other token with its multiplicity |
| LdaUtils.KeepAllowedLemmas | utils/lda_utils.py:43-44 | every kept lemma belongs to a token with an allowed tag; every such token's lemma is kept; the output is no longer than the token list |
| LdaUtils.KeepAllowedLemmasFollowsTokens | utils/lda_utils.py:43-44 | the kept lemmas are the lemmas of the tokens with an allowed tag, one per such token, in document order |
| LdaUtils.ProcessWords | utils/lda_utils.py:31-46 | one lemma list per document, in input order; each is the tagger's allowed lemmas of `trigram(bigram(bigram(filtered)))` joined by spaces; the allowed tags default to `NOUN`, `ADJ`, `VERB`, `ADV` |
| LdaUtils.TrainAndScore | utils/lda_utils.py:65-85 | models and coherence values are parallel lists; entry i is the model trained with the i-th count and that model's score |
| LdaUtils.ComputeCoherenceValues | utils/lda_utils.py:49-95 | `start` and `step` default to 2 and 3; fails exactly for step 0; otherwise entry i is the model for K = start + i*step and its score; for a positive step every swept K is below limit and the next one would not be |
| PyRange.Range | utils/lda_utils.py:69 | `range` fails exactly for a zero step; element i is start + i*step; all elements lie strictly before stop and the next step would reach or pass it |
| PyRange.RangeUp | utils/lda_utils.py:69 | a positive-step range is empty exactly when start >= stop, and is the arithmetic progression bounded by stop |
| PyRange.RangeUpMembership | utils/lda_utils.py:69 | for a positive step, start + i*step is swept exactly when it is below stop |
| PyRange.DefaultScheduleExample | utils/lda_utils.py:49-69 | start 2, limit 8, step 3 sweeps exactly 2 and 5 topics |
| LdaUtils.DefaultSweepExample | utils/lda_utils.py:49-69 | the sweep called with limit 8 and the default start and step trains exactly the 2-topic and 5-topic models, in that order, each with its score |
| PyRange.EmptyWhenStartNotBelowLimit | utils/lda_utils.py:69 | for a positive step, a sweep whose start is not below its limit is empty and raises nothing |
| PySorted.SortDescending | utils/lda_utils.py:111 | the sorted row is a permutation of the row, in non-increasing weight order |
| PySorted.SortIsStable | utils/lda_utils.py:111 | equal weights keep their original relative order |
| PySorted.FirstMaxIndex | utils/lda_utils.py:111-115 | the reference for the head: an index of greatest weight, with every earlier weight strictly smaller |
| PySorted.SortedHeadIsFirstMax | utils/lda_utils.py:111-115 | the head of the stable descending sort is the first entry of greatest weight |
| LdaUtils.DominantIsEarliestMax | utils/lda_utils.py:111-119 | the emitted topic has the greatest weight in its row, ties go to the earliest entry, and its keywords are the `show_topic` words joined by `", "` |
| LdaUtils.NonEmptyIndices | utils/lda_utils.py:107-124 | every kept position holds a non-empty row |
| LdaUtils.NonEmptyIndicesComplete | utils/lda_utils.py:107-124 | kept positions are strictly increasing, and every non-empty row is kept |
| LdaUtils.DominantRecords | utils/lda_utils.py:107-120 | one record per non-empty row, in document order; record j is the dominant record of the j-th non-empty row |
| LdaUtils.NoRowKeptIffAllEmpty | utils/lda_utils.py:107-126 | no record is produced exactly when every row is empty |
| LdaUtils.AlignByPosition | utils/lda_utils.py:129-130 | the positional concat loses nothing and invents nothing: reading either column back over its own length gives that column exactly, and no row has both cells missing |
| LdaUtils.FormatTopicsSentences | utils/lda_utils.py:98-132 | fails exactly when every row is empty; otherwise row j pairs the j-th kept record with text j, padding the shorter side with missing cells |
| LdaUtils.FormatKeepsRowsAligned | utils/lda_utils.py:107-130 | with no empty row and one text per row, every record sits next to its own document's text |
| LdaUtils.SkippedRowShiftsRecords | utils/lda_utils.py:107-130 | with one text per row, at least two rows and exactly one empty row, at any position k including the last: records before k stay put; from k on, text j is paired with row j+1's record; the last text has no record |

## Left out

- Unicode: `str.lower` and `\s`/`\S` are modelled on ASCII only. Lower-casing maps `A`-`Z` and nothing else, and whitespace is space plus characters 9 to 13.
- The command line, CSV loading, column selection, the date sort and `save_to_csv` (src/0-preprocessing.py:34-110, 147-163) are I/O and table plumbing. `CleanTweets` returns the list that becomes the new column.
- LDA training (`LdaMulticore`) and `CoherenceModel` are floating-point statistical inference. They are the parameters `train` and `coherence`.
- ComputeCoherenceValues: does not model whether training rejects a topic count of zero or below, or one above the vocabulary size; `train` is total.
- `simple_preprocess`, the phrase models, the spaCy pipeline and `show_topic` are opaque parameters. The NLTK stopword list is the `stopWords` parameter, and `nltk.download` at import time is a network call.
- The plot of coherence values and its file (utils/lda_utils.py:87-93) are output only.
- DominantRecord: the weight is stored unrounded; `round(prop_topic, 4)` on a float is not modelled.
- `ldamodel[corpus]` and the `per_word_topics` unpacking (utils/lda_utils.py:107-108) are folded into the input rows: each row is the document's topic distribution.
- DataFrame mechanics (`append`, column names, `int(...)` on topic ids) are replaced by a sequence of `OutputRow` values with `Option` cells. The `ValueError` message text is illustrative.
- CleanTweets: an empty `content` cell reaches the loop as a float NaN, and `tweet.lower()` (src/0-preprocessing.py:126) then raises `AttributeError`. Tweets are typed as strings here, so that failure is not modelled.
- `str(doc)` in `process_words` is the identity: documents are strings, so non-string entries such as NaN are not modelled.
- PyRange.RangeUpMembership: only the positive-step case is stated as a lemma; `Range`'s own contract covers negative steps.

## Findings

| source | as written | input that shows it | evidently intended | confidence | as-written member | corrected member |
|---|---|---|---|---|---|---|
| src/0-preprocessing.py:126-135 | the retweet pattern `RT[\s].+` is applied after `tweet.lower()`, so the upper-case `RT` it needs can never be present and no retweet is removed | `"RT hello"`: lower-casing gives `"rt hello"`, the pattern does not match, and the cleaned tweet is `"rt hello"` | delete retweet lines, which requires matching `RT` before lower-casing or matching case-insensitively | not executed | Preprocessing.CleanTweetKeepsRetweet | Preprocessing.CleanTweetRetweetFirst, Preprocessing.RetweetFirstDropsRetweet |
