# Email summariser: a Dafny model of its text-processing core

This project models the deterministic text processing of a Korean/English
email and document summariser and proves properties of it. It covers three
source files.

- **Frequency-based extractive summariser** (`email_summarizer/summarizer.py`),
  in module `FrequencySummarizer`.
  - Sentences are split on runs of `.`, `!` and `?`.
  - Keywords are counted with `Counter.most_common`.
  - Each sentence is scored from its keywords, its length and marker words.
  - The best three (or five) sentences go back into document order and are joined.
  - The summary line can emphasise keywords with `**…**`.
- **Control logic of the abstractive pipeline** (`src/email_summarizer/summarizer.py`),
  in modules `Seq2SeqText` and `Seq2SeqPipeline`.
  - Language detection, sentence splitting and TF-IDF keyword ranking.
  - The Korean sentiment labels and confidence bands.
  - The automatic length bands, the under-30-character guard and the single retry of a one-sentence summary.
  - Document-type detection with its strategy table.
  - ANSI keyword highlighting.
  - The summarisation models (KoBART, BART) and the sentiment classifier are
    function-valued parameters. They return a value or fail with an exception
    message (`Result`).
- **Input validation and preview** (`email_summarizer/utils.py`), in module
  `TextUtils`: `validate_text`, `validate_text_content` and `format_text_preview`.

Two shared modules hold what these files take from Python.

- `TextBasics` has the character classes, `str.strip`/`lower`/`split`/`join`,
  substring search, and `re.split`/`re.findall` over a character class.
- `Ranking` has Python's stable `sorted`, the `Counter` tally in first-occurrence
  order, and `most_common(n)` and slice prefixes. It proves sortedness,
  permutation, stability, and that the head of a ranking dominates its tail.

The source's imperative steps are methods proved equal to the specification functions:

- `CalculateSentenceScore`, `BuildSummary`, `SummarizeText` and `SummaryLine`;
- `HighlightKeywords`, `SummarizeSystemSeq2Seq`, `SummarizeWithRetry` and `DescribeSummary`.

The properties are proved about those functions.

## Model

| member | source | states |
|---|---|---|
| TextBasics.Strip | email_summarizer/summarizer.py:25 | `str.strip()`: the result is no longer than the input and starts and ends with a non-space character |
| TextBasics.StripIsSlice | email_summarizer/summarizer.py:25 | stripping removes only whitespace at the two ends: the result is a slice of the input and everything outside it is space |
| TextBasics.StripEmptyIffBlank | email_summarizer/summarizer.py:25 | `if s.strip()` drops a piece exactly when it is all whitespace |
| TextBasics.StripKeeps | email_summarizer/summarizer.py:25 | stripping keeps every non-space character in order |
| TextBasics.StripNonBlank | email_summarizer/summarizer.py:25 | `[s.strip() for s in pieces if s.strip()]`: never more pieces than the input, each one non-empty and stripped |
| TextBasics.StripNonBlankKeeps | email_summarizer/summarizer.py:25 | the comprehension keeps every non-space character of the pieces, in order |
| TextBasics.StripNonBlankSingle | src/email_summarizer/summarizer.py:39 | a single piece comes back stripped, or not at all when it is blank |
| TextBasics.StripNonBlankConcat | email_summarizer/summarizer.py:25 | the comprehension works piece by piece: on a concatenation of piece lists it is the concatenation of the results |
| TextBasics.Lower | email_summarizer/summarizer.py:42 | `str.lower()` keeps the length, leaves no upper-case ASCII letter, turns each one into its lower-case letter (code point plus 32) and leaves every other character where it was |
| TextBasics.LowerChar | email_summarizer/summarizer.py:42 | lower-casing leaves no upper-case ASCII letter and preserves every character class the regexes test |
| TextBasics.LowerIdempotent | src/email_summarizer/summarizer.py:216 | lower-casing twice is lower-casing once |
| TextBasics.SplitRuns | email_summarizer/summarizer.py:19-22 | `re.split('[class]+', s)` yields at least one piece and no piece holds a class character |
| TextBasics.SplitRunsConcat | email_summarizer/summarizer.py:19-22 | the pieces of the split, concatenated, are exactly the input without the separator characters |
| TextBasics.SplitRunsWhole | email_summarizer/summarizer.py:19-22 | a string with no separator character is split into itself alone |
| TextBasics.SplitRunsJoin | email_summarizer/summarizer.py:19-22 | the pieces break exactly at the separator runs: splitting `a + sep + b` gives the pieces of `a` followed by those of `b` when `sep` is a whole run |
| TextBasics.Runs | email_summarizer/summarizer.py:42 | `re.findall('[class]+', s)` yields non-empty runs of class characters |
| TextBasics.RunsConcat | email_summarizer/summarizer.py:42 | the runs, concatenated, are exactly the class characters of the input in order |
| TextBasics.RunsNone | email_summarizer/summarizer.py:42 | a string without class characters has no runs |
| TextBasics.RunsWhole | email_summarizer/summarizer.py:42 | a non-empty string of class characters is one run |
| TextBasics.RunsJoin | email_summarizer/summarizer.py:42 | runs break exactly at non-class characters: the runs of `a + [c] + b` are those of `a` followed by those of `b` |
| TextBasics.RunsInherit | email_summarizer/summarizer.py:42 | a property of every input character holds for every character of every run |
| TextBasics.SplitOn | email_summarizer/utils.py:215 | `s.split(c)` gives at least one piece and no piece holds c |
| TextBasics.JoinSplit | email_summarizer/utils.py:215-217 | joining the pieces of a split with the separator gives the string back |
| TextBasics.SplitSeveralIffPresent | email_summarizer/utils.py:216 | a split has more than one piece exactly when the separator occurs |
| TextBasics.CountWhere | src/email_summarizer/summarizer.py:24-25 | `len(re.findall('[class]', s))` is at most the length of s |
| Ranking.Sorted | email_summarizer/summarizer.py:133 | `list.sort`/`sorted` returns a permutation of its input (same multiset) |
| Ranking.SortedInOrder | email_summarizer/summarizer.py:133 | the result is ordered by the key, descending when `reverse=True` |
| Ranking.SortedIsStable | email_summarizer/summarizer.py:133 | the sort is stable: items with equal keys keep their input order |
| Ranking.SortedTies | src/email_summarizer/summarizer.py:65 | stability with repeated items: the items with any one key come out exactly as they went in, repeats included |
| Ranking.RankingHeadTies | email_summarizer/summarizer.py:133-142 | among the items with any one key, the head of a descending ranking keeps a prefix of those items in input order, repeats included |
| Ranking.FilterPermutation | email_summarizer/summarizer.py:145 | a permutation of a list, such as the re-sort by document position, has under any filter the same items as the list |
| Ranking.RankingHeadKeepsEarliestTies | email_summarizer/summarizer.py:133-142 | at the cut of a descending ranking, an item kept and an item wholly left out with the same key are in input order: ties go to the earlier item |
| Ranking.InsertSplits | email_summarizer/summarizer.py:133 | one insertion step places the new item after every item it does not precede and shifts the rest |
| Ranking.InsertAt | email_summarizer/summarizer.py:133 | in an ordered list the inserted item precedes everything after its place |
| Ranking.InsertInOrder | email_summarizer/summarizer.py:133 | inserting into an ordered list keeps it ordered |
| Ranking.InsertKeepsStable | email_summarizer/summarizer.py:133 | inserting a new item keeps equal-key items in input order |
| Ranking.IndexOf | email_summarizer/summarizer.py:145 | `list.index`: the first position of x, and the length exactly when x is absent |
| Ranking.IndexOfConcat | email_summarizer/summarizer.py:145 | the first position in a concatenation is found in the first part when x occurs there |
| Ranking.HeadOutranksTail | email_summarizer/summarizer.py:142 | in a list sorted by descending key, every item of a prefix has a key at least that of every item after it |
| Ranking.HeadTailMultisets | email_summarizer/summarizer.py:142 | a prefix and the rest of a list together hold exactly its items |
| Ranking.RankingHeadMultisets | email_summarizer/summarizer.py:142 | the first `count` items of the ranking are items of the input and the rest of the input is the rest of the ranking |
| Ranking.RankingHeadIsTop | email_summarizer/summarizer.py:133-142 | the first `count` items of a descending ranking have keys at least those of every item not taken |
| Ranking.Distinct | email_summarizer/summarizer.py:58 | the keys of a `Counter` are distinct and come from the input |
| Ranking.DistinctMembers | email_summarizer/summarizer.py:58 | a value is a `Counter` key exactly when it occurs in the input |
| Ranking.DistinctFirstOccurrenceOrder | email_summarizer/summarizer.py:58 | `Counter` keys are in order of first occurrence |
| Ranking.TabulateNoDuplicates | src/email_summarizer/summarizer.py:61-64 | the table has no repeated entry |
| Ranking.TabulateMembers | src/email_summarizer/summarizer.py:61-64 | the table built over the `Counter` items holds `(k, v)` exactly when `k` occurs in the input and `v` is its value |
| Ranking.NoDuplicatesByMultiplicity | email_summarizer/summarizer.py:58 | a list has no repeats exactly when every element occurs at most once |
| Ranking.RankedEntries | src/email_summarizer/summarizer.py:65 | every ranked entry is a word of the input with its own score |
| Ranking.RankedKeysDistinct | src/email_summarizer/summarizer.py:65 | no word is ranked twice |
| Ranking.RankedTiesByFirstOccurrence | src/email_summarizer/summarizer.py:65 | entries with equal scores are ranked in the order their words first occur |
| Ranking.StableTiesFollowFirstOccurrence | src/email_summarizer/summarizer.py:65 | a stable ranking of a table in first-occurrence order ranks ties by first occurrence |
| Ranking.RankedPrefix | email_summarizer/summarizer.py:61 | every prefix of the ranking: distinct words with their own scores, scores non-increasing, ties by first occurrence, no longer than the number of distinct words |
| Ranking.RankedPrefixTop | email_summarizer/summarizer.py:61 | a word left out of a ranking prefix scores no higher than any word in it |
| Ranking.MostCommonPrefix | email_summarizer/summarizer.py:61 | `most_common(n)` is a prefix of the ranking of length `min(n, len)`, empty for n ≤ 0 |
| Ranking.SlicePrefix | email_summarizer/summarizer.py:152 | `s[:n]` is a prefix of s with Python's slice length, including a negative n |
| FrequencySummarizer.SplitSentencesShape | email_summarizer/summarizer.py:19-27 | every sentence is non-empty, stripped, and holds no `.`, `!` or `?` |
| FrequencySummarizer.StripNonBlankNoTerminator | email_summarizer/summarizer.py:25 | stripping and dropping blank pieces introduces no terminator |
| FrequencySummarizer.SplitSentencesContent | email_summarizer/summarizer.py:19-27 | splitting drops only whitespace and terminators: the content characters of the sentences are those of the text, in order |
| FrequencySummarizer.SplitSentencesWhole | email_summarizer/summarizer.py:19-27 | text without `.`, `!` or `?` is one sentence, stripped, or none when it is blank |
| FrequencySummarizer.SplitSentencesJoin | email_summarizer/summarizer.py:19-27 | sentences break exactly at terminator runs: the sentences of `a + stops + b` are those of `a` followed by those of `b` |
| FrequencySummarizer.TokensAreLower | email_summarizer/summarizer.py:42 | every token is made of `[가-힣a-zA-Z0-9]` and has no upper-case letter |
| FrequencySummarizer.TokensJoin | email_summarizer/summarizer.py:42 | tokens break exactly at characters outside `[가-힣a-zA-Z0-9]`: the tokens of `a + [c] + b` are those of `a` followed by those of `b` |
| FrequencySummarizer.ExtractKeywords | email_summarizer/summarizer.py:42-61 | exactly `min(top_n, number of distinct eligible words)` pairs, none for `top_n` ≤ 0 |
| FrequencySummarizer.ExtractKeywordsShape | email_summarizer/summarizer.py:42-61 | distinct lower-case terms longer than one character and not stopwords; each with its true positive count; counts non-increasing; ties in first-occurrence order |
| FrequencySummarizer.CountedWordsAreTerms | email_summarizer/summarizer.py:42-55 | every counted word is a lower-case run of `[가-힣a-zA-Z0-9]` characters, longer than one character and not a stopword |
| FrequencySummarizer.ExtractKeywordsTop | email_summarizer/summarizer.py:58-61 | a counted word left out of the keywords occurs no more often than any keyword |
| FrequencySummarizer.CalculateSentenceScore | email_summarizer/summarizer.py:75-97 | the loop computes `SentenceScore` |
| FrequencySummarizer.SentenceScoreParts | email_summarizer/summarizer.py:75-95 | the score is the frequencies of the keywords found in the lower-cased sentence, plus a length bonus of 0, 0.5 or 1, plus marker bonuses read from the sentence as written that no keyword list changes |
| FrequencySummarizer.KeywordWeightIsSumOfFound | email_summarizer/summarizer.py:79-81 | the keyword part of the score is the sum of the frequencies of exactly the keywords found |
| FrequencySummarizer.SumFrequenciesConcat | email_summarizer/summarizer.py:79-81 | the frequency sum of a concatenation is the sum of the sums |
| FrequencySummarizer.SentenceScoreNonNegative | email_summarizer/summarizer.py:75-97 | with non-negative frequencies no score is negative |
| FrequencySummarizer.KeywordWeightNonNegative | email_summarizer/summarizer.py:79-81 | with non-negative frequencies the keyword part is non-negative |
| FrequencySummarizer.KeywordWeightAtMostTotal | email_summarizer/summarizer.py:79-81 | the keyword part is at most the sum of all frequencies |
| FrequencySummarizer.TopInDocumentOrder | email_summarizer/summarizer.py:133-145 | ranking, cutting and re-sorting keeps exactly `count` pairs |
| FrequencySummarizer.Selection | email_summarizer/summarizer.py:136-145 | `min(3, n)` sentences are selected for "short" and `min(5, n)` for any other length |
| FrequencySummarizer.BuildSummary | email_summarizer/summarizer.py:123-157 | the append loop, the two sorts, the cut and the join compute `SummaryOf` |
| FrequencySummarizer.SummarizeText | email_summarizer/summarizer.py:100-157 | the method computes `Summarize` |
| FrequencySummarizer.SummarizeEmpty | email_summarizer/summarizer.py:115-121 | no sentences exactly when the result carries no sentence counts; then the placeholder summary, no keywords and summary length 0 |
| FrequencySummarizer.SummarizeCounts | email_summarizer/summarizer.py:136-156 | otherwise the counts are `(n, min(3 or 5, n))`, keywords are the first five at most, the summary length is the summary's length and the summary ends with "." |
| FrequencySummarizer.TopInDocumentOrderShape | email_summarizer/summarizer.py:142-145 | the selected pairs are scored pairs in document order |
| FrequencySummarizer.TopKeepsTopScores | email_summarizer/summarizer.py:133-142 | the selection is a sub-multiset of the scored sentences, outscores every pair not selected, a pair wholly left out that ties with a selected one comes later in the scored list, and for every score the selected pairs of that score are exactly the first pairs of that score in the scored list, repeats included |
| FrequencySummarizer.SelectionInDocumentOrder | email_summarizer/summarizer.py:127-145 | every selected sentence is a sentence of the text with its own score, and they are in document order |
| FrequencySummarizer.SelectionKeepsTopScores | email_summarizer/summarizer.py:127-142 | the selected sentences score at least as high as every sentence left out, on a tie at the cut the selected sentence comes earlier in the document than the one left out, and for every score the selected sentences of that score are exactly the first ones of that score in the document, so for a repeated sentence the later copies are the ones dropped |
| FrequencySummarizer.SummaryInDocumentOrder | email_summarizer/summarizer.py:145-148 | the summary is the selected sentences in document order, joined by ". " and closed by "." |
| FrequencySummarizer.SummaryLine | email_summarizer/summarizer.py:177-186 | the replace loop emphasises every keyword in list order when highlighting is on and keywords exist, and otherwise leaves the summary alone |
| FrequencySummarizer.ReplaceAbsent | email_summarizer/summarizer.py:181-183 | `str.replace` of a target that does not occur changes nothing |
| FrequencySummarizer.EmphasisOnlyAddsStars | email_summarizer/summarizer.py:181-183 | emphasising a keyword only adds `*` characters |
| FrequencySummarizer.EmphasiseAllOnlyAddsStars | email_summarizer/summarizer.py:177-186 | emphasising all keywords only adds `*` characters |
| Seq2SeqText.DetectLanguage | src/email_summarizer/summarizer.py:23-31 | Korean exactly when Hangul outnumbers Latin letters and exceeds 10; English exactly when Latin letters outnumber Hangul and exceed 10 |
| Seq2SeqText.DetectLanguageMixed | src/email_summarizer/summarizer.py:26-31 | ties and texts of at most 10 characters are Mixed |
| Seq2SeqText.CountWhereFilter | src/email_summarizer/summarizer.py:24-25 | removing characters outside a class does not change the count of a sub-class |
| Seq2SeqText.DetectLanguageLettersOnly | src/email_summarizer/summarizer.py:23-31 | only Hangul and Latin letters matter: deleting every other character leaves the verdict unchanged |
| Seq2SeqText.BreakAt | src/email_summarizer/summarizer.py:38 | the separator at the front is a run of whitespace, and there is one exactly at a newline, or at whitespace right after a terminator |
| Seq2SeqText.Pieces | src/email_summarizer/summarizer.py:38-39 | `sentence_endings.split(text)` gives at least one piece |
| Seq2SeqText.SplitSentencesShape | src/email_summarizer/summarizer.py:39 | every sentence is non-empty and stripped |
| Seq2SeqText.PiecesKeep | src/email_summarizer/summarizer.py:38 | the split removes only whitespace, so terminators stay with their sentence |
| Seq2SeqText.PiecesConcatStep | src/email_summarizer/summarizer.py:38 | one step of the split either drops a separator or keeps the first character |
| Seq2SeqText.ConcatFirstExtended | src/email_summarizer/summarizer.py:38 | extending the first piece by a character extends the concatenation by it |
| Seq2SeqText.SplitSentencesKeep | src/email_summarizer/summarizer.py:37-39 | the sentences hold every non-space character of the text, in order |
| Seq2SeqText.PiecesWhole | src/email_summarizer/summarizer.py:38 | without a separator the text is one piece; with one there are several |
| Seq2SeqText.SplitSentencesWhole | src/email_summarizer/summarizer.py:37-39 | text with no newline and no whitespace after a terminator yields `[text.strip()]`, or `[]` when blank |
| Seq2SeqText.WordsAreTerms | src/email_summarizer/summarizer.py:49-55 | every word is a Hangul run of at least 2 or a lower-case ASCII word of at least 3 letters, and no stopword |
| Seq2SeqText.ExtractKeywords | src/email_summarizer/summarizer.py:57-65 | no words gives `[]`; otherwise at most `top_n` pairs |
| Seq2SeqText.ExtractKeywordsShape | src/email_summarizer/summarizer.py:57-65 | distinct eligible words, each with its own TF-IDF score, scores non-increasing, ties in first-occurrence order |
| Seq2SeqText.ExtractKeywordsSize | src/email_summarizer/summarizer.py:57-65 | with words and a positive `top_n`, exactly `min(top_n, distinct words)` pairs, so at least one |
| Seq2SeqText.ExtractKeywordsTop | src/email_summarizer/summarizer.py:61-65 | a word left out scores no higher than any keyword |
| Seq2SeqPipeline.ConvertSentimentToKorean | src/email_summarizer/summarizer.py:86-93 | star labels map to a Korean label different from the input; every other label passes through; the confidence is one of 높음, 보통, 낮음 |
| Seq2SeqPipeline.KoreanSentimentProperties | src/email_summarizer/summarizer.py:87-91 | different star labels get different Korean labels, and converting twice is converting once |
| Seq2SeqPipeline.ConfidenceMonotone | src/email_summarizer/summarizer.py:92 | a higher score never gets a lower confidence band |
| Seq2SeqPipeline.AutoBounds | src/email_summarizer/summarizer.py:137-149 | every band has `15 <= min < max <= 250` |
| Seq2SeqPipeline.AutoBoundsMonotone | src/email_summarizer/summarizer.py:137-149 | a longer text, or one with more sentences, never gets a smaller band |
| Seq2SeqPipeline.ResolveBounds | src/email_summarizer/summarizer.py:134-153 | a bound the caller gave is kept; only missing ones come from the band |
| Seq2SeqPipeline.RetryBounds | src/email_summarizer/summarizer.py:160 | the retry keeps the maximum and raises the minimum to `min(120, max_length)` |
| Seq2SeqPipeline.RetryIsBounded | src/email_summarizer/summarizer.py:157-162 | the summary comes from the first call or from exactly one retry, whose minimum lies above the original and within the maximum |
| Seq2SeqPipeline.NoRetryForLongSummary | src/email_summarizer/summarizer.py:159 | a first summary of two sentences or more is kept |
| Seq2SeqPipeline.SummarizeSystemSeq2Seq | src/email_summarizer/summarizer.py:129-180 | the step-by-step method computes `SummarizeSystem` |
| Seq2SeqPipeline.SummarizeWithRetry | src/email_summarizer/summarizer.py:157-162 | the call and its retry compute `SummaryWithRetry` |
| Seq2SeqPipeline.DescribeSummary | src/email_summarizer/summarizer.py:163-177 | the sentiments, keywords and highlighting compute `Describe` |
| Seq2SeqPipeline.SummarizeSystemErrors | src/email_summarizer/summarizer.py:130-131 | the short-input envelope comes back exactly for texts under 30 characters, and every other error carries the exception prefix |
| Seq2SeqPipeline.DescribeErrors | src/email_summarizer/summarizer.py:179-180 | an exception in the report stage gives an error carrying the prefix |
| Seq2SeqPipeline.SummarizeSystemReport | src/email_summarizer/summarizer.py:163-177 | a report keeps the original length and detected language, holds at most ten keywords of the input, and, unhighlighted, the summary's own length and sentence count |
| Seq2SeqPipeline.MixedTextSkipsModels | src/email_summarizer/summarizer.py:99-123 | a Mixed text never reaches a model: the outcome is the same whatever the models do |
| Seq2SeqPipeline.HeaderOnlyInFirstFive | src/email_summarizer/summarizer.py:216 | lines after the fifth play no part in the decision |
| Seq2SeqPipeline.HeaderIgnoresCase | src/email_summarizer/summarizer.py:216 | looking for a header in the lower-cased lines gives the same answer as in the original lines: header detection ignores letter case |
| Seq2SeqPipeline.GetSummaryStrategy | src/email_summarizer/summarizer.py:221-236 | every strategy has `top_n` 6, and preprocessing happens exactly for "email" |
| Seq2SeqPipeline.StrategyForDetectedType | src/email_summarizer/summarizer.py:214-236 | a text is preprocessed exactly when a header occurs in its first five lines, and diversity never exceeds the general one |
| Seq2SeqPipeline.Wrap | src/email_summarizer/summarizer.py:245 | the replacement is the keyword inside the 7-character start and 4-character end escape codes |
| Seq2SeqPipeline.HighlightKeywords | src/email_summarizer/summarizer.py:239-246 | the loop computes `Highlighted`, skipping blank keywords |
| Seq2SeqPipeline.SubstituteFromNoMatch | src/email_summarizer/summarizer.py:244-245 | substitution changes nothing where the keyword matches nowhere |
| Seq2SeqPipeline.SubstituteFromGrows | src/email_summarizer/summarizer.py:244-245 | with a longer replacement the text never shrinks and grows when there is a match |
| Seq2SeqPipeline.HighlightOneUnchanged | src/email_summarizer/summarizer.py:244-245 | highlighting a keyword changes the text exactly when it occurs as a whole word, in any letter case |
| Seq2SeqPipeline.SubstituteSpellingOnly | src/email_summarizer/summarizer.py:244-245 | the substitution with the keyword's own spelling, which is what highlighting leaves once its colour codes are taken out, changes nothing but letter case |
| Seq2SeqPipeline.RemoveCodesSubstitute | src/email_summarizer/summarizer.py:245 | for text and keyword without escape characters, highlighting only inserts `\033[1;36m` before and `\033[0m` after each match: taking those codes out gives the substitution with the keyword's own spelling |
| Seq2SeqPipeline.HighlightOneSpellingOnly | src/email_summarizer/summarizer.py:244-245 | taking the colour codes out of a highlighted text gives the original text up to letter case |
| Seq2SeqPipeline.HighlightTwiceDiffers | src/email_summarizer/summarizer.py:239-246 | highlighting is not idempotent: the keyword `0m` is found again in the reset code the first pass wrote |
| Seq2SeqPipeline.SpellingAtMatch | src/email_summarizer/summarizer.py:244-245 | the substitution step at a match keeps the text the same up to letter case |
| Seq2SeqPipeline.SpellingAtOther | src/email_summarizer/summarizer.py:244-245 | the step that copies a character keeps the text the same up to letter case |
| Seq2SeqPipeline.LowerAfterStep | src/email_summarizer/summarizer.py:244-245 | a case variant of a slice followed by a case variant of the rest is a case variant of the whole |
| Seq2SeqPipeline.SameIgnoringCaseLower | src/email_summarizer/summarizer.py:244 | strings equal under IGNORECASE lower-case to the same string |
| Seq2SeqPipeline.HighlightedUnchanged | src/email_summarizer/summarizer.py:239-246 | text in which no keyword occurs as a whole word comes back unchanged |
| Seq2SeqPipeline.HighlightedSkipsBlank | src/email_summarizer/summarizer.py:241-243 | blank keywords are skipped: removing them from the list changes nothing |
| Seq2SeqPipeline.HighlightedStep | src/email_summarizer/summarizer.py:241-245 | a non-blank keyword at the end of the list is highlighted last |
| TextUtils.ValidateText | email_summarizer/utils.py:54-76 | valid exactly when the stripped text has at least `min_length` characters and the text holds a word character; empty text is invalid |
| TextUtils.ValidTextHasContent | email_summarizer/utils.py:68-76 | a valid text still holds a word character after stripping |
| TextUtils.WordCharSurvivesStrip | email_summarizer/utils.py:68 | a word character is never stripped away |
| TextUtils.ValidateTextContent | email_summarizer/utils.py:158-180 | the verdict is that of `validate_text`; the message is None exactly when valid; otherwise it is the message of the first check that failed, and a too-short message has a positive minimum |
| TextUtils.Digit | email_summarizer/utils.py:221 | a digit below 10 is written as the character with that digit value |
| TextUtils.DecimalString | email_summarizer/utils.py:221 | `str(n)` is a non-empty digit string with no leading zero |
| TextUtils.DecimalRoundTrip | email_summarizer/utils.py:221 | reading the numeral back gives n |
| TextUtils.GroupDigits | email_summarizer/utils.py:221 | inserting separators never shortens the digits |
| TextUtils.GroupDigitsLayout | email_summarizer/utils.py:221 | `{n:,}`: commas stand exactly at every fourth place from the end, never first, and every other character is a digit |
| TextUtils.GroupDigitsKeepsDigits | email_summarizer/utils.py:221 | dropping the commas gives the digits back |
| TextUtils.FormatThousandsRoundTrip | email_summarizer/utils.py:221 | the digits of the formatted length are `str(n)` and read back as n |
| TextUtils.PreviewBodyCutsAtLastStop | email_summarizer/utils.py:215-219 | the body is a prefix of the cut; with a `.` it ends at the cut's last `.`; without one it is the whole cut |
| TextUtils.FormatTextPreviewShape | email_summarizer/utils.py:200-221 | the text itself when it fits; otherwise a prefix of the text no longer than `text[:max_length]`, ending at its last `.` if it has one, followed by "... (총 N자)" |

## Left out

- Graphical interface, Gmail access, command-line plumbing, and the file and standard-input readers of `email_summarizer/utils.py` (`read_text_file`, `read_file_content`, `read_stdin_content`, `get_input_source_info`): user interface and I/O.
- Model inference: `summarize_with_seq2seq`'s KoBART and BART calls and `analyze_sentiment` (with its 512-token truncation) are function parameters returning a summary, a rating or an exception message. The torch device is not modelled.
- Seq2SeqText.TfIdf: `math.log` is a parameter `ln: real -> real`, and Python floats are Dafny reals without rounding. Only orderings, sizes and eligibility are proved, never numeric values.
- `format_seq2seq_summary` and the rest of `format_summary_output`: emoji headings, statistics lines and the compression percentage are presentation. Only the keyword replace loop is modelled.
- MMR or embedding-based selection: the strategy table's `diversity` and `redundancy_threshold` are data only, because no selection code reads them.
- `\w`, `\b` and `[가-힣]` word boundaries: `\w` is ASCII letters, digits, `_` and Hangul syllables. Python's full Unicode word class is not modelled.
- TextBasics.Lower: `str.lower()` and `re.IGNORECASE` lower only ASCII letters. Non-ASCII case mappings are not modelled.
- Seq2SeqPipeline.HighlightKeywords: the replacement is taken as the literal keyword spelling. `re.sub` template escapes (`\1`, `\g<…>`) inside a keyword are not interpreted.
- Seq2SeqPipeline.HighlightKeywords: regex compilation and the `re.escape` of the keyword are not modelled; matching is a literal, case-insensitive comparison.
- Seq2SeqPipeline.Highlighted: idempotence (highlighting twice equals highlighting once) is not proved. It fails in general: `HighlightTwiceDiffers` shows that the keyword `0m` matches again inside the `\033[0m` code. Whether it holds for keywords made of letters only is not proved here.
- FrequencySummarizer.SummarizeText: the `language` argument is unused by the source and is left out.
- FrequencySummarizer.BuildSummary: the two in-place `list.sort` calls are modelled by reassigning a sequence with a stable sorted copy. No list is aliased there.
- Sentence splitting of `src/email_summarizer/summarizer.py` is a single left-to-right scan, with the look-behind reading the original text. Python's regex engine itself is not modelled.
- The 30-meaningful-character check and the short/long option mapping of the command-line front ends are not part of this model.
- The test file's expectation that mixed text is "Mixed" targets a different `detect_language` and does not hold for `src/email_summarizer/summarizer.py:23-31` (15 Latin letters against 5 Hangul give English). The model follows the code.
