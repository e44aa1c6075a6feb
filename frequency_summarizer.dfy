/** The frequency-based extractive summariser: sentences are split on runs
    of `.`, `!` and `?`, scored by the keywords they contain, their length
    and a few marker words, and the best three (or five) are put back in
    document order. */
module FrequencySummarizer {
  import opened TextBasics
  import opened Ranking

  // ---------------------------------------------------------------------
  // Sentences
  // ---------------------------------------------------------------------

  /** `[.!?]` */
  predicate IsTerminator(c: char) { c == '.' || c == '!' || c == '?' }

  /** Characters that carry content: neither whitespace nor a terminator. */
  predicate IsContentChar(c: char) { !IsSpace(c) && !IsTerminator(c) }

  /** `split_sentences`: `re.split(r'[.!?]+', text)`, each piece stripped,
      blank pieces dropped. */
  function SplitSentences(text: string): seq<string>
  {
    StripNonBlank(SplitRuns(text, IsTerminator))
  }

  /** Every sentence is non-empty, already stripped, and holds no terminator. */
  lemma SplitSentencesShape(text: string)
    ensures forall w :: w in SplitSentences(text) ==>
      w != [] && Strip(w) == w && forall i :: 0 <= i < |w| ==> !IsTerminator(w[i])
  {
    StripNonBlankNoTerminator(SplitRuns(text, IsTerminator));
    forall w | w in SplitSentences(text) ensures Strip(w) == w {
      StripStripped(w);
    }
  }

  lemma {:induction false} StripNonBlankNoTerminator(pieces: seq<string>)
    requires forall w :: w in pieces ==> forall i :: 0 <= i < |w| ==> !IsTerminator(w[i])
    ensures forall w :: w in StripNonBlank(pieces) ==> forall i :: 0 <= i < |w| ==> !IsTerminator(w[i])
  {
    if pieces != [] {
      StripNonBlankNoTerminator(pieces[1..]);
      var w := pieces[0];
      var k := StripIsSlice(w);
      forall i | 0 <= i < |Strip(w)| ensures !IsTerminator(Strip(w)[i]) {
        assert Strip(w)[i] == w[k + i];
      }
    }
  }

  /** Splitting drops only whitespace and terminators: the content
      characters of the sentences, read in order, are those of the text. */
  lemma SplitSentencesContent(text: string)
    ensures Filter(Concat(SplitSentences(text)), IsContentChar) == Filter(text, IsContentChar)
  {
    var pieces := SplitRuns(text, IsTerminator);
    StripNonBlankKeeps(pieces, IsContentChar);
    SplitRunsConcat(text, IsTerminator);
    FilterFilter(text, Complement(IsTerminator), IsContentChar);
  }

  /** Text without `.`, `!` or `?` is one sentence, stripped, or none when
      it is blank. */
  lemma SplitSentencesWhole(text: string)
    requires forall i :: 0 <= i < |text| ==> !IsTerminator(text[i])
    ensures SplitSentences(text) == if Strip(text) == [] then [] else [Strip(text)]
  {
    SplitRunsWhole(text, IsTerminator);
    StripNonBlankSingle(text);
  }

  /** A run of terminators between two stretches of text ends the sentences
      before it: the sentences of the whole are those of each side, in
      order. */
  lemma SplitSentencesJoin(a: string, stops: string, b: string)
    requires a == [] || !IsTerminator(a[|a| - 1])
    requires stops != [] && forall i :: 0 <= i < |stops| ==> IsTerminator(stops[i])
    requires b == [] || !IsTerminator(b[0])
    ensures SplitSentences(a + stops + b) == SplitSentences(a) + SplitSentences(b)
  {
    SplitRunsJoin(a, stops, b, IsTerminator);
    StripNonBlankConcat(SplitRuns(a, IsTerminator), SplitRuns(b, IsTerminator));
  }

  // ---------------------------------------------------------------------
  // Keywords
  // ---------------------------------------------------------------------

  /** `[가-힣a-zA-Z0-9]` */
  predicate IsKeywordChar(c: char) { IsHangul(c) || IsAsciiLetter(c) || IsDigit(c) }

  const Stopwords: set<string> := {
    "이", "그", "저", "것", "수", "등", "때", "곳", "말", "일", "년", "월",
    "시", "분", "초", "개", "명", "번", "회", "차", "대", "마리", "권", "채",
    "그것", "이것", "저것", "무엇", "어떤", "어떻게", "왜", "언제", "어디서",
    "the", "a", "an", "and", "or", "but", "in", "on", "at", "to", "for", "of",
    "with", "by", "is", "are", "was", "were", "be", "been", "being", "have",
    "has", "had", "do", "does", "did", "will", "would", "could", "should"
  }

  /** A token survives filtering when it is no stopword and longer than one character. */
  predicate Eligible(w: string) { w !in Stopwords && |w| > 1 }

  /** `re.findall(r'[가-힣a-zA-Z0-9]+', text.lower())` */
  function Tokens(text: string): seq<string>
  {
    Runs(Lower(text), IsKeywordChar)
  }

  /** A character outside the token class separates tokens: the tokens of
      the whole are those of each side, in order. */
  lemma TokensJoin(a: string, c: char, b: string)
    requires !IsKeywordChar(c)
    ensures Tokens(a + [c] + b) == Tokens(a) + Tokens(b)
  {
    LowerConcat(a + [c], b);
    LowerConcat(a, [c]);
    assert Lower([c]) == [LowerChar(c)];
    RunsJoin(Lower(a), LowerChar(c), Lower(b), IsKeywordChar);
  }

  /** The tokens that are counted, in text order. */
  function CountedWords(text: string): seq<string>
  {
    Filter(Tokens(text), Eligible)
  }

  /** A `Counter`'s lookup: how often w occurs in words. */
  function Occurrences(words: seq<string>): string -> int
  {
    w => multiset(words)[w]
  }

  /** `itemgetter(1)`, the sort key of `most_common`. */
  function CountKey(e: (string, int)): real { e.1 as real }

  /** `extract_keywords`: `Counter(words).most_common(top_n)`. */
  function ExtractKeywords(text: string, topN: int): (r: seq<(string, int)>)
    ensures |r| == if topN <= 0 then 0 else Min(topN, |Distinct(CountedWords(text))|)
  {
    var words := CountedWords(text);
    MostCommonPrefix(Sorted(Tabulate(words, Occurrences(words)), CountKey, true), topN)
  }

  /** What a keyword looks like: lower case, from the token class, longer
      than one character, not a stopword. */
  predicate IsKeywordTerm(w: string)
  {
    Eligible(w) && forall i :: 0 <= i < |w| ==> IsKeywordChar(w[i]) && !IsAsciiUpper(w[i])
  }

  lemma TokensAreLower(text: string)
    ensures forall w :: w in Tokens(text) ==> forall i :: 0 <= i < |w| ==> IsKeywordChar(w[i]) && !IsAsciiUpper(w[i])
  {
    RunsInherit(Lower(text), IsKeywordChar, NotAsciiUpper);
  }

  /** The shape of the keyword list: distinct well-formed terms with their
      true counts, counts positive and non-increasing, ties in the order the
      terms first occur. */
  lemma ExtractKeywordsShape(text: string, topN: int)
    ensures var r := ExtractKeywords(text, topN);
      && (forall i :: 0 <= i < |r| ==> IsKeywordTerm(r[i].0))
      && (forall i :: 0 <= i < |r| ==> r[i].0 in CountedWords(text) && r[i].1 == multiset(CountedWords(text))[r[i].0] > 0)
      && (forall i, j :: 0 <= i < j < |r| ==> r[i].0 != r[j].0)
      && (forall i, j :: 0 <= i < j < |r| ==> r[i].1 >= r[j].1)
      && (forall i, j :: 0 <= i < j < |r| && r[i].1 == r[j].1 ==>
            IndexOf(CountedWords(text), r[i].0) < IndexOf(CountedWords(text), r[j].0))
  {
    var words := CountedWords(text);
    var r := ExtractKeywords(text, topN);
    RankedPrefix(words, Occurrences(words), CountKey, r);
    EntriesAreTerms(text, r);
  }

  lemma EntriesAreTerms(text: string, r: seq<(string, int)>)
    requires forall i :: 0 <= i < |r| ==> r[i].0 in CountedWords(text)
    ensures forall i :: 0 <= i < |r| ==> IsKeywordTerm(r[i].0)
  {
    CountedWordsAreTerms(text);
  }

  /** Every counted word has the shape of a keyword. */
  lemma CountedWordsAreTerms(text: string)
    ensures forall w :: w in CountedWords(text) ==> IsKeywordTerm(w)
  {
    forall w | w in CountedWords(text) ensures IsKeywordTerm(w) {
      CountedWordIsTerm(text, w);
    }
  }

  lemma CountedWordIsTerm(text: string, w: string)
    requires w in CountedWords(text)
    ensures IsKeywordTerm(w)
  {
    CountedWordIsToken(text, w);
    TokensAreLower(text);
  }

  lemma CountedWordIsToken(text: string, w: string)
    requires w in CountedWords(text)
    ensures w in Tokens(text) && Eligible(w)
  {
    FilterMembers(Tokens(text), Eligible);
  }

  /** `most_common` keeps the most frequent terms: a counted word left out
      occurs no more often than any term kept. */
  lemma ExtractKeywordsTop(text: string, topN: int, w: string)
    requires w in CountedWords(text)
    requires forall i :: 0 <= i < |ExtractKeywords(text, topN)| ==> ExtractKeywords(text, topN)[i].0 != w
    ensures forall i :: 0 <= i < |ExtractKeywords(text, topN)| ==>
      multiset(CountedWords(text))[w] <= ExtractKeywords(text, topN)[i].1
  {
    var words := CountedWords(text);
    RankedPrefixTop(words, Occurrences(words), CountKey, ExtractKeywords(text, topN), w);
  }

  // ---------------------------------------------------------------------
  // Sentence scores
  // ---------------------------------------------------------------------

  /** The summed frequencies of the keywords that occur in the lower-cased
      sentence, accumulated in list order. */
  function KeywordWeight(lowered: string, keywords: seq<(string, int)>): real
  {
    if keywords == [] then 0.0
    else
      var last := keywords[|keywords| - 1];
      KeywordWeight(lowered, keywords[..|keywords| - 1]) + (if Contains(lowered, last.0) then last.1 as real else 0.0)
  }

  /** The length band: 1.0 for 10 to 100 characters, 0.5 for 5 to 9 or 101 to 200. */
  function LengthBonus(length: nat): real
  {
    if 10 <= length <= 100 then 1.0
    else if (5 <= length < 10) || (100 < length <= 200) then 0.5
    else 0.0
  }

  const ImportanceMarkers: seq<string> := ["주요", "핵심", "중요", "특징", "기능", "목적", "의미"]
  const ExampleMarkers: seq<string> := ["예시", "예를", "예시로", "구체적으로"]

  /** `re.search('m1|m2|...', s)` for literal alternatives. */
  predicate SearchAny(s: string, markers: seq<string>)
  {
    exists i :: 0 <= i < |markers| && Contains(s, markers[i])
  }

  /** The marker bonuses, tested on the sentence as written. */
  function MarkerBonus(sentence: string): real
  {
    (if SearchAny(sentence, ImportanceMarkers) then 2.0 else 0.0)
    + (if SearchAny(sentence, ExampleMarkers) then 1.5 else 0.0)
  }

  /** The score `calculate_sentence_score` computes. */
  function SentenceScore(sentence: string, keywords: seq<(string, int)>): real
  {
    KeywordWeight(Lower(sentence), keywords) + LengthBonus(|sentence|) + MarkerBonus(sentence)
  }

  /** `calculate_sentence_score` */
  method CalculateSentenceScore(sentence: string, keywords: seq<(string, int)>) returns (score: real)
    ensures score == SentenceScore(sentence, keywords)
  {
    var lowered := Lower(sentence);
    score := 0.0;
    var i := 0;
    while i < |keywords|
      invariant 0 <= i <= |keywords|
      invariant score == KeywordWeight(lowered, keywords[..i])
    {
      var (keyword, frequency) := keywords[i];
      if Contains(lowered, keyword) {
        score := score + frequency as real;
      }
      assert keywords[..i + 1][..i] == keywords[..i];
      i := i + 1;
    }
    assert keywords[..i] == keywords;
    var length := |sentence|;
    if 10 <= length <= 100 {
      score := score + 1.0;
    } else if (5 <= length < 10) || (100 < length <= 200) {
      score := score + 0.5;
    }
    if SearchAny(sentence, ImportanceMarkers) {
      score := score + 2.0;
    }
    if SearchAny(sentence, ExampleMarkers) {
      score := score + 1.5;
    }
  }

  /** Whether a keyword occurs in the lower-cased sentence. */
  function OccursIn(lowered: string): ((string, int)) -> bool
  {
    (k: (string, int)) => Contains(lowered, k.0)
  }

  /** The frequencies of a keyword list, added up. */
  function SumFrequencies(keywords: seq<(string, int)>): int
  {
    if keywords == [] then 0 else keywords[0].1 + SumFrequencies(keywords[1..])
  }

  lemma {:induction false} SumFrequenciesConcat(a: seq<(string, int)>, b: seq<(string, int)>)
    ensures SumFrequencies(a + b) == SumFrequencies(a) + SumFrequencies(b)
  {
    if a == [] {
      assert a + b == b;
    } else {
      assert (a + b)[1..] == a[1..] + b;
      SumFrequenciesConcat(a[1..], b);
    }
  }

  /** The keyword part of the score is the sum of the frequencies of exactly
      the keywords found in the sentence. */
  lemma {:induction false} KeywordWeightIsSumOfFound(lowered: string, keywords: seq<(string, int)>)
    ensures KeywordWeight(lowered, keywords) == SumFrequencies(Filter(keywords, OccursIn(lowered))) as real
  {
    if keywords != [] {
      var init, last := keywords[..|keywords| - 1], keywords[|keywords| - 1];
      assert keywords == init + [last];
      KeywordWeightIsSumOfFound(lowered, init);
      FilterConcat(init, [last], OccursIn(lowered));
      SumFrequenciesConcat(Filter(init, OccursIn(lowered)), Filter([last], OccursIn(lowered)));
    }
  }

  /** A score is the frequencies of the keywords found in the lower-cased
      sentence, plus a length bonus of 0, 0.5 or 1, plus marker bonuses read
      from the sentence as written, which no keyword list affects. */
  lemma SentenceScoreParts(sentence: string, keywords: seq<(string, int)>, others: seq<(string, int)>)
    ensures SentenceScore(sentence, keywords)
         == SumFrequencies(Filter(keywords, OccursIn(Lower(sentence)))) as real + LengthBonus(|sentence|) + MarkerBonus(sentence)
    ensures LengthBonus(|sentence|) in {0.0, 0.5, 1.0}
    ensures MarkerBonus(sentence) in {0.0, 1.5, 2.0, 3.5}
    ensures SentenceScore(sentence, keywords) - KeywordWeight(Lower(sentence), keywords)
         == SentenceScore(sentence, others) - KeywordWeight(Lower(sentence), others)
  {
    KeywordWeightIsSumOfFound(Lower(sentence), keywords);
  }

  /** With frequencies that are never negative, as `most_common` gives, no
      score is negative. */
  lemma SentenceScoreNonNegative(sentence: string, keywords: seq<(string, int)>)
    requires forall i :: 0 <= i < |keywords| ==> keywords[i].1 >= 0
    ensures SentenceScore(sentence, keywords) >= 0.0
  {
    KeywordWeightNonNegative(Lower(sentence), keywords);
  }

  lemma {:induction false} KeywordWeightNonNegative(lowered: string, keywords: seq<(string, int)>)
    requires forall i :: 0 <= i < |keywords| ==> keywords[i].1 >= 0
    ensures KeywordWeight(lowered, keywords) >= 0.0
  {
    if keywords != [] {
      KeywordWeightNonNegative(lowered, keywords[..|keywords| - 1]);
    }
  }

  /** The keyword part never exceeds the sum of all non-negative frequencies. */
  lemma {:induction false} KeywordWeightAtMostTotal(lowered: string, keywords: seq<(string, int)>)
    requires forall i :: 0 <= i < |keywords| ==> keywords[i].1 >= 0
    ensures KeywordWeight(lowered, keywords) <= SumFrequencies(keywords) as real
  {
    if keywords != [] {
      var init, last := keywords[..|keywords| - 1], keywords[|keywords| - 1];
      assert keywords == init + [last];
      KeywordWeightAtMostTotal(lowered, init);
      SumFrequenciesConcat(init, [last]);
    }
  }

  // ---------------------------------------------------------------------
  // Summaries
  // ---------------------------------------------------------------------

  /** `sentence_count` and `selected_sentences`. */
  datatype SentenceCounts = SentenceCounts(sentenceCount: nat, selectedCount: nat)

  /** The dictionary `summarize_text` returns. Only a non-empty summary
      carries the sentence counts. */
  datatype SummaryResult = SummaryResult(
    summary: string,
    keywords: seq<(string, int)>,
    originalLength: nat,
    summaryLength: nat,
    counts: Option<SentenceCounts>)

  const NothingToSummarize: string := "요약할 내용이 없습니다."

  /** How many sentences a summary keeps: three for "short", five for any other value. */
  function SelectCount(length: string, n: nat): nat
  {
    if length == "short" then Min(3, n) else Min(5, n)
  }

  /** `key=lambda x: x[1]` */
  function ScoreKey(e: (string, real)): real { e.1 }

  /** `key=lambda x: sentences.index(x[0])` */
  function PositionKey(sentences: seq<string>): ((string, real)) -> real
  {
    (e: (string, real)) => IndexOf(sentences, e.0) as real
  }

  /** Each sentence with its score, in document order. */
  function ScoreAll(sentences: seq<string>, keywords: seq<(string, int)>): (scored: seq<(string, real)>)
    ensures |scored| == |sentences|
    ensures forall i :: 0 <= i < |scored| ==> scored[i] == (sentences[i], SentenceScore(sentences[i], keywords))
  {
    seq(|sentences|, i requires 0 <= i < |sentences| => (sentences[i], SentenceScore(sentences[i], keywords)))
  }

  /** The count best-scoring pairs of scored, sorted back into the order of
      their sentences in the document. */
  function TopInDocumentOrder(sentences: seq<string>, scored: seq<(string, real)>, count: nat): (top: seq<(string, real)>)
    requires count <= |scored|
    ensures |top| == count
  {
    Sorted(Sorted(scored, ScoreKey, true)[..count], PositionKey(sentences), false)
  }

  /** The sentences `summarize_text` selects. */
  function Selection(sentences: seq<string>, keywords: seq<(string, int)>, length: string): (selected: seq<(string, real)>)
    ensures |selected| == SelectCount(length, |sentences|)
  {
    TopInDocumentOrder(sentences, ScoreAll(sentences, keywords), SelectCount(length, |sentences|))
  }

  /** `[s[0] for s in pairs]` */
  function Texts(pairs: seq<(string, real)>): (texts: seq<string>)
    ensures |texts| == |pairs|
    ensures forall i :: 0 <= i < |texts| ==> texts[i] == pairs[i].0
  {
    seq(|pairs|, i requires 0 <= i < |pairs| => pairs[i].0)
  }

  /** The result for a text of originalLength characters with the given
      (non-empty) sentences and keywords. */
  function SummaryOf(originalLength: nat, sentences: seq<string>, keywords: seq<(string, int)>, length: string): SummaryResult
  {
    var selected := Selection(sentences, keywords, length);
    var summary := JoinWith(". ", Texts(selected)) + ".";
    SummaryResult(summary, SlicePrefix(keywords, 5), originalLength, |summary|, Some(SentenceCounts(|sentences|, |selected|)))
  }

  /** The result `summarize_text(text, length)` returns. */
  function Summarize(text: string, length: string): SummaryResult
  {
    var sentences := SplitSentences(text);
    if sentences == [] then SummaryResult(NothingToSummarize, [], |text|, 0, None)
    else SummaryOf(|text|, sentences, ExtractKeywords(text, 10), length)
  }

  /** `summarize_text` once sentences and keywords are known: score every
      sentence, rank, keep the best, restore document order, join. */
  method BuildSummary(originalLength: nat, sentences: seq<string>, keywords: seq<(string, int)>, length: string)
    returns (r: SummaryResult)
    ensures r == SummaryOf(originalLength, sentences, keywords, length)
  {
    var sentenceScores: seq<(string, real)> := [];
    for i := 0 to |sentences|
      invariant sentenceScores == ScoreAll(sentences[..i], keywords)
    {
      var score := CalculateSentenceScore(sentences[i], keywords);
      sentenceScores := sentenceScores + [(sentences[i], score)];
    }
    assert sentences[..|sentences|] == sentences;
    sentenceScores := Sorted(sentenceScores, ScoreKey, true);
    var summaryCount := if length == "short" then Min(3, |sentences|) else Min(5, |sentences|);
    var selectedSentences := sentenceScores[..summaryCount];
    selectedSentences := Sorted(selectedSentences, PositionKey(sentences), false);
    var summaryText := JoinWith(". ", Texts(selectedSentences)) + ".";
    r := SummaryResult(summaryText, SlicePrefix(keywords, 5), originalLength, |summaryText|,
                       Some(SentenceCounts(|sentences|, |selectedSentences|)));
  }

  /** `summarize_text`. The `language` argument of the source is unused there
      and is left out. */
  method SummarizeText(text: string, length: string) returns (r: SummaryResult)
    ensures r == Summarize(text, length)
  {
    var sentences := SplitSentences(text);
    if sentences == [] {
      return SummaryResult(NothingToSummarize, [], |text|, 0, None);
    }
    var keywords := ExtractKeywords(text, 10);
    r := BuildSummary(|text|, sentences, keywords, length);
  }

  /** Text without sentences gets the placeholder and nothing else; any
      other text gets the sentence counts. */
  lemma SummarizeEmpty(text: string, length: string)
    ensures SplitSentences(text) == [] <==> Summarize(text, length).counts.None?
    ensures SplitSentences(text) == [] ==>
      Summarize(text, length) == SummaryResult(NothingToSummarize, [], |text|, 0, None)
  {
  }

  /** The counts and lengths a summary reports are the true ones. */
  lemma SummarizeCounts(text: string, length: string)
    requires SplitSentences(text) != []
    ensures var r := Summarize(text, length);
      && r.counts == Some(SentenceCounts(|SplitSentences(text)|, SelectCount(length, |SplitSentences(text)|)))
      && r.originalLength == |text|
      && r.summaryLength == |r.summary|
      && |r.keywords| <= 5
      && r.keywords <= ExtractKeywords(text, 10)
      && r.summary[|r.summary| - 1] == '.'
  {
  }

  /** The top pairs come back in document order, each taken from scored. */
  lemma TopInDocumentOrderShape(sentences: seq<string>, scored: seq<(string, real)>, count: nat)
    requires count <= |scored|
    ensures var top := TopInDocumentOrder(sentences, scored, count);
      && (forall i :: 0 <= i < |top| ==> top[i] in multiset(scored))
      && (forall i, j :: 0 <= i < j < |top| ==> IndexOf(sentences, top[i].0) <= IndexOf(sentences, top[j].0))
  {
    var ranked := Sorted(scored, ScoreKey, true);
    var best := ranked[..count];
    var top := TopInDocumentOrder(sentences, scored, count);
    SortedInOrder(best, PositionKey(sentences), false);
    forall i | 0 <= i < |top| ensures top[i] in multiset(scored) {
      assert top[i] in multiset(best);
      assert top[i] in ranked;
    }
  }

  /** The top pairs are taken from scored, score at least as much as every
      pair left out, and a pair left out that ties with a kept one comes
      later in scored. Among the pairs of any one score, the kept ones are
      the first of scored, repeated pairs included. */
  lemma TopKeepsTopScores(sentences: seq<string>, scored: seq<(string, real)>, count: nat)
    requires count <= |scored|
    ensures var top := TopInDocumentOrder(sentences, scored, count);
      && multiset(top) <= multiset(scored)
      && (forall p: (string, real), q: (string, real) :: p in multiset(top) && q in multiset(scored) - multiset(top) ==> p.1 >= q.1)
      && (forall p: (string, real), q: (string, real) :: p in top && q in scored && q !in top && p.1 == q.1 ==> IndexOf(scored, p) < IndexOf(scored, q))
      && forall v: real :: LeadingItems(Filter(top, KeyIs(ScoreKey, v)), Filter(scored, KeyIs(ScoreKey, v)))
  {
    var head := Sorted(scored, ScoreKey, true)[..count];
    var top := TopInDocumentOrder(sentences, scored, count);
    assert multiset(top) == multiset(head);
    RankingHeadMultisets(scored, ScoreKey, count);
    RankingHeadIsTop(scored, ScoreKey, count);
    forall p: (string, real), q: (string, real) | p in multiset(top) && q in multiset(scored) - multiset(top)
      ensures p.1 >= q.1
    {
      assert ScoreKey(p) >= ScoreKey(q);
    }
    forall p: (string, real), q: (string, real) | p in top && q in scored && q !in top && p.1 == q.1
      ensures IndexOf(scored, p) < IndexOf(scored, q)
    {
      assert p in multiset(head) && q !in multiset(head);
      RankingHeadKeepsEarliestTies(scored, ScoreKey, count, p, q);
    }
    forall v: real
      ensures LeadingItems(Filter(top, KeyIs(ScoreKey, v)), Filter(scored, KeyIs(ScoreKey, v)))
    {
      TopTiesArePrefix(scored, head, top, count, v);
    }
  }

  /** The kept pairs of any one score are the first pairs of scored with
      that score, whatever order the re-sort puts them in. */
  lemma TopTiesArePrefix(scored: seq<(string, real)>, head: seq<(string, real)>, top: seq<(string, real)>, count: nat, v: real)
    requires count <= |scored| && head == Sorted(scored, ScoreKey, true)[..count]
    requires multiset(top) == multiset(head)
    ensures LeadingItems(Filter(top, KeyIs(ScoreKey, v)), Filter(scored, KeyIs(ScoreKey, v)))
  {
    var eq := KeyIs(ScoreKey, v);
    RankingHeadTies(scored, ScoreKey, count, v);
    FilterPermutation(top, head, eq);
    assert |Filter(top, eq)| == |Filter(head, eq)| by {
      assert |multiset(Filter(top, eq))| == |multiset(Filter(head, eq))|;
    }
    assert Filter(scored, eq)[..|Filter(top, eq)|] == Filter(head, eq);
  }

  /** The selected sentences come back in document order, each one of the
      sentences with the score it was chosen by. */
  lemma SelectionInDocumentOrder(sentences: seq<string>, keywords: seq<(string, int)>, length: string)
    ensures var selected := Selection(sentences, keywords, length);
      && (forall i :: 0 <= i < |selected| ==>
            selected[i].0 in sentences && selected[i].1 == SentenceScore(selected[i].0, keywords))
      && (forall i, j :: 0 <= i < j < |selected| ==>
            IndexOf(sentences, selected[i].0) <= IndexOf(sentences, selected[j].0))
  {
    var scored := ScoreAll(sentences, keywords);
    var selected := Selection(sentences, keywords, length);
    TopInDocumentOrderShape(sentences, scored, SelectCount(length, |sentences|));
    forall i | 0 <= i < |selected|
      ensures selected[i].0 in sentences && selected[i].1 == SentenceScore(selected[i].0, keywords)
    {
      var j :| 0 <= j < |scored| && scored[j] == selected[i];
    }
  }

  /** The selection keeps the best sentences: it is taken from the scored
      sentences, scores at least as much as every sentence left out, and a
      sentence left out that ties with a selected one comes later in the
      document (the ranking is stable). Among the sentences of any one
      score, the selected ones are the first of the document, repeated
      sentences included. */
  lemma SelectionKeepsTopScores(sentences: seq<string>, keywords: seq<(string, int)>, length: string)
    ensures var scored := ScoreAll(sentences, keywords);
      var selected := Selection(sentences, keywords, length);
      && multiset(selected) <= multiset(scored)
      && (forall p: (string, real), q: (string, real) :: p in multiset(selected) && q in multiset(scored) - multiset(selected) ==> p.1 >= q.1)
      && (forall p: (string, real), q: (string, real) :: p in selected && q in scored && q !in selected && p.1 == q.1 ==> IndexOf(sentences, p.0) < IndexOf(sentences, q.0))
      && forall v: real :: LeadingItems(Filter(selected, KeyIs(ScoreKey, v)), Filter(scored, KeyIs(ScoreKey, v)))
  {
    var scored := ScoreAll(sentences, keywords);
    TopKeepsTopScores(sentences, scored, SelectCount(length, |sentences|));
    TiesBySentencePosition(sentences, keywords, Selection(sentences, keywords, length));
  }

  /** Among pairs of ScoreAll, the order of first occurrence is that of the
      sentences. */
  lemma TiesBySentencePosition(sentences: seq<string>, keywords: seq<(string, int)>, selected: seq<(string, real)>)
    requires multiset(selected) <= multiset(ScoreAll(sentences, keywords))
    requires forall p: (string, real), q: (string, real) :: p in selected && q in ScoreAll(sentences, keywords) && q !in selected && p.1 == q.1 ==>
      IndexOf(ScoreAll(sentences, keywords), p) < IndexOf(ScoreAll(sentences, keywords), q)
    ensures forall p: (string, real), q: (string, real) :: p in selected && q in ScoreAll(sentences, keywords) && q !in selected && p.1 == q.1 ==>
      IndexOf(sentences, p.0) < IndexOf(sentences, q.0)
  {
    var scored := ScoreAll(sentences, keywords);
    forall p: (string, real), q: (string, real) | p in selected && q in scored && q !in selected && p.1 == q.1
      ensures IndexOf(sentences, p.0) < IndexOf(sentences, q.0)
    {
      assert p in scored by {
        assert p in multiset(selected);
      }
      IndexOfScoreAll(sentences, keywords, p);
      IndexOfScoreAll(sentences, keywords, q);
    }
  }

  /** A scored pair sits where its sentence first occurs. */
  lemma IndexOfScoreAll(sentences: seq<string>, keywords: seq<(string, int)>, p: (string, real))
    requires p in ScoreAll(sentences, keywords)
    ensures IndexOf(ScoreAll(sentences, keywords), p) == IndexOf(sentences, p.0)
  {
    var scored := ScoreAll(sentences, keywords);
    var i, m := IndexOf(scored, p), IndexOf(sentences, p.0);
    assert sentences[i] == p.0;
    assert scored[m] == p;
  }

  /** The summary is the selected sentences, in document order, joined by
      ". " and closed by ".". */
  lemma SummaryInDocumentOrder(text: string, length: string)
    requires SplitSentences(text) != []
    ensures var sentences := SplitSentences(text);
      var selected := Selection(sentences, ExtractKeywords(text, 10), length);
      && Summarize(text, length).summary == JoinWith(". ", Texts(selected)) + "."
      && (forall i :: 0 <= i < |selected| ==>
            selected[i].0 in sentences && selected[i].1 == SentenceScore(selected[i].0, ExtractKeywords(text, 10)))
      && (forall i, j :: 0 <= i < j < |selected| ==>
            IndexOf(sentences, selected[i].0) <= IndexOf(sentences, selected[j].0))
  {
    SelectionInDocumentOrder(SplitSentences(text), ExtractKeywords(text, 10), length);
  }

  // ---------------------------------------------------------------------
  // Keyword emphasis in the formatted output
  // ---------------------------------------------------------------------

  /** Python's `s.replace(target, replacement)`: every non-overlapping occurrence,
      left to right; an empty `target` puts `replacement` before every character and
      at the end. */
  function ReplaceAll(s: string, target: string, replacement: string): string
    decreases |s|
  {
    if target == [] then (if s == [] then replacement else replacement + [s[0]] + ReplaceAll(s[1..], target, replacement))
    else if s == [] then []
    else if target <= s then replacement + ReplaceAll(s[|target|..], target, replacement)
    else [s[0]] + ReplaceAll(s[1..], target, replacement)
  }

  /** `**keyword**` */
  function Emphasised(keyword: string): string { "**" + keyword + "**" }

  /** Each keyword in list order, replaced by its emphasised form. */
  function EmphasiseAll(s: string, keywords: seq<(string, int)>): string
  {
    if keywords == [] then s
    else
      var last := keywords[|keywords| - 1].0;
      ReplaceAll(EmphasiseAll(s, keywords[..|keywords| - 1]), last, Emphasised(last))
  }

  /** The summary line of `format_summary_output`. */
  method SummaryLine(result: SummaryResult, highlight: bool) returns (line: string)
    ensures line == if highlight && result.keywords != [] then EmphasiseAll(result.summary, result.keywords) else result.summary
  {
    if highlight && result.keywords != [] {
      var summaryText := result.summary;
      var i := 0;
      while i < |result.keywords|
        invariant 0 <= i <= |result.keywords|
        invariant summaryText == EmphasiseAll(result.summary, result.keywords[..i])
      {
        var keyword := result.keywords[i].0;
        summaryText := ReplaceAll(summaryText, keyword, Emphasised(keyword));
        assert result.keywords[..i + 1][..i] == result.keywords[..i];
        i := i + 1;
      }
      assert result.keywords[..i] == result.keywords;
      line := summaryText;
    } else {
      line := result.summary;
    }
  }

  predicate NotStar(c: char) { c != '*' }

  /** A replacement whose target does not occur changes nothing. */
  lemma {:induction false} ReplaceAbsent(s: string, target: string, replacement: string)
    requires target != [] && !Contains(s, target)
    ensures ReplaceAll(s, target, replacement) == s
    decreases |s|
  {
    if s != [] {
      ReplaceAbsent(s[1..], target, replacement);
    }
  }

  /** Emphasis only adds asterisks: removing them gives the text back. */
  lemma {:induction false} EmphasisOnlyAddsStars(s: string, keyword: string)
    ensures Filter(ReplaceAll(s, keyword, Emphasised(keyword)), NotStar) == Filter(s, NotStar)
    decreases |s|
  {
    var e := Emphasised(keyword);
    assert e == "**" + keyword + "**";
    FilterConcat("**", keyword, NotStar);
    FilterConcat("**" + keyword, "**", NotStar);
    assert Filter("**", NotStar) == [];
    assert Filter(e, NotStar) == Filter(keyword, NotStar);
    if keyword == [] {
      if s != [] {
        EmphasisOnlyAddsStars(s[1..], keyword);
        FilterConcat(e + [s[0]], ReplaceAll(s[1..], keyword, e), NotStar);
        FilterConcat(e, [s[0]], NotStar);
        assert s == [s[0]] + s[1..];
        FilterConcat([s[0]], s[1..], NotStar);
      }
    } else if s != [] {
      if keyword <= s {
        EmphasisOnlyAddsStars(s[|keyword|..], keyword);
        FilterConcat(e, ReplaceAll(s[|keyword|..], keyword, e), NotStar);
        assert s == keyword + s[|keyword|..];
        FilterConcat(keyword, s[|keyword|..], NotStar);
      } else {
        EmphasisOnlyAddsStars(s[1..], keyword);
      }
    }
  }

  /** The emphasised summary, with its asterisks removed, is the summary with
      its asterisks removed. */
  lemma {:induction false} EmphasiseAllOnlyAddsStars(s: string, keywords: seq<(string, int)>)
    ensures Filter(EmphasiseAll(s, keywords), NotStar) == Filter(s, NotStar)
  {
    if keywords != [] {
      var last := keywords[|keywords| - 1].0;
      EmphasiseAllOnlyAddsStars(s, keywords[..|keywords| - 1]);
      EmphasisOnlyAddsStars(EmphasiseAll(s, keywords[..|keywords| - 1]), last);
    }
  }
}
