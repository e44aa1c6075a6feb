/** The control logic of the abstractive pipeline around its models: the
    sentiment labels, the automatic length bands, the input guard, the single
    retry of a one-sentence summary, document-type detection with its
    strategy table, and keyword highlighting. The models themselves (KoBART,
    BART and the sentiment classifier) are parameters: functions that return
    a summary or a rating, or fail with an exception message. */
module Seq2SeqPipeline {
  import opened TextBasics
  import opened Ranking
  import opened Seq2SeqText

  // ---------------------------------------------------------------------
  // Sentiment labels
  // ---------------------------------------------------------------------

  /** `sentiment_map` */
  const SentimentMap: map<string, string> := map[
    "1 star" := "매우 부정적", "2 stars" := "부정적", "3 stars" := "중립적",
    "4 stars" := "긍정적", "5 stars" := "매우 긍정적"
  ]

  /** `sentiment_map.get(rating, rating)` */
  function KoreanSentiment(rating: string): string
  {
    if rating in SentimentMap then SentimentMap[rating] else rating
  }

  /** The confidence band of a classifier score. */
  function ConfidenceLevel(score: real): string
  {
    if score >= 0.6 then "높음" else if score >= 0.3 then "보통" else "낮음"
  }

  /** `convert_sentiment_to_korean` */
  function ConvertSentimentToKorean(rating: string, score: real): (r: (string, string))
    ensures rating !in SentimentMap ==> r.0 == rating
    ensures rating in SentimentMap ==> r.0 != rating && r.0 in SentimentMap.Values
    ensures r.1 in {"높음", "보통", "낮음"}
  {
    (KoreanSentiment(rating), ConfidenceLevel(score))
  }

  /** The five star labels get five different Korean names, and converting a
      converted rating again changes nothing. */
  lemma KoreanSentimentProperties(a: string, b: string)
    ensures a in SentimentMap && b in SentimentMap && a != b ==> KoreanSentiment(a) != KoreanSentiment(b)
    ensures KoreanSentiment(KoreanSentiment(a)) == KoreanSentiment(a)
  {
  }

  /** The rank of a confidence band: 낮음 < 보통 < 높음. */
  function ConfidenceRank(level: string): nat
  {
    if level == "높음" then 2 else if level == "보통" then 1 else 0
  }

  /** A higher score never gets a lower confidence band. */
  lemma ConfidenceMonotone(low: real, high: real)
    requires low <= high
    ensures ConfidenceRank(ConfidenceLevel(low)) <= ConfidenceRank(ConfidenceLevel(high))
  {
  }

  // ---------------------------------------------------------------------
  // Length bands
  // ---------------------------------------------------------------------

  datatype Bounds = Bounds(maxLength: int, minLength: int)

  /** The automatic `(max_length, min_length)` band for a text of numChars
      characters and numSentences sentences. */
  function AutoBounds(numChars: nat, numSentences: nat): (b: Bounds)
    ensures 15 <= b.minLength < b.maxLength <= 250
  {
    if numChars >= 2000 then Bounds(250, 100)
    else if numChars < 300 || numSentences <= 3 then Bounds(40, 15)
    else if numChars < 1000 || numSentences <= 8 then Bounds(80, 30)
    else Bounds(150, 50)
  }

  /** A longer text, or one with more sentences, never gets a smaller band. */
  lemma AutoBoundsMonotone(chars1: nat, sentences1: nat, chars2: nat, sentences2: nat)
    requires chars1 <= chars2 && sentences1 <= sentences2
    ensures AutoBounds(chars1, sentences1).maxLength <= AutoBounds(chars2, sentences2).maxLength
    ensures AutoBounds(chars1, sentences1).minLength <= AutoBounds(chars2, sentences2).minLength
  {
  }

  /** Only the bounds the caller left out are filled in from the band. */
  function ResolveBounds(text: string, maxLength: Option<int>, minLength: Option<int>): (b: Bounds)
    ensures maxLength.Some? ==> b.maxLength == maxLength.value
    ensures minLength.Some? ==> b.minLength == minLength.value
    ensures maxLength.None? ==> b.maxLength == AutoBounds(|text|, |SplitSentences(text)|).maxLength
    ensures minLength.None? ==> b.minLength == AutoBounds(|text|, |SplitSentences(text)|).minLength
  {
    if maxLength.Some? && minLength.Some? then Bounds(maxLength.value, minLength.value)
    else
      var auto := AutoBounds(|text|, |SplitSentences(text)|);
      Bounds(if maxLength.Some? then maxLength.value else auto.maxLength,
             if minLength.Some? then minLength.value else auto.minLength)
  }

  // ---------------------------------------------------------------------
  // Summarisation with one retry
  // ---------------------------------------------------------------------

  /** A summarisation model: text and bounds to a summary, or an exception message. */
  type Model = (string, Bounds) -> Result<string, string>

  /** The sentiment classifier: text to a rating and a score, or an exception message. */
  type Analyzer = string -> Result<(string, real), string>

  const UnsupportedLanguage: string := "⚠️ 지원되지 않는 언어입니다. 한국어나 영어로 된 텍스트를 입력해 주세요."
  const TooShort: string := "⚠️ 입력이 너무 짧습니다. 최소한 2~3문장 이상의 텍스트를 입력해 주세요."
  const ErrorPrefix: string := "🚫 오류 발생: "

  /** `summarize_with_seq2seq`: KoBART for Korean, BART for English, a fixed
      notice for anything else. */
  function Seq2SeqSummary(text: string, language: Language, b: Bounds, kobart: Model, bart: Model): Result<string, string>
  {
    match language
    case Korean => kobart(text, b)
    case English => bart(text, b)
    case Mixed => Success(UnsupportedLanguage)
  }

  /** A summary of at most one sentence is retried when the minimum was below 120. */
  predicate NeedsRetry(summary: string, b: Bounds)
  {
    |SplitSentences(summary)| <= 1 && b.minLength < 120
  }

  /** The bounds of the retry: the minimum raised to `min(120, max_length)`. */
  function RetryBounds(b: Bounds): (r: Bounds)
    ensures r.maxLength == b.maxLength && r.minLength <= 120 && r.minLength <= b.maxLength
  {
    Bounds(b.maxLength, Min(120, b.maxLength))
  }

  /** The summary after the retry rule; an exception in either call ends it. */
  function SummaryWithRetry(text: string, language: Language, b: Bounds, kobart: Model, bart: Model): Result<string, string>
  {
    var first := Seq2SeqSummary(text, language, b, kobart, bart);
    if first.Success? && NeedsRetry(first.value, b) then Seq2SeqSummary(text, language, RetryBounds(b), kobart, bart)
    else first
  }

  /** The retry is single and bounded: the summary comes from a call with the
      original bounds or from one call with the raised minimum, and that
      minimum lies above the original one and within the maximum. */
  lemma RetryIsBounded(text: string, language: Language, b: Bounds, kobart: Model, bart: Model)
    ensures SummaryWithRetry(text, language, b, kobart, bart) == Seq2SeqSummary(text, language, b, kobart, bart)
         || SummaryWithRetry(text, language, b, kobart, bart) == Seq2SeqSummary(text, language, RetryBounds(b), kobart, bart)
    ensures b.minLength < 120 && b.minLength < b.maxLength ==>
      b.minLength < RetryBounds(b).minLength <= b.maxLength
  {
  }

  /** A summary of two sentences or more is never retried. */
  lemma NoRetryForLongSummary(text: string, language: Language, b: Bounds, kobart: Model, bart: Model)
    requires Seq2SeqSummary(text, language, b, kobart, bart).Success?
    requires |SplitSentences(Seq2SeqSummary(text, language, b, kobart, bart).value)| > 1
    ensures SummaryWithRetry(text, language, b, kobart, bart) == Seq2SeqSummary(text, language, b, kobart, bart)
  {
  }

  // ---------------------------------------------------------------------
  // The pipeline
  // ---------------------------------------------------------------------

  /** The dictionary `summarize_system_seq2seq` returns. */
  datatype Outcome =
    | ErrorEnvelope(error: string)
    | Report(summary: string, keywords: seq<(string, real)>,
             sentimentFull: (string, real), sentimentSummary: (string, real),
             originalLength: nat, summaryLength: nat,
             detectedLanguage: Language, summarySentenceCount: nat)

  /** What `summarize_system_seq2seq` returns. */
  function SummarizeSystem(text: string, maxLength: Option<int>, minLength: Option<int>, highlight: bool,
                           kobart: Model, bart: Model, analyze: Analyzer, ln: real -> real): Outcome
  {
    if |text| < 30 then ErrorEnvelope(TooShort)
    else
      var b := ResolveBounds(text, maxLength, minLength);
      var language := DetectLanguage(text);
      match SummaryWithRetry(text, language, b, kobart, bart)
      case Failure(e) => ErrorEnvelope(ErrorPrefix + e)
      case Success(summary) => Describe(text, summary, language, highlight, analyze, ln)
  }

  /** The report on a summary: both sentiments, the keywords of the input,
      the statistics, and the highlighting. */
  function Describe(text: string, summary: string, language: Language, highlight: bool,
                    analyze: Analyzer, ln: real -> real): Outcome
  {
    match analyze(text)
    case Failure(e) => ErrorEnvelope(ErrorPrefix + e)
    case Success(full) =>
      match analyze(summary)
      case Failure(e) => ErrorEnvelope(ErrorPrefix + e)
      case Success(ofSummary) =>
        var keywords := ExtractKeywords(SplitSentences(text), 10, ln);
        Report(if highlight then Highlighted(summary, keywords) else summary, keywords,
               full, ofSummary, |text|, |summary|, language, |SplitSentences(summary)|)
  }

  /** `summarize_system_seq2seq`, step by step. */
  method SummarizeSystemSeq2Seq(text: string, maxLength: Option<int>, minLength: Option<int>, highlight: bool,
                                kobart: Model, bart: Model, analyze: Analyzer, ln: real -> real)
    returns (r: Outcome)
    ensures r == SummarizeSystem(text, maxLength, minLength, highlight, kobart, bart, analyze, ln)
  {
    if |text| < 30 {
      return ErrorEnvelope(TooShort);
    }
    var maxL, minL := maxLength, minLength;
    if maxL.None? || minL.None? {
      var auto := AutoBounds(|text|, |SplitSentences(text)|);
      if maxL.None? {
        maxL := Some(auto.maxLength);
      }
      if minL.None? {
        minL := Some(auto.minLength);
      }
    }
    var b := Bounds(maxL.value, minL.value);
    assert b == ResolveBounds(text, maxLength, minLength);
    var language := DetectLanguage(text);
    var summary := SummarizeWithRetry(text, language, b, kobart, bart);
    if summary.Failure? {
      return ErrorEnvelope(ErrorPrefix + summary.error);
    }
    r := DescribeSummary(text, summary.value, language, highlight, analyze, ln);
  }

  /** One summarisation call, and the retry with the raised minimum when
      the first summary has at most one sentence. */
  method SummarizeWithRetry(text: string, language: Language, b: Bounds, kobart: Model, bart: Model)
    returns (summary: Result<string, string>)
    ensures summary == SummaryWithRetry(text, language, b, kobart, bart)
  {
    summary := Seq2SeqSummary(text, language, b, kobart, bart);
    if summary.Success? && NeedsRetry(summary.value, b) {
      summary := Seq2SeqSummary(text, language, RetryBounds(b), kobart, bart);
    }
  }

  /** The tail of `summarize_system_seq2seq`: sentiments, keywords, highlighting. */
  method DescribeSummary(text: string, summary: string, language: Language, highlight: bool,
                         analyze: Analyzer, ln: real -> real) returns (r: Outcome)
    ensures r == Describe(text, summary, language, highlight, analyze, ln)
  {
    var full := analyze(text);
    if full.Failure? {
      return ErrorEnvelope(ErrorPrefix + full.error);
    }
    var ofSummary := analyze(summary);
    if ofSummary.Failure? {
      return ErrorEnvelope(ErrorPrefix + ofSummary.error);
    }
    var keywords := ExtractKeywords(SplitSentences(text), 10, ln);
    var shown := summary;
    if highlight {
      shown := HighlightKeywords(summary, keywords);
    }
    r := Report(shown, keywords, full.value, ofSummary.value, |text|, |summary|,
                language, |SplitSentences(summary)|);
  }

  /** The input guard: the short-input envelope comes back exactly for texts
      under 30 characters, and every other error carries the exception prefix. */
  lemma SummarizeSystemErrors(text: string, maxLength: Option<int>, minLength: Option<int>, highlight: bool,
                              kobart: Model, bart: Model, analyze: Analyzer, ln: real -> real)
    ensures var r := SummarizeSystem(text, maxLength, minLength, highlight, kobart, bart, analyze, ln);
      && (r == ErrorEnvelope(TooShort) <==> |text| < 30)
      && (r.ErrorEnvelope? && |text| >= 30 ==> ErrorPrefix <= r.error)
  {
    if |text| >= 30 {
      var b := ResolveBounds(text, maxLength, minLength);
      var language := DetectLanguage(text);
      var r := SummarizeSystem(text, maxLength, minLength, highlight, kobart, bart, analyze, ln);
      match SummaryWithRetry(text, language, b, kobart, bart) {
        case Failure(e) =>
          assert r == ErrorEnvelope(ErrorPrefix + e);
        case Success(summary) =>
          assert r == Describe(text, summary, language, highlight, analyze, ln);
          DescribeErrors(text, summary, language, highlight, analyze, ln);
      }
      if r.ErrorEnvelope? {
        assert r.error[0] == ErrorPrefix[0] != TooShort[0];
      }
    }
  }

  /** Every error of the report stage is an exception message with the prefix. */
  lemma DescribeErrors(text: string, summary: string, language: Language, highlight: bool,
                       analyze: Analyzer, ln: real -> real)
    ensures var r := Describe(text, summary, language, highlight, analyze, ln);
      r.ErrorEnvelope? ==> ErrorPrefix <= r.error
  {
    var r := Describe(text, summary, language, highlight, analyze, ln);
    match analyze(text)
    case Failure(e) =>
      assert r.error == ErrorPrefix + e;
    case Success(_) =>
      match analyze(summary)
      case Failure(e) =>
        assert r.error == ErrorPrefix + e;
      case Success(_) =>
  }

  /** A report describes the input and the raw summary: the original length,
      the detected language, at most ten keywords of the input, and the
      length and sentence count of the summary before highlighting. */
  lemma SummarizeSystemReport(text: string, maxLength: Option<int>, minLength: Option<int>, highlight: bool,
                              kobart: Model, bart: Model, analyze: Analyzer, ln: real -> real)
    ensures var r := SummarizeSystem(text, maxLength, minLength, highlight, kobart, bart, analyze, ln);
      r.Report? ==>
        && |text| >= 30
        && r.originalLength == |text|
        && r.detectedLanguage == DetectLanguage(text)
        && r.keywords == ExtractKeywords(SplitSentences(text), 10, ln)
        && |r.keywords| <= 10
        && (!highlight ==> r.summaryLength == |r.summary| && r.summarySentenceCount == |SplitSentences(r.summary)|)
  {
  }

  /** Text that is neither clearly Korean nor clearly English never reaches a
      model: the outcome is the same whatever the two models do. */
  lemma MixedTextSkipsModels(text: string, maxLength: Option<int>, minLength: Option<int>, highlight: bool,
                             kobart: Model, bart: Model, kobart': Model, bart': Model, analyze: Analyzer, ln: real -> real)
    requires DetectLanguage(text) == Mixed
    ensures SummarizeSystem(text, maxLength, minLength, highlight, kobart, bart, analyze, ln)
         == SummarizeSystem(text, maxLength, minLength, highlight, kobart', bart', analyze, ln)
  {
  }

  // ---------------------------------------------------------------------
  // Document type and strategy
  // ---------------------------------------------------------------------

  /** `(보낸[ ]?사람|받는[ ]?사람|제목|from|to|subject):` as literal alternatives. */
  const HeaderPatterns: seq<string> := [
    "보낸사람:", "보낸 사람:", "받는사람:", "받는 사람:", "제목:", "from:", "to:", "subject:"
  ]

  /** `re.search(pattern, line.lower())` */
  predicate HasHeader(line: string)
  {
    exists k :: 0 <= k < |HeaderPatterns| && Contains(Lower(line), HeaderPatterns[k])
  }

  /** Some of the first five lines holds a header. */
  predicate HeaderInFirstLines(lines: seq<string>)
  {
    exists i :: 0 <= i < |lines| && i < 5 && HasHeader(lines[i])
  }

  /** `detect_text_type` */
  function DetectTextType(text: string): string
  {
    if HeaderInFirstLines(SplitOn(Strip(text), '\n')) then "email" else "general"
  }

  /** Lines after the fifth play no part in the decision. */
  lemma HeaderOnlyInFirstFive(lines: seq<string>, more: seq<string>)
    requires |lines| >= 5
    ensures HeaderInFirstLines(lines + more) == HeaderInFirstLines(lines)
  {
    if HeaderInFirstLines(lines + more) {
      var i :| 0 <= i < |lines + more| && i < 5 && HasHeader((lines + more)[i]);
      assert (lines + more)[i] == lines[i];
    }
    if HeaderInFirstLines(lines) {
      var i :| 0 <= i < |lines| && i < 5 && HasHeader(lines[i]);
      assert (lines + more)[i] == lines[i];
    }
  }

  function LowerEach(lines: seq<string>): (r: seq<string>)
    ensures |r| == |lines| && forall i :: 0 <= i < |lines| ==> r[i] == Lower(lines[i])
  {
    seq(|lines|, i requires 0 <= i < |lines| => Lower(lines[i]))
  }

  /** Header detection ignores letter case. */
  lemma HeaderIgnoresCase(lines: seq<string>)
    ensures HeaderInFirstLines(LowerEach(lines)) == HeaderInFirstLines(lines)
  {
    forall i | 0 <= i < |lines| ensures HasHeader(LowerEach(lines)[i]) == HasHeader(lines[i]) {
      LowerIdempotent(lines[i]);
    }
  }

  datatype Strategy = Strategy(topN: nat, diversity: real, redundancyThreshold: real, preprocess: bool)

  const EmailStrategy: Strategy := Strategy(6, 0.6, 0.8, true)
  const GeneralStrategy: Strategy := Strategy(6, 0.7, 0.85, false)

  /** `get_summary_strategy`: the email entry for "email", the general entry
      for every other key. */
  function GetSummaryStrategy(textType: string): (s: Strategy)
    ensures s.topN == 6
    ensures s.preprocess <==> textType == "email"
  {
    if textType == "email" then EmailStrategy else GeneralStrategy
  }

  /** A detected email is preprocessed and ranked with less diversity than
      general text. */
  lemma StrategyForDetectedType(text: string)
    ensures GetSummaryStrategy(DetectTextType(text)).preprocess <==> HeaderInFirstLines(SplitOn(Strip(text), '\n'))
    ensures GetSummaryStrategy(DetectTextType(text)).diversity <= GeneralStrategy.diversity
  {
  }

  // ---------------------------------------------------------------------
  // Keyword highlighting
  // ---------------------------------------------------------------------

  const HighlightStart: string := "\U{1B}[1;36m"
  const HighlightEnd: string := "\U{1B}[0m"

  /** The replacement written for a keyword: its own spelling in cyan bold. */
  function Wrap(keyword: string): (r: string)
    ensures |r| == |keyword| + 11
  {
    HighlightStart + keyword + HighlightEnd
  }

  /** a and b are equal up to the case of their letters. */
  predicate SameIgnoringCase(a: string, b: string)
  {
    |a| == |b| && (a == [] || (LowerChar(a[0]) == LowerChar(b[0]) && SameIgnoringCase(a[1..], b[1..])))
  }

  /** `(?<![\w가-힣])keyword(?![\w가-힣])` with `re.IGNORECASE` matches at s[i]. */
  predicate MatchAt(s: string, i: nat, keyword: string)
  {
    && keyword != []
    && i + |keyword| <= |s|
    && SameIgnoringCase(s[i..i + |keyword|], keyword)
    && (i == 0 || !IsWordChar(s[i - 1]))
    && (i + |keyword| == |s| || !IsWordChar(s[i + |keyword|]))
  }

  /** `pattern.sub(replacement, s)` from position i on: matches are taken left
      to right without overlap, the look-arounds read the original s. */
  function SubstituteFrom(s: string, i: nat, keyword: string, replacement: string): string
    requires i <= |s|
    decreases |s| - i
  {
    if i == |s| then []
    else if MatchAt(s, i, keyword) then replacement + SubstituteFrom(s, i + |keyword|, keyword, replacement)
    else [s[i]] + SubstituteFrom(s, i + 1, keyword, replacement)
  }

  /** Highlighting one keyword. */
  function HighlightOne(s: string, keyword: string): string
  {
    SubstituteFrom(s, 0, keyword, Wrap(keyword))
  }

  /** The text after highlighting every keyword in list order, blank ones skipped. */
  function Highlighted(text: string, keywords: seq<(string, real)>): string
  {
    if keywords == [] then text
    else
      var before := Highlighted(text, keywords[..|keywords| - 1]);
      var keyword := keywords[|keywords| - 1].0;
      if Strip(keyword) == [] then before else HighlightOne(before, keyword)
  }

  /** `highlight_keywords` */
  method HighlightKeywords(text: string, keywords: seq<(string, real)>) returns (highlighted: string)
    ensures highlighted == Highlighted(text, keywords)
  {
    highlighted := text;
    for i := 0 to |keywords|
      invariant highlighted == Highlighted(text, keywords[..i])
    {
      assert keywords[..i + 1][..i] == keywords[..i];
      var keyword := keywords[i].0;
      if Strip(keyword) == [] {
        continue;
      }
      highlighted := HighlightOne(highlighted, keyword);
    }
    assert keywords[..|keywords|] == keywords;
  }

  /** Substitution changes nothing where the keyword matches nowhere. */
  lemma {:induction false} SubstituteFromNoMatch(s: string, i: nat, keyword: string, replacement: string)
    requires i <= |s|
    requires forall j :: i <= j < |s| ==> !MatchAt(s, j, keyword)
    ensures SubstituteFrom(s, i, keyword, replacement) == s[i..]
    decreases |s| - i
  {
    if i < |s| {
      SubstituteFromNoMatch(s, i + 1, keyword, replacement);
      assert s[i..] == [s[i]] + s[i + 1..];
    }
  }

  /** With a longer replacement the result never shrinks, and it grows as
      soon as the keyword matches somewhere. */
  lemma {:induction false} SubstituteFromGrows(s: string, i: nat, keyword: string, replacement: string, j: nat)
    requires i <= |s| && |replacement| > |keyword|
    ensures |SubstituteFrom(s, i, keyword, replacement)| >= |s| - i
    ensures i <= j < |s| && MatchAt(s, j, keyword) ==> |SubstituteFrom(s, i, keyword, replacement)| > |s| - i
    decreases |s| - i
  {
    if i < |s| {
      var next := SubstituteFromLength(s, i, keyword, replacement);
      SubstituteFromGrows(s, next, keyword, replacement, j);
    }
  }

  /** One step of the substitution: a match writes the replacement and skips
      the keyword, anything else copies one character. */
  lemma SubstituteFromLength(s: string, i: nat, keyword: string, replacement: string) returns (next: nat)
    requires i < |s|
    ensures MatchAt(s, i, keyword) ==> (next == i + |keyword| <= |s| &&
      |SubstituteFrom(s, i, keyword, replacement)| == |replacement| + |SubstituteFrom(s, next, keyword, replacement)|)
    ensures !MatchAt(s, i, keyword) ==> (next == i + 1 &&
      |SubstituteFrom(s, i, keyword, replacement)| == 1 + |SubstituteFrom(s, next, keyword, replacement)|)
    ensures i < next <= |s|
  {
    next := if MatchAt(s, i, keyword) then i + |keyword| else i + 1;
  }

  /** Highlighting a keyword changes the text exactly when the keyword occurs
      in it as a whole word, in any letter case. */
  lemma HighlightOneUnchanged(s: string, keyword: string)
    ensures HighlightOne(s, keyword) == s <==> forall j :: 0 <= j < |s| ==> !MatchAt(s, j, keyword)
  {
    if forall j :: 0 <= j < |s| ==> !MatchAt(s, j, keyword) {
      SubstituteFromNoMatch(s, 0, keyword, Wrap(keyword));
    } else {
      var j :| 0 <= j < |s| && MatchAt(s, j, keyword);
      SubstituteFromGrows(s, 0, keyword, Wrap(keyword), j);
    }
  }

  /** Writing the keyword's own spelling in place of each match changes
      nothing but letter case. */
  lemma {:induction false} SubstituteSpellingOnly(s: string, i: nat, keyword: string)
    requires i <= |s|
    ensures Lower(SubstituteFrom(s, i, keyword, keyword)) == Lower(s[i..])
    decreases |s| - i
  {
    if i == |s| {
      assert s[i..] == [] && SubstituteFrom(s, i, keyword, keyword) == [];
    } else if MatchAt(s, i, keyword) {
      SubstituteSpellingOnly(s, i + |keyword|, keyword);
      SpellingAtMatch(s, i, keyword);
    } else {
      SubstituteSpellingOnly(s, i + 1, keyword);
      SpellingAtOther(s, i, keyword);
    }
  }

  /** The text with every highlight code taken out, scanning left to right. */
  function RemoveCodes(t: string): (r: string)
    ensures |r| <= |t|
    decreases |t|
  {
    if t == [] then []
    else if HighlightStart <= t then RemoveCodes(t[|HighlightStart|..])
    else if HighlightEnd <= t then RemoveCodes(t[|HighlightEnd|..])
    else [t[0]] + RemoveCodes(t[1..])
  }

  predicate NoEscape(s: string)
  {
    forall i :: 0 <= i < |s| ==> s[i] != '\U{1B}'
  }

  /** Text without escape characters is kept by RemoveCodes. */
  lemma {:induction false} RemoveCodesKeepsPlain(a: string, b: string)
    requires NoEscape(a)
    ensures RemoveCodes(a + b) == a + RemoveCodes(b)
  {
    if a != [] {
      var t := a + b;
      assert t[0] == a[0] && t[1..] == a[1..] + b;
      RemoveCodesPlainStep(t);
      RemoveCodesKeepsPlain(a[1..], b);
      assert a == [a[0]] + a[1..];
      ConcatAssoc([a[0]], a[1..], RemoveCodes(b));
    } else {
      assert a + b == b;
    }
  }

  lemma RemoveCodesPlainStep(t: string)
    requires t != [] && t[0] != '\U{1B}'
    ensures RemoveCodes(t) == [t[0]] + RemoveCodes(t[1..])
  {
    assert !(HighlightStart <= t) && !(HighlightEnd <= t) by {
      assert HighlightStart[0] == '\U{1B}' && HighlightEnd[0] == '\U{1B}';
    }
  }

  lemma RemoveCodesEndStep(t: string)
    requires HighlightEnd <= t
    ensures RemoveCodes(t) == RemoveCodes(t[|HighlightEnd|..])
  {
    assert !(HighlightStart <= t) by {
      assert t[2] == '0' && HighlightStart[2] == '1';
    }
  }

  /** Taking the codes out of a highlighted keyword gives the keyword back. */
  lemma RemoveCodesWrap(keyword: string, b: string)
    requires NoEscape(keyword)
    ensures RemoveCodes(Wrap(keyword) + b) == keyword + RemoveCodes(b)
  {
    var t := Wrap(keyword) + b;
    var rest := keyword + (HighlightEnd + b);
    assert HighlightStart <= t && t[|HighlightStart|..] == rest by {
      assert t == HighlightStart + rest;
    }
    RemoveCodesKeepsPlain(keyword, HighlightEnd + b);
    assert (HighlightEnd + b)[|HighlightEnd|..] == b;
    RemoveCodesEndStep(HighlightEnd + b);
  }

  /** Highlighting only inserts codes: without them it is the substitution of
      each match by the keyword itself. */
  lemma {:induction false} RemoveCodesSubstitute(s: string, i: nat, keyword: string)
    requires i <= |s| && NoEscape(s) && NoEscape(keyword)
    ensures RemoveCodes(SubstituteFrom(s, i, keyword, Wrap(keyword))) == SubstituteFrom(s, i, keyword, keyword)
    decreases |s| - i
  {
    if i < |s| {
      if MatchAt(s, i, keyword) {
        RemoveCodesSubstitute(s, i + |keyword|, keyword);
        RemoveCodesWrap(keyword, SubstituteFrom(s, i + |keyword|, keyword, Wrap(keyword)));
      } else {
        RemoveCodesSubstitute(s, i + 1, keyword);
        RemoveCodesKeepsPlain([s[i]], SubstituteFrom(s, i + 1, keyword, Wrap(keyword)));
      }
    }
  }

  /** Highlighting a keyword changes nothing in the text but letter case and
      the inserted colour codes: the keyword is written in its own spelling. */
  lemma HighlightOneSpellingOnly(s: string, keyword: string)
    requires NoEscape(s) && NoEscape(keyword)
    ensures Lower(RemoveCodes(HighlightOne(s, keyword))) == Lower(s)
  {
    RemoveCodesSubstitute(s, 0, keyword);
    SubstituteSpellingOnly(s, 0, keyword);
    assert s[0..] == s;
  }

  /** Highlighting is not idempotent: a keyword spelled like the tail of the
      reset code is found again inside the codes the first pass wrote. */
  lemma HighlightTwiceDiffers()
    ensures HighlightOne(HighlightOne("0m", "0m"), "0m") != HighlightOne("0m", "0m")
  {
    var once := HighlightOne("0m", "0m");
    assert MatchAt("0m", 0, "0m") by {
      assert "0m"[0..2] == "0m";
      assert SameIgnoringCase([], []);
      assert SameIgnoringCase("m", "m") by { assert "m"[1..] == []; }
      assert SameIgnoringCase("0m", "0m") by { assert "0m"[1..] == "m"; }
    }
    assert once == Wrap("0m") by {
      assert SubstituteFrom("0m", 2, "0m", Wrap("0m")) == [];
    }
    assert MatchAt(once, 11, "0m") by {
      assert |once| == 13;
      assert once[11..13] == "0m";
      assert SameIgnoringCase([], []);
      assert SameIgnoringCase("m", "m") by { assert "m"[1..] == []; }
      assert SameIgnoringCase("0m", "0m") by { assert "0m"[1..] == "m"; }
      assert once[10] == '[';
    }
    SubstituteFromGrows(once, 0, "0m", Wrap("0m"), 11);
  }

  lemma SpellingAtMatch(s: string, i: nat, keyword: string)
    requires i < |s| && MatchAt(s, i, keyword)
    requires Lower(SubstituteFrom(s, i + |keyword|, keyword, keyword)) == Lower(s[i + |keyword|..])
    ensures Lower(SubstituteFrom(s, i, keyword, keyword)) == Lower(s[i..])
  {
    var n := |keyword|;
    SameIgnoringCaseLower(s[i..i + n], keyword);
    LowerAfterStep(s, i, n, keyword, SubstituteFrom(s, i + n, keyword, keyword), SubstituteFrom(s, i, keyword, keyword));
  }

  lemma SpellingAtOther(s: string, i: nat, keyword: string)
    requires i < |s| && !MatchAt(s, i, keyword)
    requires Lower(SubstituteFrom(s, i + 1, keyword, keyword)) == Lower(s[i + 1..])
    ensures Lower(SubstituteFrom(s, i, keyword, keyword)) == Lower(s[i..])
  {
    LowerAfterStep(s, i, 1, [s[i]], SubstituteFrom(s, i + 1, keyword, keyword), SubstituteFrom(s, i, keyword, keyword));
  }

  /** Writing a case variant of s[i..i + n] and then a case variant of the
      rest gives a case variant of s[i..]. */
  lemma LowerAfterStep(s: string, i: nat, n: nat, written: string, rest: string, whole: string)
    requires i + n <= |s| && whole == written + rest
    requires Lower(written) == Lower(s[i..i + n]) && Lower(rest) == Lower(s[i + n..])
    ensures Lower(whole) == Lower(s[i..])
  {
    LowerConcat(written, rest);
    assert s[i..] == s[i..i + n] + s[i + n..];
    LowerConcat(s[i..i + n], s[i + n..]);
  }

  lemma {:induction false} SameIgnoringCaseLower(a: string, b: string)
    requires SameIgnoringCase(a, b)
    ensures Lower(a) == Lower(b)
  {
    if a != [] {
      SameIgnoringCaseLower(a[1..], b[1..]);
      forall i | 0 <= i < |a| ensures Lower(a)[i] == Lower(b)[i] {
        if i > 0 {
          assert Lower(a)[i] == Lower(a[1..])[i - 1] && Lower(b)[i] == Lower(b[1..])[i - 1];
        }
      }
    }
  }

  /** Text in which no keyword occurs as a whole word is left unchanged. */
  lemma {:induction false} HighlightedUnchanged(text: string, keywords: seq<(string, real)>)
    requires forall k, j :: 0 <= k < |keywords| && 0 <= j < |text| ==> !MatchAt(text, j, keywords[k].0)
    ensures Highlighted(text, keywords) == text
  {
    if keywords != [] {
      HighlightedUnchanged(text, keywords[..|keywords| - 1]);
      HighlightOneUnchanged(text, keywords[|keywords| - 1].0);
    }
  }

  /** Blank keywords are skipped: dropping them changes nothing. */
  lemma {:induction false} HighlightedSkipsBlank(text: string, keywords: seq<(string, real)>)
    ensures Highlighted(text, Filter(keywords, NonBlankKeyword)) == Highlighted(text, keywords)
  {
    if keywords != [] {
      var init, last := keywords[..|keywords| - 1], keywords[|keywords| - 1];
      HighlightedSkipsBlank(text, init);
      var kept := Filter(init, NonBlankKeyword);
      FilterLast(keywords, NonBlankKeyword);
      HighlightedLast(text, keywords);
      if NonBlankKeyword(last) {
        HighlightedStep(text, kept, last);
      } else {
        HighlightedBlankStep(text, kept, last);
      }
    }
  }

  lemma FilterLast<T>(s: seq<T>, p: T -> bool)
    requires s != []
    ensures Filter(s, p) == Filter(s[..|s| - 1], p) + Filter([s[|s| - 1]], p)
  {
    var init, x := s[..|s| - 1], s[|s| - 1];
    FilterConcat(init, [x], p);
    assert init + [x] == s;
  }

  lemma HighlightedBlankStep(text: string, kept: seq<(string, real)>, last: (string, real))
    requires !NonBlankKeyword(last)
    ensures Highlighted(text, kept + Filter([last], NonBlankKeyword)) == Highlighted(text, kept)
  {
    FilterNone([last], NonBlankKeyword);
    assert kept + [] == kept;
  }

  lemma HighlightedLast(text: string, keywords: seq<(string, real)>)
    requires keywords != []
    ensures var last := keywords[|keywords| - 1];
      Highlighted(text, keywords) ==
        if NonBlankKeyword(last) then HighlightOne(Highlighted(text, keywords[..|keywords| - 1]), last.0)
        else Highlighted(text, keywords[..|keywords| - 1])
  {
  }

  lemma HighlightedStep(text: string, kept: seq<(string, real)>, last: (string, real))
    requires NonBlankKeyword(last)
    ensures Highlighted(text, kept + Filter([last], NonBlankKeyword)) == HighlightOne(Highlighted(text, kept), last.0)
  {
    assert Filter([last], NonBlankKeyword) == [last];
    assert (kept + [last])[..|kept|] == kept;
  }

  predicate NonBlankKeyword(e: (string, real)) { Strip(e.0) != [] }
}
