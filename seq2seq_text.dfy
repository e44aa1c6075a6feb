/** The deterministic text helpers of the abstractive pipeline: language
    detection by counting Hangul and Latin letters, sentence splitting after
    a sentence end followed by whitespace or on newlines, and TF-IDF keyword
    ranking over the sentences. */
module Seq2SeqText {
  import opened TextBasics
  import opened Ranking

  // ---------------------------------------------------------------------
  // Language detection
  // ---------------------------------------------------------------------

  datatype Language = Korean | English | Mixed

  /** `len(re.findall(r'[가-힣]', text))` */
  function HangulCount(text: string): nat { CountWhere(text, IsHangul) }

  /** `len(re.findall(r'[a-zA-Z]', text))` */
  function LatinCount(text: string): nat { CountWhere(text, IsAsciiLetter) }

  /** `detect_language`: the script with more letters wins when it has more
      than ten of them; everything else is mixed. */
  function DetectLanguage(text: string): (lang: Language)
    ensures lang == Korean <==> HangulCount(text) > LatinCount(text) && HangulCount(text) > 10
    ensures lang == English <==> LatinCount(text) > HangulCount(text) && LatinCount(text) > 10
  {
    var korean, english := HangulCount(text), LatinCount(text);
    if korean > english && korean > 10 then Korean
    else if english > korean && english > 10 then English
    else Mixed
  }

  /** Ties and texts of at most ten characters are always mixed. */
  lemma DetectLanguageMixed(text: string)
    ensures HangulCount(text) == LatinCount(text) ==> DetectLanguage(text) == Mixed
    ensures |text| <= 10 ==> DetectLanguage(text) == Mixed
  {
  }

  predicate IsHangulOrLatin(c: char) { IsHangul(c) || IsAsciiLetter(c) }

  /** Filtering by a class that keeps every character p counts keeps the count. */
  lemma {:induction false} CountWhereFilter(s: string, p: char -> bool, q: char -> bool)
    requires forall c :: p(c) ==> q(c)
    ensures CountWhere(Filter(s, q), p) == CountWhere(s, p)
  {
    FilterFilter(s, q, p);
  }

  /** Only the Hangul syllables and Latin letters of a text decide its language:
      digits, punctuation, spaces and other scripts play no part. */
  lemma DetectLanguageLettersOnly(text: string)
    ensures DetectLanguage(Filter(text, IsHangulOrLatin)) == DetectLanguage(text)
  {
    CountWhereFilter(text, IsHangul, IsHangulOrLatin);
    CountWhereFilter(text, IsAsciiLetter, IsHangulOrLatin);
  }

  // ---------------------------------------------------------------------
  // Sentences
  // ---------------------------------------------------------------------

  /** `[.!?。！？]`, what the look-behind accepts before a break. */
  predicate IsSentenceEnd(c: char)
  {
    c == '.' || c == '!' || c == '?' || c == '。' || c == '！' || c == '？'
  }

  predicate IsNewline(c: char) { c == '\n' }

  /** The length of the match of `(?<=[.!?。！？])\s+|\n+` at the start of s,
      0 when there is none; afterEnd says whether the character just before s
      ends a sentence. */
  function BreakAt(s: string, afterEnd: bool): (m: nat)
    ensures m <= |s|
    ensures forall i :: 0 <= i < m ==> IsSpace(s[i])
    ensures s != [] && (s[0] == '\n' || (afterEnd && IsSpace(s[0]))) <==> m > 0
  {
    if s == [] then 0
    else if afterEnd && IsSpace(s[0]) then RunLength(s, IsSpace)
    else if s[0] == '\n' then RunLength(s, IsNewline)
    else 0
  }

  /** `re.split` with that separator, scanning s left to right. */
  function Pieces(s: string, afterEnd: bool): (pieces: seq<string>)
    ensures |pieces| >= 1
    decreases |s|
  {
    if s == [] then [[]]
    else
      var m := BreakAt(s, afterEnd);
      if m > 0 then [[]] + Pieces(s[m..], false)
      else
        var rest := Pieces(s[1..], IsSentenceEnd(s[0]));
        [[s[0]] + rest[0]] + rest[1..]
  }

  /** `split_sentences`: the pieces of the split, stripped, blank ones dropped. */
  function SplitSentences(text: string): seq<string>
  {
    StripNonBlank(Pieces(text, false))
  }

  /** Every sentence is non-empty and already stripped. */
  lemma SplitSentencesShape(text: string)
    ensures forall w :: w in SplitSentences(text) ==> w != [] && Strip(w) == w
  {
    forall w | w in SplitSentences(text) ensures Strip(w) == w {
      StripStripped(w);
    }
  }

  /** The split drops only whitespace: the pieces, read in order, hold every
      other character of s, sentence ends included. */
  lemma {:induction false} PiecesKeep(s: string, afterEnd: bool)
    ensures Filter(Concat(Pieces(s, afterEnd)), NotSpace) == Filter(s, NotSpace)
    decreases |s|
  {
    if s != [] {
      var m := BreakAt(s, afterEnd);
      PiecesConcatStep(s, afterEnd);
      if m > 0 {
        PiecesKeep(s[m..], false);
        FilterDropsPrefix(s, m, NotSpace);
      } else {
        var rest := Concat(Pieces(s[1..], IsSentenceEnd(s[0])));
        PiecesKeep(s[1..], IsSentenceEnd(s[0]));
        assert ([s[0]] + rest)[1..] == rest;
      }
    }
  }

  /** One step of the split, seen through the concatenation of the pieces. */
  lemma PiecesConcatStep(s: string, afterEnd: bool)
    requires s != []
    ensures BreakAt(s, afterEnd) > 0 ==>
      Concat(Pieces(s, afterEnd)) == Concat(Pieces(s[BreakAt(s, afterEnd)..], false))
    ensures BreakAt(s, afterEnd) == 0 ==>
      Concat(Pieces(s, afterEnd)) == [s[0]] + Concat(Pieces(s[1..], IsSentenceEnd(s[0])))
  {
    var m := BreakAt(s, afterEnd);
    if m > 0 {
      ConcatCons([], Pieces(s[m..], false));
      assert [] + Concat(Pieces(s[m..], false)) == Concat(Pieces(s[m..], false));
    } else {
      var rest := Pieces(s[1..], IsSentenceEnd(s[0]));
      ConcatFirstExtended(s[0], rest[0], rest[1..]);
      assert [rest[0]] + rest[1..] == rest;
    }
  }

  /** Extending the first piece by c extends the concatenation by c. */
  lemma ConcatFirstExtended(c: char, head: string, rest: seq<string>)
    ensures Concat([[c] + head] + rest) == [c] + Concat([head] + rest)
  {
    ConcatCons([c] + head, rest);
    ConcatCons(head, rest);
  }

  /** Sentence splitting loses no character other than whitespace, so every
      sentence end stays with the sentence it closes. */
  lemma SplitSentencesKeep(text: string)
    ensures Filter(Concat(SplitSentences(text)), NotSpace) == Filter(text, NotSpace)
  {
    StripNonBlankKeeps(Pieces(text, false), NotSpace);
    PiecesKeep(text, false);
  }

  /** A break can start at s[i]: a newline, or whitespace right after a sentence end. */
  predicate BreakStarts(s: string, afterEnd: bool, i: nat)
    requires i < |s|
  {
    s[i] == '\n' || (IsSpace(s[i]) && if i == 0 then afterEnd else IsSentenceEnd(s[i - 1]))
  }

  /** s holds no break. */
  predicate NoBreak(s: string, afterEnd: bool)
  {
    forall i :: 0 <= i < |s| ==> !BreakStarts(s, afterEnd, i)
  }

  /** The split leaves s whole exactly when s holds no break. */
  lemma {:induction false} PiecesWhole(s: string, afterEnd: bool)
    ensures NoBreak(s, afterEnd) ==> Pieces(s, afterEnd) == [s]
    ensures !NoBreak(s, afterEnd) ==> |Pieces(s, afterEnd)| > 1
    decreases |s|
  {
    if s != [] {
      var m := BreakAt(s, afterEnd);
      if m == 0 {
        var e := IsSentenceEnd(s[0]);
        PiecesWhole(s[1..], e);
        if NoBreak(s, afterEnd) {
          assert NoBreak(s[1..], e) by {
            forall i | 0 <= i < |s[1..]| ensures !BreakStarts(s[1..], e, i) {
              assert !BreakStarts(s, afterEnd, i + 1);
              assert s[1..][i] == s[i + 1];
            }
          }
          var rest := Pieces(s[1..], e);
          assert rest[0] == s[1..] && rest[1..] == [];
          assert [s[0]] + s[1..] == s;
        } else {
          var i :| 0 <= i < |s| && BreakStarts(s, afterEnd, i);
          assert i > 0;
          assert s[1..][i - 1] == s[i];
          assert BreakStarts(s[1..], e, i - 1);
        }
      } else {
        assert BreakStarts(s, afterEnd, 0);
      }
    }
  }

  /** Text without a newline and without whitespace after a sentence end comes
      back as one stripped sentence, or as none when it is blank. */
  lemma SplitSentencesWhole(text: string)
    requires NoBreak(text, false)
    ensures SplitSentences(text) == if Strip(text) == [] then [] else [Strip(text)]
  {
    PiecesWhole(text, false);
    StripNonBlankSingle(text);
  }

  // ---------------------------------------------------------------------
  // Keywords
  // ---------------------------------------------------------------------

  const KoreanStopwords: set<string> := {
    "있다", "없다", "하다", "되다", "보다", "생각하다", "것", "수", "이", "가",
    "을", "를", "은", "는", "에", "의", "로", "과", "도"
  }

  const EnglishStopwords: set<string> := {
    "the", "and", "is", "are", "to", "in", "that", "it", "with", "as", "for", "on", "was", "this"
  }

  /** A kept Hangul token: two syllables or more, not a stopword. */
  predicate KoreanEligible(w: string) { |w| >= 2 && w !in KoreanStopwords }

  /** A kept Latin token: three letters or more, not a stopword. */
  predicate EnglishEligible(w: string)
  {
    |w| >= 3 && (forall i :: 0 <= i < |w| ==> IsAsciiLetter(w[i])) && w !in EnglishStopwords
  }

  /** `re.findall(r'[가-힣]{2,}', s)` without the Korean stopwords. */
  function KoreanWords(s: string): seq<string>
  {
    Filter(Runs(s, IsHangul), KoreanEligible)
  }

  /** `re.findall(r'\b[a-zA-Z]{3,}\b', s.lower())` without the English
      stopwords: a letter run bounded by `\b` on both sides is a maximal run
      of word characters that holds letters only. */
  function EnglishWords(s: string): seq<string>
  {
    Filter(Runs(Lower(s), IsWordChar), EnglishEligible)
  }

  /** The tokens of all sentences in order, Hangul ones first within each sentence. */
  function Words(sentences: seq<string>): seq<string>
  {
    if sentences == [] then []
    else
      var last := sentences[|sentences| - 1];
      Words(sentences[..|sentences| - 1]) + KoreanWords(last) + EnglishWords(last)
  }

  /** What a keyword looks like. */
  predicate IsKeywordTerm(w: string)
  {
    || (KoreanEligible(w) && forall i :: 0 <= i < |w| ==> IsHangul(w[i]))
    || (EnglishEligible(w) && forall i :: 0 <= i < |w| ==> IsAsciiLower(w[i]))
  }

  lemma {:induction false} WordsAreTerms(sentences: seq<string>)
    ensures forall w :: w in Words(sentences) ==> IsKeywordTerm(w)
  {
    if sentences != [] {
      var last := sentences[|sentences| - 1];
      WordsAreTerms(sentences[..|sentences| - 1]);
      FilterMembers(Runs(last, IsHangul), KoreanEligible);
      FilterMembers(Runs(Lower(last), IsWordChar), EnglishEligible);
      RunsInherit(Lower(last), IsWordChar, NotAsciiUpper);
    }
  }

  /** `sum(1 for s in sentences if word in s)`, tested on the sentence as written. */
  function DocumentFrequency(sentences: seq<string>, w: string): nat
  {
    |Filter(sentences, (s: string) => Contains(s, w))|
  }

  /** `(count / total_words) * math.log(len(sentences) / (1 + df))`, with the
      natural logarithm ln given. */
  function TfIdf(sentences: seq<string>, words: seq<string>, ln: real -> real, w: string): real
    requires words != []
  {
    (multiset(words)[w] as real / |words| as real)
      * ln(|sentences| as real / (1 + DocumentFrequency(sentences, w)) as real)
  }

  /** `itemgetter(1)` */
  function ScoreKey(e: (string, real)): real { e.1 }

  /** `extract_keywords`: the TF-IDF table sorted by descending score (stably,
      so ties keep first-occurrence order), cut by `[:top_n]`. */
  function ExtractKeywords(sentences: seq<string>, topN: int, ln: real -> real): (r: seq<(string, real)>)
    ensures Words(sentences) == [] ==> r == []
    ensures topN >= 0 ==> |r| <= topN
  {
    var words := Words(sentences);
    if words == [] then []
    else
      var score := (w: string) => TfIdf(sentences, words, ln, w);
      SlicePrefix(Sorted(Tabulate(words, score), ScoreKey, true), topN)
  }

  /** The shape of the keyword list: distinct well-formed terms from the text
      with their TF-IDF scores, scores non-increasing, ties in the order the
      terms first occur. */
  lemma ExtractKeywordsShape(sentences: seq<string>, topN: int, ln: real -> real)
    ensures var r := ExtractKeywords(sentences, topN, ln);
      && (forall i :: 0 <= i < |r| ==> IsKeywordTerm(r[i].0))
      && (forall i :: 0 <= i < |r| ==> r[i].0 in Words(sentences) && r[i].1 == TfIdf(sentences, Words(sentences), ln, r[i].0))
      && (forall i, j :: 0 <= i < j < |r| ==> r[i].0 != r[j].0)
      && (forall i, j :: 0 <= i < j < |r| ==> r[i].1 >= r[j].1)
      && (forall i, j :: 0 <= i < j < |r| && r[i].1 == r[j].1 ==>
            IndexOf(Words(sentences), r[i].0) < IndexOf(Words(sentences), r[j].0))
  {
    var words := Words(sentences);
    if words != [] {
      var score := (w: string) => TfIdf(sentences, words, ln, w);
      RankedPrefix(words, score, ScoreKey, ExtractKeywords(sentences, topN, ln));
      WordsAreTerms(sentences);
    }
  }

  /** A positive limit yields keywords whenever some token survives, and the
      full limit when enough distinct tokens do. */
  lemma ExtractKeywordsSize(sentences: seq<string>, topN: int, ln: real -> real)
    ensures Words(sentences) != [] && topN > 0 ==>
      |ExtractKeywords(sentences, topN, ln)| == Min(topN, |Distinct(Words(sentences))|) > 0
  {
    var words := Words(sentences);
    if words != [] && topN > 0 {
      DistinctMembers(words, words[0]);
    }
  }

  /** The cut keeps the best: a token left out scores no more than any kept term. */
  lemma ExtractKeywordsTop(sentences: seq<string>, topN: int, ln: real -> real, w: string)
    requires w in Words(sentences)
    requires forall i :: 0 <= i < |ExtractKeywords(sentences, topN, ln)| ==> ExtractKeywords(sentences, topN, ln)[i].0 != w
    ensures forall i :: 0 <= i < |ExtractKeywords(sentences, topN, ln)| ==>
      TfIdf(sentences, Words(sentences), ln, w) <= ExtractKeywords(sentences, topN, ln)[i].1
  {
    var words := Words(sentences);
    var score := (v: string) => TfIdf(sentences, words, ln, v);
    RankedPrefixTop(words, score, ScoreKey, ExtractKeywords(sentences, topN, ln), w);
  }
}
