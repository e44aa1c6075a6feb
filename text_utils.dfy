/** Input validation and preview formatting used by the command line front
    end (`email_summarizer/utils.py`). File and standard-input readers are
    not modelled. */
module TextUtils {
  import opened TextBasics
  import opened Ranking

  // ---------------------------------------------------------------------
  // Validation
  // ---------------------------------------------------------------------

  /** `re.match(r'^[\s\W]+$', text)`: the text is non-empty and holds no
      word character. Every `\s` character is also a `\W` character. */
  predicate OnlySymbols(text: string)
  {
    text != [] && forall i :: 0 <= i < |text| ==> !IsWordChar(text[i])
  }

  /** `validate_text`: the checks run in the source's order; the result
      holds exactly when the stripped text is long enough and at least one
      word character occurs. */
  function ValidateText(text: string, minLength: int): (valid: bool)
    ensures valid <==> |Strip(text)| >= minLength && exists i :: 0 <= i < |text| && IsWordChar(text[i])
  {
    if text == [] then false
    else if |Strip(text)| < minLength then false
    else if OnlySymbols(text) then false
    else true
  }

  /** A word character is never white space, so a valid text keeps one after
      stripping. */
  lemma ValidTextHasContent(text: string, minLength: int)
    requires ValidateText(text, minLength)
    ensures exists j :: 0 <= j < |Strip(text)| && IsWordChar(Strip(text)[j])
  {
    var i :| 0 <= i < |text| && IsWordChar(text[i]);
    WordCharSurvivesStrip(text, i);
  }

  lemma WordCharSurvivesStrip(text: string, i: nat)
    requires i < |text| && IsWordChar(text[i])
    ensures exists j :: 0 <= j < |Strip(text)| && IsWordChar(Strip(text)[j])
  {
    var k := StripIsSlice(text);
    var t := Strip(text);
    assert !IsSpace(text[i]);
    assert k <= i < k + |t|;
    assert t[i - k] == text[i];
  }

  const EmptyMessage: string := "텍스트가 비어있습니다."
  const NoContentMessage: string := "텍스트에 의미 있는 내용이 없습니다."

  function TooShortMessage(minLength: nat): string
  {
    "텍스트가 너무 짧습니다. 최소 " + DecimalString(minLength) + "자 이상이어야 합니다."
  }

  /** `validate_text_content`: the verdict of `validate_text` together with
      the message of the first check that failed. */
  function ValidateTextContent(text: string, minLength: int): (r: (bool, Option<string>))
    ensures r.0 == ValidateText(text, minLength)
    ensures r.0 <==> r.1 == None
    ensures text == [] ==> r.1 == Some(EmptyMessage)
    ensures text != [] && |Strip(text)| < minLength ==> minLength > 0 && r.1 == Some(TooShortMessage(minLength))
    ensures text != [] && |Strip(text)| >= minLength && OnlySymbols(text) ==> r.1 == Some(NoContentMessage)
  {
    if text == [] then (false, Some(EmptyMessage))
    else if |Strip(text)| < minLength then (false, Some(TooShortMessage(minLength)))
    else if OnlySymbols(text) then (false, Some(NoContentMessage))
    else (true, None)
  }

  // ---------------------------------------------------------------------
  // Decimal numerals
  // ---------------------------------------------------------------------

  function Digit(d: nat): (c: char)
    requires d < 10
    ensures IsDigit(c) && c as int - '0' as int == d
  {
    (d + '0' as int) as char
  }

  /** `str(n)` for a non-negative n. */
  function DecimalString(n: nat): (s: string)
    ensures s != [] && forall i :: 0 <= i < |s| ==> IsDigit(s[i])
    ensures s[0] == '0' ==> n == 0
    decreases n
  {
    if n < 10 then [Digit(n)] else DecimalString(n / 10) + [Digit(n % 10)]
  }

  predicate AllDigits(s: string)
  {
    forall i :: 0 <= i < |s| ==> IsDigit(s[i])
  }

  /** The number a string of decimal digits denotes. */
  function DecimalValue(s: string): nat
    requires AllDigits(s)
  {
    if s == [] then 0
    else 10 * DecimalValue(s[..|s| - 1]) + (s[|s| - 1] as int - '0' as int)
  }

  /** Reading a numeral back gives the number it was written from. */
  lemma {:induction false} DecimalRoundTrip(n: nat)
    ensures DecimalValue(DecimalString(n)) == n
    decreases n
  {
    if n >= 10 {
      var s := DecimalString(n);
      DecimalRoundTrip(n / 10);
      assert s[..|s| - 1] == DecimalString(n / 10);
    }
  }

  // ---------------------------------------------------------------------
  // Thousands separators
  // ---------------------------------------------------------------------

  /** Inserts ',' between groups of three digits, counted from the right. */
  function GroupDigits(s: string): (r: string)
    requires AllDigits(s)
    ensures |r| >= |s|
    decreases |s|
  {
    if |s| <= 3 then s else GroupDigits(s[..|s| - 3]) + "," + s[|s| - 3..]
  }

  /** The separators stand exactly at every fourth place counted from the
      end, never first, and every other character is a digit. */
  lemma {:induction false} GroupDigitsLayout(s: string)
    requires AllDigits(s)
    ensures var r := GroupDigits(s);
      forall i :: 0 <= i < |r| ==> (r[i] == ',' <==> (|r| - i) % 4 == 0) && (r[i] == ',' || IsDigit(r[i]))
    ensures s != [] ==> |GroupDigits(s)| % 4 != 0
    decreases |s|
  {
    var r := GroupDigits(s);
    if |s| > 3 {
      var head, tail := s[..|s| - 3], s[|s| - 3..];
      var g := GroupDigits(head);
      GroupDigitsLayout(head);
      assert r == g + "," + tail;
      assert |r| == |g| + 4;
      forall i | 0 <= i < |r|
        ensures (r[i] == ',' <==> (|r| - i) % 4 == 0) && (r[i] == ',' || IsDigit(r[i]))
      {
        if i < |g| {
          assert r[i] == g[i];
          ShiftByFour(|g| - i);
        } else if i > |g| {
          assert r[i] == tail[i - |g| - 1] && 0 < |r| - i < 4;
        }
      }
    }
  }

  lemma ShiftByFour(x: int)
    ensures (x + 4) % 4 == x % 4
  {
  }

  /** Dropping the separators gives the digits back. */
  lemma {:induction false} GroupDigitsKeepsDigits(s: string)
    requires AllDigits(s)
    ensures Filter(GroupDigits(s), IsDigit) == s
    decreases |s|
  {
    if |s| <= 3 {
      FilterAll(s, IsDigit);
    } else {
      var head := s[..|s| - 3];
      var tail := s[|s| - 3..];
      var g := GroupDigits(head);
      assert GroupDigits(s) == g + "," + tail;
      calc {
        Filter(g + "," + tail, IsDigit);
        { FilterConcat(g + ",", tail, IsDigit); }
        Filter(g + ",", IsDigit) + Filter(tail, IsDigit);
        { FilterConcat(g, ",", IsDigit); }
        Filter(g, IsDigit) + Filter(",", IsDigit) + Filter(tail, IsDigit);
        { GroupDigitsKeepsDigits(head); FilterNone(",", IsDigit); FilterAll(tail, IsDigit); }
        head + [] + tail;
        { assert s == head + tail; }
        s;
      }
    }
  }

  /** `f"{n:,}"` */
  function FormatThousands(n: nat): string
  {
    GroupDigits(DecimalString(n))
  }

  /** The digits of a formatted count read back as the count. */
  lemma FormatThousandsRoundTrip(n: nat)
    ensures Filter(FormatThousands(n), IsDigit) == DecimalString(n)
    ensures AllDigits(Filter(FormatThousands(n), IsDigit))
    ensures DecimalValue(Filter(FormatThousands(n), IsDigit)) == n
  {
    GroupDigitsKeepsDigits(DecimalString(n));
    DecimalRoundTrip(n);
  }

  // ---------------------------------------------------------------------
  // Preview
  // ---------------------------------------------------------------------

  /** `'.'.join(cut.split('.')[:-1]) + '.'` when cut holds a '.', and cut
      itself otherwise. */
  function PreviewBody(cut: string): string
  {
    var parts := SplitOn(cut, '.');
    if |parts| > 1 then JoinWith(".", parts[..|parts| - 1]) + "." else cut
  }

  /** The preview body is cut back to the last '.' of cut, kept, or is all
      of cut when there is none. */
  lemma PreviewBodyCutsAtLastStop(cut: string)
    ensures PreviewBody(cut) <= cut
    ensures '.' in cut ==> |PreviewBody(cut)| > 0 && PreviewBody(cut)[|PreviewBody(cut)| - 1] == '.'
    ensures '.' in cut ==> '.' !in cut[|PreviewBody(cut)|..]
    ensures '.' !in cut ==> PreviewBody(cut) == cut
  {
    JoinSplit(cut, '.');
    SplitSeveralIffPresent(cut, '.');
    var parts := SplitOn(cut, '.');
    if |parts| > 1 {
      var body := JoinWith(".", parts[..|parts| - 1]) + ".";
      assert cut == body + parts[|parts| - 1];
      assert cut[|body|..] == parts[|parts| - 1];
    }
  }

  function PreviewSuffix(length: nat): string
  {
    "... (총 " + FormatThousands(length) + "자)"
  }

  /** `format_text_preview`: short texts unchanged, longer ones cut to
      max_length characters (Python slice semantics), back to the last
      sentence stop, with the total length appended. */
  function FormatTextPreview(text: string, maxLength: int): string
  {
    if |text| <= maxLength then text
    else PreviewBody(SlicePrefix(text, maxLength)) + PreviewSuffix(|text|)
  }

  /** A preview is the text itself when it fits; otherwise a prefix of the
      text no longer than the cut, ending at the cut's last '.' when it has
      one, followed by the length note. */
  lemma FormatTextPreviewShape(text: string, maxLength: int) returns (k: nat)
    ensures |text| <= maxLength ==> FormatTextPreview(text, maxLength) == text
    ensures |text| > maxLength ==> k <= |SlicePrefix(text, maxLength)|
    ensures |text| > maxLength ==> FormatTextPreview(text, maxLength) == text[..k] + PreviewSuffix(|text|)
    ensures |text| > maxLength && '.' in SlicePrefix(text, maxLength) ==>
      0 < k && text[k - 1] == '.' && '.' !in SlicePrefix(text, maxLength)[k..]
    ensures |text| > maxLength && '.' !in SlicePrefix(text, maxLength) ==> k == |SlicePrefix(text, maxLength)|
  {
    k := 0;
    if |text| > maxLength {
      var cut := SlicePrefix(text, maxLength);
      PreviewBodyCutsAtLastStop(cut);
      k := |PreviewBody(cut)|;
      assert PreviewBody(cut) == cut[..k] == text[..k];
    }
  }
}
