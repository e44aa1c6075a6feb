/** Character classes and Python string operations shared by the summariser
    models. A Python `str` is a sequence of code points, so it is `string`
    here. */
module TextBasics {

  datatype Option<T> = None | Some(value: T)

  /** A call into a collaborator that may raise: the exception's message is
      carried by `Failure`. */
  datatype Result<T, E> = Success(value: T) | Failure(error: E)

  function Min(a: int, b: int): int { if a <= b then a else b }

  // ---------------------------------------------------------------------
  // Character classes
  // ---------------------------------------------------------------------

  /** `[가-힣]`: a precomposed Hangul syllable, U+AC00 to U+D7A3. */
  predicate IsHangul(c: char) { '\U{AC00}' <= c <= '\U{D7A3}' }

  predicate IsAsciiUpper(c: char) { 'A' <= c <= 'Z' }

  predicate IsAsciiLower(c: char) { 'a' <= c <= 'z' }

  /** `[a-zA-Z]` */
  predicate IsAsciiLetter(c: char) { IsAsciiUpper(c) || IsAsciiLower(c) }

  /** `[0-9]` */
  predicate IsDigit(c: char) { '0' <= c <= '9' }

  /** `\w`, restricted to ASCII word characters and Hangul syllables. */
  predicate IsWordChar(c: char) { IsAsciiLetter(c) || IsDigit(c) || c == '_' || IsHangul(c) }

  /** `str.isspace()`, which is also what `\s` and `str.strip()` test. */
  predicate IsSpace(c: char)
  {
    || ('\t' <= c <= '\r')
    || ('\U{1C}' <= c <= ' ')
    || c == '\U{85}' || c == '\U{A0}' || c == '\U{1680}'
    || ('\U{2000}' <= c <= '\U{200A}')
    || c == '\U{2028}' || c == '\U{2029}' || c == '\U{202F}' || c == '\U{205F}'
    || c == '\U{3000}'
  }

  predicate NotSpace(c: char) { !IsSpace(c) }

  predicate NotAsciiUpper(c: char) { !IsAsciiUpper(c) }

  // ---------------------------------------------------------------------
  // Case mapping
  // ---------------------------------------------------------------------

  /** `str.lower()` on one character, for ASCII letters only. */
  function LowerChar(c: char): (d: char)
    ensures !IsAsciiUpper(d)
    ensures IsSpace(d) == IsSpace(c) && IsWordChar(d) == IsWordChar(c) && IsHangul(d) == IsHangul(c)
    ensures IsAsciiLetter(d) == IsAsciiLetter(c)
    ensures !IsAsciiUpper(c) ==> d == c
  {
    if IsAsciiUpper(c) then (c as int + 32) as char else c
  }

  /** `str.lower()`: no capital A-Z is left, each one becomes its small
      letter, and every other character stays where it was. */
  function Lower(s: string): (r: string)
    ensures |r| == |s|
    ensures forall i :: 0 <= i < |r| ==> !IsAsciiUpper(r[i])
    ensures forall i :: 0 <= i < |s| && IsAsciiUpper(s[i]) ==> r[i] as int == s[i] as int + 32
    ensures forall i :: 0 <= i < |s| && !IsAsciiUpper(s[i]) ==> r[i] == s[i]
    ensures forall i :: 0 <= i < |s| ==> r[i] == LowerChar(s[i])
  {
    seq(|s|, i requires 0 <= i < |s| => LowerChar(s[i]))
  }

  lemma LowerConcat(a: string, b: string)
    ensures Lower(a + b) == Lower(a) + Lower(b)
  {
  }

  lemma LowerIdempotent(s: string)
    ensures Lower(Lower(s)) == Lower(s)
  {
  }

  // ---------------------------------------------------------------------
  // Stripping
  // ---------------------------------------------------------------------

  /** `str.lstrip()` */
  function TrimStart(s: string): (r: string)
    ensures |r| <= |s| && r == s[|s| - |r|..]
    ensures forall i :: 0 <= i < |s| - |r| ==> IsSpace(s[i])
    ensures r == [] || !IsSpace(r[0])
  {
    if s != [] && IsSpace(s[0]) then TrimStart(s[1..]) else s
  }

  /** `str.rstrip()` */
  function TrimEnd(s: string): (r: string)
    ensures |r| <= |s| && r == s[..|r|]
    ensures forall i :: |r| <= i < |s| ==> IsSpace(s[i])
    ensures r == [] || !IsSpace(r[|r| - 1])
  {
    if s != [] && IsSpace(s[|s| - 1]) then TrimEnd(s[..|s| - 1]) else s
  }

  /** `str.strip()` */
  function Strip(s: string): (r: string)
    ensures |r| <= |s|
    ensures r == [] || (!IsSpace(r[0]) && !IsSpace(r[|r| - 1]))
  {
    TrimEnd(TrimStart(s))
  }

  /** Strip removes whitespace from the two ends and nothing else: the result
      is the slice s[k..k + |Strip(s)|] and everything around it is space. */
  lemma StripIsSlice(s: string) returns (k: nat)
    ensures k + |Strip(s)| <= |s| && Strip(s) == s[k..k + |Strip(s)|]
    ensures forall i :: 0 <= i < k ==> IsSpace(s[i])
    ensures forall i :: k + |Strip(s)| <= i < |s| ==> IsSpace(s[i])
  {
    var t := TrimStart(s);
    k := |s| - |t|;
    assert t == s[k..];
    var r := TrimEnd(t);
    assert r == t[..|r|];
    forall i | k + |r| <= i < |s| ensures IsSpace(s[i]) {
      assert s[i] == t[i - k];
    }
  }

  /** A string is stripped to nothing exactly when it is all whitespace. */
  lemma StripEmptyIffBlank(s: string)
    ensures Strip(s) == [] <==> forall i :: 0 <= i < |s| ==> IsSpace(s[i])
  {
    var k := StripIsSlice(s);
  }

  /** Stripping a string that has no whitespace at either end changes nothing. */
  lemma StripStripped(s: string)
    requires s == [] || (!IsSpace(s[0]) && !IsSpace(s[|s| - 1]))
    ensures Strip(s) == s
  {
  }

  // ---------------------------------------------------------------------
  // Searching, filtering, counting
  // ---------------------------------------------------------------------

  /** Python's `needle in hay` on strings (the empty string is in every string). */
  predicate Contains(hay: string, needle: string)
    decreases |hay|
  {
    needle <= hay || (hay != [] && Contains(hay[1..], needle))
  }

  /** The elements of s that satisfy p, in order. */
  function Filter<T>(s: seq<T>, p: T -> bool): (r: seq<T>)
    ensures |r| <= |s|
  {
    if s == [] then [] else (if p(s[0]) then [s[0]] else []) + Filter(s[1..], p)
  }

  lemma {:induction false} FilterMembers<T>(s: seq<T>, p: T -> bool)
    ensures forall x :: x in Filter(s, p) ==> x in s && p(x)
  {
    if s != [] {
      FilterMembers(s[1..], p);
    }
  }

  /** Filter keeps every element that passes. */
  lemma {:induction false} FilterHas<T>(s: seq<T>, p: T -> bool, x: T)
    requires x in s && p(x)
    ensures x in Filter(s, p)
  {
    if s[0] != x {
      FilterHas(s[1..], p, x);
    }
  }

  lemma {:induction false} FilterConcat<T>(a: seq<T>, b: seq<T>, p: T -> bool)
    ensures Filter(a + b, p) == Filter(a, p) + Filter(b, p)
  {
    if a != [] {
      assert (a + b)[1..] == a[1..] + b;
      FilterConcat(a[1..], b, p);
    } else {
      assert a + b == b;
    }
  }

  lemma {:induction false} FilterNone<T>(s: seq<T>, p: T -> bool)
    requires forall i :: 0 <= i < |s| ==> !p(s[i])
    ensures Filter(s, p) == []
  {
    if s != [] {
      FilterNone(s[1..], p);
    }
  }

  /** A prefix of elements p rejects does not show in the filter. */
  lemma {:induction false} FilterDropsPrefix<T>(s: seq<T>, m: nat, p: T -> bool)
    requires m <= |s| && forall i :: 0 <= i < m ==> !p(s[i])
    ensures Filter(s, p) == Filter(s[m..], p)
  {
    if m > 0 {
      FilterDropsPrefix(s[1..], m - 1, p);
      assert s[1..][m - 1..] == s[m..];
    }
  }

  /** The characters p rejects. */
  function Complement(p: char -> bool): char -> bool
  {
    c => !p(c)
  }

  lemma {:induction false} FilterAll<T>(s: seq<T>, p: T -> bool)
    requires forall i :: 0 <= i < |s| ==> p(s[i])
    ensures Filter(s, p) == s
  {
    if s != [] {
      FilterAll(s[1..], p);
    }
  }

  /** Filtering by q after a weaker p is filtering by q alone. */
  lemma {:induction false} FilterFilter<T>(s: seq<T>, p: T -> bool, q: T -> bool)
    requires forall x :: q(x) ==> p(x)
    ensures Filter(Filter(s, p), q) == Filter(s, q)
  {
    if s != [] {
      FilterFilter(s[1..], p, q);
      var t := Filter(s, p);
      if p(s[0]) {
        assert t == [s[0]] + Filter(s[1..], p);
        assert t[0] == s[0] && t[1..] == Filter(s[1..], p);
        assert Filter(t, q) == (if q(s[0]) then [s[0]] else []) + Filter(t[1..], q);
      } else {
        assert t == Filter(s[1..], p) && !q(s[0]);
      }
    }
  }

  /** `len(re.findall('[class]', s))`: how many characters of s satisfy p. */
  function CountWhere(s: string, p: char -> bool): (n: nat)
    ensures n <= |s|
  {
    |Filter(s, p)|
  }

  /** The concatenation of all parts, `''.join(parts)`. */
  function Concat(parts: seq<string>): string
  {
    if parts == [] then [] else parts[0] + Concat(parts[1..])
  }

  /** Each part filtered by p. */
  function FilterEach(parts: seq<string>, p: char -> bool): (r: seq<string>)
    ensures |r| == |parts|
    ensures forall i :: 0 <= i < |r| ==> r[i] == Filter(parts[i], p)
  {
    if parts == [] then [] else [Filter(parts[0], p)] + FilterEach(parts[1..], p)
  }

  lemma {:induction false} FilterOverConcat(parts: seq<string>, p: char -> bool)
    ensures Filter(Concat(parts), p) == Concat(FilterEach(parts, p))
  {
    if parts != [] {
      FilterOverConcat(parts[1..], p);
      FilterConcat(parts[0], Concat(parts[1..]), p);
    }
  }

  // ---------------------------------------------------------------------
  // Splitting and joining
  // ---------------------------------------------------------------------

  /** `s.split(c)` for a one-character separator c. */
  function SplitOn(s: string, c: char): (parts: seq<string>)
    ensures |parts| >= 1
    ensures forall i :: 0 <= i < |parts| ==> c !in parts[i]
  {
    if s == [] then [[]]
    else
      var init := SplitOn(s[..|s| - 1], c);
      if s[|s| - 1] == c then init + [[]]
      else init[..|init| - 1] + [init[|init| - 1] + [s[|s| - 1]]]
  }

  /** `sep.join(parts)` */
  function JoinWith(sep: string, parts: seq<string>): string
  {
    if parts == [] then []
    else if |parts| == 1 then parts[0]
    else JoinWith(sep, parts[..|parts| - 1]) + sep + parts[|parts| - 1]
  }

  /** Joining the pieces of a split with the separator gives the string back. */
  lemma {:induction false} JoinSplit(s: string, c: char)
    ensures JoinWith([c], SplitOn(s, c)) == s
  {
    if s != [] {
      var init := SplitOn(s[..|s| - 1], c);
      JoinSplit(s[..|s| - 1], c);
      var parts := SplitOn(s, c);
      if s[|s| - 1] == c {
        assert parts[..|parts| - 1] == init;
      } else if |init| > 1 {
        assert parts[..|parts| - 1] == init[..|init| - 1];
      }
    }
  }

  /** A split has more than one piece exactly when the separator occurs. */
  lemma SplitSeveralIffPresent(s: string, c: char)
    ensures |SplitOn(s, c)| > 1 <==> c in s
  {
    JoinSplit(s, c);
    var parts := SplitOn(s, c);
    if |parts| > 1 {
      var head := JoinWith([c], parts[..|parts| - 1]);
      assert s == head + [c] + parts[|parts| - 1];
      assert s[|head|] == c;
    }
  }

  // ---------------------------------------------------------------------
  // Runs of a character class
  // ---------------------------------------------------------------------

  /** Length of the run of p-characters at the start of s. */
  function RunLength(s: string, p: char -> bool): (k: nat)
    ensures k <= |s|
    ensures forall i :: 0 <= i < k ==> p(s[i])
    ensures k < |s| ==> !p(s[k])
  {
    if s != [] && p(s[0]) then 1 + RunLength(s[1..], p) else 0
  }

  /** `re.split('[class]+', s)`: the pieces between maximal runs of
      p-characters, with an empty piece before a leading run and after a
      trailing one. */
  function SplitRuns(s: string, p: char -> bool): (pieces: seq<string>)
    ensures |pieces| >= 1
    ensures forall w :: w in pieces ==> forall i :: 0 <= i < |w| ==> !p(w[i])
    decreases |s|
  {
    var k := RunLength(s, Complement(p));
    if k == |s| then [s]
    else
      var rest := s[k..];
      [s[..k]] + SplitRuns(rest[RunLength(rest, p)..], p)
  }

  /** The pieces of a split are the characters of s outside p, in order. */
  lemma ConcatCons(a: string, b: seq<string>)
    ensures Concat([a] + b) == a + Concat(b)
  {
    assert ([a] + b)[1..] == b;
  }

  /** The first step of a split: a piece without p, then a run of p. */
  lemma {:induction false} SplitStep(s: string, q: char -> bool, k: nat, m: nat)
    requires k + m <= |s|
    requires forall i :: 0 <= i < k ==> q(s[i])
    requires forall i :: k <= i < k + m ==> !q(s[i])
    ensures Filter(s, q) == s[..k] + Filter(s[k + m..], q)
    decreases k + m
  {
    if k > 0 {
      SplitStep(s[1..], q, k - 1, m);
      assert s[..k] == [s[0]] + s[1..][..k - 1];
      assert s[1..][k - 1 + m..] == s[k + m..];
    } else if m > 0 {
      SplitStep(s[1..], q, 0, m - 1);
      assert s[1..][m - 1..] == s[m..];
    }
  }

  lemma {:induction false} SplitRunsConcat(s: string, p: char -> bool)
    ensures Concat(SplitRuns(s, p)) == Filter(s, Complement(p))
    decreases |s|
  {
    var k := RunLength(s, Complement(p));
    if k < |s| {
      var rest := s[k..];
      var m := RunLength(rest, p);
      var tail := rest[m..];
      assert tail == s[k + m..];
      calc {
        Concat(SplitRuns(s, p));
        Concat([s[..k]] + SplitRuns(tail, p));
        { ConcatCons(s[..k], SplitRuns(tail, p)); }
        s[..k] + Concat(SplitRuns(tail, p));
        { SplitRunsConcat(tail, p); }
        s[..k] + Filter(tail, Complement(p));
        { SplitStep(s, Complement(p), k, m); }
        Filter(s, Complement(p));
      }
    } else {
      SplitStep(s, Complement(p), k, 0);
      ConcatCons(s, []);
    }
  }

  /** Without a p-character, s is a single piece. */
  lemma SplitRunsWhole(s: string, p: char -> bool)
    requires forall i :: 0 <= i < |s| ==> !p(s[i])
    ensures SplitRuns(s, p) == [s]
  {
    RunLengthIs(s, Complement(p), |s|);
  }

  /** The run at the start of s is k long exactly when its first k
      characters are in q and the next one, if any, is not. */
  lemma RunLengthIs(s: string, q: char -> bool, k: nat)
    requires k <= |s| && forall i :: 0 <= i < k ==> q(s[i])
    requires k < |s| ==> !q(s[k])
    ensures RunLength(s, q) == k
  {
  }

  /** Where the run of q-characters at the start of a ends before a's end,
      what follows a does not matter. */
  lemma RunLengthPrefix(a: string, b: string, q: char -> bool)
    requires RunLength(a, q) < |a|
    ensures RunLength(a + b, q) == RunLength(a, q)
  {
    var k := RunLength(a, q);
    assert (a + b)[k] == a[k];
    assert forall i :: 0 <= i < k ==> (a + b)[i] == a[i];
    RunLengthIs(a + b, q, k);
  }

  /** x in q followed by y starting outside q: the run at the start is x. */
  lemma RunAtStart(x: string, y: string, q: char -> bool)
    requires forall i :: 0 <= i < |x| ==> q(x[i])
    requires y == [] || !q(y[0])
    ensures RunLength(x + y, q) == |x|
  {
    if y != [] {
      assert (x + y)[|x|] == y[0];
    }
    assert forall i :: 0 <= i < |x| ==> (x + y)[i] == x[i];
    RunLengthIs(x + y, q, |x|);
  }

  /** A piece free of p followed by a run of p-characters: the piece is cut
      off at the run, and splitting goes on after it. */
  lemma SplitRunsStep(a: string, sep: string, b: string, p: char -> bool)
    requires RunLength(a, Complement(p)) == |a|
    requires sep != [] && forall i :: 0 <= i < |sep| ==> p(sep[i])
    requires b == [] || !p(b[0])
    ensures SplitRuns(a, p) == [a]
    ensures SplitRuns(a + sep + b, p) == [a] + SplitRuns(b, p)
  {
    var s := a + sep + b;
    assert RunLength(s, Complement(p)) == |a| by {
      ConcatAssoc(a, sep, b);
      assert (sep + b)[0] == sep[0];
      RunAtStart(a, sep + b, Complement(p));
    }
    var rest := s[|a|..];
    assert RunLength(rest, p) == |sep| by {
      assert rest == sep + b;
      RunAtStart(sep, b, p);
    }
    assert rest[|sep|..] == b && s[..|a|] == a;
  }

  /** Splitting at a run of separators whose neighbours are not separators
      splits the two sides independently: each side's pieces, in order. */
  lemma {:induction false} SplitRunsJoin(a: string, sep: string, b: string, p: char -> bool)
    requires a == [] || !p(a[|a| - 1])
    requires sep != [] && forall i :: 0 <= i < |sep| ==> p(sep[i])
    requires b == [] || !p(b[0])
    ensures SplitRuns(a + sep + b, p) == SplitRuns(a, p) + SplitRuns(b, p)
    decreases |a|
  {
    if RunLength(a, Complement(p)) == |a| {
      SplitRunsStep(a, sep, b, p);
    } else {
      var j := SplitRunsFirstPiece(a, sep, b, p);
      SplitRunsJoin(a[j..], sep, b, p);
      PrependSplit([a[..RunLength(a, Complement(p))]], SplitRuns(a[j..], p), SplitRuns(b, p),
        SplitRuns(a + sep + b, p), SplitRuns(a[j..] + sep + b, p), SplitRuns(a, p));
    }
  }

  /** Putting x before a sequence split as r1 + r2. */
  lemma PrependSplit<T>(x: seq<T>, r1: seq<T>, r2: seq<T>, whole: seq<T>, rest: seq<T>, left: seq<T>)
    requires whole == x + rest && rest == r1 + r2 && left == x + r1
    ensures whole == left + r2
  {
  }

  /** When a holds a p-character and ends outside p, its first piece and the
      run after it lie inside a, whatever follows a. */
  lemma SplitRunsFirstPiece(a: string, sep: string, b: string, p: char -> bool) returns (j: nat)
    requires RunLength(a, Complement(p)) < |a| && !p(a[|a| - 1])
    ensures 0 < j < |a| && !p(a[j..][|a[j..]| - 1])
    ensures SplitRuns(a, p) == [a[..RunLength(a, Complement(p))]] + SplitRuns(a[j..], p)
    ensures SplitRuns(a + sep + b, p) == [a[..RunLength(a, Complement(p))]] + SplitRuns(a[j..] + sep + b, p)
  {
    var k := RunLength(a, Complement(p));
    var rest := a[k..];
    var m := RunLength(rest, p);
    assert m < |rest| by {
      assert rest[|rest| - 1] == a[|a| - 1];
    }
    j := k + m;
    assert rest[m..] == a[j..];
    assert a[j..][|a[j..]| - 1] == a[|a| - 1];
    var t := sep + b;
    assert SplitRuns(a + t, p) == [a[..k]] + SplitRuns(a[j..] + t, p) by {
      RunLengthPrefix(a, t, Complement(p));
      ConcatSlices(a, t, k);
      RunLengthPrefix(rest, t, p);
      ConcatSlices(rest, t, m);
    }
    ConcatAssoc(a, sep, b);
    ConcatAssoc(a[j..], sep, b);
  }

  lemma ConcatSlices<T>(x: seq<T>, t: seq<T>, k: nat)
    requires k <= |x|
    ensures (x + t)[..k] == x[..k] && (x + t)[k..] == x[k..] + t
  {
  }

  lemma ConcatAssoc<T>(x: seq<T>, y: seq<T>, z: seq<T>)
    ensures x + y + z == x + (y + z)
  {
  }

  /** The maximal runs of p-characters in s, left to right: what
      `re.findall('[class]+', s)` returns when p is the class. */
  function Runs(s: string, p: char -> bool): (runs: seq<string>)
    ensures forall w :: w in runs ==> w != [] && forall i :: 0 <= i < |w| ==> p(w[i])
    decreases |s|
  {
    if s == [] then []
    else if !p(s[0]) then Runs(s[1..], p)
    else
      var k := RunLength(s, p);
      [s[..k]] + Runs(s[k..], p)
  }

  /** A property every character of s has, every run has throughout. */
  lemma {:induction false} RunsInherit(s: string, p: char -> bool, q: char -> bool)
    requires forall i :: 0 <= i < |s| ==> q(s[i])
    ensures forall w :: w in Runs(s, p) ==> forall i :: 0 <= i < |w| ==> q(w[i])
    decreases |s|
  {
    if s != [] {
      if !p(s[0]) {
        RunsInherit(s[1..], p, q);
      } else {
        var k := RunLength(s, p);
        RunsInherit(s[k..], p, q);
        assert forall i :: 0 <= i < k ==> s[..k][i] == s[i];
      }
    }
  }

  /** The runs are the p-characters of s, in order. */
  lemma {:induction false} RunsConcat(s: string, p: char -> bool)
    ensures Concat(Runs(s, p)) == Filter(s, p)
    decreases |s|
  {
    if s != [] {
      if !p(s[0]) {
        RunsConcat(s[1..], p);
      } else {
        var k := RunLength(s, p);
        assert s == s[..k] + s[k..];
        FilterAll(s[..k], p);
        FilterConcat(s[..k], s[k..], p);
        RunsConcat(s[k..], p);
      }
    }
  }

  /** Without a p-character there are no runs. */
  lemma {:induction false} RunsNone(s: string, p: char -> bool)
    requires forall i :: 0 <= i < |s| ==> !p(s[i])
    ensures Runs(s, p) == []
    decreases |s|
  {
    if s != [] {
      RunsNone(s[1..], p);
    }
  }

  /** A non-empty stretch of p-characters is one run. */
  lemma RunsWhole(w: string, p: char -> bool)
    requires w != [] && forall i :: 0 <= i < |w| ==> p(w[i])
    ensures Runs(w, p) == [w]
  {
    RunLengthIs(w, p, |w|);
    assert w[..|w|] == w && w[|w|..] == [];
  }

  /** A character outside p ends every run: the runs on either side of it
      are found independently. */
  lemma {:induction false} RunsJoin(a: string, c: char, b: string, p: char -> bool)
    requires !p(c)
    ensures Runs(a + [c] + b, p) == Runs(a, p) + Runs(b, p)
    decreases |a|
  {
    var s := a + [c] + b;
    if a == [] {
      assert s[1..] == b;
    } else if !p(a[0]) {
      assert s[0] == a[0] && s[1..] == a[1..] + [c] + b;
      RunsJoin(a[1..], c, b, p);
    } else if RunLength(a, p) == |a| {
      RunsJoinAtEnd(a, c, b, p);
      RunsWhole(a, p);
    } else {
      var k := RunsFirstRun(a, c, b, p);
      RunsJoin(a[k..], c, b, p);
      PrependSplit([a[..k]], Runs(a[k..], p), Runs(b, p), Runs(s, p), Runs(a[k..] + [c] + b, p), Runs(a, p));
    }
  }

  /** A run that ends inside a is the first run of a and of anything a
      starts. */
  lemma RunsFirstRun(a: string, c: char, b: string, p: char -> bool) returns (k: nat)
    requires a != [] && p(a[0]) && RunLength(a, p) < |a|
    ensures k == RunLength(a, p) && 0 < k < |a|
    ensures Runs(a, p) == [a[..k]] + Runs(a[k..], p)
    ensures Runs(a + [c] + b, p) == [a[..k]] + Runs(a[k..] + [c] + b, p)
  {
    k := RunLength(a, p);
    var t := [c] + b;
    ConcatAssoc(a, [c], b);
    RunLengthPrefix(a, t, p);
    ConcatSlices(a, t, k);
    ConcatAssoc(a[k..], [c], b);
    assert (a + t)[0] == a[0];
  }

  lemma RunsJoinAtEnd(a: string, c: char, b: string, p: char -> bool)
    requires !p(c) && a != [] && RunLength(a, p) == |a|
    ensures Runs(a + [c] + b, p) == [a] + Runs(b, p)
  {
    var s := a + [c] + b;
    assert s[|a|] == c;
    assert forall i :: 0 <= i < |a| ==> s[i] == a[i];
    RunLengthIs(s, p, |a|);
    assert s[|a|..] == [c] + b && ([c] + b)[1..] == b;
    assert s[..|a|] == a;
  }

  // ---------------------------------------------------------------------
  // Stripped pieces
  // ---------------------------------------------------------------------

  /** `[s.strip() for s in pieces if s.strip()]` */
  function StripNonBlank(pieces: seq<string>): (r: seq<string>)
    ensures |r| <= |pieces|
    ensures forall i :: 0 <= i < |r| ==> r[i] != [] && !IsSpace(r[i][0]) && !IsSpace(r[i][|r[i]| - 1])
  {
    if pieces == [] then []
    else (if Strip(pieces[0]) != [] then [Strip(pieces[0])] else []) + StripNonBlank(pieces[1..])
  }

  /** The pieces are stripped one by one, so concatenations are kept. */
  lemma {:induction false} StripNonBlankConcat(a: seq<string>, b: seq<string>)
    ensures StripNonBlank(a + b) == StripNonBlank(a) + StripNonBlank(b)
  {
    if a == [] {
      assert a + b == b;
    } else {
      assert (a + b)[1..] == a[1..] + b && (a + b)[0] == a[0];
      StripNonBlankConcat(a[1..], b);
      var first: seq<string> := if Strip(a[0]) != [] then [Strip(a[0])] else [];
      PrependSplit(first, StripNonBlank(a[1..]), StripNonBlank(b),
        StripNonBlank(a + b), StripNonBlank(a[1..] + b), StripNonBlank(a));
    }
  }

  /** A single piece comes back stripped, or not at all when it is blank. */
  lemma StripNonBlankSingle(w: string)
    ensures StripNonBlank([w]) == if Strip(w) == [] then [] else [Strip(w)]
  {
    assert [w][1..] == [];
  }

  /** Stripping loses no character that is never whitespace. */
  lemma {:induction false} TrimStartKeeps(w: string, p: char -> bool)
    requires forall c :: IsSpace(c) ==> !p(c)
    ensures Filter(TrimStart(w), p) == Filter(w, p)
  {
    if w != [] && IsSpace(w[0]) {
      TrimStartKeeps(w[1..], p);
    }
  }

  lemma {:induction false} TrimEndKeeps(w: string, p: char -> bool)
    requires forall c :: IsSpace(c) ==> !p(c)
    ensures Filter(TrimEnd(w), p) == Filter(w, p)
  {
    if w != [] && IsSpace(w[|w| - 1]) {
      var init := w[..|w| - 1];
      TrimEndKeeps(init, p);
      assert w == init + [w[|w| - 1]];
      FilterConcat(init, [w[|w| - 1]], p);
      FilterNone([w[|w| - 1]], p);
    }
  }

  lemma StripKeeps(w: string, p: char -> bool)
    requires forall c :: IsSpace(c) ==> !p(c)
    ensures Filter(Strip(w), p) == Filter(w, p)
  {
    TrimStartKeeps(w, p);
    TrimEndKeeps(TrimStart(w), p);
  }

  lemma {:induction false} StripNonBlankKeeps(pieces: seq<string>, p: char -> bool)
    requires forall c :: IsSpace(c) ==> !p(c)
    ensures Filter(Concat(StripNonBlank(pieces)), p) == Filter(Concat(pieces), p)
  {
    if pieces != [] {
      var w := pieces[0];
      StripNonBlankKeeps(pieces[1..], p);
      StripKeeps(w, p);
      FilterConcat(w, Concat(pieces[1..]), p);
      var rest := StripNonBlank(pieces[1..]);
      if Strip(w) != [] {
        ConcatCons(Strip(w), rest);
        FilterConcat(Strip(w), Concat(rest), p);
      } else {
        assert [] + rest == rest;
      }
    }
  }
}
