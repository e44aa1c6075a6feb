/** The library calls both summarisers rank with: Python's stable
    `sorted(..., key=key, reverse=reverse)` (also `list.sort`), the
    first-occurrence order of `Counter` and `dict` items, and the two ways a
    ranking is cut short, `most_common(n)` and the slice `[:n]`. */
module Ranking {
  import opened TextBasics

  // ---------------------------------------------------------------------
  // Stable sorting
  // ---------------------------------------------------------------------

  /** Whether `sorted(key=key, reverse=reverse)` must put x before y: only a
      strictly better key does, so elements with equal keys keep their order. */
  predicate Precedes<T>(x: T, y: T, key: T -> real, reverse: bool)
  {
    if reverse then key(x) > key(y) else key(x) < key(y)
  }

  /** s is in the order `sorted(key=key, reverse=reverse)` produces. */
  predicate InOrder<T>(s: seq<T>, key: T -> real, reverse: bool)
  {
    forall i, j :: 0 <= i < j < |s| ==> !Precedes(s[j], s[i], key, reverse)
  }

  predicate NoDuplicates<T(==)>(s: seq<T>)
  {
    forall i, j :: 0 <= i < j < |s| ==> s[i] != s[j]
  }

  /** `s.index(x)`, or |s| when x does not occur. */
  function IndexOf<T(==)>(s: seq<T>, x: T): (i: nat)
    ensures i <= |s|
    ensures i < |s| <==> x in s
    ensures i < |s| ==> s[i] == x
    ensures forall j :: 0 <= j < i ==> s[j] != x
  {
    if s == [] then 0 else if s[0] == x then 0 else 1 + IndexOf(s[1..], x)
  }

  /** Every pair of r with equal keys appears in the order of its first
      occurrence in s. */
  predicate StableWrt<T(==)>(s: seq<T>, r: seq<T>, key: T -> real)
  {
    forall i, j :: 0 <= i < j < |r| && key(r[i]) == key(r[j]) ==> IndexOf(s, r[i]) < IndexOf(s, r[j])
  }

  /** Puts x after every element it need not precede. */
  function Insert<T>(x: T, s: seq<T>, key: T -> real, reverse: bool): (r: seq<T>)
    ensures |r| == |s| + 1
    ensures multiset(r) == multiset(s) + multiset{x}
  {
    if s == [] || Precedes(x, s[0], key, reverse) then [x] + s
    else
      assert s == [s[0]] + s[1..];
      [s[0]] + Insert(x, s[1..], key, reverse)
  }

  /** `sorted(s, key=key, reverse=reverse)`: insertion of each element, in
      input order, after all elements it need not precede. */
  function Sorted<T>(s: seq<T>, key: T -> real, reverse: bool): (r: seq<T>)
    ensures |r| == |s|
    ensures multiset(r) == multiset(s)
  {
    if s == [] then []
    else
      assert s == s[..|s| - 1] + [s[|s| - 1]];
      Insert(s[|s| - 1], Sorted(s[..|s| - 1], key, reverse), key, reverse)
  }

  /** Insert places x at a position k, element by element: everything
      before it may stay before x, the element after it must come after x. */
  lemma {:induction false} InsertSplits<T>(x: T, s: seq<T>, key: T -> real, reverse: bool) returns (k: nat)
    ensures k <= |s|
    ensures forall i :: 0 <= i < k ==> Insert(x, s, key, reverse)[i] == s[i] && !Precedes(x, s[i], key, reverse)
    ensures Insert(x, s, key, reverse)[k] == x
    ensures forall i :: k < i <= |s| ==> Insert(x, s, key, reverse)[i] == s[i - 1]
    ensures k < |s| ==> Precedes(x, s[k], key, reverse)
  {
    if s == [] || Precedes(x, s[0], key, reverse) {
      k := 0;
    } else {
      var k' := InsertSplits(x, s[1..], key, reverse);
      k := k' + 1;
      var r, r' := Insert(x, s, key, reverse), Insert(x, s[1..], key, reverse);
      assert r == [s[0]] + r';
      assert forall i :: 0 < i <= |s| ==> r[i] == r'[i - 1];
    }
  }

  /** In an ordered s, x is placed before everything that follows its slot. */
  lemma InsertAt<T>(x: T, s: seq<T>, key: T -> real, reverse: bool) returns (k: nat)
    ensures k <= |s| && |Insert(x, s, key, reverse)| == |s| + 1
    ensures forall i :: 0 <= i < k ==> Insert(x, s, key, reverse)[i] == s[i] && !Precedes(x, s[i], key, reverse)
    ensures Insert(x, s, key, reverse)[k] == x
    ensures forall i :: k < i <= |s| ==> Insert(x, s, key, reverse)[i] == s[i - 1]
    ensures InOrder(s, key, reverse) ==> forall i :: k <= i < |s| ==> Precedes(x, s[i], key, reverse)
  {
    k := InsertSplits(x, s, key, reverse);
    if InOrder(s, key, reverse) {
      forall i | k <= i < |s| ensures Precedes(x, s[i], key, reverse) {
        assert !Precedes(s[i], s[k], key, reverse);
      }
    }
  }

  lemma {:induction false} InsertInOrder<T>(x: T, s: seq<T>, key: T -> real, reverse: bool)
    requires InOrder(s, key, reverse)
    ensures InOrder(Insert(x, s, key, reverse), key, reverse)
  {
    var k := InsertAt(x, s, key, reverse);
    var r := Insert(x, s, key, reverse);
    forall i, j | 0 <= i < j < |r| ensures !Precedes(r[j], r[i], key, reverse) {
      if j < k {
        assert r[i] == s[i] && r[j] == s[j];
      } else if j == k {
        assert r[i] == s[i] && r[j] == x;
      } else if i < k {
        assert r[i] == s[i] && r[j] == s[j - 1];
      } else if i == k {
        assert r[i] == x && r[j] == s[j - 1];
      } else {
        assert r[i] == s[i - 1] && r[j] == s[j - 1];
      }
    }
  }

  /** The result of `sorted` is in order. */
  lemma {:induction false} SortedInOrder<T>(s: seq<T>, key: T -> real, reverse: bool)
    ensures InOrder(Sorted(s, key, reverse), key, reverse)
  {
    if s != [] {
      SortedInOrder(s[..|s| - 1], key, reverse);
      InsertInOrder(s[|s| - 1], Sorted(s[..|s| - 1], key, reverse), key, reverse);
    }
  }

  lemma {:induction false} IndexOfConcat<T>(a: seq<T>, b: seq<T>, x: T)
    ensures IndexOf(a + b, x) == if x in a then IndexOf(a, x) else |a| + IndexOf(b, x)
  {
    if a == [] {
      assert a + b == b;
    } else {
      assert (a + b)[1..] == a[1..] + b;
      IndexOfConcat(a[1..], b, x);
    }
  }

  /** Appending x leaves the positions of the earlier elements alone. */
  lemma IndexOfAppended<T>(init: seq<T>, x: T, t: seq<T>)
    requires multiset(t) == multiset(init) && x !in init
    ensures IndexOf(init + [x], x) == |init|
    ensures forall i :: 0 <= i < |t| ==> IndexOf(init + [x], t[i]) == IndexOf(init, t[i]) < |init|
  {
    IndexOfConcat(init, [x], x);
    forall i | 0 <= i < |t| ensures IndexOf(init + [x], t[i]) == IndexOf(init, t[i]) < |init| {
      assert t[i] in multiset(t);
      IndexOfConcat(init, [x], t[i]);
    }
  }

  /** Inserting a new last element keeps a stable ordering stable. */
  lemma {:induction false} InsertKeepsStable<T>(init: seq<T>, x: T, t: seq<T>, key: T -> real, reverse: bool)
    requires multiset(t) == multiset(init) && x !in init
    requires InOrder(t, key, reverse) && StableWrt(init, t, key)
    ensures StableWrt(init + [x], Insert(x, t, key, reverse), key)
  {
    var s := init + [x];
    var k := InsertAt(x, t, key, reverse);
    var r := Insert(x, t, key, reverse);
    IndexOfAppended(init, x, t);
    // Nothing before x's slot ties with anything after it.
    forall i, j | 0 <= i <= k < j < |r| ensures key(r[i]) != key(r[j]) {
      assert Precedes(x, t[j - 1], key, reverse);
      if i < k {
        assert r[i] == t[i] && !Precedes(x, t[i], key, reverse);
      }
    }
    forall i, j | 0 <= i < j < |r| && key(r[i]) == key(r[j]) ensures IndexOf(s, r[i]) < IndexOf(s, r[j]) {
      if j < k {
        assert r[i] == t[i] && r[j] == t[j];
      } else if j == k {
        assert r[i] == t[i] && r[j] == x;
      } else if i > k {
        assert r[i] == t[i - 1] && r[j] == t[j - 1];
      }
    }
  }

  /** `sorted` is stable: on a sequence without repeated elements, elements
      with equal keys keep their input order. */
  lemma {:induction false} SortedIsStable<T>(s: seq<T>, key: T -> real, reverse: bool)
    requires NoDuplicates(s)
    ensures StableWrt(s, Sorted(s, key, reverse), key)
  {
    if s != [] {
      var init, x := s[..|s| - 1], s[|s| - 1];
      assert s == init + [x];
      assert NoDuplicates(init);
      SortedIsStable(init, key, reverse);
      SortedInOrder(init, key, reverse);
      InsertKeepsStable(init, x, Sorted(init, key, reverse), key, reverse);
    }
  }

  /** In a sequence ordered by descending key, every element of the head
      has a key at least that of every element of the tail. */
  lemma HeadOutranksTail<T>(r: seq<T>, key: T -> real, count: nat)
    requires count <= |r| && InOrder(r, key, true)
    ensures forall p, q :: p in multiset(r[..count]) && q in multiset(r[count..]) ==> key(p) >= key(q)
  {
    forall p, q | p in multiset(r[..count]) && q in multiset(r[count..]) ensures key(p) >= key(q) {
      var i :| 0 <= i < count && r[..count][i] == p;
      var j :| 0 <= j < |r| - count && r[count..][j] == q;
      assert r[i] == p && r[count + j] == q;
      assert !Precedes(r[count + j], r[i], key, true);
    }
  }

  /** A multiset of the head of a ranking and one of what is left over. */
  lemma RankingHeadMultisets<T>(s: seq<T>, key: T -> real, count: nat)
    requires count <= |s|
    ensures multiset(Sorted(s, key, true)[..count]) <= multiset(s)
    ensures multiset(s) - multiset(Sorted(s, key, true)[..count]) == multiset(Sorted(s, key, true)[count..])
  {
    HeadTailMultisets(Sorted(s, key, true), count);
  }

  /** Cutting a sequence in two splits its multiset. */
  lemma HeadTailMultisets<T>(r: seq<T>, count: nat)
    requires count <= |r|
    ensures multiset(r[..count]) + multiset(r[count..]) == multiset(r)
  {
    assert r == r[..count] + r[count..];
  }

  /** Keeping the first count entries of a ranking keeps the best: each one
      kept has a key at least that of each one dropped. */
  lemma RankingHeadIsTop<T>(s: seq<T>, key: T -> real, count: nat)
    requires count <= |s|
    ensures forall p, q :: (p in multiset(Sorted(s, key, true)[..count]) &&
      q in multiset(s) - multiset(Sorted(s, key, true)[..count])) ==> key(p) >= key(q)
  {
    RankingHeadMultisets(s, key, count);
    SortedInOrder(s, key, true);
    HeadOutranksTail(Sorted(s, key, true), key, count);
  }


  /** The elements whose key is v. */
  function KeyIs<T>(key: T -> real, v: real): T -> bool
  {
    x => key(x) == v
  }

  /** Insert splices x into s at a position after which, in an ordered s,
      every element has a worse key than x. */
  lemma InsertSplice<T>(x: T, s: seq<T>, key: T -> real, reverse: bool) returns (k: nat)
    ensures k <= |s| && Insert(x, s, key, reverse) == s[..k] + [x] + s[k..]
    ensures InOrder(s, key, reverse) ==> forall i :: k <= i < |s| ==> Precedes(x, s[i], key, reverse)
  {
    k := InsertAt(x, s, key, reverse);
    var r := Insert(x, s, key, reverse);
    var spliced := s[..k] + [x] + s[k..];
    assert |r| == |spliced|;
    forall i | 0 <= i < |r| ensures r[i] == spliced[i] {
      if i < k {
        assert spliced[i] == s[i];
      } else if i > k {
        assert spliced[i] == s[i - 1];
      }
    }
  }

  /** Inserting x into an ordered sequence places it after every element
      with its key. */
  lemma InsertTies<T>(x: T, t: seq<T>, key: T -> real, reverse: bool, v: real)
    requires InOrder(t, key, reverse)
    ensures Filter(Insert(x, t, key, reverse), KeyIs(key, v)) == Filter(t, KeyIs(key, v)) + Filter([x], KeyIs(key, v))
  {
    var eq := KeyIs(key, v);
    var k := InsertSplice(x, t, key, reverse);
    var before, after := t[..k], t[k..];
    assert t == before + after;
    assert forall i :: 0 <= i < |after| ==> Precedes(x, after[i], key, reverse) by {
      forall i | 0 <= i < |after| ensures Precedes(x, after[i], key, reverse) {
        assert after[i] == t[k + i];
      }
    }
    NoTieAfter(x, after, key, reverse, v);
    FilterSpliceTies(before, x, after, eq);
  }

  lemma NoTieAfter<T>(x: T, after: seq<T>, key: T -> real, reverse: bool, v: real)
    requires forall i :: 0 <= i < |after| ==> Precedes(x, after[i], key, reverse)
    ensures forall i :: 0 <= i < |after| && KeyIs(key, v)(x) ==> !KeyIs(key, v)(after[i])
  {
  }

  /** x goes into the filtered sequence last when nothing after it passes
      the filter with it. */
  lemma FilterSpliceTies<T>(before: seq<T>, x: T, after: seq<T>, p: T -> bool)
    requires forall i :: 0 <= i < |after| && p(x) ==> !p(after[i])
    ensures Filter(before + [x] + after, p) == Filter(before + after, p) + Filter([x], p)
  {
    FilterSplice(before, x, after, p);
    FilterConcat(before, after, p);
    if p(x) {
      FilterNone(after, p);
      DropEmpty(Filter(before, p), Filter([x], p), Filter(after, p));
    } else {
      FilterNone([x], p);
      DropEmpty(Filter(before, p), Filter(after, p), Filter([x], p));
    }
  }

  lemma DropEmpty<T>(a: seq<T>, b: seq<T>, c: seq<T>)
    requires c == []
    ensures a + b + c == a + c + b && a + c + b == a + b
  {
  }

  lemma FilterSplice<T>(a: seq<T>, x: T, b: seq<T>, p: T -> bool)
    ensures Filter(a + [x] + b, p) == Filter(a, p) + Filter([x], p) + Filter(b, p)
  {
    FilterConcat(a + [x], b, p);
    FilterConcat(a, [x], p);
  }

  lemma FilterSplitAt<T>(s: seq<T>, k: nat, p: T -> bool)
    requires k <= |s|
    ensures Filter(s, p) == Filter(s[..k], p) + Filter(s[k..], p)
  {
    assert s == s[..k] + s[k..];
    FilterConcat(s[..k], s[k..], p);
  }

  /** `sorted` is stable: the elements with any one key come out in the
      order they went in, repeated elements included. */
  lemma {:induction false} SortedTies<T>(s: seq<T>, key: T -> real, reverse: bool, v: real)
    ensures Filter(Sorted(s, key, reverse), KeyIs(key, v)) == Filter(s, KeyIs(key, v))
  {
    if s != [] {
      var init, x := s[..|s| - 1], s[|s| - 1];
      assert s == init + [x];
      SortedTies(init, key, reverse, v);
      SortedInOrder(init, key, reverse);
      InsertTies(x, Sorted(init, key, reverse), key, reverse, v);
      FilterConcat(init, [x], KeyIs(key, v));
    }
  }

  /** Cutting a ranking short keeps, among the elements with any one key,
      the earliest ones of s. */
  lemma RankingHeadTies<T>(s: seq<T>, key: T -> real, count: nat, v: real)
    requires count <= |s|
    ensures Filter(Sorted(s, key, true)[..count], KeyIs(key, v)) <= Filter(s, KeyIs(key, v))
  {
    FilterSplitAt(Sorted(s, key, true), count, KeyIs(key, v));
    SortedTies(s, key, true, v);
  }

  /** a holds, in some order, exactly the first |a| items of b. */
  ghost predicate LeadingItems<T>(a: seq<T>, b: seq<T>)
  {
    |a| <= |b| && multiset(a) == multiset(b[..|a|])
  }

  /** Permuting a list permutes each of its filtered parts. */
  lemma {:induction false} FilterPermutation<T>(a: seq<T>, b: seq<T>, p: T -> bool)
    requires multiset(a) == multiset(b)
    ensures multiset(Filter(a, p)) == multiset(Filter(b, p))
  {
    if a != [] {
      var x := a[0];
      assert x in multiset(b);
      var i :| 0 <= i < |b| && b[i] == x;
      var rest := b[..i] + b[i + 1..];
      RemoveOne(a, b, i);
      FilterPermutation(a[1..], rest, p);
      FilterMoveToFront(b[..i], x, b[i + 1..], a[1..], p);
      assert a == [x] + a[1..];
    }
  }

  lemma FilterMoveToFront<T>(before: seq<T>, x: T, after: seq<T>, tail: seq<T>, p: T -> bool)
    requires multiset(Filter(tail, p)) == multiset(Filter(before + after, p))
    ensures multiset(Filter([x] + tail, p)) == multiset(Filter(before + [x] + after, p))
  {
    FilterSplice(before, x, after, p);
    FilterConcat(before, after, p);
    FilterConcat([x], tail, p);
    MoveToFront(Filter([x], p), Filter(tail, p), Filter(before, p), Filter(after, p));
  }

  lemma MoveToFront<T>(x: seq<T>, tail: seq<T>, before: seq<T>, after: seq<T>)
    requires multiset(tail) == multiset(before + after)
    ensures multiset(x + tail) == multiset(before + x + after)
  {
  }

  lemma RemoveOne<T>(a: seq<T>, b: seq<T>, i: nat)
    requires multiset(a) == multiset(b) && a != [] && i < |b| && b[i] == a[0]
    ensures b == b[..i] + [b[i]] + b[i + 1..]
    ensures multiset(a[1..]) == multiset(b[..i] + b[i + 1..])
  {
    assert b == b[..i] + [b[i]] + b[i + 1..];
    assert a == [a[0]] + a[1..];
    assert multiset(a) == multiset{a[0]} + multiset(a[1..]);
    assert multiset(a[1..]) == multiset(a) - multiset{a[0]};
  }

  /** Filtering keeps the order of first occurrences of what it keeps. */
  lemma {:induction false} IndexOfFilter<T>(s: seq<T>, p: T -> bool, x: T, y: T)
    requires x in s && p(x) && p(y)
    requires IndexOf(Filter(s, p), x) < IndexOf(Filter(s, p), y)
    ensures IndexOf(s, x) < IndexOf(s, y)
  {
    if s[0] != x && s[0] != y {
      var h: seq<T> := if p(s[0]) then [s[0]] else [];
      var rest := Filter(s[1..], p);
      assert Filter(s, p) == h + rest;
      IndexOfConcat(h, rest, x);
      IndexOfConcat(h, rest, y);
      IndexOfFilter(s[1..], p, x, y);
    }
  }

  /** Among equal keys the head of a ranking keeps the earliest: an element
      kept comes earlier in s than any element with its key that was left
      out altogether. */
  lemma RankingHeadKeepsEarliestTies<T>(s: seq<T>, key: T -> real, count: nat, x: T, y: T)
    requires count <= |s|
    requires x in Sorted(s, key, true)[..count] && y in s && y !in Sorted(s, key, true)[..count]
    requires key(x) == key(y)
    ensures IndexOf(s, x) < IndexOf(s, y)
  {
    var eq := KeyIs(key, key(x));
    var head := Sorted(s, key, true)[..count];
    RankingHeadTies(s, key, count, key(x));
    FilterHas(head, eq, x);
    FilterMembers(head, eq);
    PrefixIndexOrder(Filter(head, eq), Filter(s, eq), x, y);
    RankingHeadMember(s, key, count, x);
    IndexOfFilter(s, eq, x, y);
  }

  lemma RankingHeadMember<T>(s: seq<T>, key: T -> real, count: nat, x: T)
    requires count <= |s| && x in Sorted(s, key, true)[..count]
    ensures x in s
  {
    assert x in multiset(Sorted(s, key, true));
  }

  /** What a prefix holds comes before what it leaves out. */
  lemma PrefixIndexOrder<T>(prefix: seq<T>, s: seq<T>, x: T, y: T)
    requires prefix <= s && x in prefix && y !in prefix
    ensures IndexOf(s, x) < IndexOf(s, y)
  {
    var i := IndexOf(prefix, x);
    assert s[i] == x;
    forall j | 0 <= j < |prefix| ensures s[j] != y {
      assert s[j] == prefix[j];
    }
  }

  // ---------------------------------------------------------------------
  // Distinct elements in first-occurrence order (Counter and dict items)
  // ---------------------------------------------------------------------

  /** The distinct elements of s in order of first occurrence: the keys of
      `Counter(s)`, which a dict keeps in insertion order. */
  function Distinct<T(==)>(s: seq<T>): (d: seq<T>)
    ensures forall i :: 0 <= i < |d| ==> d[i] in s
    ensures NoDuplicates(d)
  {
    if s == [] then []
    else
      var init := Distinct(s[..|s| - 1]);
      assert s == s[..|s| - 1] + [s[|s| - 1]];
      if s[|s| - 1] in init then init else init + [s[|s| - 1]]
  }

  /** Distinct lists exactly the elements of s. */
  lemma {:induction false} DistinctMembers<T>(s: seq<T>, x: T)
    ensures x in Distinct(s) <==> x in s
  {
    if s != [] {
      var init := s[..|s| - 1];
      assert s == init + [s[|s| - 1]];
      DistinctMembers(init, x);
    }
  }

  /** Distinct lists each element in the order it is first met in s. */
  lemma {:induction false} DistinctFirstOccurrenceOrder<T>(s: seq<T>)
    ensures forall i, j :: 0 <= i < j < |Distinct(s)| ==> IndexOf(s, Distinct(s)[i]) < IndexOf(s, Distinct(s)[j])
  {
    if s != [] {
      var init, x := s[..|s| - 1], s[|s| - 1];
      assert s == init + [x];
      DistinctFirstOccurrenceOrder(init);
      var d := Distinct(s);
      var dInit := Distinct(init);
      forall y | y in init ensures IndexOf(s, y) == IndexOf(init, y) {
        IndexOfConcat(init, [x], y);
      }
      DistinctMembers(init, x);
      if x !in dInit {
        IndexOfConcat(init, [x], x);
        assert d == dInit + [x];
        forall i, j | 0 <= i < j < |d| ensures IndexOf(s, d[i]) < IndexOf(s, d[j]) {
          assert d[i] == dInit[i] && d[i] in init;
          if j < |dInit| {
            assert d[j] == dInit[j];
          }
        }
      }
    }
  }

  /** Each distinct element of s, in first-occurrence order, paired with
      f of it: the items of a dict built by iterating over s. */
  function Tabulate<T(==), V>(s: seq<T>, f: T -> V): (table: seq<(T, V)>)
    ensures |table| == |Distinct(s)|
    ensures forall i :: 0 <= i < |table| ==> table[i] == (Distinct(s)[i], f(Distinct(s)[i]))
  {
    var d := Distinct(s);
    seq(|d|, i requires 0 <= i < |d| => (d[i], f(d[i])))
  }

  lemma {:induction false} NoDuplicatesByMultiplicity<T>(s: seq<T>)
    ensures NoDuplicates(s) <==> forall x :: multiset(s)[x] <= 1
  {
    if s != [] {
      var t := s[1..];
      assert s == [s[0]] + t;
      NoDuplicatesByMultiplicity(t);
      if NoDuplicates(s) {
        assert NoDuplicates(t);
        assert s[0] !in t;
      }
      if forall x :: multiset(s)[x] <= 1 {
        assert forall x :: multiset(t)[x] <= multiset(s)[x];
        assert multiset(t)[s[0]] == 0;
        forall i, j | 0 <= i < j < |s| ensures s[i] != s[j] {
          if i > 0 {
            assert s[i] == t[i - 1] && s[j] == t[j - 1];
          } else {
            assert s[j] in t;
          }
        }
      }
    }
  }

  /** The table holds exactly the pairs (k, f(k)) of the keys occurring in s. */
  lemma TabulateMembers<T, V>(s: seq<T>, f: T -> V, k: T, v: V)
    ensures (k, v) in Tabulate(s, f) <==> k in s && v == f(k)
  {
    var d := Distinct(s);
    DistinctMembers(s, k);
    if k in d {
      var i :| 0 <= i < |d| && d[i] == k;
      assert Tabulate(s, f)[i] == (k, f(k));
    }
  }

  /** The items of a dict have distinct keys, so no item repeats. */
  lemma TabulateNoDuplicates<T, V>(s: seq<T>, f: T -> V)
    ensures NoDuplicates(Tabulate(s, f))
  {
    var d := Distinct(s);
    var table := Tabulate(s, f);
    forall i, j | 0 <= i < j < |table| ensures table[i] != table[j] {
      assert table[i].0 == d[i] && table[j].0 == d[j];
    }
  }

  /** Every entry of a ranking of the items is an item: a key met in s with
      its own value. */
  lemma RankedEntries<T, V>(s: seq<T>, f: T -> V, key: ((T, V)) -> real)
    ensures forall e :: e in Sorted(Tabulate(s, f), key, true) ==> e.0 in s && e.1 == f(e.0)
  {
    var table := Tabulate(s, f);
    forall e | e in Sorted(table, key, true) ensures e.0 in s && e.1 == f(e.0) {
      assert e in multiset(Sorted(table, key, true));
      var i := IndexOf(table, e);
      assert table[i] == (Distinct(s)[i], f(Distinct(s)[i]));
    }
  }

  /** A ranking of the items repeats no key. */
  lemma RankedKeysDistinct<T, V>(s: seq<T>, f: T -> V, key: ((T, V)) -> real)
    ensures forall i, j :: 0 <= i < j < |Sorted(Tabulate(s, f), key, true)| ==>
      Sorted(Tabulate(s, f), key, true)[i].0 != Sorted(Tabulate(s, f), key, true)[j].0
  {
    var table := Tabulate(s, f);
    var sorted := Sorted(table, key, true);
    TabulateNoDuplicates(s, f);
    NoDuplicatesByMultiplicity(table);
    NoDuplicatesByMultiplicity(sorted);
    RankedEntries(s, f, key);
    forall i, j | 0 <= i < j < |sorted| ensures sorted[i].0 != sorted[j].0 {
      assert sorted[i] in sorted && sorted[j] in sorted;
    }
  }

  /** A ranking of the items breaks ties by the order keys were first met in s. */
  lemma RankedTiesByFirstOccurrence<T, V>(s: seq<T>, f: T -> V, key: ((T, V)) -> real)
    ensures forall i, j ::
      (0 <= i < j < |Sorted(Tabulate(s, f), key, true)| &&
       key(Sorted(Tabulate(s, f), key, true)[i]) == key(Sorted(Tabulate(s, f), key, true)[j])) ==>
      IndexOf(s, Sorted(Tabulate(s, f), key, true)[i].0) < IndexOf(s, Sorted(Tabulate(s, f), key, true)[j].0)
  {
    var table := Tabulate(s, f);
    TabulateNoDuplicates(s, f);
    SortedIsStable(table, key, true);
    DistinctFirstOccurrenceOrder(s);
    StableTiesFollowFirstOccurrence(s, Distinct(s), table, Sorted(table, key, true), key);
  }

  /** A stable reordering of a table whose rows follow the first occurrences
      of their keys in s leaves tied rows in that order too. */
  lemma StableTiesFollowFirstOccurrence<T, V>(s: seq<T>, d: seq<T>, table: seq<(T, V)>, sorted: seq<(T, V)>, key: ((T, V)) -> real)
    requires |table| == |d| && forall i :: 0 <= i < |table| ==> table[i].0 == d[i]
    requires forall i, j :: 0 <= i < j < |d| ==> IndexOf(s, d[i]) < IndexOf(s, d[j])
    requires multiset(sorted) == multiset(table) && StableWrt(table, sorted, key)
    ensures forall i, j :: 0 <= i < j < |sorted| && key(sorted[i]) == key(sorted[j]) ==>
      IndexOf(s, sorted[i].0) < IndexOf(s, sorted[j].0)
  {
    forall i, j | 0 <= i < j < |sorted| && key(sorted[i]) == key(sorted[j])
      ensures IndexOf(s, sorted[i].0) < IndexOf(s, sorted[j].0)
    {
      assert sorted[i] in multiset(sorted) && sorted[j] in multiset(sorted);
      var a, b := IndexOf(table, sorted[i]), IndexOf(table, sorted[j]);
      assert a < b;
      assert sorted[i].0 == d[a] && sorted[j].0 == d[b];
    }
  }


  /** A ranking of a dict's items has no repeated key, keeps every item's
      value, is ordered by the key function, and breaks ties by the order in
      which keys were first met. Any prefix of it inherits all of that. */
  lemma RankedPrefix<T, V>(s: seq<T>, f: T -> V, key: ((T, V)) -> real, r: seq<(T, V)>)
    requires r <= Sorted(Tabulate(s, f), key, true)
    ensures |r| <= |Distinct(s)|
    ensures forall i :: 0 <= i < |r| ==> r[i].0 in s && r[i].1 == f(r[i].0)
    ensures forall i, j :: 0 <= i < j < |r| ==> r[i].0 != r[j].0
    ensures forall i, j :: 0 <= i < j < |r| ==> key(r[i]) >= key(r[j])
    ensures forall i, j :: 0 <= i < j < |r| && key(r[i]) == key(r[j]) ==> IndexOf(s, r[i].0) < IndexOf(s, r[j].0)
  {
    var sorted := Sorted(Tabulate(s, f), key, true);
    SortedInOrder(Tabulate(s, f), key, true);
    RankedEntries(s, f, key);
    RankedKeysDistinct(s, f, key);
    RankedTiesByFirstOccurrence(s, f, key);
    assert forall i :: 0 <= i < |r| ==> r[i] == sorted[i] && sorted[i] in sorted;
  }

  /** A prefix of the ranking keeps the best items: an item left out has a
      key no greater than any item kept. */
  lemma RankedPrefixTop<T, V>(s: seq<T>, f: T -> V, key: ((T, V)) -> real, r: seq<(T, V)>, x: T)
    requires r <= Sorted(Tabulate(s, f), key, true)
    requires x in s
    requires forall i :: 0 <= i < |r| ==> r[i].0 != x
    ensures forall i :: 0 <= i < |r| ==> key((x, f(x))) <= key(r[i])
  {
    var d := Distinct(s);
    var table := Tabulate(s, f);
    var sorted := Sorted(table, key, true);
    SortedInOrder(table, key, true);
    DistinctMembers(s, x);
    var a := IndexOf(d, x);
    assert table[a] == (x, f(x));
    assert (x, f(x)) in multiset(sorted);
    forall i | 0 <= i < |r| ensures sorted[i] != (x, f(x)) {
      assert r[i] == sorted[i];
    }
    var j := IndexOf(sorted, (x, f(x)));
    forall i | 0 <= i < |r| ensures key((x, f(x))) <= key(r[i]) {
      assert r[i] == sorted[i] && !Precedes(sorted[j], sorted[i], key, true);
    }
  }

  // ---------------------------------------------------------------------
  // Cutting a ranking short
  // ---------------------------------------------------------------------

  /** How `Counter.most_common(n)` cuts the ranking: the first n entries, and
      none at all when n <= 0 (what `heapq.nlargest` returns then). */
  function MostCommonPrefix<T>(s: seq<T>, n: int): (r: seq<T>)
    ensures r <= s
    ensures |r| == if n <= 0 then 0 else Min(n, |s|)
  {
    if n <= 0 then [] else if n < |s| then s[..n] else s
  }

  /** Python's slice `s[:n]`, where a negative n drops -n elements from the end. */
  function SlicePrefix<T>(s: seq<T>, n: int): (r: seq<T>)
    ensures r <= s
    ensures |r| == if n >= 0 then Min(n, |s|) else if |s| + n >= 0 then |s| + n else 0
  {
    if n >= 0 then (if n < |s| then s[..n] else s)
    else if |s| + n >= 0 then s[..|s| + n]
    else []
  }
}
