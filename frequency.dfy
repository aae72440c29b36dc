/** Counting, modes and extremes of one column, as pandas computes them. */
module Frequency {
  import opened Wrappers

  /** `(column == x).sum()`: the number of positions holding `x`, which is
      its multiplicity in the column. */
  function Count<T(==)>(s: seq<T>, x: T): (c: nat)
    ensures c == multiset(s)[x]
  {
    if s == [] then 0
    else
      assert s == [s[0]] + s[1..];
      (if s[0] == x then 1 else 0) + Count(s[1..], x)
  }

  /** `x` occurs in `s` and no value occurs more often. */
  ghost predicate IsMode<T>(s: seq<T>, x: T) {
    x in s && forall y :: y in s ==> multiset(s)[y] <= multiset(s)[x]
  }

  /** A mode that is the smallest of all values sharing its frequency. */
  ghost predicate IsSmallestMode(s: seq<int>, x: int) {
    IsMode(s, x) && forall y :: y in s && multiset(s)[y] == multiset(s)[x] ==> x <= y
  }

  function SmallestModeAmong(s: seq<int>, candidates: seq<int>): (m: int)
    requires candidates != []
    ensures m in candidates
    ensures forall y :: y in candidates ==>
      multiset(s)[y] < multiset(s)[m] || (multiset(s)[y] == multiset(s)[m] && m <= y)
    decreases |candidates|
  {
    if |candidates| == 1 then candidates[0]
    else
      var c := candidates[0];
      var rest := SmallestModeAmong(s, candidates[1..]);
      assert forall y :: y in candidates ==> y == c || y in candidates[1..];
      if Count(s, c) > Count(s, rest) || (Count(s, c) == Count(s, rest) && c < rest) then c
      else rest
  }

  /** `column.mode()[0]`: `mode()` lists the most frequent values in ascending
      order, so element 0 is the smallest of them; on an empty column there is
      no element 0 and pandas raises, which is `None` here. */
  function SmallestMode(s: seq<int>): (r: Option<int>)
    ensures r.None? <==> s == []
    ensures r.Some? ==> IsSmallestMode(s, r.value)
  {
    if s == [] then None else Some(SmallestModeAmong(s, s))
  }

  function MostCommonAmong<T(==)>(s: seq<T>, candidates: seq<T>): (m: T)
    requires candidates != []
    ensures m in candidates
    ensures forall y :: y in candidates ==> multiset(s)[y] <= multiset(s)[m]
    decreases |candidates|
  {
    if |candidates| == 1 then candidates[0]
    else
      var c := candidates[0];
      var rest := MostCommonAmong(s, candidates[1..]);
      assert forall y :: y in candidates ==> y == c || y in candidates[1..];
      if Count(s, c) >= Count(s, rest) then c else rest
  }

  /** `column.value_counts().idxmax()`: a value of highest count; pandas raises
      on an empty column, which is `None` here. */
  function MostCommon<T(==)>(s: seq<T>): (r: Option<T>)
    ensures r.None? <==> s == []
    ensures r.Some? ==> IsMode(s, r.value)
  {
    if s == [] then None else Some(MostCommonAmong(s, s))
  }

  /** `column.min()` of a non-empty column. */
  function Min(s: seq<int>): (m: int)
    requires s != []
    ensures m in s && forall y :: y in s ==> m <= y
  {
    if |s| == 1 then s[0]
    else
      var rest := Min(s[1..]);
      assert forall y :: y in s ==> y == s[0] || y in s[1..];
      if s[0] <= rest then s[0] else rest
  }

  /** `column.max()` of a non-empty column. */
  function Max(s: seq<int>): (m: int)
    requires s != []
    ensures m in s && forall y :: y in s ==> y <= m
  {
    if |s| == 1 then s[0]
    else
      var rest := Max(s[1..]);
      assert forall y :: y in s ==> y == s[0] || y in s[1..];
      if s[0] >= rest then s[0] else rest
  }

  /** Two distinct labels are counted at most once per position together, and
      fill the column exactly when no other label occurs. */
  lemma {:induction false} TwoLabelCounts<T>(s: seq<T>, a: T, b: T)
    requires a != b
    ensures Count(s, a) + Count(s, b) <= |s|
    ensures Count(s, a) + Count(s, b) == |s| <==> forall x :: x in s ==> x == a || x == b
  {
    if s != [] {
      var tail := s[1..];
      TwoLabelCounts(tail, a, b);
      assert Count(s, a) + Count(s, b) ==
        (if s[0] == a || s[0] == b then 1 else 0) + Count(tail, a) + Count(tail, b);
      assert forall x :: x in s <==> x == s[0] || x in tail;
      if Count(s, a) + Count(s, b) == |s| {
        assert s[0] == a || s[0] == b;
        assert Count(tail, a) + Count(tail, b) == |tail|;
      }
      if forall x :: x in s ==> x == a || x == b {
        assert s[0] in s;
        assert forall x :: x in tail ==> x == a || x == b;
      }
    }
  }
}
