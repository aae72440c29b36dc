/** One bike-share trip as the analysis sees it after loading: the fields that
    `load_data` and the statistics functions read, with the month, weekday and
    start hour already derived from the start time. */
module Trips {
  import opened Wrappers

  datatype Trip = Trip(
    month: int,             // 1..12, `Start Time`.dt.month
    weekday: int,           // 0..6, Monday is 0, `Start Time`.dt.weekday
    hour: int,              // 0..23, `Start Time`.dt.hour
    startStation: string,
    endStation: string,
    duration: real,         // `Trip Duration`, in seconds
    userType: string,
    gender: Option<string>, // absent in a file without the column, or a missing cell
    birthYear: Option<int>) // likewise

  /** The ranges the timestamp library guarantees for the derived fields. */
  predicate WellFormed(r: Trip) {
    1 <= r.month <= 12 && 0 <= r.weekday <= 6 && 0 <= r.hour <= 23
  }

  /** `a` is `b` with some elements left out and the rest in their order. */
  predicate Subseq<T(==)>(a: seq<T>, b: seq<T>)
    decreases |b|
  {
    if b == [] then a == []
    else (a != [] && a[0] == b[0] && Subseq(a[1..], b[1..])) || Subseq(a, b[1..])
  }

  /** Boolean-mask selection `df[mask]`: the records for which `keep` holds, in
      their original order and with their multiplicities. */
  function Where(rs: seq<Trip>, keep: Trip -> bool): (out: seq<Trip>)
    ensures |out| <= |rs|
    ensures Subseq(out, rs)
    ensures forall r :: multiset(out)[r] == if keep(r) then multiset(rs)[r] else 0
  {
    if rs == [] then []
    else
      var rest := Where(rs[1..], keep);
      assert rs == [rs[0]] + rs[1..];
      if keep(rs[0]) then
        assert ([rs[0]] + rest)[1..] == rest;
        [rs[0]] + rest
      else rest
  }

  /** A record is selected exactly when it was there and `keep` holds. */
  lemma WhereMembers(rs: seq<Trip>, keep: Trip -> bool, r: Trip)
    ensures r in Where(rs, keep) <==> r in rs && keep(r)
  {
    var out := Where(rs, keep);
    assert r in out <==> multiset(out)[r] > 0;
    assert r in rs <==> multiset(rs)[r] > 0;
  }

  /** Selecting everything changes nothing. */
  lemma {:induction false} WhereAll(rs: seq<Trip>, keep: Trip -> bool)
    requires forall r :: keep(r)
    ensures Where(rs, keep) == rs
  {
    if rs != [] {
      WhereAll(rs[1..], keep);
    }
  }

  /** Two selections in a row are one selection by the conjunction. */
  lemma {:induction false} WhereWhere(rs: seq<Trip>, p: Trip -> bool, q: Trip -> bool, both: Trip -> bool)
    requires forall r :: both(r) == (p(r) && q(r))
    ensures Where(Where(rs, p), q) == Where(rs, both)
  {
    if rs != [] {
      WhereWhere(rs[1..], p, q, both);
      if p(rs[0]) {
        assert Where(rs, p)[1..] == Where(rs[1..], p);
      }
    }
  }

  /** A column of the table: one value per record, in record order. */
  function Column<U>(rs: seq<Trip>, f: Trip -> U): seq<U> {
    seq(|rs|, i requires 0 <= i < |rs| => f(rs[i]))
  }

  lemma ColumnCons<U>(rs: seq<Trip>, f: Trip -> U)
    requires rs != []
    ensures Column(rs, f) == [f(rs[0])] + Column(rs[1..], f)
  {
  }

  /** Every value of a column comes from some record. */
  lemma ColumnMember<U>(rs: seq<Trip>, f: Trip -> U, x: U) returns (r: Trip)
    requires x in Column(rs, f)
    ensures r in rs && f(r) == x
  {
    var i :| 0 <= i < |rs| && Column(rs, f)[i] == x;
    r := rs[i];
  }
}
