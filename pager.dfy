/** `raw_data` (the definition at line 256, which replaces the one above it):
    a cursor over the filtered rows that starts at row 1 and shows the next
    five rows each time the user answers "yes". */
module Pager {
  import opened Text
  import opened Trips

  const PageSize: nat := 5

  function Clamp(i: nat, n: nat): nat {
    if i <= n then i else n
  }

  /** `df[i:i+5]`: the rows at positions i..i+5, cut short at the end of the
      data, and empty past it. */
  function Window(rows: seq<Trip>, i: nat): (w: seq<Trip>)
    ensures |w| <= PageSize
    ensures i + PageSize <= |rows| ==> |w| == PageSize
    ensures i < |rows| < i + PageSize ==> |w| == |rows| - i
    ensures |rows| <= i ==> w == []
    ensures forall k :: 0 <= k < |w| ==> i + k < |rows| && w[k] == rows[i + k]
  {
    rows[Clamp(i, |rows|)..Clamp(i + PageSize, |rows|)]
  }

  /** The windows the first k answers "yes" show, in order. */
  function Pages(rows: seq<Trip>, k: nat): seq<seq<Trip>> {
    seq(k, j requires 0 <= j < k => Window(rows, 1 + PageSize * j))
  }

  function Concat(ws: seq<seq<Trip>>): seq<Trip> {
    if ws == [] then [] else Concat(ws[..|ws| - 1]) + ws[|ws| - 1]
  }

  /** Together the first k windows are exactly the rows from position 1 up to
      1 + 5k: consecutive, without overlap or gap, and row 0 is never among
      them. */
  lemma {:induction false} PagesAreConsecutive(rows: seq<Trip>, k: nat)
    ensures Concat(Pages(rows, k)) == rows[Clamp(1, |rows|)..Clamp(1 + PageSize * k, |rows|)]
  {
    if k > 0 {
      PagesAreConsecutive(rows, k - 1);
      assert Pages(rows, k)[..k - 1] == Pages(rows, k - 1);
      var n := |rows|;
      var a, b, c := Clamp(1, n), Clamp(1 + PageSize * (k - 1), n), Clamp(1 + PageSize * k, n);
      assert rows[a..b] + rows[b..c] == rows[a..c];
    }
  }

  /** Once the cursor has passed the end, every row but the first has been
      shown. */
  lemma AllRowsButFirstShown(rows: seq<Trip>, k: nat)
    requires |rows| <= 1 + PageSize * k
    ensures Concat(Pages(rows, k)) == if rows == [] then [] else rows[1..]
  {
    PagesAreConsecutive(rows, k);
  }

  /** How many answers in a row, from the first, are "yes" in any case. */
  function LeadingYes(answers: seq<string>): (k: nat)
    ensures k <= |answers|
    ensures forall j :: 0 <= j < k ==> Lower(answers[j]) == "yes"
    ensures k < |answers| ==> Lower(answers[k]) != "yes"
  {
    if answers == [] || Lower(answers[0]) != "yes" then 0
    else 1 + LeadingYes(answers[1..])
  }

  class RawRowPager {
    const rows: seq<Trip>
    var cursor: nat
    /** The number of windows shown so far. */
    ghost var shown: nat

    ghost predicate Valid()
      reads this
    {
      cursor == 1 + PageSize * shown
    }

    /** `i = 1` */
    constructor (rows: seq<Trip>)
      ensures Valid() && this.rows == rows && cursor == 1 && shown == 0
    {
      this.rows := rows;
      cursor := 1;
      shown := 0;
    }

    /** One turn of the loop: on "yes" (in any case) show `df[i:i+5]` and move
        the cursor on by five; on any other answer stop. */
    method Next(answer: string) returns (window: seq<Trip>, more: bool)
      requires Valid()
      modifies this
      ensures Valid()
      ensures more <==> Lower(answer) == "yes"
      ensures more ==> window == Window(rows, old(cursor)) && shown == old(shown) + 1
      ensures !more ==> window == [] && shown == old(shown)
    {
      more := Lower(answer) == "yes";
      if more {
        window := Window(rows, cursor);
        cursor := cursor + PageSize;
        shown := shown + 1;
      } else {
        window := [];
      }
    }
  }

  /** A whole `raw_data` session over the given answers: the k-th "yes"
      (from 0) shows the window at 1 + 5k, and the first other answer ends
      the session. */
  method Browse(rows: seq<Trip>, answers: seq<string>) returns (windows: seq<seq<Trip>>)
    ensures windows == Pages(rows, LeadingYes(answers))
    ensures Concat(windows) ==
      rows[Clamp(1, |rows|)..Clamp(1 + PageSize * LeadingYes(answers), |rows|)]
  {
    var pager := new RawRowPager(rows);
    windows := [];
    var j := 0;
    while j < |answers|
      invariant 0 <= j <= LeadingYes(answers)
      invariant pager.Valid() && pager.rows == rows && pager.shown == j
      invariant windows == Pages(rows, j)
    {
      var w, more := pager.Next(answers[j]);
      if !more {
        break;
      }
      windows := windows + [w];
      j := j + 1;
    }
    PagesAreConsecutive(rows, j);
  }
}
