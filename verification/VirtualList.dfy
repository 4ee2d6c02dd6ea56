// Which rows a scrolled list draws (web/src/state/sidebar-projection.ts): rows are placed by
// their measured heights, and two binary searches find the ones on screen. Lengths are
// exact numbers here.
module VirtualList {
  import opened Basics

  datatype Heights = Heights(header: real, task: real)

  // A list is its rows from the top: is each a group heading?
  type Rows = seq<bool>

  function Height(isHeader: bool, heights: Heights): real {
    var height := if isHeader then heights.header else heights.task;
    if height > 1.0 then height else 1.0
  }

  // Every row's top edge, and last the height of the whole list.
  ghost predicate Places(tops: seq<real>, rows: Rows, heights: Heights) {
    && |tops| == |rows| + 1
    && tops[0] == 0.0
    && (forall i :: 0 <= i < |rows| ==> tops[i + 1] == tops[i] + Height(rows[i], heights))
  }

  method RowTops(rows: Rows, heights: Heights) returns (tops: seq<real>)
    ensures Places(tops, rows, heights)
    ensures forall i :: 0 <= i < |rows| ==>
              var wanted := if rows[i] then heights.header else heights.task;
              tops[i + 1] - tops[i] == if wanted < 1.0 then 1.0 else wanted
  {
    var edges := new real[|rows| + 1](_ => 0.0);
    for i := 0 to |rows|
      invariant edges[0] == 0.0
      invariant forall k :: 0 <= k < i ==> edges[k + 1] == edges[k] + Height(rows[k], heights)
    {
      edges[i + 1] := edges[i] + Height(rows[i], heights);
    }
    tops := edges[..];
  }

  ghost predicate Rising(tops: seq<real>) {
    forall i, j :: 0 <= i < j < |tops| ==> tops[i] < tops[j]
  }

  // However small the heights given, each row lies a whole pixel below the one before.
  lemma {:induction false} RowsAreApart(tops: seq<real>, rows: Rows, heights: Heights, i: nat, j: nat)
    requires Places(tops, rows, heights) && i <= j <= |rows|
    ensures tops[j] - tops[i] >= (j - i) as real
  {
    if i < j {
      RowsAreApart(tops, rows, heights, i, j - 1);
      assert tops[j - 1 + 1] == tops[j - 1] + Height(rows[j - 1], heights);
    }
  }

  lemma {:induction false} TopsRise(tops: seq<real>, rows: Rows, heights: Heights)
    requires Places(tops, rows, heights)
    ensures Rising(tops)
  {
    forall i, j | 0 <= i < j < |tops|
      ensures tops[i] < tops[j]
    {
      RowsAreApart(tops, rows, heights, i, j);
    }
  }

  // --- The searches, against looking at every row ---

  // How many rows begin at or above the offset, and strictly above it.
  function BeginsBy(tops: seq<real>, offset: real): nat {
    if tops == [] then 0
    else BeginsBy(tops[..|tops| - 1], offset) + if tops[|tops| - 1] <= offset then 1 else 0
  }

  function BeginsBefore(tops: seq<real>, offset: real): nat {
    if tops == [] then 0
    else BeginsBefore(tops[..|tops| - 1], offset) + if tops[|tops| - 1] < offset then 1 else 0
  }

  lemma {:induction false} SplitsBy(tops: seq<real>, offset: real, at: nat)
    requires at <= |tops|
    requires forall i :: 0 <= i < at ==> tops[i] <= offset
    requires forall i :: at <= i < |tops| ==> offset < tops[i]
    ensures BeginsBy(tops, offset) == at
  {
    if tops != [] {
      SplitsBy(tops[..|tops| - 1], offset, if at == |tops| then at - 1 else at);
    }
  }

  lemma {:induction false} SplitsBefore(tops: seq<real>, offset: real, at: nat)
    requires at <= |tops|
    requires forall i :: 0 <= i < at ==> tops[i] < offset
    requires forall i :: at <= i < |tops| ==> offset <= tops[i]
    ensures BeginsBefore(tops, offset) == at
  {
    if tops != [] {
      SplitsBefore(tops[..|tops| - 1], offset, if at == |tops| then at - 1 else at);
    }
  }

  method TopsAbove(tops: seq<real>, offset: real) returns (low: nat)
    requires Rising(tops)
    ensures low == BeginsBy(tops, offset) <= |tops|
    ensures forall i :: 0 <= i < |tops| ==> (i < low <==> tops[i] <= offset)
  {
    low := 0;
    var high := |tops|;
    while low < high
      invariant 0 <= low <= high <= |tops|
      invariant forall i :: 0 <= i < low ==> tops[i] <= offset
      invariant forall i :: high <= i < |tops| ==> offset < tops[i]
    {
      var mid := (low + high) / 2;
      if tops[mid] <= offset {
        low := mid + 1;
      } else {
        high := mid;
      }
    }
    SplitsBy(tops, offset, low);
  }

  method TopsAtOrAbove(tops: seq<real>, offset: real) returns (low: nat)
    requires Rising(tops)
    ensures low == BeginsBefore(tops, offset) <= |tops|
    ensures forall i :: 0 <= i < |tops| ==> (i < low <==> tops[i] < offset)
  {
    low := 0;
    var high := |tops|;
    while low < high
      invariant 0 <= low <= high <= |tops|
      invariant forall i :: 0 <= i < low ==> tops[i] < offset
      invariant forall i :: high <= i < |tops| ==> offset <= tops[i]
    {
      var mid := (low + high) / 2;
      if tops[mid] < offset {
        low := mid + 1;
      } else {
        high := mid;
      }
    }
    SplitsBefore(tops, offset, low);
  }

  // --- The range drawn ---

  function Range(tops: seq<real>, viewport: real, offset: real, overscan: nat): (int, int) {
    var count := Max(|tops| - 1, 0);
    if count == 0 then (0, 0)
    else
      var first := Min(Max(BeginsBy(tops, offset) - 1, 0), count - 1);
      var last := BeginsBefore(tops, offset + viewport);
      var start := Max(first - overscan, 0);
      (start, Max(Min(last + overscan, count), start))
  }

  method VisibleRange(tops: seq<real>, viewport: real, offset: real, overscan: nat) returns (start: int, end: int)
    requires Rising(tops)
    ensures (start, end) == Range(tops, viewport, offset, overscan)
    ensures 0 <= start <= end <= Max(|tops| - 1, 0)
  {
    var count := Max(|tops| - 1, 0);
    if count == 0 {
      return 0, 0;
    }
    var above: int := TopsAbove(tops, offset);
    var first := Min(Max(above - 1, 0), count - 1);
    var last := TopsAtOrAbove(tops, offset + viewport);
    start := Max(first - overscan, 0);
    end := Min(last + overscan, count);
    end := Max(end, start);
  }

  // Some of row `i` is on screen.
  predicate Shows(tops: seq<real>, i: nat, viewport: real, offset: real)
    requires i < |tops| - 1
  {
    tops[i] < offset + viewport && offset < tops[i + 1]
  }

  ghost predicate Exact(tops: seq<real>, range: (int, int), viewport: real, offset: real) {
    forall i :: 0 <= i < |tops| - 1 ==> (range.0 <= i < range.1 <==> Shows(tops, i, viewport, offset))
  }

  // Where the two searches land, in terms of the rows.
  lemma {:induction false} Searches(tops: seq<real>, offset: real)
    requires Rising(tops)
    ensures BeginsBy(tops, offset) <= |tops| && BeginsBefore(tops, offset) <= |tops|
    ensures forall i :: 0 <= i < |tops| ==> (i < BeginsBy(tops, offset) <==> tops[i] <= offset)
    ensures forall i :: 0 <= i < |tops| ==> (i < BeginsBefore(tops, offset) <==> tops[i] < offset)
    decreases |tops|
  {
    if tops != [] {
      var rest, last := tops[..|tops| - 1], tops[|tops| - 1];
      Searches(rest, offset);
      var upTo, before := BeginsBy(rest, offset), BeginsBefore(rest, offset);
      assert upTo < |rest| ==> rest[upTo] < last;
      assert before < |rest| ==> rest[before] < last;
    }
  }

  // With no overscan the range is exactly the rows on screen, unless the list is scrolled
  // past its end with room for its last row: then that row is drawn all the same.
  lemma {:induction false} RangeIsExactIff(tops: seq<real>, viewport: real, offset: real)
    requires Rising(tops) && |tops| > 1
    ensures Exact(tops, Range(tops, viewport, offset, 0), viewport, offset)
       <==> offset < tops[|tops| - 1] || offset + viewport <= tops[|tops| - 2]
  {
    Searches(tops, offset);
    Searches(tops, offset + viewport);
    hide BeginsBy, BeginsBefore;
    var count := |tops| - 1;
    var range := Range(tops, viewport, offset, 0);
    assert forall i :: 0 <= i <= count ==> tops[i] <= tops[count];
    if tops[count] <= offset && tops[count - 1] < offset + viewport {
      assert range.0 == count - 1 && range.1 == count;
      assert !Shows(tops, count - 1, viewport, offset);
    } else {
      forall i | 0 <= i < count
        ensures range.0 <= i < range.1 <==> Shows(tops, i, viewport, offset)
      {
      }
    }
  }

  // More overscan only adds rows, and no more than it says on either side.
  lemma {:induction false} OverscanWidens(tops: seq<real>, viewport: real, offset: real, overscan: nat)
    requires Rising(tops) && viewport >= 0.0
    ensures var exact, wide := Range(tops, viewport, offset, 0), Range(tops, viewport, offset, overscan);
            && 0 <= wide.0 <= wide.1 <= Max(|tops| - 1, 0)
            && exact.0 - overscan <= wide.0 <= exact.0
            && exact.1 <= wide.1 <= exact.1 + overscan
  {
    Searches(tops, offset);
    Searches(tops, offset + viewport);
    hide BeginsBy, BeginsBefore;
    var above, last := BeginsBy(tops, offset), BeginsBefore(tops, offset + viewport);
    assert above >= 2 ==> tops[above - 2] < tops[above - 1] <= offset + viewport;
    assert last + 1 >= above;
  }
}
