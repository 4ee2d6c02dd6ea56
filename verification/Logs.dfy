// Logs by the ids of their rows, and the stretches of them that cursors mark out.
module Logs {
  import opened Lists

  type Ids = seq<int>

  ghost predicate Increasing(ids: Ids) {
    forall i, j :: 0 <= i < j < |ids| ==> ids[i] < ids[j]
  }

  // The id of the last row, 0 for none.
  function Head(log: Ids): int {
    if log == [] then 0 else log[|log| - 1]
  }

  // The ids after `from` and up to `to`.
  function Between(log: Ids, from: int, to: int): Ids {
    if log == [] then []
    else
      var last := log[|log| - 1];
      Between(log[..|log| - 1], from, to) + if from < last <= to then [last] else []
  }

  // What is left of a stretch when these ids are gone.
  function Outside(gone: set<int>): int -> bool {
    id => id !in gone
  }

  function Without(ids: Ids, gone: set<int>): Ids {
    Filter(ids, Outside(gone))
  }

  lemma {:induction false} BetweenHas(log: Ids, from: int, to: int)
    requires Increasing(log)
    ensures forall id :: id in Between(log, from, to) <==> id in log && from < id <= to
    ensures Increasing(Between(log, from, to))
  {
    if log != [] {
      var init, last := log[..|log| - 1], log[|log| - 1];
      BetweenHas(init, from, to);
      assert log == init + [last];
      var before := Between(init, from, to);
      assert forall i :: 0 <= i < |before| ==> before[i] in before;
    }
  }

  lemma {:induction false} WithoutHas(ids: Ids, gone: set<int>)
    requires Increasing(ids)
    ensures forall id :: id in Without(ids, gone) <==> id in ids && id !in gone
    ensures Increasing(Without(ids, gone))
  {
    if ids != [] {
      var init, last := ids[..|ids| - 1], ids[|ids| - 1];
      WithoutHas(init, gone);
      assert ids == init + [last];
      var before := Without(init, gone);
      assert forall i :: 0 <= i < |before| ==> before[i] in before;
    }
  }

  lemma {:induction false} HasAnElement(ids: Ids)
    ensures ids != [] ==> ids[0] in ids
  {
  }

  // An increasing list is determined by its elements.
  lemma {:induction false} SameElements(a: Ids, b: Ids)
    requires Increasing(a) && Increasing(b) && forall id :: id in a <==> id in b
    ensures a == b
  {
    HasAnElement(a);
    HasAnElement(b);
    if a != [] && b != [] {
      assert a[0] in b && b[0] in a;
      assert a[0] == b[0];
      var c, d := a[1..], b[1..];
      forall id
        ensures id in c <==> id in d
      {
        assert id in c <==> id in a && id != a[0];
        assert id in d <==> id in b && id != b[0];
      }
      SameElements(c, d);
    }
  }

  lemma {:induction false} IncreasingAdds(ids: Ids, id: int)
    ensures Increasing(ids + [id]) <==> Increasing(ids) && forall other :: other in ids ==> other < id
  {
    var all := ids + [id];
    assert forall i :: 0 <= i < |ids| ==> all[i] == ids[i];
    assert all[|ids|] == id;
    assert forall i :: 0 <= i < |ids| ==> ids[i] in ids;
    if Increasing(all) {
      forall other | other in ids
        ensures other < id
      {
        var i :| 0 <= i < |ids| && ids[i] == other;
        assert all[i] < all[|ids|];
      }
    }
  }

  lemma {:induction false} BetweenGrows(log: Ids, id: int, from: int, to: int)
    requires to < id
    ensures Between(log + [id], from, to) == Between(log, from, to)
  {
    assert (log + [id])[..|log|] == log;
  }

  lemma {:induction false} StretchesJoin(log: Ids, from: int, middle: int, to: int)
    requires Increasing(log) && from <= middle <= to
    ensures Between(log, from, middle) + Between(log, middle, to) == Between(log, from, to)
  {
    BetweenHas(log, from, middle);
    BetweenHas(log, middle, to);
    BetweenHas(log, from, to);
    var first, second := Between(log, from, middle), Between(log, middle, to);
    assert forall i :: 0 <= i < |first| ==> first[i] in first;
    assert forall i :: 0 <= i < |second| ==> second[i] in second;
    hide Between;
    SameElements(first + second, Between(log, from, to));
  }
}
