// Filtering lists, and what the pieces add up to.
module Lists {
  function Filter<T(!new)>(s: seq<T>, keep: T -> bool): (r: seq<T>)
    ensures forall x :: x in r <==> x in s && keep(x)
    ensures |r| <= |s|
  {
    if s == [] then []
    else
      assert s == s[..|s| - 1] + [s[|s| - 1]];
      Filter(s[..|s| - 1], keep) + if keep(s[|s| - 1]) then [s[|s| - 1]] else []
  }

  ghost predicate Distinct<T>(s: seq<T>) {
    forall i, j :: 0 <= i < j < |s| ==> s[i] != s[j]
  }

  lemma {:induction false} FilterAgrees<T(!new)>(s: seq<T>, f: T -> bool, g: T -> bool)
    requires forall x :: x in s ==> f(x) == g(x)
    ensures Filter(s, f) == Filter(s, g)
  {
    if s != [] {
      FilterAgrees(s[..|s| - 1], f, g);
    }
  }

  lemma {:induction false} FilterAll<T(!new)>(s: seq<T>, keep: T -> bool)
    requires forall x :: x in s ==> keep(x)
    ensures Filter(s, keep) == s
  {
    if s != [] {
      FilterAll(s[..|s| - 1], keep);
      assert s == s[..|s| - 1] + [s[|s| - 1]];
    }
  }

  lemma {:induction false} FilterAdds<T(!new)>(s: seq<T>, x: T, keep: T -> bool)
    ensures Filter(s + [x], keep) == Filter(s, keep) + if keep(x) then [x] else []
  {
    assert (s + [x])[..|s|] == s;
  }

  lemma {:induction false} FilterJoins<T(!new)>(s: seq<T>, t: seq<T>, keep: T -> bool)
    ensures Filter(s + t, keep) == Filter(s, keep) + Filter(t, keep)
  {
    if t == [] {
      assert s + t == s;
    } else {
      assert (s + t)[..|s + t| - 1] == s + t[..|t| - 1];
      FilterJoins(s, t[..|t| - 1], keep);
    }
  }

  function Is<T(==)>(x: T): T -> bool {
    y => y == x
  }

  lemma {:induction false} FilterOne<T(!new)>(s: seq<T>, x: T)
    requires Distinct(s) && x in s
    ensures Filter(s, Is(x)) == [x]
  {
    var rest, last := s[..|s| - 1], s[|s| - 1];
    assert s == rest + [last];
    if last == x {
      assert Filter(rest, Is(x)) == [] by {
        assert forall y :: y in Filter(rest, Is(x)) ==> y in rest && y == x;
        NoMembers(Filter(rest, Is(x)));
      }
    } else {
      FilterOne(rest, x);
    }
  }

  lemma {:induction false} NoMembers<T(!new)>(s: seq<T>)
    requires forall x :: x !in s
    ensures s == []
  {
    HasAMember(s);
  }

  lemma {:induction false} HasAMember<T>(s: seq<T>)
    ensures s == [] || exists x :: x in s
  {
    if s != [] {
      assert s[0] in s;
    }
  }

  // Two conditions that never both hold split what either keeps.
  lemma {:induction false} FilterSplits<T(!new)>(s: seq<T>, f: T -> bool, g: T -> bool, either: T -> bool)
    requires forall x :: x in s ==> !(f(x) && g(x)) && either(x) == (f(x) || g(x))
    ensures multiset(Filter(s, either)) == multiset(Filter(s, f)) + multiset(Filter(s, g))
  {
    if s != [] {
      FilterSplits(s[..|s| - 1], f, g, either);
    }
  }

  function Concat<T>(parts: seq<seq<T>>): seq<T> {
    if parts == [] then [] else Concat(parts[..|parts| - 1]) + parts[|parts| - 1]
  }
}
